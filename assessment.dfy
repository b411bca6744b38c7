/** The test utilities and test handlers of api/index.js: `simpleHash`,
    `normalizeAnswer`, the grading of `handleTestSubmit`, and the cached
    generation of `handleTestGenerate`. The language model that writes the
    questions is an input: the parsed question array, or nothing when the
    call, the JSON parsing or the array check fails. */
module Assessment {
  import opened Wrappers
  import opened JsText
  import opened Store
  import opened JsMath

  // ---------------------------------------------------------------------------
  // simpleHash

  /** ECMAScript ToInt32: the integer congruent to `x` modulo 2^32 in
      the signed 32-bit range. Every bitwise operator applies it to its
      operands and its result. */
  function ToInt32(x: int): (r: int)
    ensures -0x8000_0000 <= r < 0x8000_0000
    ensures (x - r) % 0x1_0000_0000 == 0
  {
    var m := x % 0x1_0000_0000;
    if m < 0x8000_0000 then m else m - 0x1_0000_0000
  }

  /** ToInt32 only depends on the value modulo 2^32. */
  lemma ToInt32Congruent(x: int, y: int)
    requires (x - y) % 0x1_0000_0000 == 0
    ensures ToInt32(x) == ToInt32(y)
  {
    var k := (x - y) / 0x1_0000_0000;
    assert x == y + k * 0x1_0000_0000;
    assert x % 0x1_0000_0000 == y % 0x1_0000_0000;
  }

  /** One round of the loop: `hash << 5` (ToInt32 of `hash * 32`), plus
      `hash` and the character code, then `hash & hash`, which is ToInt32
      of that sum. */
  function HashStep(h: int, c: char): int {
    ToInt32(ToInt32(h * 32) + h + c as int)
  }

  /** The value of `hash` after reading all of `s`. */
  function Djb2(s: string): int
    decreases |s|
  {
    if s == [] then 5381 else HashStep(Djb2(s[..|s| - 1]), s[|s| - 1])
  }

  /** The same recurrence in exact integer arithmetic: 5381 * 33^n plus
      the weighted character codes. */
  function PolyHash(s: string): int
    decreases |s|
  {
    if s == [] then 5381 else 33 * PolyHash(s[..|s| - 1]) + s[|s| - 1] as int
  }

  function Abs(n: int): nat {
    if n < 0 then -n else n
  }

  /** `simpleHash(s)`: the decimal numeral of `Math.abs(hash)`. */
  function HashString(s: string): string {
    DecimalString(Abs(Djb2(s)))
  }

  lemma {:induction false} StepCongruent(h: int, p: int, c: int)
    requires (p - h) % 0x1_0000_0000 == 0
    ensures ((ToInt32(h * 32) + h + c) - (33 * p + c)) % 0x1_0000_0000 == 0
  {
    var k := (p - h) / 0x1_0000_0000;
    assert p == h + k * 0x1_0000_0000;
    var j := (h * 32 - ToInt32(h * 32)) / 0x1_0000_0000;
    assert h * 32 == ToInt32(h * 32) + j * 0x1_0000_0000;
    assert (ToInt32(h * 32) + h + c) - (33 * p + c) == (-33 * k - j) * 0x1_0000_0000;
  }

  /** Truncating after every round gives the exact polynomial hash reduced
      to 32 bits: collisions of `simpleHash` are those of the polynomial
      modulo 2^32 (up to sign). */
  lemma {:induction false} Djb2Wraps(s: string)
    ensures Djb2(s) == ToInt32(PolyHash(s))
    decreases |s|
  {
    if s == [] {
      ToInt32Congruent(5381, 5381);
    } else {
      var init := s[..|s| - 1];
      Djb2Wraps(init);
      WrapStep(Djb2(init), PolyHash(init), s[|s| - 1]);
    }
  }

  /** One round keeps the running hash equal to the exact one modulo 2^32. */
  lemma WrapStep(h: int, p: int, c: char)
    requires h == ToInt32(p)
    ensures HashStep(h, c) == ToInt32(33 * p + c as int)
  {
    assert (p - h) % 0x1_0000_0000 == 0;
    StepCongruent(h, p, c as int);
    ToInt32Congruent(ToInt32(h * 32) + h + c as int, 33 * p + c as int);
  }

  /** `simpleHash` yields between one and ten decimal digits. */
  lemma HashStringShape(s: string)
    ensures var r := HashString(s); 1 <= |r| <= 10 && AllDigits(r)
  {
    assert Pow10(10) == 10000000000;
    DecimalStringLength(Abs(Djb2(s)), 10, Pow10(10));
  }

  /** `simpleHash(str)`, computed by its loop. */
  method SimpleHash(str: string) returns (r: string)
    ensures r == HashString(str)
  {
    var hash := 5381;
    var i := 0;
    while i < |str|
      invariant 0 <= i <= |str|
      invariant hash == Djb2(str[..i])
    {
      assert str[..i + 1][..i] == str[..i];
      hash := ToInt32(ToInt32(hash * 32) + hash + str[i] as int);
      i := i + 1;
    }
    assert str[..i] == str;
    r := DecimalString(Abs(hash));
  }

  // ---------------------------------------------------------------------------
  // normalizeAnswer

  /** The characters `[^a-z0-9\s]` does not remove. */
  predicate Kept(c: char) {
    'a' <= c <= 'z' || IsDigit(c) || IsSpace(c)
  }

  /** `.replace(/[^a-z0-9\s]/g, '')` */
  function KeepAlnum(s: string): (r: string)
    ensures forall i :: 0 <= i < |r| ==> Kept(r[i])
    ensures |r| <= |s|
  {
    if s == [] then []
    else (if Kept(s[0]) then [s[0]] else []) + KeepAlnum(s[1..])
  }

  /** `.replace(/\s+/g, ' ')`: every maximal run of `\s` becomes one space. */
  function CollapseSpaces(s: string): (r: string)
    ensures forall i :: 0 <= i < |r| ==> r[i] == ' ' || !IsSpace(r[i])
    decreases |s|
  {
    if s == [] then []
    else if IsSpace(s[0]) then [' '] + CollapseSpaces(TrimStart(s))
    else [s[0]] + CollapseSpaces(s[1..])
  }

  /** `normalizeAnswer(str)` */
  function NormalizeAnswer(str: string): string {
    CollapseSpaces(KeepAlnum(ToLower(Trim(str))))
  }

  /** Characters are removed one by one: the kept characters of a
      concatenation are those of its parts. */
  lemma {:induction false} KeepAlnumAppend(a: string, b: string)
    ensures KeepAlnum(a + b) == KeepAlnum(a) + KeepAlnum(b)
    decreases |a|
  {
    if a == [] {
      assert a + b == b;
    } else {
      assert (a + b)[1..] == a[1..] + b;
      KeepAlnumAppend(a[1..], b);
    }
  }

  /** A non-empty run of `\s` becomes a single space. */
  lemma CollapseRun(s: string)
    requires s != [] && forall i :: 0 <= i < |s| ==> IsSpace(s[i])
    ensures CollapseSpaces(s) == " "
  {
  }

  /** Collapsing works on the parts separately when the cut does not fall
      inside a run of `\s`. With `CollapseRun` and the one-character case
      this determines the function: each maximal run becomes one space and
      every other character is kept in place. */
  lemma {:induction false} CollapseAppend(a: string, b: string)
    requires a == [] || b == [] || !IsSpace(a[|a| - 1]) || !IsSpace(b[0])
    ensures CollapseSpaces(a + b) == CollapseSpaces(a) + CollapseSpaces(b)
    decreases |a|
  {
    if a == [] || b == [] {
      CollapseAppendEmpty(a, b);
    } else if !IsSpace(a[0]) {
      CollapseAppend(a[1..], b);
      CollapseKeepStep(a, b);
    } else if TrimStart(a) == [] {
      TrimStartAppend(a, b);
      CollapseAfterRun(a, b);
    } else {
      TrimStartKeepsLast(a, b);
      CollapseAppend(TrimStart(a), b);
      CollapseRunStep(a, b);
    }
  }

  lemma CollapseAppendEmpty(a: string, b: string)
    requires a == [] || b == []
    ensures CollapseSpaces(a + b) == CollapseSpaces(a) + CollapseSpaces(b)
  {
    if a == [] {
      assert a + b == b;
    } else {
      assert a + b == a;
    }
  }

  /** A run that does not fill `a` leaves its last character, and trimming
      `a + b` stops inside `a`. */
  lemma TrimStartKeepsLast(a: string, b: string)
    requires a != [] && b != [] && TrimStart(a) != []
    requires !IsSpace(a[|a| - 1]) || !IsSpace(b[0])
    ensures TrimStart(a + b) == TrimStart(a) + b
    ensures var t := TrimStart(a); !IsSpace(t[|t| - 1]) || !IsSpace(b[0])
  {
    TrimStartAppend(a, b);
    var t := TrimStart(a);
    assert t[|t| - 1] == a[|a| - 1];
  }

  /** One step of `replace(/\s+/g, ' ')` at a `\s` character. */
  lemma CollapseSpaceHead(s: string)
    requires s != [] && IsSpace(s[0])
    ensures CollapseSpaces(s) == [' '] + CollapseSpaces(TrimStart(s))
  {
  }

  /** One step of `replace(/\s+/g, ' ')` at any other character. */
  lemma CollapseCharHead(s: string)
    requires s != [] && !IsSpace(s[0])
    ensures CollapseSpaces(s) == [s[0]] + CollapseSpaces(s[1..])
  {
  }

  /** The step of `CollapseAppend` for a first piece starting outside
      `\s`. */
  lemma CollapseKeepStep(a: string, b: string)
    requires a != [] && !IsSpace(a[0])
    requires CollapseSpaces(a[1..] + b) == CollapseSpaces(a[1..]) + CollapseSpaces(b)
    ensures CollapseSpaces(a + b) == CollapseSpaces(a) + CollapseSpaces(b)
  {
    CollapseCharAppend(a, b);
    CollapseCharHead(a);
    ConsAssoc(a[0], CollapseSpaces(a[1..]), CollapseSpaces(b));
  }

  lemma CollapseCharAppend(a: string, b: string)
    requires a != [] && !IsSpace(a[0])
    ensures CollapseSpaces(a + b) == [a[0]] + CollapseSpaces(a[1..] + b)
  {
    var s := a + b;
    assert s[0] == a[0] && s[1..] == a[1..] + b;
    CollapseCharHead(s);
  }

  lemma ConsAssoc(x: char, c: string, u: string)
    ensures [x] + (c + u) == ([x] + c) + u
  {
  }

  /** The step of `CollapseAppend` for a first piece starting with a run
      that does not fill it. */
  lemma CollapseRunStep(a: string, b: string)
    requires a != [] && IsSpace(a[0])
    requires TrimStart(a + b) == TrimStart(a) + b
    requires CollapseSpaces(TrimStart(a) + b) == CollapseSpaces(TrimStart(a)) + CollapseSpaces(b)
    ensures CollapseSpaces(a + b) == CollapseSpaces(a) + CollapseSpaces(b)
  {
    CollapseSpaceAppend(a, b);
    CollapseSpaceHead(a);
    ConsAssoc(' ', CollapseSpaces(TrimStart(a)), CollapseSpaces(b));
  }

  lemma CollapseSpaceAppend(a: string, b: string)
    requires a != [] && IsSpace(a[0])
    ensures CollapseSpaces(a + b) == [' '] + CollapseSpaces(TrimStart(a + b))
  {
    var s := a + b;
    assert s[0] == a[0];
    CollapseSpaceHead(s);
  }

  /** The step of `CollapseAppend` for a first piece that is one run. */
  lemma CollapseAfterRun(a: string, b: string)
    requires a != [] && b != [] && IsSpace(a[0]) && TrimStart(a) == []
    requires !IsSpace(a[|a| - 1]) || !IsSpace(b[0])
    requires TrimStart(a + b) == TrimStart(b)
    ensures CollapseSpaces(a + b) == CollapseSpaces(a) + CollapseSpaces(b)
  {
    var s := a + b;
    assert IsSpace(a[|a| - 1]);
    assert TrimStart(b) == b;
    assert s[0] == a[0];
    CollapseSpaceHead(a);
    CollapseSpaceHead(s);
    assert CollapseSpaces(a) == [' '];
  }

  /** The characters of `s` outside `\s`, in order. */
  function NonSpaceChars(s: string): string {
    if s == [] then [] else (if IsSpace(s[0]) then [] else [s[0]]) + NonSpaceChars(s[1..])
  }

  /** The number of maximal runs of `\s`: positions holding `\s` whose
      predecessor, if any, does not. */
  function RunCount(s: string): nat {
    if s == [] then 0 else (if IsSpace(s[0]) then 1 else 0) + RunStartsAfterFirst(s)
  }

  /** The positions `j >= 1` with `s[j]` in `\s` and `s[j - 1]` not. */
  function RunStartsAfterFirst(s: string): nat
    decreases |s|
  {
    if |s| < 2 then 0
    else (if IsSpace(s[1]) && !IsSpace(s[0]) then 1 else 0) + RunStartsAfterFirst(s[1..])
  }

  /** The number of plain spaces. */
  function SpaceCount(r: string): nat {
    if r == [] then 0 else (if r[0] == ' ' then 1 else 0) + SpaceCount(r[1..])
  }

  /** `NonSpaceChars` keeps exactly the characters outside `\s`. */
  lemma {:induction false} InNonSpaceChars(s: string, c: char)
    ensures c in NonSpaceChars(s) <==> c in s && !IsSpace(c)
    decreases |s|
  {
    if s != [] {
      InNonSpaceChars(s[1..], c);
      assert s == [s[0]] + s[1..];
    }
  }

  lemma {:induction false} NonSpaceTrimStart(s: string)
    ensures NonSpaceChars(TrimStart(s)) == NonSpaceChars(s)
    decreases |s|
  {
    if s != [] && IsSpace(s[0]) {
      NonSpaceTrimStart(s[1..]);
    }
  }

  /** Collapsing keeps every character outside `\s`, in order. */
  lemma {:induction false} CollapseKeepsContent(s: string)
    ensures NonSpaceChars(CollapseSpaces(s)) == NonSpaceChars(s)
    decreases |s|
  {
    if s != [] {
      if IsSpace(s[0]) {
        var t := TrimStart(s);
        assert t == TrimStart(s[1..]);
        CollapseKeepsContent(t);
        NonSpaceTrimStart(s);
        assert ([' '] + CollapseSpaces(t))[1..] == CollapseSpaces(t);
      } else {
        CollapseKeepsContent(s[1..]);
        assert ([s[0]] + CollapseSpaces(s[1..]))[1..] == CollapseSpaces(s[1..]);
      }
    }
  }

  /** Behind a leading run, the later runs are those of the rest. */
  lemma {:induction false} RunStartsPastRun(s: string)
    requires s != [] && IsSpace(s[0])
    ensures RunStartsAfterFirst(s) == RunCount(TrimStart(s))
    decreases |s|
  {
    if |s| >= 2 && IsSpace(s[1]) {
      RunStartsPastRun(s[1..]);
    }
  }

  /** Collapsing leaves exactly one space per maximal run of `\s`. */
  lemma {:induction false} CollapseSpaceCount(s: string)
    ensures SpaceCount(CollapseSpaces(s)) == RunCount(s)
    decreases |s|
  {
    if s != [] {
      if IsSpace(s[0]) {
        var t := TrimStart(s);
        assert t == TrimStart(s[1..]);
        CollapseSpaceCount(t);
        RunStartsPastRun(s);
        assert ([' '] + CollapseSpaces(t))[1..] == CollapseSpaces(t);
      } else {
        CollapseSpaceCount(s[1..]);
        assert ([s[0]] + CollapseSpaces(s[1..]))[1..] == CollapseSpaces(s[1..]);
      }
    }
  }

  /** A normalized answer consists of lower-case letters, digits and plain
      spaces. */
  lemma NormalizedAlphabet(str: string)
    ensures var r := NormalizeAnswer(str);
      forall i :: 0 <= i < |r| ==> 'a' <= r[i] <= 'z' || IsDigit(r[i]) || r[i] == ' '
  {
    var k := KeepAlnum(ToLower(Trim(str)));
    var r := CollapseSpaces(k);
    CollapseKeepsContent(k);
    forall i | 0 <= i < |r| ensures 'a' <= r[i] <= 'z' || IsDigit(r[i]) || r[i] == ' ' {
      if r[i] != ' ' {
        InNonSpaceChars(r, r[i]);
        InNonSpaceChars(k, r[i]);
        var j :| 0 <= j < |k| && k[j] == r[i];
      }
    }
  }

  /** No two spaces are adjacent. */
  predicate NoDoubleSpace(r: string) {
    forall i :: 0 <= i < |r| - 1 ==> !(r[i] == ' ' && r[i + 1] == ' ')
  }

  /** Prefixing a character keeps adjacent spaces apart when the character
      is not a space or the text does not start with one. */
  lemma ConsNoDoubleSpace(c: char, rest: string)
    requires NoDoubleSpace(rest)
    requires c != ' ' || rest == [] || rest[0] != ' '
    ensures NoDoubleSpace([c] + rest)
  {
    var r := [c] + rest;
    forall i | 0 <= i < |r| - 1 ensures !(r[i] == ' ' && r[i + 1] == ' ') {
      if i > 0 {
        assert r[i] == rest[i - 1] && r[i + 1] == rest[i];
        assert !(rest[i - 1] == ' ' && rest[i] == ' ');
      }
    }
  }

  /** After collapsing, no two spaces are adjacent. */
  lemma {:induction false} CollapseNoDoubleSpace(s: string)
    ensures NoDoubleSpace(CollapseSpaces(s))
    decreases |s|
  {
    if s != [] {
      if IsSpace(s[0]) {
        var t := TrimStart(s);
        CollapseNoDoubleSpace(t);
        var rest := CollapseSpaces(t);
        if t != [] {
          assert !IsSpace(t[0]);
          assert rest == [t[0]] + CollapseSpaces(t[1..]);
        }
        ConsNoDoubleSpace(' ', rest);
      } else {
        CollapseNoDoubleSpace(s[1..]);
        ConsNoDoubleSpace(s[0], CollapseSpaces(s[1..]));
      }
    }
  }

  lemma NormalizedNoDoubleSpace(str: string)
    ensures NoDoubleSpace(NormalizeAnswer(str))
  {
    CollapseNoDoubleSpace(KeepAlnum(ToLower(Trim(str))));
  }

  /** Lower-case letters, digits and single plain spaces: what
      normalizing leaves. */
  predicate NormalForm(u: string) {
    && (forall i :: 0 <= i < |u| ==> 'a' <= u[i] <= 'z' || IsDigit(u[i]) || u[i] == ' ')
    && NoDoubleSpace(u)
  }

  lemma NormalFormSlice(u: string, i: nat, j: nat)
    requires NormalForm(u) && i <= j <= |u|
    ensures NormalForm(u[i..j])
  {
    var v := u[i..j];
    forall k | 0 <= k < |v| - 1 ensures !(v[k] == ' ' && v[k + 1] == ' ') {
      assert v[k] == u[i + k] && v[k + 1] == u[i + k + 1];
    }
  }

  lemma {:induction false} CollapseNormal(u: string)
    requires NormalForm(u)
    ensures CollapseSpaces(u) == u
    decreases |u|
  {
    if u != [] {
      NormalFormHead(u);
      NormalFormSlice(u, 1, |u|);
      CollapseNormal(u[1..]);
      CollapseStep(u);
      assert u == [u[0]] + u[1..];
    }
  }

  /** A normal form starts with a plain space or a character outside
      `\s`, and a space is not followed by another `\s`. */
  lemma NormalFormHead(u: string)
    requires NormalForm(u) && u != []
    ensures u[0] == ' ' || !IsSpace(u[0])
    ensures u[0] == ' ' && |u| > 1 ==> !IsSpace(u[1])
  {
    assert 'a' <= u[0] <= 'z' || IsDigit(u[0]) || u[0] == ' ';
    if |u| > 1 {
      assert 'a' <= u[1] <= 'z' || IsDigit(u[1]) || u[1] == ' ';
      assert !(u[0] == ' ' && u[1] == ' ');
    }
  }

  /** A single space, or any character outside `\s`, is kept as it is. */
  lemma CollapseStep(u: string)
    requires u != [] && (u[0] == ' ' || !IsSpace(u[0]))
    requires u[0] == ' ' && |u| > 1 ==> !IsSpace(u[1])
    ensures CollapseSpaces(u) == [u[0]] + CollapseSpaces(u[1..])
  {
    if IsSpace(u[0]) {
      TrimStartOne(u);
      CollapseSpaceHead(u);
    } else {
      CollapseCharHead(u);
    }
  }

  /** A lone leading `\s` character is all that `trimStart` removes. */
  lemma TrimStartOne(u: string)
    requires u != [] && IsSpace(u[0])
    requires |u| > 1 ==> !IsSpace(u[1])
    ensures TrimStart(u) == u[1..]
  {
    assert TrimStart(u) == TrimStart(u[1..]);
  }

  lemma {:induction false} KeepNormal(u: string)
    requires NormalForm(u)
    ensures KeepAlnum(u) == u
    decreases |u|
  {
    if u != [] {
      NormalFormSlice(u, 1, |u|);
      KeepNormal(u[1..]);
      assert u == [u[0]] + u[1..];
    }
  }

  /** Normalizing a second time only trims. A character removed next to a
      space at either end leaves that space behind, so `normalizeAnswer`
      is not idempotent (see `NormalizeLeavesSpace`). */
  lemma NormalizeTwice(str: string)
    ensures NormalizeAnswer(NormalizeAnswer(str)) == Trim(NormalizeAnswer(str))
  {
    var r := NormalizeAnswer(str);
    NormalizedAlphabet(str);
    NormalizedNoDoubleSpace(str);
    var u := TrimNormal(r);
    LowerNormal(u);
    KeepNormal(u);
    CollapseNormal(u);
  }

  lemma TrimNormal(r: string) returns (u: string)
    requires NormalForm(r)
    ensures u == Trim(r) && NormalForm(u)
  {
    var s1 := TrimStart(r);
    NormalFormSlice(r, |r| - |s1|, |r|);
    u := TrimEnd(s1);
    NormalFormSlice(s1, 0, |u|);
  }

  lemma LowerNormal(u: string)
    requires NormalForm(u)
    ensures ToLower(u) == u
  {
    forall i | 0 <= i < |u| ensures ToLower(u)[i] == u[i] {
      assert 'a' <= u[i] <= 'z' || IsDigit(u[i]) || u[i] == ' ';
    }
  }

  /** "a !" normalizes to "a ", which normalizes to "a". */
  lemma NormalizeLeavesSpace()
    ensures NormalizeAnswer("a !") == "a "
    ensures NormalizeAnswer("a ") == "a"
  {
    NormalizeBang("a !", "a ");
    NormalizeTrailing("a ", "a");
  }

  lemma NormalizeBang(s: string, u: string)
    requires s == "a !" && u == "a "
    ensures NormalizeAnswer(s) == u
  {
    assert s == u + "!";
    TrimOfTrimmed(s);
    assert NormalForm(u);
    assert ToLower(s) == s by {
      forall i | 0 <= i < |s| ensures ToLower(s)[i] == s[i] {
      }
    }
    KeepAlnumAppend(u, "!");
    KeepNormal(u);
    assert KeepAlnum("!") == [];
    CollapseNormal(u);
  }

  lemma NormalizeTrailing(s: string, u: string)
    requires s == "a " && u == "a"
    ensures NormalizeAnswer(s) == u
  {
    assert s == u + " ";
    assert Trim(s) == u by {
      assert TrimStart(s) == s;
      assert TrimEnd(s) == TrimEnd(u);
      TrimOfTrimmed(u);
    }
    assert NormalForm(u);
    LowerNormal(u);
    KeepNormal(u);
    CollapseNormal(u);
  }

  /** Answers that differ only in the case of ASCII letters normalize
      alike. */
  lemma NormalizeIgnoresCase(a: string, b: string)
    requires ToLower(a) == ToLower(b)
    ensures NormalizeAnswer(a) == NormalizeAnswer(b)
  {
    TrimToLower(a);
    TrimToLower(b);
    TrimToLower(ToLower(a));
    ToLowerIdempotent(Trim(a));
    ToLowerIdempotent(Trim(b));
    assert ToLower(Trim(a)) == ToLower(ToLower(Trim(a))) == ToLower(Trim(ToLower(a)));
  }

  // ---------------------------------------------------------------------------
  // Grading in handleTestSubmit

  /** An element of the submitted `answers` array. `answer` is absent when
      the element has no string answer. */
  datatype SubmittedAnswer = SubmittedAnswer(index: int, answer: Option<string>)

  /** `answers.find(a => a.index === i)?.answer || ''` */
  function AnswerFor(answers: seq<SubmittedAnswer>, i: int): string {
    if answers == [] then []
    else if answers[0].index == i then answers[0].answer.GetOr([])
    else AnswerFor(answers[1..], i)
  }

  /** Without an entry for the index the answer is the empty string. */
  lemma {:induction false} AnswerForMissing(answers: seq<SubmittedAnswer>, i: int)
    requires forall k :: 0 <= k < |answers| ==> answers[k].index != i
    ensures AnswerFor(answers, i) == []
  {
    if answers != [] {
      assert answers[0].index != i;
      assert forall k :: 0 <= k < |answers[1..]| ==> answers[1..][k] == answers[k + 1];
      AnswerForMissing(answers[1..], i);
    }
  }

  /** The answer used is that of the first entry with the index. */
  lemma {:induction false} AnswerForFirst(answers: seq<SubmittedAnswer>, i: int, k: nat)
    requires k < |answers| && answers[k].index == i
    requires forall j :: 0 <= j < k ==> answers[j].index != i
    ensures AnswerFor(answers, i) == answers[k].answer.GetOr([])
  {
    if k > 0 {
      assert answers[0].index != i;
      assert answers[1..][k - 1] == answers[k];
      forall j | 0 <= j < k - 1 ensures answers[1..][j].index != i {
        assert answers[1..][j] == answers[j + 1];
      }
      AnswerForFirst(answers[1..], i, k - 1);
    }
  }

  /** The short-answer rule: normalized answers equal or one containing the
      other, and never a normalized user answer shorter than 2. */
  predicate ShortAnswerCorrect(user: string, correct: string) {
    var nu := NormalizeAnswer(user);
    var nc := NormalizeAnswer(correct);
    |nu| >= 2 && (nu == nc || Includes(nc, nu) || Includes(nu, nc))
  }

  /** Every other question type: trimmed, lower-cased equality. */
  predicate ExactCorrect(user: string, correct: string) {
    ToLower(Trim(user)) == ToLower(Trim(correct))
  }

  const ShortAnswerType: string := "short_answer"

  predicate IsCorrect(q: GenQuestion, user: string) {
    if q.qtype == ShortAnswerType then ShortAnswerCorrect(user, q.correct_answer)
    else ExactCorrect(user, q.correct_answer)
  }

  /** The result record for question `i`. */
  function GradeOne(q: GenQuestion, i: nat, answers: seq<SubmittedAnswer>): (r: GradedAnswer)
    ensures r.index == i
  {
    var user := AnswerFor(answers, i);
    GradedAnswer(i, q.question, q.qtype, user, q.correct_answer, q.explanation, IsCorrect(q, user))
  }

  /** How one result is graded: a short answer is correct exactly
      when its normalized form has two or more characters and equals,
      contains or is contained in the normalized expected answer; any other
      type needs trimmed, lower-cased equality. The question's text, type,
      expected answer and explanation are copied. */
  lemma GradeOneRule(q: GenQuestion, i: nat, answers: seq<SubmittedAnswer>)
    ensures var r := GradeOne(q, i, answers);
      var nu, nc := NormalizeAnswer(r.user_answer), NormalizeAnswer(q.correct_answer);
      && r.user_answer == AnswerFor(answers, i)
      && r.question == q.question && r.qtype == q.qtype
      && r.correct_answer == q.correct_answer && r.explanation == q.explanation
      && (q.qtype == ShortAnswerType ==>
            (r.is_correct <==> |nu| >= 2 && (nu == nc || Includes(nc, nu) || Includes(nu, nc))))
      && (q.qtype != ShortAnswerType ==>
            (r.is_correct <==> ToLower(Trim(r.user_answer)) == ToLower(Trim(q.correct_answer))))
  {
  }

  /** The number of results marked correct. */
  function CorrectCount(results: seq<GradedAnswer>): (n: nat)
    ensures n <= |results|
    decreases |results|
  {
    if results == [] then 0
    else CorrectCount(results[..|results| - 1]) + (if results[|results| - 1].is_correct then 1 else 0)
  }

  lemma CorrectCountStep(results: seq<GradedAnswer>, r: GradedAnswer)
    ensures CorrectCount(results + [r]) == CorrectCount(results) + if r.is_correct then 1 else 0
    ensures forall k :: 0 <= k < |results| ==> (results + [r])[k] == results[k]
  {
    assert (results + [r])[..|results|] == results;
  }

  /** `Math.round((score / total) * 100)` of the exact ratio, `NaN` for no
      questions. */
  function Percentage(score: nat, total: nat): Number {
    if total == 0 then NaN else Num((200 * score + total) / (2 * total))
  }

  /** `percentage >= 80`; `NaN >= 80` is false. */
  predicate Passed(p: Number) {
    p.Num? && p.n >= 80
  }

  /** The integer formula is `Math.round` of the exact ratio. */
  lemma PercentageIsRound(score: nat, total: nat)
    requires total > 0
    ensures Percentage(score, total) == Num(Round(score as real / total as real * 100.0))
  {
    var q := score as real / total as real;
    assert q * total as real == score as real;
    assert (q * 100.0) * total as real == (100 * score) as real;
    assert q * 100.0 == (100 * score) as real / total as real;
    RoundOfRatio(100 * score, total);
  }

  /** A percentage lies between 0 and 100. */
  lemma PercentageBounds(score: nat, total: nat)
    requires 0 < total && score <= total
    ensures 0 <= Percentage(score, total).n <= 100
  {
    var p := (200 * score + total) / (2 * total);
    DivBracket(200 * score + total, 2 * total);
    assert 200 * score + total <= 201 * total;
    if p > 100 {
      MulMono(101, p, 2 * total);
    }
  }

  /** A test passes exactly when at least 79.5% of its answers are correct;
      a test without questions never passes. */
  lemma PassedIff(score: nat, total: nat)
    ensures Passed(Percentage(score, total)) <==> total > 0 && 200 * score >= 159 * total
  {
    if total > 0 {
      var p := (200 * score + total) / (2 * total);
      DivBracket(200 * score + total, 2 * total);
      if 200 * score >= 159 * total {
        if p < 80 {
          MulMono(p + 1, 80, 2 * total);
        }
      } else if p >= 80 {
        MulMono(80, p, 2 * total);
      }
    }
  }

  /** `handleTestSubmit`'s map over the questions, with its `score`
      counter. */
  method GradeTest(questions: seq<GenQuestion>, answers: seq<SubmittedAnswer>)
    returns (results: seq<GradedAnswer>, score: nat)
    ensures results == GradeAll(questions, answers)
    ensures score == CorrectCount(results)
  {
    ghost var all := GradeAll(questions, answers);
    results := [];
    score := 0;
    var i := 0;
    while i < |questions|
      invariant 0 <= i <= |questions|
      invariant results == all[..i]
      invariant score == CorrectCount(results)
    {
      var r := GradeOne(questions[i], i, answers);
      PrefixStep(all, i, results, r);
      CorrectCountStep(results, r);
      score := score + if r.is_correct then 1 else 0;
      results := results + [r];
      i := i + 1;
    }
    assert all[..i] == all;
  }

  /** Extending a prefix by the next element. */
  lemma PrefixStep<T>(all: seq<T>, i: nat, results: seq<T>, r: T)
    requires i < |all| && results == all[..i] && r == all[i]
    ensures results + [r] == all[..i + 1]
  {
  }

  /** A missing or empty answer is never correct for a short-answer
      question. */
  lemma MissingShortAnswerWrong(q: GenQuestion, answers: seq<SubmittedAnswer>, i: nat)
    requires q.qtype == ShortAnswerType
    requires forall k :: 0 <= k < |answers| ==> answers[k].index != i
    ensures !GradeOne(q, i, answers).is_correct
  {
    AnswerForMissing(answers, i);
    assert ToLower(Trim([])) == [];
  }

  /** A short answer differing from the expected one only in ASCII case is
      graded alike. */
  lemma ShortAnswerIgnoresCase(user: string, user': string, correct: string)
    requires ToLower(user) == ToLower(user')
    ensures ShortAnswerCorrect(user, correct) <==> ShortAnswerCorrect(user', correct)
  {
    NormalizeIgnoresCase(user, user');
  }

  /** Letters and digits without spaces. */
  predicate PlainWord(w: string) {
    forall i :: 0 <= i < |w| ==> 'a' <= w[i] <= 'z' || IsDigit(w[i])
  }

  lemma {:induction false} KeepPlain(w: string)
    requires PlainWord(w)
    ensures KeepAlnum(w) == w
  {
    if w != [] {
      KeepPlain(w[1..]);
      assert w == [w[0]] + w[1..];
    }
  }

  lemma {:induction false} CollapsePlain(w: string)
    requires PlainWord(w)
    ensures CollapseSpaces(w) == w
  {
    if w != [] {
      CollapsePlain(w[1..]);
      assert w == [w[0]] + w[1..];
    }
  }

  /** A word of lower-case ASCII letters and digits is its own normal
      form. */
  lemma NormalizePlainWord(w: string)
    requires PlainWord(w)
    ensures NormalizeAnswer(w) == w
  {
    if w != [] {
      assert !IsSpace(w[0]) && !IsSpace(w[|w| - 1]);
    }
    TrimOfTrimmed(w);
    LowerPlain(w);
    KeepPlain(w);
    CollapsePlain(w);
  }

  lemma LowerPlain(w: string)
    requires PlainWord(w)
    ensures ToLower(w) == w
  {
    forall i | 0 <= i < |w| ensures ToLower(w)[i] == w[i] {
      assert 'a' <= w[i] <= 'z' || IsDigit(w[i]);
    }
  }

  /** The containment rule accepts any fragment of two or more characters
      of the expected answer, such as "ta" for "taxes". */
  lemma ShortFragmentAccepted(user: string, correct: string, i: nat)
    requires PlainWord(user) && PlainWord(correct) && |user| >= 2
    requires OccursAt(correct, user, i)
    ensures ShortAnswerCorrect(user, correct)
  {
    NormalizePlainWord(user);
    NormalizePlainWord(correct);
  }

  /** The exact rule ignores surrounding whitespace and ASCII case. */
  lemma ExactIgnoresCaseAndSpace(user: string, correct: string)
    requires ToLower(Trim(user)) == ToLower(Trim(correct))
    ensures ExactCorrect(user, correct) && ExactCorrect(correct, user)
  {
  }

  // ---------------------------------------------------------------------------
  // handleTestSubmit

  /** The authenticated branch of a request (`branch`). */
  datatype Principal = Principal(branchId: int, name: string, code: string)

  datatype SubmitResponse = AnswersRequired | NoTest | Submitted(attempt: Attempt)

  /** `store.testQuestions.find(tq => tq.document_id === documentId)` */
  function FindTest(tests: seq<TestSet>, documentId: int): (r: Option<nat>)
    ensures r.Some? ==>
      && r.value < |tests| && tests[r.value].document_id == documentId
      && forall j :: 0 <= j < r.value ==> tests[j].document_id != documentId
    ensures r.None? ==> forall j :: 0 <= j < |tests| ==> tests[j].document_id != documentId
    decreases |tests|
  {
    if tests == [] then None
    else if tests[0].document_id == documentId then Some(0)
    else
      var r := FindTest(tests[1..], documentId);
      if r.None? then None else Some(r.value + 1)
  }

  /** The graded results for all questions, in order. */
  function GradeAll(questions: seq<GenQuestion>, answers: seq<SubmittedAnswer>): (r: seq<GradedAnswer>)
    ensures |r| == |questions|
    ensures forall i :: 0 <= i < |questions| ==> r[i] == GradeOne(questions[i], i, answers)
  {
    seq(|questions|, i requires 0 <= i < |questions| => GradeOne(questions[i], i, answers))
  }

  /** The attempt recorded for a submission against `test`. */
  function AttemptFor(test: TestSet, branch: Principal, documentId: int, answers: seq<SubmittedAnswer>,
                      id: int, now: Timestamp): Attempt
  {
    var results := GradeAll(test.questions, answers);
    var score := CorrectCount(results);
    var total := |test.questions|;
    Attempt(id, documentId, branch.branchId, branch.name, branch.code, score, total,
            Percentage(score, total), Passed(Percentage(score, total)), results, now)
  }

  /** The record built from the loop's results and score is `AttemptFor`. */
  lemma GradedAttempt(test: TestSet, branch: Principal, documentId: int, answers: seq<SubmittedAnswer>,
                      id: int, now: Timestamp, results: seq<GradedAnswer>, score: nat)
    requires results == GradeAll(test.questions, answers) && score == CorrectCount(results)
    ensures var total := |test.questions|;
      AttemptFor(test, branch, documentId, answers, id, now)
        == Attempt(id, documentId, branch.branchId, branch.name, branch.code, score, total,
                   Percentage(score, total), Passed(Percentage(score, total)), results, now)
  {
  }

  /** An attempt's score counts its correct answers, its total is the
      number of questions, and it passes exactly at a rounded 80%. */
  lemma AttemptShape(test: TestSet, branch: Principal, documentId: int, answers: seq<SubmittedAnswer>,
                     id: int, now: Timestamp)
    ensures var a := AttemptFor(test, branch, documentId, answers, id, now);
      && a.total == |test.questions| == |a.answers|
      && a.score == CorrectCount(a.answers) <= a.total
      && (forall i :: 0 <= i < a.total ==> a.answers[i].index == i)
      && (a.passed <==> a.total > 0 && 200 * a.score >= 159 * a.total)
      && (a.percentage.NaN? <==> a.total == 0)
  {
    var a := AttemptFor(test, branch, documentId, answers, id, now);
    PassedIff(a.score, a.total);
  }

  /** `handleTestSubmit` as a function of the tests, the attempts and the
      attempt counter: the new attempts and counter, and the response. */
  function Submit(tests: seq<TestSet>, attempts: seq<Attempt>, counter: int, branch: Principal,
                  documentId: int, answers: Option<seq<SubmittedAnswer>>, now: Timestamp)
    : (r: (seq<Attempt>, int, SubmitResponse))
  {
    if answers.None? then (attempts, counter, AnswersRequired)
    else
      var f := FindTest(tests, documentId);
      if f.None? then (attempts, counter, NoTest)
      else
        var a := AttemptFor(tests[f.value], branch, documentId, answers.value, counter, now);
        (attempts + [a], counter + 1, Submitted(a))
  }

  /** A submission records exactly one attempt, at the end, numbered by
      the counter, or nothing when it is rejected; attempt ids stay
      increasing and below the counter. */
  lemma SubmitRecordsOne(tests: seq<TestSet>, attempts: seq<Attempt>, counter: int, branch: Principal,
                         documentId: int, answers: Option<seq<SubmittedAnswer>>, now: Timestamp)
    requires IncreasingBelow(AttemptIds(attempts), counter)
    ensures var r := Submit(tests, attempts, counter, branch, documentId, answers, now);
      && (r.2.Submitted? <==> answers.Some? && FindTest(tests, documentId).Some?)
      && (r.2.Submitted? ==> r.0 == attempts + [r.2.attempt] && r.2.attempt.id == counter && r.1 == counter + 1)
      && (!r.2.Submitted? ==> r.0 == attempts && r.1 == counter)
      && IncreasingBelow(AttemptIds(r.0), r.1)
  {
    var r := Submit(tests, attempts, counter, branch, documentId, answers, now);
    if r.2.Submitted? {
      AppendFresh(AttemptIds(attempts), counter);
      assert AttemptIds(r.0) == AttemptIds(attempts) + [counter];
    }
  }

  /** `handleTestSubmit(req, res, branch, documentId)`. */
  method HandleTestSubmit(store: Store, branch: Principal, documentId: int,
                          answers: Option<seq<SubmittedAnswer>>, now: Timestamp)
    returns (resp: SubmitResponse)
    requires store.Valid()
    modifies store`testAttempts, store`nextId
    ensures store.Valid()
    ensures (store.testAttempts, store.nextId[TestAttempts], resp)
      == Submit(store.testQuestions, old(store.testAttempts), old(store.nextId[TestAttempts]),
                branch, documentId, answers, now)
    ensures store.nextId == old(store.nextId)[TestAttempts := store.nextId[TestAttempts]]
  {
    if answers.None? {
      return AnswersRequired;
    }
    var found := FindTest(store.testQuestions, documentId);
    if found.None? {
      return NoTest;
    }
    var testQ := store.testQuestions[found.value];
    var results, score := GradeTest(testQ.questions, answers.value);
    var total := |testQ.questions|;
    var percentage := Percentage(score, total);
    var id := store.NextId(TestAttempts);
    var attempt := Attempt(id, documentId, branch.branchId, branch.name, branch.code, score, total,
                           percentage, Passed(percentage), results, now);
    GradedAttempt(testQ, branch, documentId, answers.value, id, now, results, score);
    SubmitFound(store.testQuestions, store.testAttempts, id, branch, documentId, answers, now, found.value);
    store.testAttempts := store.testAttempts + [attempt];
    resp := Submitted(attempt);
  }

  /** A submission with answers for a stored test. */
  lemma SubmitFound(tests: seq<TestSet>, attempts: seq<Attempt>, counter: int, branch: Principal,
                    documentId: int, answers: Option<seq<SubmittedAnswer>>, now: Timestamp, i: nat)
    requires answers.Some? && FindTest(tests, documentId) == Some(i)
    ensures var a := AttemptFor(tests[i], branch, documentId, answers.value, counter, now);
      Submit(tests, attempts, counter, branch, documentId, answers, now) == (attempts + [a], counter + 1, Submitted(a))
  {
  }

  // ---------------------------------------------------------------------------
  // handleTestGenerate

  /** A question as sent to the client: without `correct_answer` and
      `explanation`. */
  datatype ClientQuestion = ClientQuestion(index: int, qtype: string, question: string, options: Option<seq<string>>)

  function StripOne(q: GenQuestion): ClientQuestion {
    ClientQuestion(q.index, q.qtype, q.question, q.options)
  }

  /** `questions.map(({ correct_answer, explanation, ...q }) => q)` */
  function Strip(qs: seq<GenQuestion>): (r: seq<ClientQuestion>)
    ensures |r| == |qs|
    ensures forall i :: 0 <= i < |qs| ==> r[i] == StripOne(qs[i])
  {
    seq(|qs|, i requires 0 <= i < |qs| => StripOne(qs[i]))
  }

  datatype GenerateResponse =
    | ProcessNotFound
    | InsufficientContent
    | Cached(document_id: int, questions: seq<ClientQuestion>, generated_at: Timestamp)
    | Generated(document_id: int, questions: seq<ClientQuestion>, generated_at: Timestamp)
    | GenerationFailed

  /** `store.documents.find(d => d.id === documentId)` */
  function FindDocument(docs: seq<Document>, documentId: int): (r: Option<nat>)
    ensures r.Some? ==>
      && r.value < |docs| && docs[r.value].id == documentId
      && forall j :: 0 <= j < r.value ==> docs[j].id != documentId
    ensures r.None? ==> forall j :: 0 <= j < |docs| ==> docs[j].id != documentId
    decreases |docs|
  {
    if docs == [] then None
    else if docs[0].id == documentId then Some(0)
    else
      var r := FindDocument(docs[1..], documentId);
      if r.None? then None else Some(r.value + 1)
  }

  /** `content_text.substring(0, 5000)` */
  function HashedPrefix(text: string): string {
    if |text| <= 5000 then text else text[..5000]
  }

  /** The state `handleTestGenerate` reads and writes. */
  datatype TestState = TestState(documents: seq<Document>, tests: seq<TestSet>, counter: int)

  /** `handleTestGenerate` as a function of the state: the new state and
      the response. `generated` is the parsed answer of the model. */
  function Generate(st: TestState, documentId: int, generated: Option<seq<GenQuestion>>, now: Timestamp)
    : (r: (TestState, GenerateResponse))
    ensures r.0.documents == st.documents
  {
    var d := FindDocument(st.documents, documentId);
    if d.None? then (st, ProcessNotFound)
    else
      var doc := st.documents[d.value];
      if |Trim(doc.content_text)| < 50 then (st, InsufficientContent)
      else
        var docHash := HashString(HashedPrefix(doc.content_text));
        var ex := FindTest(st.tests, documentId);
        if ex.Some? && st.tests[ex.value].document_hash == docHash then
          var e := st.tests[ex.value];
          (st, Cached(e.document_id, Strip(e.questions), e.generated_at))
        else if generated.None? || |generated.value| < 5 then (st, GenerationFailed)
        else
          (Stored(st, ex, documentId, generated.value, now, docHash),
           Generated(documentId, Strip(generated.value), now))
  }

  /** The state after storing freshly generated questions: the existing
      test of the document overwritten in place, or a new one appended
      under the next id. */
  function Stored(st: TestState, ex: Option<nat>, documentId: int, qs: seq<GenQuestion>, now: Timestamp,
                  docHash: string): (r: TestState)
    requires ex.Some? ==> ex.value < |st.tests|
  {
    if ex.Some? then
      st.(tests := st.tests[ex.value := st.tests[ex.value].(questions := qs, generated_at := now, document_hash := docHash)])
    else
      st.(tests := st.tests + [TestSet(st.counter, documentId, qs, now, docHash)], counter := st.counter + 1)
  }

  function TestStateOf(store: Store): TestState
    reads store
    requires store.Valid()
  {
    TestState(store.documents, store.testQuestions, store.nextId[TestQuestions])
  }

  /** `handleTestGenerate(req, res, branch, documentId)`. */
  method HandleTestGenerate(store: Store, documentId: int, generated: Option<seq<GenQuestion>>, now: Timestamp)
    returns (resp: GenerateResponse)
    requires store.Valid()
    modifies store`testQuestions, store`nextId
    ensures store.Valid()
    ensures (TestStateOf(store), resp) == Generate(old(TestStateOf(store)), documentId, generated, now)
    ensures store.nextId == old(store.nextId)[TestQuestions := store.nextId[TestQuestions]]
  {
    ghost var st := TestStateOf(store);
    var d := FindDocument(store.documents, documentId);
    if d.None? {
      return ProcessNotFound;
    }
    var doc := store.documents[d.value];
    if |Trim(doc.content_text)| < 50 {
      return InsufficientContent;
    }
    var docHash := SimpleHash(HashedPrefix(doc.content_text));
    var ex := FindTest(store.testQuestions, documentId);
    if ex.Some? && store.testQuestions[ex.value].document_hash == docHash {
      var e := store.testQuestions[ex.value];
      return Cached(e.document_id, Strip(e.questions), e.generated_at);
    }
    if generated.None? || |generated.value| < 5 {
      return GenerationFailed;
    }
    var questions := generated.value;
    if ex.Some? {
      var e := store.testQuestions[ex.value];
      store.testQuestions := store.testQuestions[ex.value := e.(questions := questions, generated_at := now, document_hash := docHash)];
    } else {
      var id := store.NextId(TestQuestions);
      store.testQuestions := store.testQuestions + [TestSet(id, documentId, questions, now, docHash)];
    }
    assert TestStateOf(store) == Stored(st, ex, documentId, questions, now, docHash);
    resp := Generated(documentId, Strip(questions), now);
  }

  /** At most one cached test per document. */
  predicate OneTestPerDocument(tests: seq<TestSet>) {
    forall i, j :: 0 <= i < j < |tests| ==> tests[i].document_id != tests[j].document_id
  }

  /** Generation never caches a second test for a document. */
  lemma GenerateKeepsOneTestPerDocument(st: TestState, documentId: int, generated: Option<seq<GenQuestion>>,
                                        now: Timestamp)
    requires OneTestPerDocument(st.tests)
    ensures OneTestPerDocument(Generate(st, documentId, generated, now).0.tests)
  {
  }

  /** Right after a successful generation, asking again for the same
      document returns the stored questions from the cache, whatever the
      model would answer. */
  lemma GenerateThenCached(st: TestState, documentId: int, generated: Option<seq<GenQuestion>>,
                           again: Option<seq<GenQuestion>>, now: Timestamp, later: Timestamp)
    requires Generate(st, documentId, generated, now).1.Generated?
    ensures var st' := Generate(st, documentId, generated, now).0;
      Generate(st', documentId, again, later)
        == (st', Cached(documentId, Strip(generated.value), now))
  {
    var st' := Generate(st, documentId, generated, now).0;
    var doc := st.documents[FindDocument(st.documents, documentId).value];
    var docHash := HashString(HashedPrefix(doc.content_text));
    var ex := FindTest(st.tests, documentId);
    assert st' == Stored(st, ex, documentId, generated.value, now, docHash);
    StoredIsFound(st, ex, documentId, generated.value, now, docHash);
  }

  /** After storing, the document's test is found and holds what was stored. */
  lemma StoredIsFound(st: TestState, ex: Option<nat>, documentId: int, qs: seq<GenQuestion>, now: Timestamp,
                      docHash: string)
    requires ex == FindTest(st.tests, documentId)
    ensures var r := Stored(st, ex, documentId, qs, now, docHash);
      var f := FindTest(r.tests, documentId);
      && r.documents == st.documents
      && f.Some?
      && r.tests[f.value].document_id == documentId
      && r.tests[f.value].questions == qs
      && r.tests[f.value].generated_at == now
      && r.tests[f.value].document_hash == docHash
  {
    var r := Stored(st, ex, documentId, qs, now, docHash);
    if ex.None? {
      var t := TestSet(st.counter, documentId, qs, now, docHash);
      assert r.tests == st.tests + [t];
      FindTestAppend(st.tests, t, documentId);
    } else {
      assert r.tests[ex.value].document_id == documentId;
      assert forall j :: 0 <= j < ex.value ==> r.tests[j] == st.tests[j];
    }
  }

  lemma {:induction false} FindTestAppend(tests: seq<TestSet>, t: TestSet, documentId: int)
    requires FindTest(tests, documentId).None? && t.document_id == documentId
    ensures FindTest(tests + [t], documentId) == Some(|tests|)
    decreases |tests|
  {
    if tests == [] {
    } else {
      assert (tests + [t])[1..] == tests[1..] + [t];
      FindTestAppend(tests[1..], t, documentId);
    }
  }

  /** A cached test is served only when the stored hash is that of the
      document's current first 5000 characters; the store is then left
      as it is. */
  lemma CachedIffSameHash(st: TestState, documentId: int, generated: Option<seq<GenQuestion>>, now: Timestamp)
    requires FindDocument(st.documents, documentId).Some?
    requires |Trim(st.documents[FindDocument(st.documents, documentId).value].content_text)| >= 50
    ensures var r := Generate(st, documentId, generated, now);
      var text := st.documents[FindDocument(st.documents, documentId).value].content_text;
      && (r.1.Cached? <==>
           && FindTest(st.tests, documentId).Some?
           && st.tests[FindTest(st.tests, documentId).value].document_hash == HashString(HashedPrefix(text)))
      && (r.1.Cached? ==> r.0 == st)
  {
  }

  /** A failed generation or a missing document changes nothing. */
  lemma FailureChangesNothing(st: TestState, documentId: int, generated: Option<seq<GenQuestion>>, now: Timestamp)
    ensures var r := Generate(st, documentId, generated, now);
      !r.1.Generated? ==> r.0 == st
  {
  }

  /** Fewer than five questions from the model is a failure. */
  lemma TooFewQuestionsFail(st: TestState, documentId: int, qs: seq<GenQuestion>, now: Timestamp)
    requires |qs| < 5
    ensures var r := Generate(st, documentId, Some(qs), now);
      !r.1.Generated? && r.0 == st
  {
    var d := FindDocument(st.documents, documentId);
    if d.Some? && |Trim(st.documents[d.value].content_text)| >= 50 {
      var docHash := HashString(HashedPrefix(st.documents[d.value].content_text));
      var ex := FindTest(st.tests, documentId);
      if !(ex.Some? && st.tests[ex.value].document_hash == docHash) {
        assert Generate(st, documentId, Some(qs), now) == (st, GenerationFailed);
      }
    }
  }

  /** Tests produced by generation hold at least five questions, so an
      attempt against them always has a percentage. */
  lemma GeneratedTestsAreLarge(st: TestState, documentId: int, generated: Option<seq<GenQuestion>>, now: Timestamp)
    requires forall i :: 0 <= i < |st.tests| ==> |st.tests[i].questions| >= 5
    ensures var t := Generate(st, documentId, generated, now).0.tests;
      forall i :: 0 <= i < |t| ==> |t[i].questions| >= 5
  {
    var d := FindDocument(st.documents, documentId);
    if d.Some? && |Trim(st.documents[d.value].content_text)| >= 50 && generated.Some? && |generated.value| >= 5 {
      var docHash := HashString(HashedPrefix(st.documents[d.value].content_text));
      StoredLarge(st, FindTest(st.tests, documentId), documentId, generated.value, now, docHash);
    }
  }

  lemma StoredLarge(st: TestState, ex: Option<nat>, documentId: int, qs: seq<GenQuestion>, now: Timestamp,
                    docHash: string)
    requires ex.Some? ==> ex.value < |st.tests|
    requires |qs| >= 5 && forall i :: 0 <= i < |st.tests| ==> |st.tests[i].questions| >= 5
    ensures var t := Stored(st, ex, documentId, qs, now, docHash).tests;
      forall i :: 0 <= i < |t| ==> |t[i].questions| >= 5
  {
  }
}
