/** The JavaScript string operations the server and client code rely on:
    the `\s` character class, `trim`, ASCII case mapping, `includes`,
    `split(/\s+/)`, `split('@')` and `join(' ')`. */
module JsText {

  /** The characters of the ECMAScript `\s` class (WhiteSpace and
      LineTerminator); `String.prototype.trim` strips the same set. */
  predicate IsSpace(c: char) {
    || c == ' ' || c == '\t' || c == '\n' || c == '\r' || c == '\U{B}' || c == '\U{C}'
    || c == '\U{A0}' || c == '\U{1680}' || ('\U{2000}' <= c <= '\U{200A}')
    || c == '\U{2028}' || c == '\U{2029}' || c == '\U{202F}' || c == '\U{205F}'
    || c == '\U{3000}' || c == '\U{FEFF}'
  }

  predicate NoSpace(s: string) {
    forall i :: 0 <= i < |s| ==> !IsSpace(s[i])
  }

  /** A token produced by `split(/\s+/).filter(Boolean)`. */
  predicate IsWord(w: string) {
    w != [] && NoSpace(w)
  }

  predicate AllWords(ws: seq<string>) {
    forall i :: 0 <= i < |ws| ==> IsWord(ws[i])
  }

  // ---------------------------------------------------------------------------
  // Case mapping (ASCII letters only)

  function Lower(c: char): (r: char)
    ensures 'A' <= c <= 'Z' ==> r as int == c as int + 32
    ensures !('A' <= c <= 'Z') ==> r == c
  {
    if 'A' <= c <= 'Z' then (c as int + 32) as char else c
  }

  function Upper(c: char): (r: char)
    ensures 'a' <= c <= 'z' ==> r as int == c as int - 32
    ensures !('a' <= c <= 'z') ==> r == c
  {
    if 'a' <= c <= 'z' then (c as int - 32) as char else c
  }

  /** `s.toLowerCase()` */
  function ToLower(s: string): (r: string)
    ensures |r| == |s|
    ensures forall i :: 0 <= i < |s| ==> r[i] == Lower(s[i])
  {
    seq(|s|, i requires 0 <= i < |s| => Lower(s[i]))
  }

  lemma LowerKeepsSpace(c: char)
    ensures IsSpace(Lower(c)) <==> IsSpace(c)
  {
  }

  /** Lower-casing twice is lower-casing once. */
  lemma ToLowerIdempotent(s: string)
    ensures ToLower(ToLower(s)) == ToLower(s)
  {
  }

  // ---------------------------------------------------------------------------
  // trim

  /** `s.trimStart()`: drops the leading run of `\s` characters. */
  function TrimStart(s: string): (r: string)
    ensures |r| <= |s| && r == s[|s| - |r|..]
    ensures r != [] ==> !IsSpace(r[0])
    ensures forall i :: 0 <= i < |s| - |r| ==> IsSpace(s[i])
  {
    if s != [] && IsSpace(s[0]) then TrimStart(s[1..]) else s
  }

  /** Trimming the start of a concatenation trims into the second part
      only when the first is all whitespace. */
  lemma {:induction false} TrimStartAppend(a: string, b: string)
    ensures TrimStart(a + b) == if TrimStart(a) == [] then TrimStart(b) else TrimStart(a) + b
    decreases |a|
  {
    if a == [] {
      assert a + b == b;
    } else {
      assert (a + b)[1..] == a[1..] + b;
      if IsSpace(a[0]) {
        TrimStartAppend(a[1..], b);
      }
    }
  }

  /** `s.trimEnd()`: drops the trailing run of `\s` characters. */
  function TrimEnd(s: string): (r: string)
    ensures |r| <= |s| && r == s[..|r|]
    ensures r != [] ==> !IsSpace(r[|r| - 1])
    ensures forall i :: |r| <= i < |s| ==> IsSpace(s[i])
  {
    if s != [] && IsSpace(s[|s| - 1]) then TrimEnd(s[..|s| - 1]) else s
  }

  /** `s.trim()` */
  function Trim(s: string): (r: string)
    ensures |r| <= |s|
    ensures r != [] ==> !IsSpace(r[0]) && !IsSpace(r[|r| - 1])
  {
    TrimEnd(TrimStart(s))
  }

  /** A string that does not start or end with whitespace is its own trim. */
  lemma TrimOfTrimmed(s: string)
    requires s == [] || (!IsSpace(s[0]) && !IsSpace(s[|s| - 1]))
    ensures Trim(s) == s
  {
  }

  /** Lower-casing commutes with trimming, since it never turns a character
      into whitespace or whitespace into something else. */
  lemma {:induction false} TrimStartToLower(s: string)
    ensures TrimStart(ToLower(s)) == ToLower(TrimStart(s))
  {
    if s != [] {
      assert ToLower(s)[1..] == ToLower(s[1..]);
      LowerKeepsSpace(s[0]);
      if IsSpace(s[0]) {
        TrimStartToLower(s[1..]);
      }
    }
  }

  lemma {:induction false} TrimEndToLower(s: string)
    ensures TrimEnd(ToLower(s)) == ToLower(TrimEnd(s))
  {
    if s != [] {
      assert ToLower(s)[..|s| - 1] == ToLower(s[..|s| - 1]);
      LowerKeepsSpace(s[|s| - 1]);
      if IsSpace(s[|s| - 1]) {
        TrimEndToLower(s[..|s| - 1]);
      }
    }
  }

  lemma TrimToLower(s: string)
    ensures Trim(ToLower(s)) == ToLower(Trim(s))
  {
    TrimStartToLower(s);
    TrimEndToLower(TrimStart(s));
  }

  // ---------------------------------------------------------------------------
  // includes

  /** `s.includes(t)`: `t` occurs in `s` as a contiguous piece. */
  predicate Includes(s: string, t: string) {
    exists i | 0 <= i <= |s| - |t| :: OccursAt(s, t, i)
  }

  /** `t` occurs in `s` starting at position `i`. */
  predicate OccursAt(s: string, t: string, i: int) {
    0 <= i <= |s| - |t| && s[i..i + |t|] == t
  }

  lemma IncludesSelf(s: string)
    ensures Includes(s, s)
  {
    assert OccursAt(s, s, 0);
  }

  lemma IncludesEmpty(s: string)
    ensures Includes(s, [])
  {
    assert OccursAt(s, [], 0);
  }

  /** An occurrence is never longer than the text it occurs in. */
  lemma IncludesShorter(s: string, t: string)
    requires Includes(s, t)
    ensures |t| <= |s|
  {
  }

  /** Occurrence is preserved by lower-casing both strings. */
  lemma IncludesToLower(s: string, t: string)
    requires Includes(s, t)
    ensures Includes(ToLower(s), ToLower(t))
  {
    var i :| 0 <= i <= |s| - |t| && OccursAt(s, t, i);
    assert s[i..i + |t|] == t;
    assert ToLower(s)[i..i + |t|] == ToLower(t);
    assert OccursAt(ToLower(s), ToLower(t), i);
  }

  // ---------------------------------------------------------------------------
  // split(/\s+/), filter(Boolean), join(' ')

  /** The pieces `s.split(/\s+/)` returns when `cur` has already been read
      into the current piece: every maximal run of `\s` ends a piece. */
  function SplitFrom(s: string, cur: string): seq<string>
    decreases |s|
  {
    if s == [] then [cur]
    else if IsSpace(s[0]) then [cur] + SplitFrom(TrimStart(s), [])
    else SplitFrom(s[1..], cur + [s[0]])
  }

  /** `s.split(/\s+/)` (a leading or trailing run yields an empty piece;
      `"".split(/\s+/)` is `[""]`). */
  function Split(s: string): (r: seq<string>)
    ensures |r| >= 1
  {
    SplitLength(s, []);
    SplitFrom(s, [])
  }

  lemma {:induction false} SplitLength(s: string, cur: string)
    ensures |SplitFrom(s, cur)| >= 1
    decreases |s|
  {
    if s != [] {
      if IsSpace(s[0]) {
        SplitLength(TrimStart(s), []);
      } else {
        SplitLength(s[1..], cur + [s[0]]);
      }
    }
  }

  /** `filter(Boolean)` on strings: drops the empty pieces. */
  function NonEmpty(ps: seq<string>): (r: seq<string>)
    ensures |r| <= |ps|
    ensures forall i :: 0 <= i < |r| ==> r[i] != []
    ensures forall w :: w in r <==> w in ps && w != []
  {
    if ps == [] then []
    else if ps[0] == [] then NonEmpty(ps[1..])
    else [ps[0]] + NonEmpty(ps[1..])
  }

  /** `s.split(/\s+/).filter(Boolean)`: the whitespace-delimited words of `s`. */
  function Words(s: string): seq<string> {
    NonEmpty(Split(s))
  }

  /** `ws.join(' ')` */
  function Join(ws: seq<string>): string {
    if ws == [] then []
    else if |ws| == 1 then ws[0]
    else ws[0] + [' '] + Join(ws[1..])
  }

  /** Every piece of a split is free of whitespace. */
  lemma {:induction false} SplitPiecesNoSpace(s: string, cur: string)
    requires NoSpace(cur)
    ensures forall p :: p in SplitFrom(s, cur) ==> NoSpace(p)
    decreases |s|
  {
    if s != [] {
      if IsSpace(s[0]) {
        SplitPiecesNoSpace(TrimStart(s), []);
      } else {
        SplitPiecesNoSpace(s[1..], cur + [s[0]]);
      }
    }
  }

  /** Every word is non-empty and free of whitespace. */
  lemma WordsAreWords(s: string)
    ensures AllWords(Words(s))
  {
    SplitPiecesNoSpace(s, []);
    var ps := Split(s);
    forall i | 0 <= i < |Words(s)| ensures IsWord(Words(s)[i]) {
      assert Words(s)[i] in NonEmpty(ps);
    }
  }

  /** Reading a whitespace-free prefix only extends the current piece. */
  lemma {:induction false} SplitFromWord(w: string, rest: string, cur: string)
    requires NoSpace(w)
    ensures SplitFrom(w + rest, cur) == SplitFrom(rest, cur + w)
    decreases |w|
  {
    if w != [] {
      assert (w + rest)[0] == w[0];
      assert (w + rest)[1..] == w[1..] + rest;
      SplitFromWord(w[1..], rest, cur + [w[0]]);
      assert cur + [w[0]] + w[1..] == cur + w;
    } else {
      assert w + rest == rest;
      assert cur + w == cur;
    }
  }

  lemma JoinStartsWithWord(ws: seq<string>)
    requires ws != [] && AllWords(ws)
    ensures Join(ws) != [] && Join(ws)[0] == ws[0][0]
  {
  }

  /** `join(' ')` followed by `split(/\s+/)` gives back a non-empty list of words. */
  lemma {:induction false} SplitJoin(ws: seq<string>, cur: string)
    requires ws != [] && AllWords(ws)
    ensures |ws| == 1 ==> SplitFrom(Join(ws), cur) == [cur + ws[0]]
    ensures |ws| > 1 ==> SplitFrom(Join(ws), cur) == [cur + ws[0]] + SplitFrom(Join(ws[1..]), [])
  {
    var w := ws[0];
    if |ws| == 1 {
      SplitFromWord(w, [], cur);
      assert w + [] == w;
    } else {
      var j := Join(ws[1..]);
      JoinStartsWithWord(ws[1..]);
      assert Join(ws) == w + ([' '] + j);
      SplitFromWord(w, [' '] + j, cur);
      assert TrimStart([' '] + j) == j by {
        assert ([' '] + j)[1..] == j;
      }
    }
  }

  lemma {:induction false} SplitOfJoin(ws: seq<string>)
    requires ws != [] && AllWords(ws)
    ensures Split(Join(ws)) == ws
  {
    SplitJoin(ws, []);
    assert [] + ws[0] == ws[0];
    if |ws| > 1 {
      SplitOfJoin(ws[1..]);
      assert ws == [ws[0]] + ws[1..];
    }
  }

  lemma {:induction false} NonEmptyOfWords(ws: seq<string>)
    requires AllWords(ws)
    ensures NonEmpty(ws) == ws
  {
    if ws != [] {
      NonEmptyOfWords(ws[1..]);
      assert ws == [ws[0]] + ws[1..];
    }
  }

  /** Words survive `join(' ')`: the words of the joined text are exactly the
      joined words. */
  lemma WordsOfJoin(ws: seq<string>)
    requires AllWords(ws)
    ensures Words(Join(ws)) == ws
  {
    if ws == [] {
      assert Split([]) == [[]];
    } else {
      SplitOfJoin(ws);
      NonEmptyOfWords(ws);
    }
  }

  // ---------------------------------------------------------------------------
  // split on a single character

  /** `s.split(c)` for a one-character separator. */
  function SplitOn(s: string, c: char): (r: seq<string>)
    ensures |r| >= 1
    ensures forall i :: 0 <= i < |r| ==> c !in r[i]
  {
    SplitOnFrom(s, c, [])
  }

  function SplitOnFrom(s: string, c: char, cur: string): (r: seq<string>)
    requires c !in cur
    ensures |r| >= 1
    ensures forall i :: 0 <= i < |r| ==> c !in r[i]
    decreases |s|
  {
    if s == [] then [cur]
    else if s[0] == c then [cur] + SplitOnFrom(s[1..], c, [])
    else SplitOnFrom(s[1..], c, cur + [s[0]])
  }

  /** Splitting text that holds no separator yields the text itself. */
  lemma {:induction false} SplitOnNone(s: string, c: char, cur: string)
    requires c !in s && c !in cur
    ensures SplitOnFrom(s, c, cur) == [cur + s]
    decreases |s|
  {
    if s != [] {
      assert s[0] in s;
      SplitOnNone(s[1..], c, cur + [s[0]]);
      assert cur + [s[0]] + s[1..] == cur + s;
    } else {
      assert cur + s == cur;
    }
  }

  /** The piece read so far is completed by the separator-free prefix. */
  lemma {:induction false} SplitOnPrefix(a: string, rest: string, c: char, cur: string)
    requires c !in a && c !in cur
    ensures SplitOnFrom(a + [c] + rest, c, cur) == [cur + a] + SplitOnFrom(rest, c, [])
    decreases |a|
  {
    if a == [] {
      assert a + [c] + rest == [c] + rest;
      assert ([c] + rest)[1..] == rest;
      assert cur + a == cur;
    } else {
      assert (a + [c] + rest)[0] == a[0];
      assert (a + [c] + rest)[1..] == a[1..] + [c] + rest;
      assert a[0] in a;
      SplitOnPrefix(a[1..], rest, c, cur + [a[0]]);
      assert cur + [a[0]] + a[1..] == cur + a;
    }
  }

  /** A string without separators splits into itself alone. */
  lemma SplitOnWithout(s: string, c: char)
    requires c !in s
    ensures SplitOn(s, c) == [s]
  {
    SplitOnNone(s, c, []);
    assert [] + s == s;
  }

  /** For `s == a + [c] + b` with no `c` in `a`, the split starts with `a`
      followed by the split of `b`. */
  lemma SplitOnFirst(a: string, b: string, c: char)
    requires c !in a
    ensures SplitOn(a + [c] + b, c) == [a] + SplitOn(b, c)
  {
    SplitOnPrefix(a, b, c, []);
    assert [] + a == a;
  }

  // ---------------------------------------------------------------------------
  // Decimal numerals: `String(n)` and `parseInt` on digit strings

  predicate IsDigit(c: char) {
    '0' <= c <= '9'
  }

  predicate AllDigits(s: string) {
    forall i :: 0 <= i < |s| ==> IsDigit(s[i])
  }

  function DigitChar(d: nat): (c: char)
    requires d < 10
    ensures IsDigit(c) && c as int - '0' as int == d
  {
    ('0' as int + d) as char
  }

  /** `String(n)` for a non-negative integer: its decimal digits, without
      leading zeros. */
  function DecimalString(n: nat): (r: string)
    ensures r != [] && AllDigits(r)
  {
    if n < 10 then [DigitChar(n)] else DecimalString(n / 10) + [DigitChar(n % 10)]
  }

  /** `parseInt(s, 10)` for a string of decimal digits (leading zeros are
      allowed and ignored). */
  function ParseDigits(s: string): nat
    requires AllDigits(s)
  {
    if s == [] then 0
    else ParseDigits(s[..|s| - 1]) * 10 + (s[|s| - 1] as int - '0' as int)
  }

  /** Reading back the numeral of `n` gives `n`. */
  lemma {:induction false} ParseDecimal(n: nat)
    ensures ParseDigits(DecimalString(n)) == n
  {
    if n >= 10 {
      ParseDecimal(n / 10);
      var r := DecimalString(n);
      assert r[..|r| - 1] == DecimalString(n / 10);
    }
  }

  /** Distinct numbers have distinct numerals. */
  lemma DecimalStringInjective(m: nat, n: nat)
    requires DecimalString(m) == DecimalString(n)
    ensures m == n
  {
    ParseDecimal(m);
    ParseDecimal(n);
  }

  /** A number below 10^k has at most k digits. */
  lemma {:induction false} DecimalStringLength(n: nat, k: nat, bound: nat)
    requires 1 <= k && bound == Pow10(k) && n < bound
    ensures |DecimalString(n)| <= k
    decreases k
  {
    if n >= 10 {
      assert k > 1;
      DecimalStringLength(n / 10, k - 1, Pow10(k - 1));
    }
  }

  function Pow10(k: nat): (r: nat)
    ensures r >= 1
  {
    if k == 0 then 1 else 10 * Pow10(k - 1)
  }
}
