/** Document indexing helpers of api/index.js: the category label derived
    from a file name, the word-window chunker and text extraction. */
module Indexing {
  import opened Wrappers
  import opened JsText

  // ---------------------------------------------------------------------------
  // inferCategory (api/index.js:17-30)

  /** The category rules in the order the code tests them: a rule fires
      when one of its keywords occurs in the lower-cased file name. */
  const Rules: seq<(seq<string>, string)> := [
    (["hr", "human resource"], "HR"),
    (["finance", "accounting"], "Finance"),
    (["compliance", "regulatory"], "Compliance"),
    (["operations", "ops"], "Operations"),
    (["sales", "marketing"], "Sales & Marketing"),
    (["it", "technology", "tech"], "IT"),
    (["security", "safety"], "Security"),
    (["customer", "service"], "Customer Service"),
    (["policy"], "Policies"),
    (["sop", "procedure"], "SOPs")
  ]

  const DefaultCategory: string := "General"

  /** Every label `inferCategory` can return. */
  const Labels: seq<string> := [
    "HR", "Finance", "Compliance", "Operations", "Sales & Marketing", "IT",
    "Security", "Customer Service", "Policies", "SOPs", DefaultCategory
  ]

  predicate AnyIncluded(s: string, keys: seq<string>) {
    exists k :: 0 <= k < |keys| && Includes(s, keys[k])
  }

  /** Rule `k` fires for the lower-cased name `lower`. */
  predicate Fires(lower: string, k: nat)
    requires k < |Rules|
  {
    AnyIncluded(lower, Rules[k].0)
  }

  /** `inferCategory(filename)`, the chain of tests as the code writes it. */
  function InferCategory(filename: string): (r: string)
    ensures r in Labels
  {
    var lower := ToLower(filename);
    if Includes(lower, "hr") || Includes(lower, "human resource") then "HR"
    else if Includes(lower, "finance") || Includes(lower, "accounting") then "Finance"
    else if Includes(lower, "compliance") || Includes(lower, "regulatory") then "Compliance"
    else if Includes(lower, "operations") || Includes(lower, "ops") then "Operations"
    else if Includes(lower, "sales") || Includes(lower, "marketing") then "Sales & Marketing"
    else if Includes(lower, "it") || Includes(lower, "technology") || Includes(lower, "tech") then "IT"
    else if Includes(lower, "security") || Includes(lower, "safety") then "Security"
    else if Includes(lower, "customer") || Includes(lower, "service") then "Customer Service"
    else if Includes(lower, "policy") then "Policies"
    else if Includes(lower, "sop") || Includes(lower, "procedure") then "SOPs"
    else "General"
  }

  /** The reference reading of the rules: the label of the first rule that
      fires, or "General" when none does. */
  function FirstFiring(lower: string, k: nat): (r: string)
    requires k <= |Rules|
    decreases |Rules| - k
  {
    if k == |Rules| then DefaultCategory
    else if Fires(lower, k) then Rules[k].1
    else FirstFiring(lower, k + 1)
  }

  lemma AnyIncluded2(s: string, a: string, b: string)
    ensures AnyIncluded(s, [a, b]) <==> Includes(s, a) || Includes(s, b)
  {
    if Includes(s, a) { assert [a, b][0] == a; }
    if Includes(s, b) { assert [a, b][1] == b; }
  }

  lemma AnyIncluded3(s: string, a: string, b: string, c: string)
    ensures AnyIncluded(s, [a, b, c]) <==> Includes(s, a) || Includes(s, b) || Includes(s, c)
  {
    if Includes(s, a) { assert [a, b, c][0] == a; }
    if Includes(s, b) { assert [a, b, c][1] == b; }
    if Includes(s, c) { assert [a, b, c][2] == c; }
  }

  lemma AnyIncluded1(s: string, a: string)
    ensures AnyIncluded(s, [a]) <==> Includes(s, a)
  {
    if Includes(s, a) { assert [a][0] == a; }
  }

  /** What the first five rules test, spelled out. */
  lemma FiresFirstFive(lower: string)
    ensures Fires(lower, 0) <==> Includes(lower, "hr") || Includes(lower, "human resource")
    ensures Fires(lower, 1) <==> Includes(lower, "finance") || Includes(lower, "accounting")
    ensures Fires(lower, 2) <==> Includes(lower, "compliance") || Includes(lower, "regulatory")
    ensures Fires(lower, 3) <==> Includes(lower, "operations") || Includes(lower, "ops")
    ensures Fires(lower, 4) <==> Includes(lower, "sales") || Includes(lower, "marketing")
  {
    AnyIncluded2(lower, "hr", "human resource");
    AnyIncluded2(lower, "finance", "accounting");
    AnyIncluded2(lower, "compliance", "regulatory");
    AnyIncluded2(lower, "operations", "ops");
    AnyIncluded2(lower, "sales", "marketing");
  }

  /** What the last five rules test, spelled out. */
  lemma FiresLastFive(lower: string)
    ensures Fires(lower, 5) <==> Includes(lower, "it") || Includes(lower, "technology") || Includes(lower, "tech")
    ensures Fires(lower, 6) <==> Includes(lower, "security") || Includes(lower, "safety")
    ensures Fires(lower, 7) <==> Includes(lower, "customer") || Includes(lower, "service")
    ensures Fires(lower, 8) <==> Includes(lower, "policy")
    ensures Fires(lower, 9) <==> Includes(lower, "sop") || Includes(lower, "procedure")
  {
    AnyIncluded3(lower, "it", "technology", "tech");
    AnyIncluded2(lower, "security", "safety");
    AnyIncluded2(lower, "customer", "service");
    AnyIncluded1(lower, "policy");
    AnyIncluded2(lower, "sop", "procedure");
  }

  /** The chain of tests is exactly "first firing rule wins, else General". */
  lemma InferCategoryIsFirstFiring(filename: string)
    ensures InferCategory(filename) == FirstFiring(ToLower(filename), 0)
  {
    FiresFirstFive(ToLower(filename));
    FiresLastFive(ToLower(filename));
  }

  lemma {:induction false} FirstFiringAt(lower: string, k: nat, j: nat)
    requires k <= j < |Rules|
    requires Fires(lower, j) && forall i :: k <= i < j ==> !Fires(lower, i)
    ensures FirstFiring(lower, k) == Rules[j].1
    decreases j - k
  {
    if k < j {
      FirstFiringAt(lower, k + 1, j);
    }
  }

  lemma {:induction false} FirstFiringNone(lower: string, k: nat)
    requires k <= |Rules|
    requires forall i :: k <= i < |Rules| ==> !Fires(lower, i)
    ensures FirstFiring(lower, k) == DefaultCategory
    decreases |Rules| - k
  {
    if k < |Rules| {
      FirstFiringNone(lower, k + 1);
    }
  }

  /** Rule `j` decides the category exactly when it fires and no earlier
      rule does; with no firing rule the category is "General". */
  lemma InferCategoryRule(filename: string, j: nat)
    requires j < |Rules|
    requires Fires(ToLower(filename), j)
    requires forall i :: 0 <= i < j ==> !Fires(ToLower(filename), i)
    ensures InferCategory(filename) == Rules[j].1
  {
    InferCategoryIsFirstFiring(filename);
    FirstFiringAt(ToLower(filename), 0, j);
  }

  lemma InferCategoryDefault(filename: string)
    requires forall i :: 0 <= i < |Rules| ==> !Fires(ToLower(filename), i)
    ensures InferCategory(filename) == DefaultCategory
  {
    InferCategoryIsFirstFiring(filename);
    FirstFiringNone(ToLower(filename), 0);
  }

  /** Any name containing "hr" (in any letter case) is filed under HR, even
      when it also names another category, as in "HR Finance Policy". */
  lemma HrWins(filename: string)
    requires Includes(ToLower(filename), "hr")
    ensures InferCategory(filename) == "HR"
  {
  }

  /** "security" contains "it", so a name containing "security" is never
      filed under Security: the IT rule (or an earlier one) fires first. */
  lemma SecurityNamesGoElsewhere(filename: string)
    requires Includes(ToLower(filename), "security")
    ensures InferCategory(filename) != "Security"
  {
    var lower := ToLower(filename);
    var i :| 0 <= i <= |lower| - 8 && OccursAt(lower, "security", i);
    assert lower[i..i + 8] == "security";
    assert lower[i + 5] == lower[i..i + 8][5] == 'i';
    assert lower[i + 6] == lower[i..i + 8][6] == 't';
    assert lower[i + 5..i + 7] == "it";
    assert OccursAt(lower, "it", i + 5);
  }

  /** No file is ever filed under "All", the pseudo-category the category
      list puts first. */
  lemma InferCategoryNeverAll(filename: string)
    ensures InferCategory(filename) != "All"
  {
  }

  // ---------------------------------------------------------------------------
  // chunkText (api/index.js:32-44)

  function Min(a: int, b: int): int {
    if a < b then a else b
  }

  /** The word windows `[start, end)` the loop of `chunkText` visits from
      `start` on, for `n` words: each window is `targetSize` words long, or
      cut at the last word, and the next starts `overlap` words before the
      end of the previous one. */
  function Windows(n: nat, targetSize: nat, overlap: nat, start: nat): seq<(nat, nat)>
    requires overlap < targetSize
    decreases n - start
  {
    if start >= n then []
    else if start + targetSize >= n then [(start, n)]
    else [(start, start + targetSize)] + Windows(n, targetSize, overlap, start + targetSize - overlap)
  }

  /** The chunk texts from `start` on: each window's words joined by single
      spaces. */
  function ChunksFrom(words: seq<string>, targetSize: nat, overlap: nat, start: nat): (r: seq<string>)
    requires overlap < targetSize
    ensures |r| == |Windows(|words|, targetSize, overlap, start)|
    decreases |words| - start
  {
    if start >= |words| then []
    else if start + targetSize >= |words| then [Join(words[start..])]
    else [Join(words[start..start + targetSize])] + ChunksFrom(words, targetSize, overlap, start + targetSize - overlap)
  }

  /** Every window is non-empty and inside the `n` words. */
  predicate WindowsFit(ws: seq<(nat, nat)>, n: nat) {
    forall k :: 0 <= k < |ws| ==> ws[k].0 < ws[k].1 <= n
  }

  /** Every window is at least `overlap` words long. */
  predicate PastOverlap(ws: seq<(nat, nat)>, overlap: nat) {
    forall k :: 0 <= k < |ws| ==> ws[k].0 + overlap <= ws[k].1
  }

  /** Every window but the last is `targetSize` words long and ends before
      word `n`, and the next window starts `overlap` words before its end. */
  predicate Stepped(ws: seq<(nat, nat)>, targetSize: nat, overlap: nat, n: nat) {
    forall k :: 0 <= k < |ws| - 1 ==>
      ws[k].1 == ws[k].0 + targetSize < n && ws[k + 1].0 + overlap == ws[k].1
  }

  /** The chunks of a list of words. */
  function ChunksOf(words: seq<string>, targetSize: nat, overlap: nat): seq<string>
    requires overlap < targetSize
  {
    if |words| <= targetSize then [Join(words)] else ChunksFrom(words, targetSize, overlap, 0)
  }

  /** The chunks `chunkText` returns, as a function of the text. */
  function ChunkSpec(text: string, targetSize: nat, overlap: nat): seq<string>
    requires overlap < targetSize
  {
    ChunksOf(Words(text), targetSize, overlap)
  }

  /** `chunkText(text, targetSize, overlap)`. The loop only advances when
      `overlap < targetSize` (otherwise `start = end - overlap` never moves
      forward), which the callers meet with the defaults 500 and 100. */
  method ChunkText(text: string, targetSize: nat, overlap: nat) returns (chunks: seq<string>)
    requires overlap < targetSize
    ensures chunks == ChunkSpec(text, targetSize, overlap)
  {
    var words := Words(text);
    chunks := ChunkWordList(words, targetSize, overlap);
  }

  /** The part of `chunkText` after the split: one chunk for few words,
      otherwise the window loop. */
  method ChunkWordList(words: seq<string>, targetSize: nat, overlap: nat) returns (chunks: seq<string>)
    requires overlap < targetSize
    ensures chunks == ChunksOf(words, targetSize, overlap)
  {
    if |words| <= targetSize {
      return [Join(words)];
    }
    var n := |words|;
    chunks := [];
    var start := 0;
    assert chunks + ChunksFrom(words, targetSize, overlap, start) == ChunksFrom(words, targetSize, overlap, 0);
    while start < n
      invariant 0 <= start <= n
      invariant chunks + ChunksFrom(words, targetSize, overlap, start) == ChunksFrom(words, targetSize, overlap, 0)
      decreases n - start
    {
      // `end = Math.min(start + targetSize, n)`: the rest of the words when
      // they fit, and then the loop stops; a full window otherwise.
      if start + targetSize >= n {
        LastChunk(words, targetSize, overlap, start);
        chunks := chunks + [Join(words[start..])];
        return;
      }
      ChunkStep(words, targetSize, overlap, start, chunks);
      chunks := chunks + [Join(words[start..start + targetSize])];
      start := start + targetSize - overlap;
    }
    assert ChunksFrom(words, targetSize, overlap, start) == [];
    assert chunks + [] == chunks;
  }

  /** The chunk at `start` when the rest of the words fit in one. */
  lemma LastChunk(words: seq<string>, targetSize: nat, overlap: nat, start: nat)
    requires overlap < targetSize && start < |words| <= start + targetSize
    ensures ChunksFrom(words, targetSize, overlap, start) == [Join(words[start..])]
  {
  }

  /** The chunk at `start` followed by those from the next window on. */
  lemma ChunksUnfold(words: seq<string>, targetSize: nat, overlap: nat, start: nat)
    requires overlap < targetSize && start + targetSize < |words|
    ensures ChunksFrom(words, targetSize, overlap, start) ==
      [Join(words[start..start + targetSize])] + ChunksFrom(words, targetSize, overlap, start + targetSize - overlap)
  {
  }

  /** One full window moved from the rest to the collected prefix. */
  lemma ChunkStep(words: seq<string>, targetSize: nat, overlap: nat, start: nat, chunks: seq<string>)
    requires overlap < targetSize && start + targetSize < |words|
    requires chunks + ChunksFrom(words, targetSize, overlap, start) == ChunksFrom(words, targetSize, overlap, 0)
    ensures (chunks + [Join(words[start..start + targetSize])]) + ChunksFrom(words, targetSize, overlap, start + targetSize - overlap) ==
      ChunksFrom(words, targetSize, overlap, 0)
  {
    ChunksUnfold(words, targetSize, overlap, start);
    AppendStep(chunks, Join(words[start..start + targetSize]), ChunksFrom(words, targetSize, overlap, start + targetSize - overlap),
      ChunksFrom(words, targetSize, overlap, start), ChunksFrom(words, targetSize, overlap, 0));
  }

  /** Moving one piece from the rest to the collected prefix keeps the whole. */
  lemma AppendStep<T>(acc: seq<T>, x: T, rest: seq<T>, here: seq<T>, all: seq<T>)
    requires here == [x] + rest && acc + here == all
    ensures (acc + [x]) + rest == all
  {
  }

  /** Chunk `k` joins the words of window `k`. */
  predicate ChunkIsWindow(words: seq<string>, targetSize: nat, overlap: nat, start: nat, k: nat)
    requires overlap < targetSize
  {
    var ws := Windows(|words|, targetSize, overlap, start);
    var cs := ChunksFrom(words, targetSize, overlap, start);
    k < |ws| && k < |cs| && ws[k].0 < ws[k].1 <= |words| && cs[k] == Join(words[ws[k].0..ws[k].1])
  }

  lemma {:induction false} ChunkAt(words: seq<string>, targetSize: nat, overlap: nat, start: nat, k: nat)
    requires overlap < targetSize
    requires k < |Windows(|words|, targetSize, overlap, start)|
    ensures ChunkIsWindow(words, targetSize, overlap, start, k)
    decreases |words| - start
  {
    var n := |words|;
    if start + targetSize < n && k > 0 {
      var next := start + targetSize - overlap;
      ChunkAt(words, targetSize, overlap, next, k - 1);
      assert Windows(n, targetSize, overlap, start)[k] == Windows(n, targetSize, overlap, next)[k - 1];
      assert ChunksFrom(words, targetSize, overlap, start)[k] == ChunksFrom(words, targetSize, overlap, next)[k - 1];
    } else if start + targetSize >= n {
      assert words[start..n] == words[start..];
    }
  }

  lemma FitCons(w: (nat, nat), rest: seq<(nat, nat)>, n: nat)
    requires w.0 < w.1 <= n && WindowsFit(rest, n)
    ensures WindowsFit([w] + rest, n)
  {
    var ws := [w] + rest;
    forall k | 0 < k < |ws| ensures ws[k].0 < ws[k].1 <= n {
      assert ws[k] == rest[k - 1];
    }
  }

  lemma {:induction false} WindowsInRange(n: nat, targetSize: nat, overlap: nat, start: nat)
    requires overlap < targetSize
    ensures WindowsFit(Windows(n, targetSize, overlap, start), n)
    decreases n - start
  {
    if start < n && start + targetSize < n {
      var next := start + targetSize - overlap;
      WindowsInRange(n, targetSize, overlap, next);
      FitCons((start, start + targetSize), Windows(n, targetSize, overlap, next), n);
    }
  }

  lemma StepCons(w: (nat, nat), rest: seq<(nat, nat)>, targetSize: nat, overlap: nat, n: nat)
    requires Stepped(rest, targetSize, overlap, n) && rest != []
    requires w.1 == w.0 + targetSize < n && rest[0].0 + overlap == w.1
    ensures Stepped([w] + rest, targetSize, overlap, n)
  {
    var ws := [w] + rest;
    forall k | 0 < k < |ws| - 1
      ensures ws[k].1 == ws[k].0 + targetSize < n && ws[k + 1].0 + overlap == ws[k].1
    {
      assert ws[k] == rest[k - 1] && ws[k + 1] == rest[k];
    }
  }

  lemma PastCons(w: (nat, nat), rest: seq<(nat, nat)>, overlap: nat)
    requires w.0 + overlap <= w.1 && PastOverlap(rest, overlap)
    ensures PastOverlap([w] + rest, overlap)
  {
    var ws := [w] + rest;
    forall k | 0 < k < |ws| ensures ws[k].0 + overlap <= ws[k].1 {
      assert ws[k] == rest[k - 1];
    }
  }

  /** The shape of a list of windows from `start`: the first starts at
      `start`, the last ends at the last word and is at most `targetSize`
      words long, and every window but the last is exactly `targetSize`
      words long, with the next one starting `overlap` words before its
      end. */
  predicate Shaped(ws: seq<(nat, nat)>, start: nat, targetSize: nat, overlap: nat, n: nat) {
    && |ws| >= 1
    && ws[0].0 == start
    && ws[|ws| - 1].1 == n
    && ws[|ws| - 1].1 - ws[|ws| - 1].0 <= targetSize
    && Stepped(ws, targetSize, overlap, n)
  }

  lemma {:induction false} WindowsShape(n: nat, targetSize: nat, overlap: nat, start: nat)
    requires overlap < targetSize && start < n
    ensures Shaped(Windows(n, targetSize, overlap, start), start, targetSize, overlap, n)
    decreases n - start
  {
    if start + targetSize < n {
      var next := start + targetSize - overlap;
      WindowsShape(n, targetSize, overlap, next);
      var rest := Windows(n, targetSize, overlap, next);
      assert Windows(n, targetSize, overlap, start) == [(start, start + targetSize)] + rest;
      ShapedCons((start, start + targetSize), rest, targetSize, overlap, n);
    }
  }

  lemma ShapedCons(w: (nat, nat), rest: seq<(nat, nat)>, targetSize: nat, overlap: nat, n: nat)
    requires rest != [] && Shaped(rest, rest[0].0, targetSize, overlap, n)
    requires w.1 == w.0 + targetSize < n && rest[0].0 + overlap == w.1
    ensures Shaped([w] + rest, w.0, targetSize, overlap, n)
  {
    StepCons(w, rest, targetSize, overlap, n);
    var ws := [w] + rest;
    assert ws[0] == w && ws[|ws| - 1] == rest[|rest| - 1];
  }

  /** From a start at least `overlap` words before the end, every window is
      at least `overlap` words long. */
  lemma {:induction false} WindowsPastOverlap(n: nat, targetSize: nat, overlap: nat, start: nat)
    requires overlap < targetSize && start + overlap <= n
    ensures PastOverlap(Windows(n, targetSize, overlap, start), overlap)
    decreases n - start
  {
    if start < n && start + targetSize < n {
      var next := start + targetSize - overlap;
      WindowsPastOverlap(n, targetSize, overlap, next);
      PastCons((start, start + targetSize), Windows(n, targetSize, overlap, next), overlap);
    }
  }

  lemma AllWordsSlice(words: seq<string>, i: nat, j: nat)
    requires AllWords(words) && i <= j <= |words|
    ensures AllWords(words[i..j])
  {
    assert forall k :: 0 <= k < j - i ==> words[i..j][k] == words[i + k];
  }

  /** The words of a chunk of a long word list are exactly the words of
      its window, so a chunk never holds more than `targetSize` words. */
  lemma ChunkWords(words: seq<string>, targetSize: nat, overlap: nat, k: nat)
    requires overlap < targetSize && AllWords(words)
    requires |words| > targetSize
    requires k < |ChunksOf(words, targetSize, overlap)|
    ensures var ws := Windows(|words|, targetSize, overlap, 0);
      && k < |ws| && ws[k].0 < ws[k].1 <= |words|
      && Words(ChunksOf(words, targetSize, overlap)[k]) == words[ws[k].0..ws[k].1]
      && 1 <= |Words(ChunksOf(words, targetSize, overlap)[k])| <= targetSize
  {
    var ws := Windows(|words|, targetSize, overlap, 0);
    ChunkAt(words, targetSize, overlap, 0, k);
    assert ws[k].1 - ws[k].0 <= targetSize by {
      WindowsShape(|words|, targetSize, overlap, 0);
      if k < |ws| - 1 {
        assert ws[k].1 == ws[k].0 + targetSize;
      }
    }
    WindowWords(words, ws[k].0, ws[k].1, targetSize);
  }

  lemma WindowWords(words: seq<string>, lo: nat, hi: nat, targetSize: nat)
    requires AllWords(words) && lo < hi <= |words| && hi - lo <= targetSize
    ensures Words(Join(words[lo..hi])) == words[lo..hi]
    ensures 1 <= |Words(Join(words[lo..hi]))| <= targetSize
  {
    AllWordsSlice(words, lo, hi);
    WordsOfJoin(words[lo..hi]);
  }

  /** A list of at most `targetSize` words is one chunk holding those words,
      joined by single spaces (so the empty text gives `[""]`). */
  lemma ShortTextOneChunk(words: seq<string>, targetSize: nat, overlap: nat)
    requires overlap < targetSize && AllWords(words)
    requires |words| <= targetSize
    ensures ChunksOf(words, targetSize, overlap) == [Join(words)]
    ensures Words(ChunksOf(words, targetSize, overlap)[0]) == words
  {
    WordsOfJoin(words);
  }

  lemma EmptyTextOneEmptyChunk(targetSize: nat, overlap: nat)
    requires overlap < targetSize
    ensures ChunkSpec("", targetSize, overlap) == [""]
  {
    assert Split("") == [""];
  }

  /** Consecutive chunks of a long word list share exactly `overlap` words:
      the last `overlap` words of one are the first `overlap` of the next. */
  lemma ChunksOverlap(words: seq<string>, targetSize: nat, overlap: nat, k: nat)
    requires overlap < targetSize && AllWords(words)
    requires |words| > targetSize
    requires k + 1 < |ChunksOf(words, targetSize, overlap)|
    ensures var c := ChunksOf(words, targetSize, overlap);
      && |Words(c[k])| == targetSize
      && overlap <= |Words(c[k + 1])|
      && Words(c[k])[targetSize - overlap..] == Words(c[k + 1])[..overlap]
  {
    var n := |words|;
    var ws := Windows(n, targetSize, overlap, 0);
    WindowsShape(n, targetSize, overlap, 0);
    WindowsPastOverlap(n, targetSize, overlap, 0);
    var c := ChunksOf(words, targetSize, overlap);
    ChunkWords(words, targetSize, overlap, k);
    ChunkWords(words, targetSize, overlap, k + 1);
    assert ws[k].1 == ws[k].0 + targetSize && ws[k + 1].0 + overlap == ws[k].1;
    SlicesOverlap(words, Words(c[k]), Words(c[k + 1]), ws[k].0, ws[k].1, ws[k + 1].0, ws[k + 1].1, targetSize, overlap);
  }

  /** Two windows, the second starting `overlap` before the end of the
      first, which is full. */
  lemma SlicesOverlap(words: seq<string>, x: seq<string>, y: seq<string>,
                      a0: nat, a1: nat, b0: nat, b1: nat, targetSize: nat, overlap: nat)
    requires a1 == a0 + targetSize && overlap <= targetSize && b0 + overlap == a1 <= b1 <= |words|
    requires x == words[a0..a1] && y == words[b0..b1]
    ensures |x| == targetSize && overlap <= |y| && x[targetSize - overlap..] == y[..overlap]
  {
    assert words[a0..a1][targetSize - overlap..] == words[b0..a1];
    assert words[b0..b1][..overlap] == words[b0..a1];
  }

  /** The `token_count` the sync stores, `chunk.split(/\s+/).length`, is the
      number of words in the chunk, except for the single empty chunk of a
      text without words, which counts 1. */
  lemma ChunkTokenCount(words: seq<string>, targetSize: nat, overlap: nat, k: nat)
    requires overlap < targetSize && AllWords(words)
    requires k < |ChunksOf(words, targetSize, overlap)|
    ensures |Split(ChunksOf(words, targetSize, overlap)[k])|
      == if words == [] then 1 else |Words(ChunksOf(words, targetSize, overlap)[k])|
  {
    if |words| <= targetSize {
      if words == [] {
        assert Split([]) == [[]];
      } else {
        SplitOfJoin(words);
        WordsOfJoin(words);
      }
    } else {
      var ws := Windows(|words|, targetSize, overlap, 0);
      ChunkWords(words, targetSize, overlap, k);
      ChunkAt(words, targetSize, overlap, 0, k);
      AllWordsSlice(words, ws[k].0, ws[k].1);
      SplitOfJoin(words[ws[k].0..ws[k].1]);
    }
  }

  /** The words each window holds beyond its first `overlap`, in order. */
  function TailWords(words: seq<string>, ws: seq<(nat, nat)>, overlap: nat): seq<string>
    requires WindowsFit(ws, |words|) && PastOverlap(ws, overlap)
    decreases |ws|
  {
    if ws == [] then []
    else words[ws[0].0 + overlap..ws[0].1] + TailWords(words, ws[1..], overlap)
  }

  lemma {:induction false} TailWordsFrom(words: seq<string>, targetSize: nat, overlap: nat, start: nat)
    requires overlap < targetSize && start + overlap <= |words|
    ensures WindowsFit(Windows(|words|, targetSize, overlap, start), |words|)
    ensures PastOverlap(Windows(|words|, targetSize, overlap, start), overlap)
    ensures start < |words| ==>
      TailWords(words, Windows(|words|, targetSize, overlap, start), overlap) == words[start + overlap..]
    decreases |words| - start
  {
    var n := |words|;
    WindowsInRange(n, targetSize, overlap, start);
    WindowsPastOverlap(n, targetSize, overlap, start);
    if start < n {
      var ws := Windows(n, targetSize, overlap, start);
      if start + targetSize < n {
        var end := start + targetSize;
        TailWordsFrom(words, targetSize, overlap, end - overlap);
        TailWordsStep(words, ws, overlap, end, Windows(n, targetSize, overlap, end - overlap));
      } else {
        assert ws == [(start, n)] && ws[1..] == [];
      }
    }
  }

  lemma TailWordsStep(words: seq<string>, ws: seq<(nat, nat)>, overlap: nat, end: nat, rest: seq<(nat, nat)>)
    requires ws != [] && WindowsFit(ws, |words|) && PastOverlap(ws, overlap)
    requires ws[1..] == rest && ws[0].1 == end && ws[0].0 + overlap <= end
    requires end - overlap < |words| && TailWords(words, rest, overlap) == words[end..]
    ensures TailWords(words, ws, overlap) == words[ws[0].0 + overlap..]
  {
    assert words[ws[0].0 + overlap..] == words[ws[0].0 + overlap..end] + words[end..];
  }

  /** Chunk coverage: the first chunk's words followed by every later
      chunk's words past its overlap give back the whole word list, so no
      word is lost and none is repeated beyond the overlaps. */
  lemma ChunkCoverage(words: seq<string>, targetSize: nat, overlap: nat)
    requires overlap < targetSize
    requires |words| > targetSize
    ensures var ws := Windows(|words|, targetSize, overlap, 0);
      && |ws| >= 2 && WindowsFit(ws, |words|) && PastOverlap(ws, overlap)
      && words[ws[0].0..ws[0].1] + TailWords(words, ws[1..], overlap) == words
  {
    var n := |words|;
    var ws := Windows(n, targetSize, overlap, 0);
    var rest := Windows(n, targetSize, overlap, targetSize - overlap);
    WindowsInRange(n, targetSize, overlap, 0);
    WindowsInRange(n, targetSize, overlap, targetSize - overlap);
    WindowsPastOverlap(n, targetSize, overlap, 0);
    TailWordsFrom(words, targetSize, overlap, targetSize - overlap);
    assert ws == [(0, targetSize)] + rest;
    CoverageStep(words, ws, rest, targetSize, overlap);
  }

  lemma CoverageStep(words: seq<string>, ws: seq<(nat, nat)>, rest: seq<(nat, nat)>, targetSize: nat, overlap: nat)
    requires 0 < targetSize <= |words| && ws == [(0, targetSize)] + rest
    requires WindowsFit(ws, |words|) && PastOverlap(ws, overlap)
    requires WindowsFit(rest, |words|) && PastOverlap(rest, overlap)
    requires TailWords(words, rest, overlap) == words[targetSize..]
    ensures words[ws[0].0..ws[0].1] + TailWords(words, ws[1..], overlap) == words
  {
    assert ws[0] == (0, targetSize) && ws[1..] == rest;
    assert words[0..targetSize] + words[targetSize..] == words;
  }

  /** With the defaults (500 words, 100 overlap), 600 words give two
      chunks: words 1-500 and words 401-600. */
  lemma SixHundredWords(words: seq<string>)
    requires |words| == 600
    ensures ChunksOf(words, 500, 100) == [Join(words[..500]), Join(words[400..])]
  {
    assert ChunksFrom(words, 500, 100, 400) == [Join(words[400..])];
    assert ChunksFrom(words, 500, 100, 0) == [Join(words[0..500])] + ChunksFrom(words, 500, 100, 400);
    assert words[0..500] == words[..500];
  }

  // ---------------------------------------------------------------------------
  // extractText (api/index.js:46-70)

  type byte = b: int | 0 <= b < 256

  /** A downloaded payload: text (an export) or raw bytes (a binary download). */
  datatype Content = Text(text: string) | Bytes(bytes: seq<byte>)

  /** The decoders `extractText` calls out to: `Buffer.toString('utf-8')`,
      `pdf-parse` and `mammoth`. A decoder that throws returns `None`. */
  datatype Decoders = Decoders(
    utf8: seq<byte> -> string,
    pdf: seq<byte> -> Option<string>,
    docx: seq<byte> -> Option<string>)

  const PdfType: string := "application/pdf"
  const DocxType: string := "application/vnd.openxmlformats-officedocument.wordprocessingml.document"

  predicate IsPlainType(mimeType: string) {
    mimeType == "text/plain" || mimeType == "text/csv" || mimeType == "text/markdown"
  }

  /** The salvage test of the fallback path: more than 10 characters after
      trimming and no NUL character. */
  predicate Salvageable(s: string) {
    s != [] && |Trim(s)| > 10 && '\0' !in s
  }

  /** `extractText(content, mimeType)`; `None` stands for `null`. */
  function ExtractText(content: Content, mimeType: string, dec: Decoders): (r: Option<string>)
    ensures content.Text? ==> r == Some(content.text)
    ensures content.Bytes? && mimeType == PdfType ==> r == dec.pdf(content.bytes)
    ensures content.Bytes? && mimeType == DocxType ==> r == dec.docx(content.bytes)
    ensures content.Bytes? && IsPlainType(mimeType) ==> r == Some(dec.utf8(content.bytes))
    ensures content.Bytes? && !IsPlainType(mimeType) && mimeType != PdfType && mimeType != DocxType ==>
      (r.Some? <==> Salvageable(dec.utf8(content.bytes)))
      && (r.Some? ==> r.value == dec.utf8(content.bytes))
  {
    match content
    case Text(s) => Some(s)
    case Bytes(b) =>
      if IsPlainType(mimeType) then Some(dec.utf8(b))
      else if mimeType == PdfType then dec.pdf(b)
      else if mimeType == DocxType then dec.docx(b)
      else
        var str := dec.utf8(b);
        if Salvageable(str) then Some(str) else None
  }

  /** The test `handleSync` applies to the extracted text before indexing:
      `!text || text.trim().length < 10` skips the file. */
  predicate UsableText(r: Option<string>) {
    r.Some? && r.value != [] && |Trim(r.value)| >= 10
  }

  /** Text salvaged by the fallback path always passes the sync's own test,
      while a plain-text file with fewer than 10 non-blank characters is
      skipped by it. */
  lemma FallbackTextIsUsable(content: Content, mimeType: string, dec: Decoders)
    requires content.Bytes? && !IsPlainType(mimeType) && mimeType != PdfType && mimeType != DocxType
    ensures ExtractText(content, mimeType, dec).Some? ==> UsableText(ExtractText(content, mimeType, dec))
  {
  }
}
