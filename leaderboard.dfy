/** The two leaderboards: `handleTestLeaderboard` (the best attempt of
    each branch on one document) and `handleGlobalLeaderboard` (each
    branch's best attempt per document, averaged). Both read the attempts
    back with `loadStore`, and the store file was written with
    `JSON.stringify`, which turns the `NaN` percentage of a test without
    questions into `null`. In `>`, `-` and `+` a `null` is 0, so here a
    `NaN` percentage of the store compares and sums as 0. */
module Leaderboard {
  import opened Wrappers
  import opened Store
  import opened Sorting
  import opened JsObject
  import opened JsMath

  /** The value a stored percentage has once read back: `null`, written
      for `NaN`, is 0 in arithmetic and comparisons. */
  function Loaded(p: Number): int {
    if p.Num? then p.n else 0
  }

  /** `x > y` on two read-back percentages. */
  predicate Gt(x: Number, y: Number) {
    Loaded(x) > Loaded(y)
  }

  /** `store.testAttempts.filter(a => a.document_id === documentId)` */
  function ForDocument(attempts: seq<Attempt>, documentId: int): (r: seq<Attempt>)
    ensures forall i :: 0 <= i < |r| ==> r[i] in attempts && r[i].document_id == documentId
    decreases |attempts|
  {
    if attempts == [] then []
    else
      var a := attempts[|attempts| - 1];
      ForDocument(attempts[..|attempts| - 1], documentId) + (if a.document_id == documentId then [a] else [])
  }

  // ---------------------------------------------------------------------------
  // handleTestLeaderboard

  /** Every entry of `bestByBranch` is stored under its attempt's branch. */
  predicate KeyedByBranch(d: Dict<Attempt>) {
    forall i :: 0 <= i < |d| ==> d[i].1.branch_id == d[i].0
  }

  predicate WellKeyed(d: Dict<Attempt>) {
    DistinctKeys(d) && KeyedByBranch(d)
  }

  /** One round of the loop: the attempt replaces the branch's entry when
      there is none or when its percentage is strictly greater. */
  function Consider(best: Dict<Attempt>, a: Attempt): Dict<Attempt> {
    var e := Get(best, a.branch_id);
    if e.None? || Gt(a.percentage, e.value.percentage) then Put(best, a.branch_id, a) else best
  }

  lemma ConsiderKeeps(best: Dict<Attempt>, a: Attempt)
    requires WellKeyed(best)
    ensures WellKeyed(Consider(best, a))
  {
    PutFacts(best, a.branch_id, a, a.branch_id);
  }

  /** What one round does to the entry of branch `b`. */
  lemma ConsiderGet(best: Dict<Attempt>, a: Attempt, b: int)
    requires WellKeyed(best)
    ensures Get(Consider(best, a), b)
      == if b == a.branch_id && (Get(best, b).None? || Gt(a.percentage, Get(best, b).value.percentage))
         then Some(a) else Get(best, b)
  {
    PutFacts(best, a.branch_id, a, b);
  }

  /** `bestByBranch` after the loop has read all of `attempts`. */
  function BestByBranch(attempts: seq<Attempt>): (r: Dict<Attempt>)
    ensures WellKeyed(r)
    decreases |attempts|
  {
    if attempts == [] then []
    else
      var best := BestByBranch(attempts[..|attempts| - 1]);
      ConsiderKeeps(best, attempts[|attempts| - 1]);
      Consider(best, attempts[|attempts| - 1])
  }

  /** The sort comparator `b.percentage - a.percentage || a.completed_at -
      b.completed_at` as "a may stay before b": a difference of 0 falls
      through to the time. */
  predicate LeaderLe(a: Attempt, b: Attempt) {
    if Loaded(a.percentage) != Loaded(b.percentage)
    then Loaded(a.percentage) > Loaded(b.percentage)
    else a.completed_at <= b.completed_at
  }

  /** The best attempts in leaderboard order. */
  function Ranking(attempts: seq<Attempt>, documentId: int): seq<Attempt> {
    Sort(Values(BestByBranch(ForDocument(attempts, documentId))), LeaderLe)
  }

  datatype LeaderRow = LeaderRow(
    rank: nat,
    branch_name: string,
    branch_code: string,
    score: nat,
    total: nat,
    percentage: Number,
    passed: bool,
    completed_at: Timestamp)

  function Row(a: Attempt, rank: nat): LeaderRow {
    LeaderRow(rank, a.branch_name, a.branch_code, a.score, a.total, a.percentage, a.passed, a.completed_at)
  }

  /** `.map((a, i) => ({ rank: i + 1, ... }))` */
  function Rows(ranked: seq<Attempt>): (r: seq<LeaderRow>)
    ensures |r| == |ranked|
    ensures forall i :: 0 <= i < |r| ==> r[i] == Row(ranked[i], i + 1)
  {
    seq(|ranked|, i requires 0 <= i < |ranked| => Row(ranked[i], i + 1))
  }

  /** `handleTestLeaderboard(req, res, branch, documentId)` */
  method HandleTestLeaderboard(store: Store, documentId: int) returns (rows: seq<LeaderRow>)
    ensures rows == Rows(Ranking(store.testAttempts, documentId))
  {
    var attempts := ForDocument(store.testAttempts, documentId);
    var best: Dict<Attempt> := [];
    for i := 0 to |attempts|
      invariant best == BestByBranch(attempts[..i])
    {
      assert attempts[..i + 1][..i] == attempts[..i];
      var a := attempts[i];
      var e := Get(best, a.branch_id);
      if e.None? || Gt(a.percentage, e.value.percentage) {
        best := Put(best, a.branch_id, a);
      }
    }
    assert attempts[..|attempts|] == attempts;
    rows := Rows(Sort(Values(best), LeaderLe));
  }

  /** Some attempt of the list is by branch `b`. */
  predicate HasBranch(attempts: seq<Attempt>, b: int) {
    exists i :: 0 <= i < |attempts| && attempts[i].branch_id == b
  }

  lemma HasBranchSnoc(attempts: seq<Attempt>, b: int)
    requires attempts != []
    ensures HasBranch(attempts, b)
        <==> HasBranch(attempts[..|attempts| - 1], b) || attempts[|attempts| - 1].branch_id == b
  {
    var init := attempts[..|attempts| - 1];
    if HasBranch(init, b) {
      var i :| 0 <= i < |init| && init[i].branch_id == b;
      assert attempts[i] == init[i];
    }
    if HasBranch(attempts, b) {
      var i :| 0 <= i < |attempts| && attempts[i].branch_id == b;
      if i < |init| {
        assert init[i] == attempts[i];
      }
    }
  }

  /** A branch has an entry exactly when it has an attempt. */
  lemma {:induction false} BestCoversBranches(attempts: seq<Attempt>, b: int)
    ensures Get(BestByBranch(attempts), b).Some? <==> HasBranch(attempts, b)
    decreases |attempts|
  {
    if attempts != [] {
      var init := attempts[..|attempts| - 1];
      var a := attempts[|attempts| - 1];
      BestCoversBranches(init, b);
      ConsiderGet(BestByBranch(init), a, b);
      HasBranchSnoc(attempts, b);
    }
  }

  /** The kept attempt is one of the branch's own attempts, and none of
      them has a strictly greater percentage. */
  lemma {:induction false} BestUnbeaten(attempts: seq<Attempt>, b: int, x: Attempt)
    requires Get(BestByBranch(attempts), b) == Some(x)
    ensures x in attempts && x.branch_id == b
    ensures forall i :: 0 <= i < |attempts| && attempts[i].branch_id == b ==> !Gt(attempts[i].percentage, x.percentage)
    decreases |attempts|
  {
    var init := attempts[..|attempts| - 1];
    var a := attempts[|attempts| - 1];
    var best := BestByBranch(init);
    ConsiderGet(best, a, b);
    assert forall i :: 0 <= i < |init| ==> attempts[i] == init[i];
    if Get(best, b) == Some(x) {
      BestUnbeaten(init, b, x);
    } else {
      assert x == a && a.branch_id == b;
      if Get(best, b).Some? {
        var y := Get(best, b).value;
        BestUnbeaten(init, b, y);
        assert forall i :: 0 <= i < |init| && init[i].branch_id == b ==> !Gt(init[i].percentage, y.percentage);
      } else {
        BestCoversBranches(init, b);
      }
    }
  }

  /** The kept attempt is the earliest one with the branch's highest
      percentage: an equal percentage later does not replace it, because
      the comparison is strict. */
  lemma {:induction false} BestIsEarliestMaximum(attempts: seq<Attempt>, b: int, x: Attempt) returns (k: nat)
    requires Get(BestByBranch(attempts), b) == Some(x)
    ensures k < |attempts| && attempts[k] == x
    ensures forall j :: 0 <= j < |attempts| && attempts[j].branch_id == b ==> Loaded(attempts[j].percentage) <= Loaded(x.percentage)
    ensures forall j :: 0 <= j < k && attempts[j].branch_id == b ==> Loaded(attempts[j].percentage) < Loaded(x.percentage)
    decreases |attempts|
  {
    BestUnbeaten(attempts, b, x);
    var init := attempts[..|attempts| - 1];
    var a := attempts[|attempts| - 1];
    var best := BestByBranch(init);
    PutFacts(best, a.branch_id, a, b);
    if Get(best, b) == Some(x) {
      k := BestIsEarliestMaximum(init, b, x);
      assert attempts[k] == init[k];
      forall j | 0 <= j < k && attempts[j].branch_id == b
        ensures Loaded(attempts[j].percentage) < Loaded(x.percentage)
      {
        assert attempts[j] == init[j];
      }
    } else {
      k := |attempts| - 1;
      if Get(best, b).Some? {
        var y := Get(best, b).value;
        var ky := BestIsEarliestMaximum(init, b, y);
        forall j | 0 <= j < k && attempts[j].branch_id == b
          ensures Loaded(attempts[j].percentage) < Loaded(x.percentage)
        {
          assert attempts[j] == init[j];
        }
      } else {
        BestCoversBranches(init, b);
        forall j | 0 <= j < k
          ensures attempts[j].branch_id != b
        {
          assert attempts[j] == init[j];
        }
      }
    }
  }

  /** The leaderboard lists exactly the attempts kept for some branch. */
  lemma RankingContents(attempts: seq<Attempt>, documentId: int, x: Attempt)
    ensures x in Ranking(attempts, documentId)
        <==> Get(BestByBranch(ForDocument(attempts, documentId)), x.branch_id) == Some(x)
  {
    var best := BestByBranch(ForDocument(attempts, documentId));
    SortSameElements(Values(best), LeaderLe, x);
    ValuesIff(best, x);
    GetIff(best, x.branch_id, x);
    if exists k :: (k, x) in best {
      var k :| (k, x) in best;
      var i :| 0 <= i < |best| && best[i] == (k, x);
      assert k == x.branch_id;
    }
  }

  /** The comparator is a total preorder on attempts: higher percentage
      first, then earlier completion. */
  lemma LeaderLePreorder(s: seq<Attempt>)
    ensures TotalPreorderOn(s, LeaderLe)
  {
  }

  /** The leaderboard is in order: percentages never increase down the
      list, and equal ones are in completion order. */
  lemma RankingSorted(attempts: seq<Attempt>, documentId: int)
    ensures SortedBy(Ranking(attempts, documentId), LeaderLe)
  {
    var vs := Values(BestByBranch(ForDocument(attempts, documentId)));
    LeaderLePreorder(vs);
    SortSorted(vs, LeaderLe);
  }

  // ---------------------------------------------------------------------------
  // handleGlobalLeaderboard

  /** `bestScores[b]`, an empty object when the branch has none. */
  function Inner(best: Dict<Dict<Attempt>>, b: int): Dict<Attempt> {
    Get(best, b).GetOr([])
  }

  /** `bestScores[b]` is a non-empty object of attempts by branch `b`,
      each stored under its document. */
  predicate GoodInner(b: int, docs: Dict<Attempt>) {
    && |docs| > 0 && DistinctKeys(docs)
    && forall j :: 0 <= j < |docs| ==> docs[j].1.document_id == docs[j].0 && docs[j].1.branch_id == b
  }

  predicate WellFormedScores(best: Dict<Dict<Attempt>>) {
    DistinctKeys(best) && forall i :: 0 <= i < |best| ==> GoodInner(best[i].0, best[i].1)
  }

  /** One round of the loop: create the branch's object if needed, then
      replace the document's entry when there is none or the attempt's
      percentage is strictly greater. */
  function ConsiderGlobal(best: Dict<Dict<Attempt>>, a: Attempt): Dict<Dict<Attempt>> {
    var inner := Inner(best, a.branch_id);
    var e := Get(inner, a.document_id);
    var inner' := if e.None? || Gt(a.percentage, e.value.percentage) then Put(inner, a.document_id, a) else inner;
    Put(best, a.branch_id, inner')
  }

  lemma ConsiderGlobalKeeps(best: Dict<Dict<Attempt>>, a: Attempt)
    requires WellFormedScores(best)
    ensures WellFormedScores(ConsiderGlobal(best, a))
  {
    var inner := Inner(best, a.branch_id);
    var e := Get(inner, a.document_id);
    InnerGood(best, a.branch_id);
    if e.None? || Gt(a.percentage, e.value.percentage) {
      GoodInnerPut(a.branch_id, inner, a);
      WellFormedPut(best, a.branch_id, Put(inner, a.document_id, a));
    } else {
      WellFormedPut(best, a.branch_id, inner);
    }
  }

  /** The object stored for a branch is a good one. */
  lemma InnerGood(best: Dict<Dict<Attempt>>, b: int)
    requires WellFormedScores(best)
    ensures Get(best, b).Some? ==> GoodInner(b, Inner(best, b))
    ensures Get(best, b).None? ==> Inner(best, b) == []
  {
    var f := Find(best, b);
    if f.Some? {
      assert Inner(best, b) == best[f.value].1;
    }
  }

  lemma GoodInnerPut(b: int, docs: Dict<Attempt>, a: Attempt)
    requires docs == [] || GoodInner(b, docs)
    requires a.branch_id == b
    ensures GoodInner(b, Put(docs, a.document_id, a))
  {
    PutFacts(docs, a.document_id, a, a.document_id);
    PutEntries(docs, a.document_id, a);
    var r := Put(docs, a.document_id, a);
    forall j | 0 <= j < |r| ensures r[j].1.document_id == r[j].0 && r[j].1.branch_id == b {
      if r[j] != (a.document_id, a) {
        var k :| 0 <= k < |docs| && docs[k] == r[j];
      }
    }
  }

  lemma WellFormedPut(best: Dict<Dict<Attempt>>, b: int, docs: Dict<Attempt>)
    requires WellFormedScores(best) && GoodInner(b, docs)
    ensures WellFormedScores(Put(best, b, docs))
  {
    PutFacts(best, b, docs, b);
    PutEntries(best, b, docs);
    var r := Put(best, b, docs);
    forall i | 0 <= i < |r| ensures GoodInner(r[i].0, r[i].1) {
      if r[i] != (b, docs) {
        var k :| 0 <= k < |best| && best[k] == r[i];
      }
    }
  }

  /** `bestScores` after the loop has read all of `attempts`. */
  function BestScores(attempts: seq<Attempt>): (r: Dict<Dict<Attempt>>)
    ensures WellFormedScores(r)
    decreases |attempts|
  {
    if attempts == [] then []
    else
      var best := BestScores(attempts[..|attempts| - 1]);
      ConsiderGlobalKeeps(best, attempts[|attempts| - 1]);
      ConsiderGlobal(best, attempts[|attempts| - 1])
  }

  /** `attempts.reduce((sum, a) => sum + a.percentage, 0)` on read-back
      percentages. */
  function SumPercentages(attempts: seq<Attempt>): int
    decreases |attempts|
  {
    if attempts == [] then 0
    else SumPercentages(attempts[..|attempts| - 1]) + Loaded(attempts[|attempts| - 1].percentage)
  }

  /** `Math.round(sum / attempts.length)`, that is the floor of
      `sum / n + 1/2`. */
  function AveragePercentage(attempts: seq<Attempt>): int
    requires |attempts| > 0
  {
    var n := |attempts|;
    (2 * SumPercentages(attempts) + n) / (2 * n)
  }

  /** `attempts.filter(a => a.passed).length` */
  function PassedCount(attempts: seq<Attempt>): (r: nat)
    ensures r <= |attempts|
    decreases |attempts|
  {
    if attempts == [] then 0
    else PassedCount(attempts[..|attempts| - 1]) + (if attempts[|attempts| - 1].passed then 1 else 0)
  }

  datatype GlobalRow = GlobalRow(
    rank: nat,
    branch_name: string,
    branch_code: string,
    tests_taken: nat,
    average_percentage: int,
    tests_passed: nat)

  /** The row of one branch, before ranks are assigned (rank 0). */
  function Summary(docs: Dict<Attempt>): GlobalRow
    requires |docs| > 0
  {
    var attempts := Values(docs);
    EntriesSame(docs);
    var sample := attempts[0];
    GlobalRow(0, sample.branch_name, sample.branch_code, |attempts|, AveragePercentage(attempts),
              PassedCount(attempts))
  }

  /** `Object.entries(bestScores).map(([, docs]) => ...)` */
  function Summaries(best: Dict<Dict<Attempt>>): (r: seq<GlobalRow>)
    requires WellFormedScores(best)
    ensures |r| == |best|
  {
    var es := Entries(best);
    EntriesNonEmpty(best);
    seq(|es|, i requires 0 <= i < |es| && |es[i].1| > 0 => Summary(es[i].1))
  }

  lemma EntriesNonEmpty(best: Dict<Dict<Attempt>>)
    requires WellFormedScores(best)
    ensures |Entries(best)| == |best|
    ensures forall i :: 0 <= i < |Entries(best)| ==> |Entries(best)[i].1| > 0
  {
    EntriesSame(best);
    forall i | 0 <= i < |Entries(best)| ensures |Entries(best)[i].1| > 0 {
      var j := EntryOrigin(best, i);
    }
  }

  /** `(a, b) => b.average_percentage - a.average_percentage` as "a may stay
      before b". */
  predicate AverageLe(a: GlobalRow, b: GlobalRow) {
    a.average_percentage >= b.average_percentage
  }

  /** The rows with ranks 1, 2, ... in list order. */
  function Ranked(rows: seq<GlobalRow>): (r: seq<GlobalRow>)
    ensures |r| == |rows|
    ensures forall i :: 0 <= i < |r| ==> r[i] == rows[i].(rank := i + 1)
  {
    seq(|rows|, i requires 0 <= i < |rows| => rows[i].(rank := i + 1))
  }

  /** The whole global leaderboard of a list of attempts. */
  function GlobalLeaderboard(attempts: seq<Attempt>): seq<GlobalRow> {
    Ranked(Sort(Summaries(BestScores(attempts)), AverageLe))
  }

  /** Creating the branch's object and then assigning into it is one
      round of `ConsiderGlobal`. */
  lemma NestedAssignment(before: Dict<Dict<Attempt>>, a: Attempt, best: Dict<Dict<Attempt>>)
    requires WellFormedScores(before)
    requires best == if Get(before, a.branch_id).None? then Put(before, a.branch_id, []) else before
    ensures Get(best, a.branch_id) == Some(Inner(before, a.branch_id))
    ensures var docs := Inner(before, a.branch_id);
      var existing := Get(docs, a.document_id);
      ConsiderGlobal(before, a)
        == if existing.None? || Gt(a.percentage, existing.value.percentage)
           then Put(best, a.branch_id, Put(docs, a.document_id, a)) else best
  {
    var docs := Inner(before, a.branch_id);
    PutFacts(before, a.branch_id, [], a.branch_id);
    if Get(before, a.branch_id).None? {
      PutPut(before, a.branch_id, [], Put(docs, a.document_id, a));
    } else {
      PutSame(before, a.branch_id);
    }
  }

  /** `handleGlobalLeaderboard(req, res, branch)` */
  method HandleGlobalLeaderboard(store: Store) returns (rows: seq<GlobalRow>)
    ensures rows == GlobalLeaderboard(store.testAttempts)
  {
    var attempts := store.testAttempts;
    var best: Dict<Dict<Attempt>> := [];
    for i := 0 to |attempts|
      invariant best == BestScores(attempts[..i])
    {
      assert attempts[..i + 1][..i] == attempts[..i];
      var a := attempts[i];
      ghost var before := best;
      if Get(best, a.branch_id).None? {
        best := Put(best, a.branch_id, []);
      }
      NestedAssignment(before, a, best);
      var docs := Get(best, a.branch_id).value;
      var existing := Get(docs, a.document_id);
      if existing.None? || Gt(a.percentage, existing.value.percentage) {
        best := Put(best, a.branch_id, Put(docs, a.document_id, a));
      }
    }
    assert attempts[..|attempts|] == attempts;
    rows := Sort(Summaries(best), AverageLe);
    rows := AssignRanks(rows);
  }

  /** `leaderboard.forEach((entry, i) => entry.rank = i + 1)` */
  method AssignRanks(sorted: seq<GlobalRow>) returns (rows: seq<GlobalRow>)
    ensures rows == Ranked(sorted)
  {
    rows := sorted;
    for i := 0 to |rows|
      invariant |rows| == |sorted|
      invariant forall j :: 0 <= j < i ==> rows[j] == sorted[j].(rank := j + 1)
      invariant forall j :: i <= j < |rows| ==> rows[j] == sorted[j]
    {
      rows := rows[i := rows[i].(rank := i + 1)];
    }
  }

  /** Each branch's entry for a document is the attempt the per-document
      leaderboard keeps for that branch: both loops apply the same strict
      comparison in the same order. */
  lemma {:induction false} GlobalMatchesPerDocument(attempts: seq<Attempt>, b: int, d: int)
    ensures Get(Inner(BestScores(attempts), b), d) == Get(BestByBranch(ForDocument(attempts, d)), b)
    decreases |attempts|
  {
    if attempts != [] {
      var init := attempts[..|attempts| - 1];
      var a := attempts[|attempts| - 1];
      GlobalMatchesPerDocument(init, b, d);
      var best := BestScores(init);
      var inner := Inner(best, a.branch_id);
      var e := Get(inner, a.document_id);
      var inner' := if e.None? || Gt(a.percentage, e.value.percentage) then Put(inner, a.document_id, a) else inner;
      if Get(best, a.branch_id).Some? {
        GetIff(best, a.branch_id, inner);
        var i :| 0 <= i < |best| && best[i] == (a.branch_id, inner);
      }
      PutFacts(best, a.branch_id, inner', b);
      PutFacts(inner, a.document_id, a, d);
      assert Inner(BestScores(attempts), b) == if b == a.branch_id then inner' else Inner(best, b);
      var fd := ForDocument(init, d);
      if a.document_id == d {
        assert ForDocument(attempts, d) == fd + [a];
        assert (fd + [a])[..|fd + [a]| - 1] == fd;
        ConsiderGet(BestByBranch(fd), a, b);
        if b == a.branch_id {
          GlobalMatchesPerDocument(init, a.branch_id, a.document_id);
        }
      } else {
        assert ForDocument(attempts, d) == fd;
      }
    }
  }

  /** A round creates an entry for the attempt's branch and removes none. */
  lemma ConsiderGlobalGet(best: Dict<Dict<Attempt>>, a: Attempt, b: int)
    requires WellFormedScores(best)
    ensures Get(ConsiderGlobal(best, a), b).Some? <==> b == a.branch_id || Get(best, b).Some?
  {
    var inner := Inner(best, a.branch_id);
    var e := Get(inner, a.document_id);
    var inner' := if e.None? || Gt(a.percentage, e.value.percentage) then Put(inner, a.document_id, a) else inner;
    PutFacts(best, a.branch_id, inner', b);
  }

  /** A branch has an entry exactly when it has an attempt. */
  lemma {:induction false} GlobalCoversBranches(attempts: seq<Attempt>, b: int)
    ensures Get(BestScores(attempts), b).Some? <==> HasBranch(attempts, b)
    decreases |attempts|
  {
    if attempts != [] {
      var init := attempts[..|attempts| - 1];
      GlobalCoversBranches(init, b);
      ConsiderGlobalGet(BestScores(init), attempts[|attempts| - 1], b);
      HasBranchSnoc(attempts, b);
    }
  }

  /** The global leaderboard has one row per branch entry. */
  lemma GlobalRowCount(attempts: seq<Attempt>)
    ensures |GlobalLeaderboard(attempts)| == |BestScores(attempts)|
  {
  }

  /** Every stored attempt is one of `attempts`. */
  predicate FromList(best: Dict<Dict<Attempt>>, attempts: seq<Attempt>) {
    forall i, j :: 0 <= i < |best| && 0 <= j < |best[i].1| ==> best[i].1[j].1 in attempts
  }

  lemma ConsiderGlobalFrom(best: Dict<Dict<Attempt>>, a: Attempt, attempts: seq<Attempt>)
    requires WellFormedScores(best) && FromList(best, attempts) && a in attempts
    ensures FromList(ConsiderGlobal(best, a), attempts)
  {
    var inner := Inner(best, a.branch_id);
    var e := Get(inner, a.document_id);
    var inner' := if e.None? || Gt(a.percentage, e.value.percentage) then Put(inner, a.document_id, a) else inner;
    var f := Find(best, a.branch_id);
    assert forall j :: 0 <= j < |inner| ==> inner[j].1 in attempts by {
      if f.Some? {
        assert inner == best[f.value].1;
      }
    }
    PutEntries(inner, a.document_id, a);
    assert forall j :: 0 <= j < |inner'| ==> inner'[j].1 in attempts by {
      forall j | 0 <= j < |inner'| ensures inner'[j].1 in attempts {
        if inner'[j] != (a.document_id, a) {
          var k :| 0 <= k < |inner| && inner[k] == inner'[j];
        }
      }
    }
    PutEntries(best, a.branch_id, inner');
    var r := ConsiderGlobal(best, a);
    forall i, j | 0 <= i < |r| && 0 <= j < |r[i].1| ensures r[i].1[j].1 in attempts {
      if r[i] != (a.branch_id, inner') {
        var k :| 0 <= k < |best| && best[k] == r[i];
      }
    }
  }

  /** The stored attempts are attempts of the list. */
  lemma {:induction false} BestScoresFrom(attempts: seq<Attempt>)
    ensures FromList(BestScores(attempts), attempts)
    decreases |attempts|
  {
    if attempts != [] {
      var init := attempts[..|attempts| - 1];
      var a := attempts[|attempts| - 1];
      BestScoresFrom(init);
      var best := BestScores(init);
      assert FromList(best, attempts) by {
        forall i, j | 0 <= i < |best| && 0 <= j < |best[i].1| ensures best[i].1[j].1 in attempts {
          assert best[i].1[j].1 in init;
        }
      }
      ConsiderGlobalFrom(best, a, attempts);
    }
  }

  /** Each summary comes from a non-empty object of stored attempts. */
  lemma SummaryOrigin(attempts: seq<Attempt>, j: nat) returns (docs: Dict<Attempt>)
    requires j < |Summaries(BestScores(attempts))|
    ensures |docs| > 0 && forall k :: 0 <= k < |docs| ==> docs[k].1 in attempts
    ensures Summaries(BestScores(attempts))[j] == Summary(docs)
  {
    var best := BestScores(attempts);
    EntriesNonEmpty(best);
    var o := EntryOrigin(best, j);
    BestScoresFrom(attempts);
    docs := best[o].1;
  }

  /** The attempts whose stored percentage is a number. */
  function NumericOnly(attempts: seq<Attempt>): (r: seq<Attempt>)
    ensures forall i :: 0 <= i < |r| ==> r[i].percentage.Num? && r[i] in attempts
    decreases |attempts|
  {
    if attempts == [] then []
    else
      var a := attempts[|attempts| - 1];
      NumericOnly(attempts[..|attempts| - 1]) + (if a.percentage.Num? then [a] else [])
  }

  lemma SumSnoc(attempts: seq<Attempt>, a: Attempt)
    ensures SumPercentages(attempts + [a]) == SumPercentages(attempts) + Loaded(a.percentage)
  {
    assert (attempts + [a])[..|attempts|] == attempts;
  }

  /** A `null` percentage adds nothing to the sum: it is the sum of the
      numeric percentages alone. */
  lemma {:induction false} SumSkipsNull(attempts: seq<Attempt>)
    ensures SumPercentages(attempts) == SumPercentages(NumericOnly(attempts))
    decreases |attempts|
  {
    if attempts != [] {
      var init := attempts[..|attempts| - 1];
      var a := attempts[|attempts| - 1];
      SumSkipsNull(init);
      assert SumPercentages(attempts) == SumPercentages(init) + Loaded(a.percentage);
      if a.percentage.Num? {
        assert NumericOnly(attempts) == NumericOnly(init) + [a];
        SumSnoc(NumericOnly(init), a);
      } else {
        assert NumericOnly(attempts) == NumericOnly(init);
      }
    }
  }

  /** Stored percentages between 0 and 100 sum to at most 100 per attempt. */
  lemma {:induction false} SumBounds(attempts: seq<Attempt>)
    requires forall i :: 0 <= i < |attempts| && attempts[i].percentage.Num? ==> 0 <= attempts[i].percentage.n <= 100
    ensures 0 <= SumPercentages(attempts) <= 100 * |attempts|
    decreases |attempts|
  {
    if attempts != [] {
      assert forall i :: 0 <= i < |attempts| - 1 ==> attempts[i] == attempts[..|attempts| - 1][i];
      SumBounds(attempts[..|attempts| - 1]);
    }
  }

  /** The average is `Math.round` of the exact mean. */
  lemma AverageIsRound(attempts: seq<Attempt>)
    requires |attempts| > 0
    ensures AveragePercentage(attempts) == Round(SumPercentages(attempts) as real / |attempts| as real)
  {
    RoundOfRatio(SumPercentages(attempts), |attempts|);
  }

  /** Averages of stored percentages between 0 and 100 lie between 0 and
      100, a `null` one counting as 0. */
  lemma AverageBounds(attempts: seq<Attempt>)
    requires |attempts| > 0
    requires forall i :: 0 <= i < |attempts| && attempts[i].percentage.Num? ==> 0 <= attempts[i].percentage.n <= 100
    ensures 0 <= AveragePercentage(attempts) <= 100
  {
    SumBounds(attempts);
    RoundedRatioBounds(SumPercentages(attempts), |attempts|, 100);
  }

  /** A row describes a non-empty set of documents: at least one test
      taken, the passed ones among them, and the average of their
      percentages. */
  lemma SummaryFacts(docs: Dict<Attempt>, attempts: seq<Attempt>)
    requires |docs| > 0
    requires forall j :: 0 <= j < |docs| ==> docs[j].1 in attempts
    ensures var r := Summary(docs);
      && r.tests_taken == |docs| >= 1
      && r.tests_passed <= r.tests_taken
      && ((forall i :: 0 <= i < |attempts| && attempts[i].percentage.Num? ==> 0 <= attempts[i].percentage.n <= 100)
          ==> 0 <= r.average_percentage <= 100)
  {
    var vs := Values(docs);
    EntriesSame(docs);
    forall k | 0 <= k < |vs| ensures vs[k] in attempts {
      var j := EntryOrigin(docs, k);
    }
    if forall i :: 0 <= i < |attempts| && attempts[i].percentage.Num? ==> 0 <= attempts[i].percentage.n <= 100 {
      AverageBounds(vs);
    }
  }

  /** Every row of the global leaderboard has its rank, at least one test
      taken, no more passed than taken, and, for percentages between 0
      and 100, an average between 0 and 100. */
  lemma GlobalRowFacts(attempts: seq<Attempt>, i: nat)
    requires i < |GlobalLeaderboard(attempts)|
    ensures var r := GlobalLeaderboard(attempts)[i];
      && r.rank == i + 1
      && 1 <= r.tests_taken
      && r.tests_passed <= r.tests_taken
      && ((forall k :: 0 <= k < |attempts| && attempts[k].percentage.Num? ==> 0 <= attempts[k].percentage.n <= 100)
          ==> 0 <= r.average_percentage <= 100)
  {
    var docs := RowOrigin(attempts, i);
    SummaryFacts(docs, attempts);
  }

  /** Each row is the summary of a non-empty object of stored attempts,
      ranked by its position. */
  lemma RowOrigin(attempts: seq<Attempt>, i: nat) returns (docs: Dict<Attempt>)
    requires i < |GlobalLeaderboard(attempts)|
    ensures |docs| > 0 && forall k :: 0 <= k < |docs| ==> docs[k].1 in attempts
    ensures GlobalLeaderboard(attempts)[i] == Summary(docs).(rank := i + 1)
  {
    var j := SortedFrom(Summaries(BestScores(attempts)), i);
    docs := SummaryOrigin(attempts, j);
  }

  /** Where a row of the sorted list comes from. */
  lemma SortedFrom(rows: seq<GlobalRow>, i: nat) returns (j: nat)
    requires i < |rows|
    ensures j < |rows| && rows[j] == Sort(rows, AverageLe)[i]
    ensures Ranked(Sort(rows, AverageLe))[i] == rows[j].(rank := i + 1)
  {
    var sorted := Sort(rows, AverageLe);
    SortSameElements(rows, AverageLe, sorted[i]);
    j :| 0 <= j < |rows| && rows[j] == sorted[i];
  }

  /** The rows are in order of non-increasing average. */
  lemma GlobalSorted(attempts: seq<Attempt>)
    ensures var rows := GlobalLeaderboard(attempts);
      forall i, j :: 0 <= i < j < |rows| ==> rows[i].average_percentage >= rows[j].average_percentage
  {
    SortSorted(Summaries(BestScores(attempts)), AverageLe);
  }
}
