/** The static question bank helpers of api/lib/questionBank.js: looking up
    a pillar's or a module's questions and scenarios, formatting questions
    for the client without their answers, grading letter answers, and the
    Fisher-Yates shuffle. The bank itself (`PILLARS`) is a parameter. */
module QuestionBank {
  import opened Wrappers
  import opened JsText
  import opened JsMath
  import Assessment

  /** A multiple-choice question: text `q`, options `o`, the index `a` of
      the correct option and the explanation `e`. */
  datatype Mcq = Mcq(id: int, q: string, o: seq<string>, a: int, e: string)

  datatype Scenario = Scenario(id: int, title: string, text: string, question: string, answer: string)

  /** A module; `scenarios` is absent on modules without the field. */
  datatype Module = Module(id: string, title: string, questions: seq<Mcq>, scenarios: Option<seq<Scenario>>)

  datatype Pillar = Pillar(id: int, title: string, modules: seq<Module>)

  // ---------------------------------------------------------------------------
  // Lookup

  /** `PILLARS.find(p => p.id === pillarId)`, as a position. */
  function FindPillar(bank: seq<Pillar>, pillarId: int): (r: Option<nat>)
    ensures r.Some? ==>
      && r.value < |bank| && bank[r.value].id == pillarId
      && forall j :: 0 <= j < r.value ==> bank[j].id != pillarId
    ensures r.None? ==> forall j :: 0 <= j < |bank| ==> bank[j].id != pillarId
  {
    if bank == [] then None
    else if bank[0].id == pillarId then Some(0)
    else
      var r := FindPillar(bank[1..], pillarId);
      if r.None? then None else Some(r.value + 1)
  }

  /** `pillar.modules.find(m => m.id === moduleId)`, as a position. */
  function FindModule(mods: seq<Module>, moduleId: string): (r: Option<nat>)
    ensures r.Some? ==>
      && r.value < |mods| && mods[r.value].id == moduleId
      && forall j :: 0 <= j < r.value ==> mods[j].id != moduleId
    ensures r.None? ==> forall j :: 0 <= j < |mods| ==> mods[j].id != moduleId
  {
    if mods == [] then None
    else if mods[0].id == moduleId then Some(0)
    else
      var r := FindModule(mods[1..], moduleId);
      if r.None? then None else Some(r.value + 1)
  }

  /** The questions of the modules, module after module. */
  function Flatten(mods: seq<Module>): seq<Mcq> {
    if mods == [] then [] else Flatten(mods[..|mods| - 1]) + mods[|mods| - 1].questions
  }

  /** What `getPillarQuestions` returns. */
  function PillarQuestions(bank: seq<Pillar>, pillarId: int): seq<Mcq> {
    var k := FindPillar(bank, pillarId);
    if k.None? then [] else Flatten(bank[k.value].modules)
  }

  /** `getPillarQuestions(pillarId)`: pushes each module's questions in turn. */
  method GetPillarQuestions(bank: seq<Pillar>, pillarId: int) returns (questions: seq<Mcq>)
    ensures questions == PillarQuestions(bank, pillarId)
  {
    var k := FindPillar(bank, pillarId);
    if k.None? {
      return [];
    }
    var mods := bank[k.value].modules;
    questions := [];
    for i := 0 to |mods|
      invariant questions == Flatten(mods[..i])
    {
      assert mods[..i + 1][..i] == mods[..i];
      questions := questions + mods[i].questions;
    }
    assert mods[..|mods|] == mods;
  }

  /** `getModuleQuestions(pillarId, moduleId)` */
  function GetModuleQuestions(bank: seq<Pillar>, pillarId: int, moduleId: string): seq<Mcq> {
    var k := FindPillar(bank, pillarId);
    if k.None? then []
    else
      var m := FindModule(bank[k.value].modules, moduleId);
      if m.None? then [] else bank[k.value].modules[m.value].questions
  }

  /** `getModuleScenarios(pillarId, moduleId)` */
  function GetModuleScenarios(bank: seq<Pillar>, pillarId: int, moduleId: string): seq<Scenario> {
    var k := FindPillar(bank, pillarId);
    if k.None? then []
    else
      var m := FindModule(bank[k.value].modules, moduleId);
      if m.None? then [] else bank[k.value].modules[m.value].scenarios.GetOr([])
  }

  lemma {:induction false} FlattenAppend(a: seq<Module>, b: seq<Module>)
    ensures Flatten(a + b) == Flatten(a) + Flatten(b)
    decreases |b|
  {
    if b != [] {
      assert (a + b)[..|a + b| - 1] == a + b[..|b| - 1];
      assert (a + b)[|a + b| - 1] == b[|b| - 1];
      FlattenAppend(a, b[..|b| - 1]);
    } else {
      assert a + b == a;
    }
  }

  /** In the flattened list, module `j`'s questions sit right after those
      of the modules before it, in their own order. */
  lemma FlattenSlot(mods: seq<Module>, j: nat)
    requires j < |mods|
    ensures var start := |Flatten(mods[..j])|;
      && start + |mods[j].questions| <= |Flatten(mods)|
      && Flatten(mods)[start..start + |mods[j].questions|] == mods[j].questions
  {
    assert mods == mods[..j] + ([mods[j]] + mods[j + 1..]);
    FlattenAppend(mods[..j], [mods[j]] + mods[j + 1..]);
    FlattenAppend([mods[j]], mods[j + 1..]);
    assert Flatten([mods[j]]) == mods[j].questions by {
      assert [mods[j]][..0] == [];
    }
  }

  /** A question is among a pillar's questions exactly when one of its
      modules has it; an unknown pillar has none. */
  lemma {:induction false} FlattenIff(mods: seq<Module>, q: Mcq)
    ensures q in Flatten(mods) <==> exists j :: 0 <= j < |mods| && q in mods[j].questions
    decreases |mods|
  {
    if mods != [] {
      var n := |mods| - 1;
      var init := mods[..n];
      assert Flatten(mods) == Flatten(init) + mods[n].questions;
      FlattenIff(init, q);
      if q in Flatten(init) {
        var j :| 0 <= j < |init| && q in init[j].questions;
        assert mods[j] == init[j];
      } else if q in mods[n].questions {
        assert 0 <= n < |mods|;
      }
      if exists j :: 0 <= j < |mods| && q in mods[j].questions {
        var j :| 0 <= j < |mods| && q in mods[j].questions;
        if j < n {
          assert init[j] == mods[j];
        }
      }
    }
  }

  lemma PillarQuestionsIff(bank: seq<Pillar>, pillarId: int, q: Mcq)
    ensures q in PillarQuestions(bank, pillarId) <==>
      && FindPillar(bank, pillarId).Some?
      && exists j :: 0 <= j < |bank[FindPillar(bank, pillarId).value].modules|
          && q in bank[FindPillar(bank, pillarId).value].modules[j].questions
  {
    var k := FindPillar(bank, pillarId);
    if k.Some? {
      FlattenIff(bank[k.value].modules, q);
    }
  }

  /** A module's questions are a contiguous run of its pillar's questions. */
  lemma ModuleQuestionsInPillar(bank: seq<Pillar>, pillarId: int, moduleId: string) returns (start: nat)
    ensures var qs := GetModuleQuestions(bank, pillarId, moduleId);
      && start + |qs| <= |PillarQuestions(bank, pillarId)|
      && PillarQuestions(bank, pillarId)[start..start + |qs|] == qs
  {
    var k := FindPillar(bank, pillarId);
    start := 0;
    if k.Some? {
      var mods := bank[k.value].modules;
      var m := FindModule(mods, moduleId);
      if m.Some? {
        FlattenSlot(mods, m.value);
        start := |Flatten(mods[..m.value])|;
      }
    }
  }

  /** Unknown pillars and modules have no questions and no scenarios, and
      neither has a module without a `scenarios` field. */
  lemma UnknownIsEmpty(bank: seq<Pillar>, pillarId: int, moduleId: string)
    ensures FindPillar(bank, pillarId).None? ==>
      && PillarQuestions(bank, pillarId) == []
      && GetModuleQuestions(bank, pillarId, moduleId) == []
      && GetModuleScenarios(bank, pillarId, moduleId) == []
    ensures (FindPillar(bank, pillarId).Some?
      && FindModule(bank[FindPillar(bank, pillarId).value].modules, moduleId).None?) ==>
      GetModuleQuestions(bank, pillarId, moduleId) == [] && GetModuleScenarios(bank, pillarId, moduleId) == []
    ensures forall j :: 0 <= j < |bank| && bank[j].id == pillarId ==>
      PillarQuestions(bank, pillarId) == Flatten(bank[FindPillar(bank, pillarId).value].modules)
  {
  }

  // ---------------------------------------------------------------------------
  // Formatting for the client

  /** Every option index below this bound has a letter that is a Unicode
      scalar value. */
  const MaxOptions: nat := 0xD800 - 65

  /** `String.fromCharCode(65 + i)`: "A" for 0, "B" for 1, ... */
  function Letter(i: nat): (c: char)
    requires i < MaxOptions
    ensures c as int == 65 + i
  {
    (65 + i) as char
  }

  predicate WellFormed(q: Mcq) {
    |q.o| <= MaxOptions && 0 <= q.a < |q.o|
  }

  /** `${letter}. ${option}` */
  function Labelled(i: nat, option: string): (s: string)
    requires i < MaxOptions
    ensures |s| == |option| + 3 && s[0] == Letter(i) && s[1..3] == ". " && s[3..] == option
  {
    [Letter(i)] + ". " + option
  }

  /** A question as the client receives it: no answer, no explanation. */
  datatype ClientMcq = ClientMcq(index: int, id: int, qtype: string, question: string, options: seq<string>)

  function FormatOne(q: Mcq, idx: int): (c: ClientMcq)
    requires |q.o| <= MaxOptions
    ensures c.index == idx && c.id == q.id && c.qtype == "multiple_choice" && c.question == q.q
    ensures |c.options| == |q.o|
    ensures forall i :: 0 <= i < |q.o| ==> c.options[i] == Labelled(i, q.o[i])
  {
    ClientMcq(idx, q.id, "multiple_choice", q.q,
      seq(|q.o|, i requires 0 <= i < |q.o| => Labelled(i, q.o[i])))
  }

  /** `formatQuestionsForClient(questions)`: same count and order, `index`
      is the position, options are labelled A, B, C, ... */
  function FormatQuestionsForClient(questions: seq<Mcq>): (r: seq<ClientMcq>)
    requires forall k :: 0 <= k < |questions| ==> |questions[k].o| <= MaxOptions
    ensures |r| == |questions|
    ensures forall k :: 0 <= k < |questions| ==> r[k] == FormatOne(questions[k], k)
  {
    seq(|questions|, k requires 0 <= k < |questions| => FormatOne(questions[k], k))
  }

  // ---------------------------------------------------------------------------
  // Grading

  datatype GradedMcq = GradedMcq(
    index: int,
    question_id: int,
    question: string,
    qtype: string,
    user_answer: string,
    correct_answer: string,
    explanation: string,
    is_correct: bool)

  datatype GradeReport = GradeReport(score: nat, total: nat, percentage: int, passed: bool, results: seq<GradedMcq>)

  /** `userAnswer.trim().charAt(0).toUpperCase() === letter` */
  predicate LeadLetterIs(answer: string, letter: char) {
    var t := Trim(answer);
    t != [] && Upper(t[0]) == letter
  }

  /** The result for question `q` at position `idx`. */
  function GradeOne(q: Mcq, idx: int, answers: seq<Assessment.SubmittedAnswer>): (g: GradedMcq)
    requires WellFormed(q)
    ensures g.index == idx && g.question_id == q.id && g.question == q.q && g.qtype == "multiple_choice"
    ensures g.correct_answer == Labelled(q.a, q.o[q.a]) && g.explanation == q.e
  {
    var userAnswer := Assessment.AnswerFor(answers, idx);
    GradedMcq(idx, q.id, q.q, "multiple_choice", userAnswer, Labelled(q.a, q.o[q.a]), q.e,
      LeadLetterIs(userAnswer, Letter(q.a)))
  }

  function CountCorrect(results: seq<GradedMcq>): (n: nat)
    ensures n <= |results|
  {
    if results == [] then 0
    else CountCorrect(results[..|results| - 1]) + (if results[|results| - 1].is_correct then 1 else 0)
  }

  /** `total > 0 ? Math.round((score / total) * 100) : 0`, of the exact
      ratio. */
  function Percent(score: nat, total: nat): int {
    if total > 0 then Assessment.Percentage(score, total).n else 0
  }

  /** `gradeAnswers(questions, userAnswers)`: grades each question in turn,
      counting the correct ones. */
  method GradeAnswers(questions: seq<Mcq>, answers: seq<Assessment.SubmittedAnswer>) returns (r: GradeReport)
    requires forall k :: 0 <= k < |questions| ==> WellFormed(questions[k])
    ensures |r.results| == |questions|
    ensures forall k :: 0 <= k < |questions| ==> r.results[k] == GradeOne(questions[k], k, answers)
    ensures r.score == CountCorrect(r.results) && r.total == |questions|
    ensures r.percentage == Percent(r.score, r.total) && r.passed == (r.percentage >= 80)
  {
    var score := 0;
    var results := [];
    for idx := 0 to |questions|
      invariant |results| == idx
      invariant forall k :: 0 <= k < idx ==> results[k] == GradeOne(questions[k], k, answers)
      invariant score == CountCorrect(results)
    {
      var g := GradeOne(questions[idx], idx, answers);
      var next := results + [g];
      assert next[..idx] == results && next[idx] == g;
      if g.is_correct {
        score := score + 1;
      }
      results := next;
    }
    var total := |questions|;
    var percentage := Percent(score, total);
    r := GradeReport(score, total, percentage, percentage >= 80, results);
  }

  /** With questions the percentage is `Math.round` of the exact ratio and
      lies in 0 .. 100; without questions it is 0 and the test is failed. */
  lemma PercentFacts(score: nat, total: nat)
    requires score <= total
    ensures total > 0 ==> Percent(score, total) == Round(score as real / total as real * 100.0)
    ensures 0 <= Percent(score, total) <= 100
    ensures total == 0 ==> Percent(score, total) == 0
  {
    if total > 0 {
      Assessment.PercentageIsRound(score, total);
      Assessment.PercentageBounds(score, total);
    }
  }

  /** An empty or missing answer is wrong. */
  lemma MissingAnswerWrong(q: Mcq, idx: int, answers: seq<Assessment.SubmittedAnswer>)
    requires WellFormed(q)
    requires forall k :: 0 <= k < |answers| ==> answers[k].index != idx
    ensures !GradeOne(q, idx, answers).is_correct
  {
    Assessment.AnswerForMissing(answers, idx);
  }

  /** The graded answer is that of the first entry with the question's
      index, the empty string when its answer is missing. */
  lemma FirstEntryGraded(q: Mcq, idx: int, answers: seq<Assessment.SubmittedAnswer>, k: nat)
    requires WellFormed(q)
    requires k < |answers| && answers[k].index == idx
    requires forall j :: 0 <= j < k ==> answers[j].index != idx
    ensures GradeOne(q, idx, answers).user_answer == answers[k].answer.GetOr([])
    ensures GradeOne(q, idx, answers).is_correct == LeadLetterIs(answers[k].answer.GetOr([]), Letter(q.a))
  {
    Assessment.AnswerForFirst(answers, idx, k);
  }

  /** Only the upper-cased first character of the trimmed answer counts:
      answers that agree on it are graded alike. */
  lemma LeadLetterDecides(q: Mcq, idx: int, a1: seq<Assessment.SubmittedAnswer>, a2: seq<Assessment.SubmittedAnswer>)
    requires WellFormed(q)
    requires var t1, t2 := Trim(Assessment.AnswerFor(a1, idx)), Trim(Assessment.AnswerFor(a2, idx));
      (t1 == [] <==> t2 == []) && (t1 != [] ==> Upper(t1[0]) == Upper(t2[0]))
    ensures GradeOne(q, idx, a1).is_correct == GradeOne(q, idx, a2).is_correct
  {
  }

  lemma TrimKeepsLead(s: string)
    requires s != [] && !IsSpace(s[0])
    ensures Trim(s) != [] && Trim(s)[0] == s[0]
  {
    assert TrimStart(s) == s;
    var r := TrimEnd(s);
    assert r == s[..|r|];
  }

  /** Round trip: answering with the labelled option `k` of a question
      with at most 32 options is correct exactly when `k` is the answer.
      (From 33 options on, option 32 is labelled "a", which upper-cases to
      the label of option 0.) */
  lemma LabelledOptionRoundTrip(q: Mcq, k: nat)
    requires WellFormed(q) && |q.o| <= 32 && k < |q.o|
    ensures LeadLetterIs(Labelled(k, q.o[k]), Letter(q.a)) <==> k == q.a
  {
    var s := Labelled(k, q.o[k]);
    assert !IsSpace(s[0]);
    TrimKeepsLead(s);
    assert Upper(Letter(k)) == Letter(k);
  }

  /** The round trip through the client: submitting option `k` exactly as
      formatted for question `idx` grades it correct iff `k` is its answer. */
  lemma SubmitFormattedOption(questions: seq<Mcq>, idx: nat, k: nat)
    requires forall j :: 0 <= j < |questions| ==> |questions[j].o| <= MaxOptions
    requires idx < |questions| && WellFormed(questions[idx]) && |questions[idx].o| <= 32 && k < |questions[idx].o|
    ensures var opt := FormatQuestionsForClient(questions)[idx].options[k];
      GradeOne(questions[idx], idx, [Assessment.SubmittedAnswer(idx, Some(opt))]).is_correct <==>
        k == questions[idx].a
  {
    var opt := FormatQuestionsForClient(questions)[idx].options[k];
    assert opt == Labelled(k, questions[idx].o[k]);
    assert Assessment.AnswerFor([Assessment.SubmittedAnswer(idx, Some(opt))], idx) == opt;
    LabelledOptionRoundTrip(questions[idx], k);
  }

  /** The bound of 32 options is tight: with 33, option 32 ("a. ...") is
      graded as the answer "A". */
  lemma ThirtyThirdOptionCollides(q: Mcq)
    requires WellFormed(q) && |q.o| == 33 && q.a == 0
    ensures LeadLetterIs(Labelled(32, q.o[32]), Letter(q.a))
  {
    var s := Labelled(32, q.o[32]);
    assert !IsSpace(s[0]);
    TrimKeepsLead(s);
  }

  /** The score is the number of correct results and at most the total. */
  lemma {:induction false} CountCorrectIsCount(results: seq<GradedMcq>)
    ensures CountCorrect(results) == |set k | 0 <= k < |results| && results[k].is_correct|
    decreases |results|
  {
    if results != [] {
      var n := |results| - 1;
      var init := results[..n];
      CountCorrectIsCount(init);
      var before := set k | 0 <= k < n && init[k].is_correct;
      var after := set k | 0 <= k < |results| && results[k].is_correct;
      if results[n].is_correct {
        assert after == before + {n};
      } else {
        assert after == before;
      }
    }
  }

  // ---------------------------------------------------------------------------
  // Shuffling

  /** `shuffleArray(arr)`: Fisher-Yates on a copy. The random index
      `Math.floor(Math.random() * (i + 1))` is any index in `0 .. i`. */
  method ShuffleArray<T>(arr: array<T>) returns (shuffled: array<T>)
    ensures fresh(shuffled) && shuffled.Length == arr.Length
    ensures multiset(shuffled[..]) == multiset(arr[..])
    ensures arr[..] == old(arr[..])
  {
    shuffled := new T[arr.Length](k reads arr requires 0 <= k < arr.Length => arr[k]);
    assert shuffled[..] == arr[..];
    var i := arr.Length - 1;
    while i > 0
      invariant -1 <= i < arr.Length
      invariant multiset(shuffled[..]) == multiset(arr[..])
      decreases i
    {
      var j :| 0 <= j <= i;
      shuffled[i], shuffled[j] := shuffled[j], shuffled[i];
      i := i - 1;
    }
  }
}
