/** The JSON store of api/lib/store.js: one object holding every collection
    of the system and a counter per collection, loaded from and saved to a
    single file. The file itself is not modelled: `Load` receives what
    `JSON.parse` produced (or nothing, for a missing or corrupt file), and
    the state a handler leaves in the object is the state it saves. */
module Store {
  import opened Wrappers

  /** A point in time (`new Date().toISOString()`, `new Date(s)`), kept as
      an opaque, totally ordered value. */
  type Timestamp = int

  /** An embedding vector returned by the embedding provider. */
  type Vector = seq<real>

  /** A source reference as produced by the retrieval code, kept opaque. */
  type SourceRef = string

  /** The six collections that `nextId` numbers. */
  datatype Collection =
    Documents | Chunks | ChatSessions | ChatMessages | TestQuestions | TestAttempts

  datatype Branch = Branch(id: int, name: string, code: string)

  datatype Document = Document(
    id: int,
    drive_file_id: string,
    title: string,
    category: string,
    mime_type: string,
    drive_url: string,
    content_text: string,
    file_size: Number,
    last_modified: string,
    synced_at: Timestamp,
    created_at: Timestamp)

  datatype Chunk = Chunk(
    id: int,
    document_id: int,
    chunk_index: nat,
    content: string,
    embedding: Option<Vector>,
    token_count: nat)

  datatype ChatSession = ChatSession(id: int, branch_id: int, created_at: Timestamp)

  datatype Role = User | Assistant

  /** A stored chat message. The code stores an assistant reply's
      `sources` as the string `JSON.stringify(sources)`; `sources` holds
      the list that string encodes, and `None` for a user message, which
      has no `sources` field. */
  datatype ChatMessage = ChatMessage(
    id: int,
    session_id: int,
    role: Role,
    content: string,
    sources: Option<seq<SourceRef>>,
    created_at: Timestamp)

  /** A generated test question as the model returned it, with its answer. */
  datatype GenQuestion = GenQuestion(
    index: int,
    qtype: string,
    question: string,
    options: Option<seq<string>>,
    correct_answer: string,
    explanation: string)

  /** A cached test for one document (`store.testQuestions`). */
  datatype TestSet = TestSet(
    id: int,
    document_id: int,
    questions: seq<GenQuestion>,
    generated_at: Timestamp,
    document_hash: string)

  /** A JavaScript number that may be `NaN` (`Math.round(0 / 0 * 100)`). */
  datatype Number = Num(n: int) | NaN

  datatype GradedAnswer = GradedAnswer(
    index: nat,
    question: string,
    qtype: string,
    user_answer: string,
    correct_answer: string,
    explanation: string,
    is_correct: bool)

  datatype Attempt = Attempt(
    id: int,
    document_id: int,
    branch_id: int,
    branch_name: string,
    branch_code: string,
    score: nat,
    total: nat,
    percentage: Number,
    passed: bool,
    answers: seq<GradedAnswer>,
    completed_at: Timestamp)

  /** The object `JSON.parse` produced from the store file. Collections and
      counters added after the first release may be missing; a missing
      counter is absent from `nextId`. */
  datatype RawStore = RawStore(
    documents: seq<Document>,
    chunks: seq<Chunk>,
    branches: seq<Branch>,
    chatSessions: seq<ChatSession>,
    chatMessages: seq<ChatMessage>,
    testQuestions: Option<seq<TestSet>>,
    testAttempts: Option<seq<Attempt>>,
    nextId: Option<map<Collection, int>>)

  /** `DEFAULT_STORE.branches` */
  const DefaultBranches: seq<Branch> := [Branch(1, "Head Office", "HO001")]

  /** `DEFAULT_STORE.nextId` */
  const DefaultCounters: map<Collection, int> :=
    map[Documents := 1, Chunks := 1, ChatSessions := 1, ChatMessages := 1,
        TestQuestions := 1, TestAttempts := 1]

  lemma DefaultCountersComplete()
    ensures forall c: Collection :: c in DefaultCounters && DefaultCounters[c] == 1
  {
    forall c: Collection ensures c in DefaultCounters && DefaultCounters[c] == 1 {
      match c
      case Documents =>
      case Chunks =>
      case ChatSessions =>
      case ChatMessages =>
      case TestQuestions =>
      case TestAttempts =>
    }
  }

  /** JavaScript truthiness of an optional counter: absent and `0` are falsy. */
  predicate CounterSet(m: map<Collection, int>, c: Collection) {
    c in m && m[c] != 0
  }

  /** The counter fix-ups of `loadStore`: a falsy test counter becomes 1. */
  function PatchCounters(m: map<Collection, int>): (r: map<Collection, int>)
    ensures r.Keys == m.Keys + {TestQuestions, TestAttempts}
    ensures forall c :: c in m && c != TestQuestions && c != TestAttempts ==> r[c] == m[c]
    ensures forall c :: c == TestQuestions || c == TestAttempts ==>
      r[c] == (if CounterSet(m, c) then m[c] else 1)
  {
    var m1 := if CounterSet(m, TestQuestions) then m else m[TestQuestions := 1];
    if CounterSet(m1, TestAttempts) then m1 else m1[TestAttempts := 1]
  }

  /** The records of one collection carry these ids, in array order. */
  predicate IncreasingBelow(ids: seq<int>, bound: int) {
    (forall i, j :: 0 <= i < j < |ids| ==> ids[i] < ids[j])
    && (forall i :: 0 <= i < |ids| ==> ids[i] < bound)
  }

  function DocumentIds(ds: seq<Document>): (r: seq<int>)
    ensures |r| == |ds| && forall i :: 0 <= i < |ds| ==> r[i] == ds[i].id
  {
    seq(|ds|, i requires 0 <= i < |ds| => ds[i].id)
  }

  function ChunkIds(cs: seq<Chunk>): (r: seq<int>)
    ensures |r| == |cs| && forall i :: 0 <= i < |cs| ==> r[i] == cs[i].id
  {
    seq(|cs|, i requires 0 <= i < |cs| => cs[i].id)
  }

  function SessionIds(ss: seq<ChatSession>): (r: seq<int>)
    ensures |r| == |ss| && forall i :: 0 <= i < |ss| ==> r[i] == ss[i].id
  {
    seq(|ss|, i requires 0 <= i < |ss| => ss[i].id)
  }

  function MessageIds(ms: seq<ChatMessage>): (r: seq<int>)
    ensures |r| == |ms| && forall i :: 0 <= i < |ms| ==> r[i] == ms[i].id
  {
    seq(|ms|, i requires 0 <= i < |ms| => ms[i].id)
  }

  function TestSetIds(ts: seq<TestSet>): (r: seq<int>)
    ensures |r| == |ts| && forall i :: 0 <= i < |ts| ==> r[i] == ts[i].id
  {
    seq(|ts|, i requires 0 <= i < |ts| => ts[i].id)
  }

  function AttemptIds(as_: seq<Attempt>): (r: seq<int>)
    ensures |r| == |as_| && forall i :: 0 <= i < |as_| ==> r[i] == as_[i].id
  {
    seq(|as_|, i requires 0 <= i < |as_| => as_[i].id)
  }

  /** Appending the counter's value to ids below the counter keeps them
      increasing and below the incremented counter. */
  lemma AppendFresh(ids: seq<int>, bound: int)
    requires IncreasingBelow(ids, bound)
    ensures IncreasingBelow(ids + [bound], bound + 1)
  {
  }

  /** Ids below one counter are below any larger counter. */
  lemma IncreasingBelowMono(ids: seq<int>, bound: int, bound': int)
    requires IncreasingBelow(ids, bound) && bound <= bound'
    ensures IncreasingBelow(ids, bound')
  {
  }

  class Store {
    var documents: seq<Document>
    var chunks: seq<Chunk>
    var branches: seq<Branch>
    var chatSessions: seq<ChatSession>
    var chatMessages: seq<ChatMessage>
    var testQuestions: seq<TestSet>
    var testAttempts: seq<Attempt>
    var nextId: map<Collection, int>

    /** Every collection has a counter (`getNextId` would give `NaN` otherwise). */
    ghost predicate Valid()
      reads this
    {
      forall c: Collection :: c in nextId
    }

    /** Every collection's ids increase in array order and stay below the
        collection's counter; the stores this code writes keep this. */
    ghost predicate IdsFresh()
      reads this
      requires Valid()
    {
      && IncreasingBelow(DocumentIds(documents), nextId[Documents])
      && IncreasingBelow(ChunkIds(chunks), nextId[Chunks])
      && IncreasingBelow(SessionIds(chatSessions), nextId[ChatSessions])
      && IncreasingBelow(MessageIds(chatMessages), nextId[ChatMessages])
      && IncreasingBelow(TestSetIds(testQuestions), nextId[TestQuestions])
      && IncreasingBelow(AttemptIds(testAttempts), nextId[TestAttempts])
    }

    /** `loadStore()`: the parsed file patched in place, or a copy of
        `DEFAULT_STORE` when the file is missing or unreadable (including a
        file without `nextId`, whose patching throws). */
    constructor Load(raw: Option<RawStore>)
      ensures branches == DefaultBranches
      ensures raw.None? || raw.value.nextId.None? ==>
        && documents == [] && chunks == [] && chatSessions == [] && chatMessages == []
        && testQuestions == [] && testAttempts == [] && nextId == DefaultCounters
      ensures raw.Some? && raw.value.nextId.Some? ==>
        && documents == raw.value.documents && chunks == raw.value.chunks
        && chatSessions == raw.value.chatSessions && chatMessages == raw.value.chatMessages
        && testQuestions == raw.value.testQuestions.GetOr([])
        && testAttempts == raw.value.testAttempts.GetOr([])
        && nextId == PatchCounters(raw.value.nextId.value)
      ensures raw.None? || raw.value.nextId.None? ==> Valid() && IdsFresh()
    {
      if raw.Some? && raw.value.nextId.Some? {
        var r := raw.value;
        documents, chunks, chatSessions, chatMessages := r.documents, r.chunks, r.chatSessions, r.chatMessages;
        branches := DefaultBranches;
        testQuestions := if r.testQuestions.Some? then r.testQuestions.value else [];
        testAttempts := if r.testAttempts.Some? then r.testAttempts.value else [];
        nextId := PatchCounters(r.nextId.value);
      } else {
        documents, chunks, chatSessions, chatMessages := [], [], [], [];
        branches := DefaultBranches;
        testQuestions, testAttempts := [], [];
        nextId := DefaultCounters;
        DefaultCountersComplete();
      }
    }

    /** `getNextId(store, collection)`: returns the collection's counter and
        increments that counter only. */
    method NextId(c: Collection) returns (id: int)
      requires Valid()
      modifies this`nextId
      ensures Valid()
      ensures id == old(nextId[c])
      ensures nextId == old(nextId)[c := id + 1]
    {
      id := nextId[c];
      nextId := nextId[c := id + 1];
    }

    /** Two successive `getNextId` calls on one collection return distinct,
        increasing ids, and no other counter moves. */
    method NextIdTwice(c: Collection) returns (first: int, second: int)
      requires Valid()
      modifies this`nextId
      ensures Valid()
      ensures first == old(nextId[c]) && second == first + 1
      ensures nextId == old(nextId)[c := first + 2]
    {
      first := NextId(c);
      second := NextId(c);
    }
  }
}
