/** `handleChat` of api/index.js: one chat turn. The user message is
    stored (opening a session when none is given), the provider's answer is
    relayed to the client as a stream of events, and the assistant message
    is stored when the provider reports `done`. The provider
    (`generateRagResponse`) is an input: the events it yields, then either
    the end of the stream or an exception. */
module Chat {
  import opened Wrappers
  import opened Store
  import opened Sorting

  /** An event yielded by the provider. Events of any other type are ignored. */
  datatype ProviderEvent =
    | ChunkEvent(content: string)
    | SourcesEvent(sources: seq<SourceRef>)
    | DoneEvent
    | OtherEvent

  /** What the provider does in one turn: it yields `events`, then ends, or
      throws an error whose message is `failure`. */
  datatype ProviderRun = ProviderRun(events: seq<ProviderEvent>, failure: Option<string>)

  /** An event written to the client's event stream. */
  datatype OutEvent =
    | SessionOut(sessionId: int)
    | ChunkOut(content: string)
    | SourcesOut(sources: seq<SourceRef>)
    | DoneOut
    | ErrorOut(message: string)

  /** Status 400 `Message is required`, or the event stream (which always
      ends). */
  datatype ChatResponse = MessageRequired | Stream(events: seq<OutEvent>)

  /** The provider loop's variables: the events written so far,
      `fullResponse`, `sources`, the assistant messages stored, and the
      message counter. */
  datatype Relay = Relay(
    out: seq<OutEvent>,
    full: string,
    sources: seq<SourceRef>,
    saved: seq<ChatMessage>,
    counter: int)

  /** `!sessionId`: no session id, or `0`. */
  predicate OpensSession(sessionId: Option<int>) {
    sessionId.None? || sessionId.value == 0
  }

  /** One provider event handled by the loop of `handleChat`. */
  function RelayStep(r: Relay, sid: int, e: ProviderEvent, now: Timestamp): Relay {
    match e
    case ChunkEvent(c) => r.(out := r.out + [ChunkOut(c)], full := r.full + c)
    case SourcesEvent(s) => r.(out := r.out + [SourcesOut(s)], sources := s)
    case DoneEvent =>
      r.(out := r.out + [DoneOut],
         saved := r.saved + [ChatMessage(r.counter, sid, Assistant, r.full, Some(r.sources), now)],
         counter := r.counter + 1)
    case OtherEvent => r
  }

  /** The loop over the provider's events, from the state `init`. */
  function RelayAll(init: Relay, sid: int, events: seq<ProviderEvent>, now: Timestamp): Relay
    decreases |events|
  {
    if events == [] then init
    else RelayStep(RelayAll(init, sid, events[..|events| - 1], now), sid, events[|events| - 1], now)
  }

  /** The loop's starting state when the next message id is `counter`. */
  function Start(counter: int): Relay {
    Relay([], [], [], [], counter)
  }

  /** The stream written for a turn of session `sid`. */
  function StreamFor(sid: int, run: ProviderRun, relay: Relay): seq<OutEvent> {
    [SessionOut(sid)] + relay.out
      + (if run.failure.Some? then [ErrorOut("Error: " + run.failure.value)] else [])
  }

  /** `store.chatMessages.filter((m) => m.session_id === sid)` */
  function SessionMessages(ms: seq<ChatMessage>, sid: int): (r: seq<ChatMessage>)
    ensures forall m :: m in r <==> m in ms && m.session_id == sid
    ensures |r| <= |ms|
  {
    if ms == [] then []
    else (if ms[0].session_id == sid then [ms[0]] else []) + SessionMessages(ms[1..], sid)
  }

  /** The comparator `(a, b) => a.id - b.id`, as "a may stay before b". */
  function ById(a: ChatMessage, b: ChatMessage): bool {
    a.id <= b.id
  }

  /** `slice(0, -1)`: everything but the last element. */
  function DropLast<T>(s: seq<T>): (r: seq<T>)
    ensures |s| > 0 ==> s == r + [s[|s| - 1]]
    ensures |s| == 0 ==> r == []
  {
    if s == [] then [] else s[..|s| - 1]
  }

  /** The part of the store a chat turn reads and writes. */
  datatype ChatState = ChatState(
    sessions: seq<ChatSession>,
    messages: seq<ChatMessage>,
    nextId: map<Collection, int>)

  function ChatStateOf(store: Store): ChatState
    reads store
  {
    ChatState(store.chatSessions, store.chatMessages, store.nextId)
  }

  /** Both counters a turn draws from are present. */
  predicate Counted(st: ChatState) {
    ChatSessions in st.nextId && ChatMessages in st.nextId
  }

  /** The session of the turn: a new one numbered by the session counter
      when `sessionId` is falsy, the given one otherwise. */
  function SessionFor(st: ChatState, sessionId: Option<int>): int
    requires Counted(st)
  {
    if OpensSession(sessionId) then st.nextId[ChatSessions] else sessionId.value
  }

  /** The user message of the turn. */
  function UserMessage(st: ChatState, sessionId: Option<int>, message: string, now: Timestamp): ChatMessage
    requires Counted(st)
  {
    ChatMessage(st.nextId[ChatMessages], SessionFor(st, sessionId), User, message, None, now)
  }

  /** The state once the session is opened (when it must be) and the user
      message is stored. */
  function Opened(st: ChatState, branchId: int, message: string, sessionId: Option<int>, now: Timestamp)
    : (r: ChatState)
    requires Counted(st)
    ensures Counted(r)
  {
    var sid := SessionFor(st, sessionId);
    var user := UserMessage(st, sessionId, message, now);
    var counters := if OpensSession(sessionId) then st.nextId[ChatSessions := sid + 1] else st.nextId;
    ChatState(st.sessions + (if OpensSession(sessionId) then [ChatSession(sid, branchId, now)] else []),
              st.messages + [user],
              counters[ChatMessages := user.id + 1])
  }

  /** The state once the provider loop has stored its assistant messages. */
  function Replied(st: ChatState, sid: int, run: ProviderRun, now: Timestamp): (r: ChatState)
    requires Counted(st)
    ensures Counted(r)
  {
    var relay := RelayAll(Start(st.nextId[ChatMessages]), sid, run.events, now);
    st.(messages := st.messages + relay.saved, nextId := st.nextId[ChatMessages := relay.counter])
  }

  /** A message that `!message` rejects. */
  predicate Missing(message: Option<string>) {
    message.None? || message.value == []
  }

  /** The store after a turn. */
  function AfterTurn(st: ChatState, branchId: int, message: Option<string>, sessionId: Option<int>,
                     run: ProviderRun, now: Timestamp): (r: ChatState)
    requires Counted(st)
    ensures Counted(r)
    ensures Missing(message) ==> r == st
  {
    if Missing(message) then st
    else Replied(Opened(st, branchId, message.value, sessionId, now), SessionFor(st, sessionId), run, now)
  }

  /** The response of a turn. */
  function TurnResponse(st: ChatState, message: Option<string>, sessionId: Option<int>,
                        run: ProviderRun, now: Timestamp): (r: ChatResponse)
    requires Counted(st)
    ensures r == MessageRequired <==> Missing(message)
    ensures r.Stream? ==> |r.events| > 0 && r.events[0] == SessionOut(SessionFor(st, sessionId))
  {
    if Missing(message) then MessageRequired
    else
      var sid := SessionFor(st, sessionId);
      Stream(StreamFor(sid, run, RelayAll(Start(st.nextId[ChatMessages] + 1), sid, run.events, now)))
  }

  /** The history the provider is called with in a turn. */
  function HistoryFor(st: ChatState, message: Option<string>, sessionId: Option<int>, now: Timestamp)
    : seq<ChatMessage>
    requires Counted(st)
  {
    if Missing(message) then []
    else
      var sid := SessionFor(st, sessionId);
      DropLast(Sort(SessionMessages(st.messages + [UserMessage(st, sessionId, message.value, now)], sid), ById))
  }

  /** `handleChat` for the authenticated branch `branchId`. `history` is
      the history the provider is called with; `now` is the time stamp of
      the turn. */
  method HandleChat(store: Store, branchId: int, message: Option<string>, sessionId: Option<int>,
                    run: ProviderRun, now: Timestamp)
    returns (resp: ChatResponse, history: seq<ChatMessage>)
    requires store.Valid()
    modifies store`chatSessions, store`chatMessages, store`nextId
    ensures store.Valid()
    ensures ChatStateOf(store) == AfterTurn(old(ChatStateOf(store)), branchId, message, sessionId, run, now)
    ensures resp == TurnResponse(old(ChatStateOf(store)), message, sessionId, run, now)
    ensures history == HistoryFor(old(ChatStateOf(store)), message, sessionId, now)
  {
    if Missing(message) {
      return MessageRequired, [];
    }
    ghost var st := ChatStateOf(store);
    var currentSessionId, userId := OpenTurn(store, branchId, message.value, sessionId, now);
    TurnParts(st, branchId, message, sessionId, run, now);
    var chatHistory := Sort(SessionMessages(store.chatMessages, currentSessionId), ById);
    history := DropLast(chatHistory);
    var out := RelayEvents(store, currentSessionId, run, now);
    resp := Stream(out);
  }

  /** A turn with a message is the opening, then the provider loop from
      the counter the opening leaves. */
  lemma TurnParts(st: ChatState, branchId: int, message: Option<string>, sessionId: Option<int>,
                  run: ProviderRun, now: Timestamp)
    requires Counted(st) && !Missing(message)
    ensures var mid := Opened(st, branchId, message.value, sessionId, now);
      var sid := SessionFor(st, sessionId);
      && mid.nextId[ChatMessages] == st.nextId[ChatMessages] + 1
      && mid.messages == st.messages + [UserMessage(st, sessionId, message.value, now)]
      && AfterTurn(st, branchId, message, sessionId, run, now) == Replied(mid, sid, run, now)
      && TurnResponse(st, message, sessionId, run, now)
         == Stream(StreamFor(sid, run, RelayAll(Start(mid.nextId[ChatMessages]), sid, run.events, now)))
      && HistoryFor(st, message, sessionId, now) == DropLast(Sort(SessionMessages(mid.messages, sid), ById))
  {
  }

  /** The part of the turn before streaming: the session (opened when
      `sessionId` is falsy) and the stored user message, with their ids. */
  method OpenTurn(store: Store, branchId: int, message: string, sessionId: Option<int>, now: Timestamp)
    returns (sid: int, userId: int)
    requires store.Valid()
    modifies store`chatSessions, store`chatMessages, store`nextId
    ensures store.Valid()
    ensures sid == SessionFor(old(ChatStateOf(store)), sessionId)
    ensures userId == old(store.nextId[ChatMessages])
    ensures ChatStateOf(store) == Opened(old(ChatStateOf(store)), branchId, message, sessionId, now)
  {
    if OpensSession(sessionId) {
      sid := store.NextId(ChatSessions);
      store.chatSessions := store.chatSessions + [ChatSession(sid, branchId, now)];
    } else {
      sid := sessionId.value;
    }
    userId := store.NextId(ChatMessages);
    store.chatMessages := store.chatMessages + [ChatMessage(userId, sid, User, message, None, now)];
  }

  /** The streaming part: the `session` event, the provider loop, and the
      `error` event when the provider throws. */
  method RelayEvents(store: Store, sid: int, run: ProviderRun, now: Timestamp) returns (out: seq<OutEvent>)
    requires store.Valid()
    modifies store`chatMessages, store`nextId
    ensures store.Valid()
    ensures out == StreamFor(sid, run, RelayAll(Start(old(store.nextId[ChatMessages])), sid, run.events, now))
    ensures ChatStateOf(store) == Replied(old(ChatStateOf(store)), sid, run, now)
  {
    out := [SessionOut(sid)];
    var fullResponse := "";
    var sources: seq<SourceRef> := [];
    ghost var first := store.nextId[ChatMessages];
    ghost var base := store.chatMessages;
    ghost var counters := store.nextId;
    ghost var saved: seq<ChatMessage> := [];
    ghost var relayed: seq<OutEvent> := [];
    var i := 0;
    while i < |run.events|
      invariant 0 <= i <= |run.events|
      invariant store.Valid()
      invariant out == [SessionOut(sid)] + relayed
      invariant RelayAll(Start(first), sid, run.events[..i], now)
        == Relay(relayed, fullResponse, sources, saved, store.nextId[ChatMessages])
      invariant store.chatMessages == base + saved
      invariant store.nextId == counters[ChatMessages := store.nextId[ChatMessages]]
    {
      RelayAllSnoc(Start(first), sid, run.events, i, now);
      match run.events[i] {
        case ChunkEvent(c) =>
          out := out + [ChunkOut(c)];
          relayed := relayed + [ChunkOut(c)];
          fullResponse := fullResponse + c;
        case SourcesEvent(s) =>
          sources := s;
          out := out + [SourcesOut(sources)];
          relayed := relayed + [SourcesOut(sources)];
        case DoneEvent =>
          var id := store.NextId(ChatMessages);
          var reply := ChatMessage(id, sid, Assistant, fullResponse, Some(sources), now);
          store.chatMessages := store.chatMessages + [reply];
          saved := saved + [reply];
          out := out + [DoneOut];
          relayed := relayed + [DoneOut];
        case OtherEvent =>
      }
      i := i + 1;
    }
    assert run.events[..i] == run.events;
    if run.failure.Some? {
      out := out + [ErrorOut("Error: " + run.failure.value)];
    }
  }

  /** The loop over one more event is one more step. */
  lemma RelayAllSnoc(init: Relay, sid: int, events: seq<ProviderEvent>, i: nat, now: Timestamp)
    requires i < |events|
    ensures RelayAll(init, sid, events[..i + 1], now) == RelayStep(RelayAll(init, sid, events[..i], now), sid, events[i], now)
  {
    assert events[..i + 1][..i] == events[..i];
  }

  // ---------------------------------------------------------------------------
  // Properties of a chat turn

  /** The text a provider event contributes to the answer. */
  function PieceOf(e: ProviderEvent): string {
    if e.ChunkEvent? then e.content else []
  }

  /** The events a provider event is relayed as. */
  function RelayedOf(e: ProviderEvent): seq<OutEvent> {
    match e
    case ChunkEvent(c) => [ChunkOut(c)]
    case SourcesEvent(s) => [SourcesOut(s)]
    case DoneEvent => [DoneOut]
    case OtherEvent => []
  }

  /** The concatenation of the `chunk` contents, in order. */
  function Text(events: seq<ProviderEvent>): string
    decreases |events|
  {
    if events == [] then []
    else Text(events[..|events| - 1]) + PieceOf(events[|events| - 1])
  }

  /** The sources of the last `sources` event, or `[]` when there was none. */
  function LastSources(events: seq<ProviderEvent>): seq<SourceRef>
    decreases |events|
  {
    if events == [] then []
    else if events[|events| - 1].SourcesEvent? then events[|events| - 1].sources
    else LastSources(events[..|events| - 1])
  }

  /** The number of `done` events. */
  function DoneCount(events: seq<ProviderEvent>): nat
    decreases |events|
  {
    if events == [] then 0
    else DoneCount(events[..|events| - 1]) + (if events[|events| - 1] == DoneEvent then 1 else 0)
  }

  /** The relayed events: each provider event of a known type, in order. */
  function Relayed(events: seq<ProviderEvent>): seq<OutEvent>
    decreases |events|
  {
    if events == [] then []
    else Relayed(events[..|events| - 1]) + RelayedOf(events[|events| - 1])
  }

  /** What the loop accumulates: the text is the concatenation of all
      chunks, the sources those of the last `sources` event, one assistant
      message is stored per `done` event with consecutive ids, and each
      provider event of a known type is relayed once, in order. */
  lemma {:induction false} RelayAccumulates(counter: int, sid: int, events: seq<ProviderEvent>, now: Timestamp)
    ensures var r := RelayAll(Start(counter), sid, events, now);
      && r.full == Text(events)
      && r.sources == LastSources(events)
      && |r.saved| == DoneCount(events)
      && r.counter == counter + DoneCount(events)
      && r.out == Relayed(events)
      && (forall k :: 0 <= k < |r.saved| ==>
            r.saved[k].id == counter + k && r.saved[k].role == Assistant && r.saved[k].session_id == sid)
    decreases |events|
  {
    if events != [] {
      RelayAccumulates(counter, sid, events[..|events| - 1], now);
    }
  }

  /** A `done` event stores exactly one assistant message: the text of all
      chunks before it and the last sources before it. */
  lemma DoneStoresReply(counter: int, sid: int, events: seq<ProviderEvent>, now: Timestamp)
    ensures RelayAll(Start(counter), sid, events + [DoneEvent], now).saved
      == RelayAll(Start(counter), sid, events, now).saved
         + [ChatMessage(counter + DoneCount(events), sid, Assistant, Text(events), Some(LastSources(events)), now)]
  {
    assert (events + [DoneEvent])[..|events|] == events;
    RelayAccumulates(counter, sid, events, now);
  }

  /** Without a `done` event nothing but the user message is stored, even
      when chunks were streamed. */
  lemma NoDoneNoReply(counter: int, sid: int, events: seq<ProviderEvent>, now: Timestamp)
    requires DoneCount(events) == 0
    ensures RelayAll(Start(counter), sid, events, now).saved == []
  {
    RelayAccumulates(counter, sid, events, now);
  }

  /** A typical answer: chunks and sources, then `done`, stores one reply
      holding the concatenated chunks and the sources. */
  lemma TypicalTurn(counter: int, sid: int, a: string, b: string, s: seq<SourceRef>, now: Timestamp)
    ensures var r := RelayAll(Start(counter), sid,
                              [ChunkEvent(a), ChunkEvent(b), SourcesEvent(s), DoneEvent], now);
      && r.out == [ChunkOut(a), ChunkOut(b), SourcesOut(s), DoneOut]
      && r.saved == [ChatMessage(counter, sid, Assistant, a + b, Some(s), now)]
  {
    var e1 := [ChunkEvent(a)];
    var e2 := e1 + [ChunkEvent(b)];
    var e3 := e2 + [SourcesEvent(s)];
    var e4 := e3 + [DoneEvent];
    assert e4 == [ChunkEvent(a), ChunkEvent(b), SourcesEvent(s), DoneEvent];
    assert e4[..3] == e3 && e3[..2] == e2 && e2[..1] == e1 && e1[..0] == [];
    assert RelayAll(Start(counter), sid, e1, now) == Relay([ChunkOut(a)], [] + a, [], [], counter);
    assert [] + a == a;
    assert RelayAll(Start(counter), sid, e2, now) == Relay([ChunkOut(a), ChunkOut(b)], a + b, [], [], counter);
    assert RelayAll(Start(counter), sid, e3, now)
      == Relay([ChunkOut(a), ChunkOut(b), SourcesOut(s)], a + b, s, [], counter);
  }

  /** The stream a turn writes: `session` first, then the relayed events,
      then one `error` event exactly when the provider threw. */
  lemma StreamShape(sid: int, run: ProviderRun, counter: int, now: Timestamp)
    ensures var s := StreamFor(sid, run, RelayAll(Start(counter), sid, run.events, now));
      && s[0] == SessionOut(sid)
      && (run.failure.None? ==> s == [SessionOut(sid)] + Relayed(run.events))
      && (run.failure.Some? ==>
            s == [SessionOut(sid)] + Relayed(run.events) + [ErrorOut("Error: " + run.failure.value)])
  {
    RelayAccumulates(counter, sid, run.events, now);
  }

  /** A relayed stream holds no `error` and no `session` event, so in a
      turn's stream `session` is only the first event and `error` only the
      last. */
  lemma {:induction false} RelayedHasNoErrorOrSession(events: seq<ProviderEvent>)
    ensures forall k :: 0 <= k < |Relayed(events)| ==>
      !Relayed(events)[k].ErrorOut? && !Relayed(events)[k].SessionOut?
    decreases |events|
  {
    if events != [] {
      RelayedHasNoErrorOrSession(events[..|events| - 1]);
    }
  }

  lemma {:induction false} SessionMessagesAppend(ms: seq<ChatMessage>, m: ChatMessage, sid: int)
    ensures SessionMessages(ms + [m], sid)
      == SessionMessages(ms, sid) + (if m.session_id == sid then [m] else [])
    decreases |ms|
  {
    if ms == [] {
      assert [] + [m] == [m];
      assert [m][1..] == [];
    } else {
      var head := if ms[0].session_id == sid then [ms[0]] else [];
      var tail := if m.session_id == sid then [m] else [];
      assert (ms + [m])[0] == ms[0];
      assert (ms + [m])[1..] == ms[1..] + [m];
      SessionMessagesAppend(ms[1..], m, sid);
      assert SessionMessages(ms + [m], sid) == head + SessionMessages(ms[1..] + [m], sid);
      AppendRegroup(head, SessionMessages(ms[1..], sid), tail, SessionMessages(ms + [m], sid),
        SessionMessages(ms[1..] + [m], sid));
    }
  }

  lemma AppendRegroup<T>(head: seq<T>, a: seq<T>, b: seq<T>, whole: seq<T>, rest: seq<T>)
    requires whole == head + rest && rest == a + b
    ensures whole == (head + a) + b
  {
  }

  /** Ids that increase in sequence order. */
  predicate IdsIncreasing(ms: seq<ChatMessage>) {
    forall i, j :: 0 <= i < j < |ms| ==> ms[i].id < ms[j].id
  }

  lemma ConsIncreasing(x: ChatMessage, t: seq<ChatMessage>)
    requires IdsIncreasing(t)
    requires forall k :: 0 <= k < |t| ==> x.id < t[k].id
    ensures IdsIncreasing([x] + t)
  {
    var r := [x] + t;
    forall i, j | 0 <= i < j < |r| ensures r[i].id < r[j].id {
      assert r[j] == t[j - 1];
      if i > 0 {
        assert r[i] == t[i - 1];
      }
    }
  }

  /** A filter keeps increasing ids increasing. */
  lemma {:induction false} SessionMessagesIncreasing(ms: seq<ChatMessage>, sid: int)
    requires IdsIncreasing(ms)
    ensures IdsIncreasing(SessionMessages(ms, sid))
    decreases |ms|
  {
    if ms != [] {
      var rest := ms[1..];
      assert IdsIncreasing(rest) by {
        forall i, j | 0 <= i < j < |rest| ensures rest[i].id < rest[j].id {
          assert rest[i] == ms[i + 1] && rest[j] == ms[j + 1];
        }
      }
      SessionMessagesIncreasing(rest, sid);
      var t := SessionMessages(rest, sid);
      if ms[0].session_id == sid {
        forall k | 0 <= k < |t| ensures ms[0].id < t[k].id {
          assert t[k] in t;
          var m :| 0 <= m < |rest| && rest[m] == t[k];
          assert ms[m + 1] == t[k];
        }
        ConsIncreasing(ms[0], t);
        assert SessionMessages(ms, sid) == [ms[0]] + t;
      } else {
        assert SessionMessages(ms, sid) == [] + t;
      }
    }
  }

  /** The history passed to the provider is exactly the session's earlier
      messages in store order, without the message just sent, as long as
      message ids grow in store order (which the counter guarantees). */
  lemma TurnHistory(st: ChatState, message: string, sessionId: Option<int>, now: Timestamp)
    requires Counted(st) && message != []
    requires IncreasingBelow(MessageIds(st.messages), st.nextId[ChatMessages])
    ensures HistoryFor(st, Some(message), sessionId, now) == SessionMessages(st.messages, SessionFor(st, sessionId))
  {
    HistoryIsEarlierMessages(st.messages, UserMessage(st, sessionId, message, now), SessionFor(st, sessionId));
  }

  /** A turn whose provider sends `done` once, at the end, stores the user
      message and then one assistant reply, with the next two ids; the
      reply holds all streamed text and the last sources, and the client
      sees `session`, the relayed events and `done`. */
  lemma TurnWithReply(st: ChatState, branchId: int, message: string, sessionId: Option<int>,
                      events: seq<ProviderEvent>, failure: Option<string>, now: Timestamp)
    requires Counted(st) && message != [] && DoneCount(events) == 0
    ensures var run := ProviderRun(events + [DoneEvent], failure);
      var r := AfterTurn(st, branchId, Some(message), sessionId, run, now);
      var sid := SessionFor(st, sessionId);
      var id := st.nextId[ChatMessages];
      && r.messages == st.messages
           + [ChatMessage(id, sid, User, message, None, now),
              ChatMessage(id + 1, sid, Assistant, Text(events), Some(LastSources(events)), now)]
      && r.nextId[ChatMessages] == id + 2
      && TurnResponse(st, Some(message), sessionId, run, now)
         == Stream([SessionOut(sid)] + Relayed(events) + [DoneOut]
                   + (if failure.Some? then [ErrorOut("Error: " + failure.value)] else []))
  {
    var id := st.nextId[ChatMessages];
    var sid := SessionFor(st, sessionId);
    ReplyRelay(id + 1, sid, events, now);
    var mid := Opened(st, branchId, message, sessionId, now);
    assert mid.nextId[ChatMessages] == id + 1;
  }

  /** The provider loop for events with one `done`, at the end. */
  lemma ReplyRelay(counter: int, sid: int, events: seq<ProviderEvent>, now: Timestamp)
    requires DoneCount(events) == 0
    ensures RelayAll(Start(counter), sid, events + [DoneEvent], now)
      == Relay(Relayed(events) + [DoneOut], Text(events), LastSources(events),
               [ChatMessage(counter, sid, Assistant, Text(events), Some(LastSources(events)), now)], counter + 1)
  {
    var evs := events + [DoneEvent];
    assert evs[..|events|] == events;
    RelayAccumulates(counter, sid, events, now);
  }

  lemma MessageIdsAppend(ms: seq<ChatMessage>, m: ChatMessage)
    ensures MessageIds(ms + [m]) == MessageIds(ms) + [m.id]
  {
    assert forall i :: 0 <= i < |ms| ==> (ms + [m])[i] == ms[i];
  }

  lemma SessionIdsAppend(ss: seq<ChatSession>, s: ChatSession)
    ensures SessionIds(ss + [s]) == SessionIds(ss) + [s.id]
  {
    assert forall i :: 0 <= i < |ss| ==> (ss + [s])[i] == ss[i];
  }

  /** The replies the provider loop stores get fresh, increasing ids. */
  lemma {:induction false} RelayKeepsIdsFresh(ms: seq<ChatMessage>, counter: int, sid: int,
                                              events: seq<ProviderEvent>, now: Timestamp)
    requires IncreasingBelow(MessageIds(ms), counter)
    ensures var r := RelayAll(Start(counter), sid, events, now);
      IncreasingBelow(MessageIds(ms + r.saved), r.counter)
    decreases |events|
  {
    if events != [] {
      var p := RelayAll(Start(counter), sid, events[..|events| - 1], now);
      RelayKeepsIdsFresh(ms, counter, sid, events[..|events| - 1], now);
      if events[|events| - 1] == DoneEvent {
        var m := ChatMessage(p.counter, sid, Assistant, p.full, Some(p.sources), now);
        assert ms + (p.saved + [m]) == (ms + p.saved) + [m];
        MessageIdsAppend(ms + p.saved, m);
        AppendFresh(MessageIds(ms + p.saved), p.counter);
      }
    }
  }

  /** A turn keeps the ids of sessions and messages increasing and below
      their counters, so ids stay unique. */
  lemma TurnKeepsIdsFresh(st: ChatState, branchId: int, message: Option<string>, sessionId: Option<int>,
                          run: ProviderRun, now: Timestamp)
    requires Counted(st)
    requires IncreasingBelow(SessionIds(st.sessions), st.nextId[ChatSessions])
    requires IncreasingBelow(MessageIds(st.messages), st.nextId[ChatMessages])
    ensures var r := AfterTurn(st, branchId, message, sessionId, run, now);
      && IncreasingBelow(SessionIds(r.sessions), r.nextId[ChatSessions])
      && IncreasingBelow(MessageIds(r.messages), r.nextId[ChatMessages])
  {
    if !Missing(message) {
      var mid := Opened(st, branchId, message.value, sessionId, now);
      var sid := SessionFor(st, sessionId);
      if OpensSession(sessionId) {
        SessionIdsAppend(st.sessions, ChatSession(sid, branchId, now));
        AppendFresh(SessionIds(st.sessions), sid);
      } else {
        assert mid.sessions == st.sessions;
      }
      var user := UserMessage(st, sessionId, message.value, now);
      MessageIdsAppend(st.messages, user);
      AppendFresh(MessageIds(st.messages), user.id);
      RelayKeepsIdsFresh(mid.messages, user.id + 1, sid, run.events, now);
    }
  }

  /** The history passed to the provider is exactly the session's earlier
      messages in store order, without the message just sent, as long as
      message ids grow in store order (which the counter guarantees). */
  lemma HistoryIsEarlierMessages(ms: seq<ChatMessage>, user: ChatMessage, sid: int)
    requires IncreasingBelow(MessageIds(ms), user.id)
    requires user.session_id == sid
    ensures DropLast(Sort(SessionMessages(ms + [user], sid), ById)) == SessionMessages(ms, sid)
  {
    SessionMessagesAppend(ms, user, sid);
    var prior := SessionMessages(ms, sid);
    var all := prior + [user];
    assert IdsIncreasing(ms) by {
      assert forall i :: 0 <= i < |ms| ==> MessageIds(ms)[i] == ms[i].id;
    }
    SessionMessagesIncreasing(ms, sid);
    forall k | 0 <= k < |prior| ensures prior[k].id < user.id {
      assert prior[k] in ms;
      var m :| 0 <= m < |ms| && ms[m] == prior[k];
      assert MessageIds(ms)[m] == ms[m].id;
    }
    assert SortedBy(all, ById) by {
      forall i, j | 0 <= i < j < |all| ensures ById(all[i], all[j]) {
        if j == |prior| {
          assert all[i] == prior[i];
        } else {
          assert all[i] == prior[i] && all[j] == prior[j];
        }
      }
    }
    SortOfSorted(all, ById);
  }
}
