/** Requests and responses of the app server, matched by number, with every task's steps interleaved. */
module Rpc {
  import opened Wrappers

  type Id = nat

  type Client = nat

  type Value = string

  type Error = string

  /** What is sent on a request's channel: the server's answer, or the failure of the connection. */
  datatype Reply = Answer(value: Value) | Failure(error: Error)

  datatype Interruption = Cancelled | TimedOut

  datatype Ending =
    | Refused(error: Error)
    | Unrendered
    | Replied(id: Id, reply: Reply)
    | Unwritten(id: Id)
    | Interrupted(id: Id, cause: Interruption)

  /** Where a request stands, between its steps. */
  datatype Stage =
    | Checked
    | Numbered(id: Id)
    | Writing(id: Id)
    | Sent(id: Id)
    | Interrupting(id: Id, cause: Interruption)
    | WriteFailed(id: Id, error: Error)
    | Closing(id: Id)
    | Ended(ending: Ending)

  datatype Reader = Reading | Drained(error: Error) | Stopped

  /**
   * `pending` are the numbers whose channels wait in the table, `replies` every reply ever sent, by number, and
   * `lines` the responses the server wrote, in order. `drains` is how often the table was drained, and `insertedAt`
   * how often it had been when each number was put in.
   */
  datatype World = World(
    pending: set<Id>, nextId: Id, closed: Option<Error>, replies: map<Id, Reply>, reader: Reader,
    clients: map<Client, Stage>, lines: seq<(Id, Value)>, drains: nat, insertedAt: map<Id, nat>)

  const START := World({}, 1, None, map[], Reading, map[], [], 0, map[])

  datatype Event =
    | Begin(client: Client)
    | Number(client: Client)
    | Unrenderable(client: Client)
    | Insert(client: Client)
    | WriteDone(client: Client)
    | WriteFails(client: Client, error: Error)
    | WriterCloses(client: Client)
    | WriterRemoves(client: Client)
    | Receive(client: Client)
    | Interrupt(client: Client, cause: Interruption)
    | GiveUp(client: Client)
    | Line(id: Id, value: Value)
    | ReadFails(error: Error)
    | ReaderCloses

  function StageOf(w: World, client: Client): Option<Stage> {
    if client in w.clients then Some(w.clients[client]) else None
  }

  predicate Enabled(w: World, event: Event) {
    match event
    case Begin(c) => c !in w.clients
    case Number(c) => StageOf(w, c) == Some(Checked)
    case Unrenderable(c) => c in w.clients && w.clients[c].Numbered?
    case Insert(c) => c in w.clients && w.clients[c].Numbered?
    case WriteDone(c) => c in w.clients && w.clients[c].Writing?
    case WriteFails(c, _) => c in w.clients && w.clients[c].Writing?
    case WriterCloses(c) => c in w.clients && w.clients[c].WriteFailed?
    case WriterRemoves(c) => c in w.clients && w.clients[c].Closing?
    case Receive(c) => c in w.clients && w.clients[c].Sent? && w.clients[c].id in w.replies
    case Interrupt(c, _) => c in w.clients && w.clients[c].Sent?
    case GiveUp(c) => c in w.clients && w.clients[c].Interrupting?
    case Line(_, _) => w.reader == Reading
    case ReadFails(_) => w.reader == Reading
    case ReaderCloses => w.reader.Drained?
  }

  /** The first half of a failing connection: every waiting request is told, and the table is empty. */
  function Drain(w: World, error: Error): World {
    w.(pending := {}, replies := Told(w.replies, w.pending, error), drains := w.drains + 1)
  }

  /** A failure sent to each of `ids`. */
  function Told(replies: map<Id, Reply>, ids: set<Id>, error: Error): map<Id, Reply> {
    map id | id in replies.Keys + ids :: if id in ids then Failure(error) else replies[id]
  }

  lemma ToldOne(replies: map<Id, Reply>, ids: set<Id>, id: Id, error: Error)
    ensures Told(replies, ids, error)[id := Failure(error)] == Told(replies, ids + {id}, error)
  {
  }

  lemma ToldNone(replies: map<Id, Reply>, error: Error)
    ensures Told(replies, {}, error) == replies
  {
  }

  function Move(w: World, client: Client, stage: Stage): World {
    w.(clients := w.clients[client := stage])
  }

  function Next(w: World, event: Event): World
    requires Enabled(w, event)
  {
    match event
    case Begin(c) => Move(w, c, if w.closed.Some? then Ended(Refused(w.closed.value)) else Checked)
    case Number(c) => Move(w.(nextId := w.nextId + 1), c, Numbered(w.nextId))
    case Unrenderable(c) => Move(w, c, Ended(Unrendered))
    case Insert(c) =>
      var id := w.clients[c].id;
      Move(w.(pending := w.pending + {id}, insertedAt := w.insertedAt[id := w.drains]), c, Writing(id))
    case WriteDone(c) => Move(w, c, Sent(w.clients[c].id))
    case WriteFails(c, error) => Move(Drain(w, error), c, WriteFailed(w.clients[c].id, error))
    case WriterCloses(c) => Move(w.(closed := Some(w.clients[c].error)), c, Closing(w.clients[c].id))
    case WriterRemoves(c) => Move(w.(pending := w.pending - {w.clients[c].id}), c, Ended(Unwritten(w.clients[c].id)))
    case Receive(c) => Move(w, c, Ended(Replied(w.clients[c].id, w.replies[w.clients[c].id])))
    case Interrupt(c, cause) => Move(w, c, Interrupting(w.clients[c].id, cause))
    case GiveUp(c) =>
      Move(w.(pending := w.pending - {w.clients[c].id}), c, Ended(Interrupted(w.clients[c].id, w.clients[c].cause)))
    case Line(id, value) =>
      var heard := w.(lines := w.lines + [(id, value)]);
      if id in w.pending then heard.(pending := w.pending - {id}, replies := w.replies[id := Answer(value)]) else heard
    case ReadFails(error) => Drain(w, error).(reader := Drained(error))
    case ReaderCloses => w.(closed := Some(w.reader.error), reader := Stopped)
  }

  // ----- the shared table, as the tasks use it

  class Connection {
    var pending: set<Id>
    var nextId: Id
    var closed: Option<Error>
    var replies: map<Id, Reply>

    constructor ()
      ensures pending == {} && nextId == 1 && closed == None && replies == map[]
    {
      pending, nextId, closed, replies := {}, 1, None, map[];
    }

    /** The shared part of a world. */
    ghost predicate Shows(w: World)
      reads this
    {
      w.pending == pending && w.nextId == nextId && w.closed == closed && w.replies == replies
    }

    method FetchId(ghost w: World, ghost client: Client) returns (id: Id)
      requires Shows(w) && Enabled(w, Number(client))
      modifies this
      ensures Shows(Next(w, Number(client))) && Next(w, Number(client)).clients[client] == Numbered(id)
    {
      id := nextId;
      nextId := nextId + 1;
    }

    method DispatchResponse(id: Id, value: Value, ghost w: World)
      requires Shows(w) && Enabled(w, Line(id, value))
      modifies this
      ensures Shows(Next(w, Line(id, value)))
    {
      if id in pending {
        pending := pending - {id};
        replies := replies[id := Answer(value)];
      }
    }

    /** Takes the waiting requests out one by one, in whatever order the table holds them. */
    method DrainPending(error: Error, ghost w: World)
      requires Shows(w)
      modifies this
      ensures Shows(Drain(w, error))
    {
      hide Told, Next, Enabled;
      ghost var told: set<Id> := {};
      ToldNone(replies, error);
      while pending != {}
        invariant pending + told == w.pending && nextId == w.nextId && closed == w.closed
        invariant replies == Told(w.replies, told, error)
        decreases |pending|
      {
        var id :| id in pending;
        ToldOne(w.replies, told, id, error);
        pending := pending - {id};
        replies := replies[id := Failure(error)];
        told := told + {id};
      }
      assert told == w.pending;
    }

    /** Run without interruption, the two halves of a failing connection. */
    method FailConnection(error: Error, ghost w: World)
      requires Shows(w) && w.reader == Reading
      modifies this
      ensures Shows(Next(Next(w, ReadFails(error)), ReaderCloses))
    {
      DrainPending(error, w);
      closed := Some(error);
    }
  }

  // ----- the invariant

  predicate Numbers(stage: Stage) {
    stage != Checked && !(stage.Ended? && (stage.ending.Refused? || stage.ending.Unrendered?))
  }

  /** The number a request goes by. */
  function IdOf(stage: Stage): Id
    requires Numbers(stage)
  {
    if !stage.Ended? then stage.id else stage.ending.id
  }

  /** Its channel is in the table, or has been answered: never both, never neither. */
  predicate Tracked(w: World, id: Id) {
    (id in w.pending) != (id in w.replies)
  }

  ghost predicate Coherent(w: World, c: Client)
    requires c in w.clients
  {
    var stage := w.clients[c];
    (Numbers(stage) ==> IdOf(stage) < w.nextId) &&
    match stage
    case Checked => true
    case Numbered(id) => id !in w.pending && id !in w.replies
    case Writing(id) => Tracked(w, id)
    case Sent(id) => Tracked(w, id)
    case Interrupting(id, _) => Tracked(w, id)
    case WriteFailed(id, _) => id !in w.pending && id in w.replies
    case Closing(id) => id !in w.pending && id in w.replies
    case Ended(Replied(id, reply)) => id !in w.pending && id in w.replies && w.replies[id] == reply
    case Ended(Interrupted(id, _)) => id !in w.pending
    case Ended(Unwritten(id)) => id !in w.pending && id in w.replies
    case Ended(_) => true
  }

  /** No two requests share a number. */
  ghost predicate Unique(w: World) {
    forall c, d :: c in w.clients && d in w.clients && c != d && Numbers(w.clients[c]) && Numbers(w.clients[d]) ==>
      IdOf(w.clients[c]) != IdOf(w.clients[d])
  }

  /** Some request still under way goes by this number. */
  ghost predicate Awaited(w: World, id: Id) {
    exists c :: c in w.clients && Numbers(w.clients[c]) && !w.clients[c].Ended? && IdOf(w.clients[c]) == id
  }

  ghost predicate Invariant(w: World) {
    && Unique(w)
    && (forall c :: c in w.clients ==> Coherent(w, c))
    && (forall id :: id in w.pending ==> Awaited(w, id) && id !in w.replies && id < w.nextId)
    && (forall id :: id in w.replies ==>
        id < w.nextId && (w.replies[id].Answer? ==> (id, w.replies[id].value) in w.lines))
    && (w.reader == Stopped ==> w.closed.Some?)
  }

  lemma UniqueKept(w: World, event: Event)
    requires Invariant(w) && Enabled(w, event)
    ensures Unique(Next(w, event))
  {
    hide Drain, Awaited, Coherent, Next;
    var t := Next(w, event);
    forall c, d | c in t.clients && d in t.clients && c != d && Numbers(t.clients[c]) && Numbers(t.clients[d])
      ensures IdOf(t.clients[c]) != IdOf(t.clients[d])
    {
      SameNumber(w, event, c);
      SameNumber(w, event, d);
    }
  }

  /** A step gives a request a number only when it has none, and it is a new one. */
  lemma SameNumber(w: World, event: Event, c: Client)
    requires Invariant(w) && Enabled(w, event) && c in Next(w, event).clients && Numbers(Next(w, event).clients[c])
    ensures var id := IdOf(Next(w, event).clients[c]);
      if event == Number(c) then id == w.nextId
      else c in w.clients && Numbers(w.clients[c]) && id == IdOf(w.clients[c]) < w.nextId
  {
    hide Unique, Awaited, Tracked, Told;
    if c in w.clients {
      assert Coherent(w, c);
    }
  }

  predicate TakenBy(event: Event, c: Client) {
    !event.Line? && !event.ReadFails? && !event.ReaderCloses? && event.client == c
  }

  lemma CoherentOwn(w: World, event: Event, c: Client)
    requires Invariant(w) && Enabled(w, event) && TakenBy(event, c)
    ensures c in Next(w, event).clients && Coherent(Next(w, event), c)
  {
    hide Awaited, Unique;
    if c in w.clients {
      assert Coherent(w, c);
    }
  }

  /** The request taking the step, if one is, goes by another number. */
  predicate OtherNumber(w: World, event: Event, c: Client)
    requires c in w.clients
  {
    event.Line? || event.ReadFails? || event.ReaderCloses? || event.client !in w.clients
    || !Numbers(w.clients[c]) || !Numbers(w.clients[event.client])
    || IdOf(w.clients[c]) != IdOf(w.clients[event.client])
  }

  lemma CoherentOther(w: World, event: Event, c: Client)
    requires Enabled(w, event) && !TakenBy(event, c) && c in w.clients && Coherent(w, c) && OtherNumber(w, event, c)
    ensures c in Next(w, event).clients && Coherent(Next(w, event), c)
  {
  }

  lemma CoherentKept(w: World, event: Event, c: Client)
    requires Invariant(w) && Enabled(w, event) && c in Next(w, event).clients
    ensures Coherent(Next(w, event), c)
  {
    hide Coherent, Awaited;
    if TakenBy(event, c) {
      CoherentOwn(w, event, c);
    } else {
      assert c in w.clients && OtherNumber(w, event, c);
      CoherentOther(w, event, c);
    }
  }

  lemma PendingKept(w: World, event: Event, id: Id)
    requires Invariant(w) && Enabled(w, event) && id in Next(w, event).pending
    ensures var t := Next(w, event); Awaited(t, id) && id !in t.replies && id < t.nextId
  {
    hide Unique;
    var t := Next(w, event);
    if id in w.pending {
      assert Awaited(w, id);
      var c :| c in w.clients && Numbers(w.clients[c]) && !w.clients[c].Ended? && IdOf(w.clients[c]) == id;
      assert Coherent(w, c);
      assert c in t.clients && Numbers(t.clients[c]) && !t.clients[c].Ended? && IdOf(t.clients[c]) == id;
    } else {
      var c := event.client;
      assert Coherent(w, c);
      assert c in t.clients && Numbers(t.clients[c]) && !t.clients[c].Ended? && IdOf(t.clients[c]) == id;
    }
  }

  lemma RepliesKept(w: World, event: Event, id: Id)
    requires Invariant(w) && Enabled(w, event) && id in Next(w, event).replies
    ensures var t := Next(w, event);
      id < t.nextId && (t.replies[id].Answer? ==> (id, t.replies[id].value) in t.lines)
  {
    hide Unique, Coherent, Awaited;
  }

  lemma StepKeeps(w: World, event: Event)
    requires Invariant(w) && Enabled(w, event)
    ensures Invariant(Next(w, event))
  {
    hide Coherent, Unique, Awaited, Enabled, Drain;
    var t := Next(w, event);
    UniqueKept(w, event);
    forall c | c in t.clients ensures Coherent(t, c) {
      CoherentKept(w, event, c);
    }
    forall id | id in t.pending ensures Awaited(t, id) && id !in t.replies && id < t.nextId {
      PendingKept(w, event, id);
    }
    forall id | id in t.replies
      ensures id < t.nextId && (t.replies[id].Answer? ==> (id, t.replies[id].value) in t.lines)
    {
      RepliesKept(w, event, id);
    }
    StoppedKept(w, event);
  }

  lemma StoppedKept(w: World, event: Event)
    requires Enabled(w, event) && (w.reader == Stopped ==> w.closed.Some?)
    ensures Next(w, event).reader == Stopped ==> Next(w, event).closed.Some?
  {
  }

  // ----- runs

  predicate Runs(w: World, events: seq<Event>)
    decreases |events|
  {
    events == [] || (Enabled(w, events[0]) && Runs(Next(w, events[0]), events[1..]))
  }

  function After(w: World, events: seq<Event>): World
    requires Runs(w, events)
    decreases |events|
  {
    if events == [] then w else After(Next(w, events[0]), events[1..])
  }

  /** A reply, once sent, is never replaced, and a closed connection stays closed. */
  ghost predicate Settles(w: World, t: World) {
    && (forall id :: id in w.replies ==> id in t.replies && t.replies[id] == w.replies[id])
    && (w.closed.Some? ==> t.closed.Some?)
    && w.lines <= t.lines
    && w.nextId <= t.nextId
  }

  lemma StepSettles(w: World, event: Event)
    requires Invariant(w) && Enabled(w, event)
    ensures Settles(w, Next(w, event))
  {
    hide Unique, Coherent, Awaited;
  }

  lemma {:induction false} RunKeeps(w: World, events: seq<Event>)
    requires Invariant(w) && Runs(w, events)
    ensures Invariant(After(w, events)) && Settles(w, After(w, events))
    decreases |events|
  {
    hide Invariant, Next, Enabled;
    if events != [] {
      StepKeeps(w, events[0]);
      StepSettles(w, events[0]);
      RunKeeps(Next(w, events[0]), events[1..]);
    }
  }

  lemma StartInvariant()
    ensures Invariant(START)
  {
  }

  /**
   * A request that ended with an answer got one the server wrote under its own number, and no other request ended with
   * that number; a request that is sent is in the table or has its reply, so no channel is closed without one.
   */
  lemma Correlation(w: World, events: seq<Event>, c: Client)
    requires Invariant(w) && Runs(w, events) && c in After(w, events).clients
    ensures var t := After(w, events); var stage := t.clients[c];
      && (stage.Ended? && stage.ending.Replied? && stage.ending.reply.Answer? ==>
          (stage.ending.id, stage.ending.reply.value) in t.lines)
      && (Numbers(stage) ==> forall d :: d in t.clients && d != c && Numbers(t.clients[d]) ==>
          IdOf(t.clients[d]) != IdOf(stage))
      && (stage.Sent? ==> (stage.id in t.pending) != (stage.id in t.replies))
  {
    hide Next, Enabled, Runs, After, Awaited;
    RunKeeps(w, events);
    assert Coherent(After(w, events), c);
  }

  /** When every request has ended the table is empty. */
  lemma NothingLeaks(w: World, events: seq<Event>)
    requires Invariant(w) && Runs(w, events)
    requires forall c :: c in After(w, events).clients ==> After(w, events).clients[c].Ended?
    ensures After(w, events).pending == {}
  {
    hide Next, Enabled, Runs, After;
    RunKeeps(w, events);
    var t := After(w, events);
    assert forall id :: !Awaited(t, id);
  }

  /** A response to a number that is not waiting, late or never sent, changes nothing. */
  lemma LateResponseDropped(w: World, id: Id, value: Value)
    requires Invariant(w) && Enabled(w, Line(id, value))
    ensures Next(w, Line(id, value)).(lines := w.lines) == w <==> id !in w.pending
  {
    hide Unique, Coherent, Awaited;
  }

  /** A request goes on exactly when it finds the connection open. */
  lemma BeginsIff(w: World, c: Client)
    requires Enabled(w, Begin(c))
    ensures var stage := Next(w, Begin(c)).clients[c];
      && (stage == Checked <==> w.closed == None)
      && forall error :: stage == Ended(Refused(error)) <==> w.closed == Some(error)
  {
  }

  /** On every run from a closed connection, a request that begins is refused, and never gets a number. */
  lemma {:induction false} RefusedOnceClosed(w: World, events: seq<Event>, c: Client)
    requires Runs(w, events) && w.closed.Some?
    requires c in w.clients ==> w.clients[c].Ended? && w.clients[c].ending.Refused?
    ensures var t := After(w, events);
      t.closed.Some? && (c in t.clients ==> t.clients[c].Ended? && t.clients[c].ending.Refused?)
    decreases |events|
  {
    if events != [] {
      RefusedOnceClosed(Next(w, events[0]), events[1..], c);
    }
  }

  // ----- requests that come after the drain

  /**
   * Once the reader has drained the table, a request that is sent and waiting stays so, step after step, until its own
   * deadline or cancellation, or the failed write of some request.
   */
  lemma OrphanWaits(w: World, event: Event, c: Client)
    requires Invariant(w) && Enabled(w, event) && w.reader != Reading
    requires c in w.clients && w.clients[c].Sent? && w.clients[c].id in w.pending
    ensures var t := Next(w, event);
      && t.reader != Reading
      && ((t.clients[c] == w.clients[c] && w.clients[c].id in t.pending) <==>
          !event.WriteFails? && !(event.Interrupt? && event.client == c))
  {
    hide Awaited;
    assert Coherent(w, c);
    if !event.Line? && !event.ReadFails? && !event.ReaderCloses? && event.client in w.clients {
      assert Coherent(w, event.client);
    }
  }

  /** What the drains of a run leave: a waiting number came after the last of them, an answered one before it. */
  ghost predicate Chronicle(w: World) {
    && (forall id :: id in w.pending ==> id in w.insertedAt && w.insertedAt[id] == w.drains)
    && (forall id :: id in w.insertedAt ==> w.insertedAt[id] <= w.drains)
    && (forall id :: id in w.replies ==> id in w.insertedAt && (w.reader != Reading ==> w.insertedAt[id] < w.drains))
  }

  lemma StepChronicle(w: World, event: Event)
    requires Invariant(w) && Chronicle(w) && Enabled(w, event)
    ensures Chronicle(Next(w, event))
  {
    hide Unique, Awaited;
    if event.Insert? {
      assert Coherent(w, event.client);
    }
  }

  lemma {:induction false} RunChronicle(w: World, events: seq<Event>)
    requires Invariant(w) && Chronicle(w) && Runs(w, events)
    ensures Chronicle(After(w, events))
    decreases |events|
  {
    hide Invariant, Chronicle, Next, Enabled;
    if events != [] {
      StepKeeps(w, events[0]);
      StepChronicle(w, events[0]);
      RunChronicle(Next(w, events[0]), events[1..]);
    }
  }

  lemma StartChronicle()
    ensures Chronicle(START)
  {
  }

  /**
   * On every run, once the reader has drained the table: a request that is sent has been told of the failure, or
   * answered, exactly when it was put into the table before the last drain.
   */
  lemma ToldIff(events: seq<Event>, c: Client)
    requires Runs(START, events) && After(START, events).reader != Reading
    requires c in After(START, events).clients && After(START, events).clients[c].Sent?
    ensures var t := After(START, events); var id := t.clients[c].id;
      id in t.insertedAt && (id in t.replies <==> t.insertedAt[id] < t.drains)
  {
    hide Runs, After, Next, Enabled, START;
    StartInvariant();
    StartChronicle();
    RunKeeps(START, events);
    RunChronicle(START, events);
    assert Coherent(After(START, events), c);
  }

  lemma RunThree(w: World, a: Event, b: Event, c: Event)
    requires Enabled(w, a) && Enabled(Next(w, a), b) && Enabled(Next(Next(w, a), b), c)
    ensures Runs(w, [a, b, c]) && After(w, [a, b, c]) == Next(Next(Next(w, a), b), c)
  {
    hide Enabled, Next;
    var w1 := Next(w, a);
    var w2 := Next(w1, b);
    var one, two, three := [c], [b, c], [a, b, c];
    assert one[1..] == [] && two[1..] == one && three[1..] == two;
    assert Runs(w2, one) && After(w2, one) == Next(w2, c);
    assert Runs(w1, two) && After(w1, two) == Next(w2, c);
  }

  lemma {:induction false} RunsConcat(w: World, a: seq<Event>, b: seq<Event>)
    requires Runs(w, a) && Runs(After(w, a), b)
    ensures Runs(w, a + b) && After(w, a + b) == After(After(w, a), b)
    decreases |a|
  {
    hide Enabled, Next;
    if a == [] {
      assert a + b == b;
    } else {
      assert (a + b)[0] == a[0] && (a + b)[1..] == a[1..] + b;
      RunsConcat(Next(w, a[0]), a[1..], b);
    }
  }

  /**
   * A request that passes the closed check, and is put into the table only after the reader has drained and closed
   * it.
   */
  function Late(c: Client, error: Error): seq<Event> {
    [Begin(c), ReadFails(error), ReaderCloses] + [Number(c), Insert(c), WriteDone(c)]
  }

  /** From the start it is left waiting on a closed connection, with nobody left to tell it. */
  lemma OrphanArises(c: Client, error: Error)
    ensures Runs(START, Late(c, error))
    ensures var t := After(START, Late(c, error));
      && t.closed == Some(error) && t.reader == Stopped
      && t.clients.Keys == {c} && t.clients[c].Sent? && t.pending == {t.clients[c].id}
  {
    hide Runs, After, START, Enabled, Next;
    AtStart();
    ReaderLeaves(START, c, error);
    var w := Next(Next(Next(START, Begin(c)), ReadFails(error)), ReaderCloses);
    LateInsert(w, c);
    RunThree(START, Begin(c), ReadFails(error), ReaderCloses);
    RunThree(w, Number(c), Insert(c), WriteDone(c));
    RunsConcat(START, [Begin(c), ReadFails(error), ReaderCloses], [Number(c), Insert(c), WriteDone(c)]);
  }

  lemma AtStart()
    ensures START.reader == Reading && START.closed == None && START.clients.Keys == {}
  {
  }

  lemma ReaderLeaves(w: World, c: Client, error: Error)
    requires w.reader == Reading && w.closed == None && w.clients.Keys == {}
    ensures Enabled(w, Begin(c)) && Enabled(Next(w, Begin(c)), ReadFails(error))
    ensures Enabled(Next(Next(w, Begin(c)), ReadFails(error)), ReaderCloses)
    ensures var t := Next(Next(Next(w, Begin(c)), ReadFails(error)), ReaderCloses);
      t.closed == Some(error) && t.reader == Stopped && t.clients == map[c := Checked] && t.pending == {}
  {
  }

  lemma LateInsert(w: World, c: Client)
    requires w.clients == map[c := Checked] && w.pending == {}
    ensures Enabled(w, Number(c)) && Enabled(Next(w, Number(c)), Insert(c))
    ensures Enabled(Next(Next(w, Number(c)), Insert(c)), WriteDone(c))
    ensures var t := Next(Next(Next(w, Number(c)), Insert(c)), WriteDone(c));
      && t.closed == w.closed && t.reader == w.reader
      && t.clients.Keys == {c} && t.clients[c].Sent? && t.pending == {t.clients[c].id}
  {
  }
}
