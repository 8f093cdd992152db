/** A concurrency gate with a bounded queue, under every interleaving of the callers' atomic steps. */
module Admission {
  import opened Wrappers

  type Task = nat

  datatype Refusal = Overloaded | TimedOut | Cancelled | ShuttingDown

  /** Where a caller stands, between its atomic steps. */
  datatype Stage =
    | Trying
    | Loading
    | Loaded(current: nat)
    | Reserved
    | Waiting
    | Granted
    | Leaving(why: Refusal)
    | Holding
    | Refused(why: Refusal)
    | Released

  /** No bound on the queue when `maxQueued` is absent. */
  datatype Config = Config(maxConcurrent: nat, maxQueued: Option<nat>)

  datatype World = World(available: nat, closed: bool, queued: nat, tasks: map<Task, Stage>)

  datatype Event =
    | Arrive(task: Task)
    | TryNow(task: Task)
    | Load(task: Task)
    | CompareExchange(task: Task, spurious: bool)
    | CheckDeadline(task: Task, late: bool)
    | Grant(task: Task)
    | GiveUp(task: Task, why: Refusal)
    | DropReservation(task: Task)
    | Release(task: Task)
    | Close

  predicate At(w: World, task: Task, stage: Stage) {
    task in w.tasks && w.tasks[task] == stage
  }

  predicate Full(current: nat, config: Config) {
    config.maxQueued.Some? && current >= config.maxQueued.value
  }

  predicate Enabled(w: World, event: Event) {
    match event
    case Arrive(t) => t !in w.tasks
    case TryNow(t) => At(w, t, Trying)
    case Load(t) => At(w, t, Loading)
    case CompareExchange(t, _) => t in w.tasks && w.tasks[t].Loaded?
    case CheckDeadline(t, _) => At(w, t, Reserved)
    case Grant(t) => At(w, t, Waiting) && !w.closed && w.available > 0
    case GiveUp(t, why) => At(w, t, Waiting) && why != Overloaded && (why == ShuttingDown ==> w.closed)
    case DropReservation(t) => t in w.tasks && (w.tasks[t].Granted? || w.tasks[t].Leaving?)
    case Release(t) => At(w, t, Holding)
    case Close => true
  }

  function Move(w: World, task: Task, stage: Stage): World {
    w.(tasks := w.tasks[task := stage])
  }

  /** A counter that would go below zero stays where it is; `StepKeeps` shows that it never does. */
  function Decrement(n: nat): nat {
    if n > 0 then n - 1 else 0
  }

  function Next(w: World, event: Event, config: Config): World
    requires Enabled(w, event)
  {
    match event
    case Arrive(t) => Move(w, t, Trying)
    case TryNow(t) =>
      if !w.closed && w.available > 0 then Move(w.(available := w.available - 1), t, Holding) else Move(w, t, Loading)
    case Load(t) => Move(w, t, Loaded(w.queued))
    case CompareExchange(t, spurious) =>
      var current := w.tasks[t].current;
      if Full(current, config) then Move(w, t, Refused(Overloaded))
      else if current == w.queued && !spurious then Move(w.(queued := w.queued + 1), t, Reserved)
      else Move(w, t, Loaded(w.queued))
    case CheckDeadline(t, late) => Move(w, t, if late then Leaving(TimedOut) else Waiting)
    case Grant(t) => Move(w.(available := w.available - 1), t, Granted)
    case GiveUp(t, why) => Move(w, t, Leaving(why))
    case DropReservation(t) =>
      Move(w.(queued := Decrement(w.queued)), t, if w.tasks[t].Granted? then Holding else Refused(w.tasks[t].why))
    case Release(t) => Move(w.(available := w.available + 1), t, Released)
    case Close => w.(closed := true)
  }

  // ----- the reservation loop

  /** What one exchange meets: the value that the others have left in the counter, and whether it fails on its own. */
  datatype Exchange = Exchange(queued: nat, spurious: bool)

  /**
   * The loop from a loaded value, against these exchanges and then none: whether a place is reserved, and the value it
   * leaves or last saw.
   */
  function Reservation(current: nat, others: seq<Exchange>, config: Config): (bool, nat)
    decreases |others|
  {
    if Full(current, config) then (false, current)
    else if others == [] || others[0] == Exchange(current, false) then (true, current + 1)
    else Reservation(others[0].queued, others[1..], config)
  }

  /** A turn of the loop is a step of the system: it ends the loop, or goes on from the value that the exchange met. */
  lemma ReservationTurn(w: World, task: Task, others: seq<Exchange>, config: Config)
    requires task in w.tasks && w.tasks[task].Loaded? && others != [] && w.queued == others[0].queued
    ensures var t := Next(w, CompareExchange(task, others[0].spurious), config);
      var turn := Reservation(w.tasks[task].current, others, config);
      || (t.tasks[task] == Refused(Overloaded) && !turn.0 && t.queued == w.queued)
      || (t.tasks[task] == Reserved && turn == (true, t.queued) && t.queued == w.queued + 1)
      || (t.tasks[task] == Loaded(t.queued) && t.queued == w.queued
          && turn == Reservation(t.queued, others[1..], config))
  {
  }

  /** However the others interfere: a place reserved is within the bound, and a refusal saw a full queue. */
  lemma {:induction false} ReservationMeaning(current: nat, others: seq<Exchange>, config: Config)
    ensures var (ok, queued) := Reservation(current, others, config);
      if ok then queued > 0 && !Full(queued - 1, config) else Full(queued, config)
    decreases |others|
  {
    if !Full(current, config) && others != [] && others[0] != Exchange(current, false) {
      ReservationMeaning(others[0].queued, others[1..], config);
    }
  }

  // ----- the gate's own counters

  class Gate {
    const config: Config
    var available: nat
    var queued: nat
    var closed: bool

    constructor (config: Config)
      ensures this.config == config && available == config.maxConcurrent && queued == 0 && !closed
    {
      this.config := config;
      available, queued, closed := config.maxConcurrent, 0, false;
    }

    /** The counters of a world. */
    ghost predicate Shows(w: World)
      reads this
    {
      available == w.available && queued == w.queued && closed == w.closed
    }

    /** The reservation loop; before each exchange the others leave their value in the counter. */
    method ReserveQueue(others: seq<Exchange>) returns (ok: bool)
      modifies this`queued
      ensures (ok, queued) == Reservation(old(queued), others, config)
    {
      var current := queued;
      var i := 0;
      while true
        invariant 0 <= i <= |others| && current == queued
        invariant Reservation(current, others[i..], config) == Reservation(old(queued), others, config)
        decreases |others| - i
      {
        if Full(current, config) {
          return false;
        }
        if i == |others| {
          queued := current + 1;
          return true;
        }
        assert others[i..][0] == others[i] && others[i..][1..] == others[i + 1..];
        queued := others[i].queued;
        if queued == current && !others[i].spurious {
          queued := current + 1;
          return true;
        }
        current := queued;
        i := i + 1;
      }
    }

    method DropQueueReservation(ghost w: World, ghost task: Task)
      requires Shows(w) && Enabled(w, DropReservation(task)) && Invariant(w, config)
      modifies this`queued
      ensures Shows(Next(w, DropReservation(task), config)) && queued == old(queued) - 1
    {
      Counted(w.tasks, task);
      queued := queued - 1;
    }
  }

  // ----- the invariant

  predicate Reserves(stage: Stage) {
    stage.Reserved? || stage.Waiting? || stage.Granted? || stage.Leaving?
  }

  predicate Holds(stage: Stage) {
    stage.Granted? || stage.Holding?
  }

  function Reservers(tasks: map<Task, Stage>): set<Task> {
    set t | t in tasks && Reserves(tasks[t])
  }

  function Holders(tasks: map<Task, Stage>): set<Task> {
    set t | t in tasks && Holds(tasks[t])
  }

  /** The queue counts the live reservations, within its bound; the permits are all either free or held. */
  ghost predicate Invariant(w: World, config: Config) {
    && w.queued == |Reservers(w.tasks)|
    && (config.maxQueued.Some? ==> w.queued <= config.maxQueued.value)
    && w.available + |Holders(w.tasks)| == config.maxConcurrent
  }

  lemma Moved(tasks: map<Task, Stage>, t: Task, stage: Stage)
    ensures var before, after := Reservers(tasks), Reservers(tasks[t := stage]);
      |after| == |before| - (if t in tasks && Reserves(tasks[t]) then 1 else 0) + (if Reserves(stage) then 1 else 0)
    ensures var before, after := Holders(tasks), Holders(tasks[t := stage]);
      |after| == |before| - (if t in tasks && Holds(tasks[t]) then 1 else 0) + (if Holds(stage) then 1 else 0)
  {
    OneElement(Reservers(tasks), Reservers(tasks[t := stage]), t);
    OneElement(Holders(tasks), Holders(tasks[t := stage]), t);
  }

  lemma OneElement(before: set<Task>, after: set<Task>, t: Task)
    requires forall x :: x != t ==> (x in before <==> x in after)
    ensures |after| == |before| - (if t in before then 1 else 0) + (if t in after then 1 else 0)
  {
    assert before - {t} == after - {t};
    WithoutOne(before, t);
    WithoutOne(after, t);
  }

  lemma WithoutOne(s: set<Task>, t: Task)
    ensures |s - {t}| == |s| - (if t in s then 1 else 0)
  {
    if t !in s {
      assert s - {t} == s;
    }
  }

  lemma Counted(tasks: map<Task, Stage>, t: Task)
    requires t in tasks
    ensures Reserves(tasks[t]) ==> |Reservers(tasks)| > 0
    ensures Holds(tasks[t]) ==> |Holders(tasks)| > 0
  {
    assert Reserves(tasks[t]) ==> t in Reservers(tasks);
    assert Holds(tasks[t]) ==> t in Holders(tasks);
  }

  /** Every step keeps the counts, and no reservation is dropped from an empty queue. */
  lemma StepKeeps(w: World, event: Event, config: Config)
    requires Invariant(w, config) && Enabled(w, event)
    ensures Invariant(Next(w, event, config), config)
    ensures event.DropReservation? ==> Next(w, event, config).queued == w.queued - 1
  {
    hide Reservers, Holders;
    if event != Close {
      Moved(w.tasks, event.task, Next(w, event, config).tasks[event.task]);
      if event.task in w.tasks {
        Counted(w.tasks, event.task);
      }
    }
  }

  // ----- runs

  predicate Runs(w: World, events: seq<Event>, config: Config)
    decreases |events|
  {
    events == [] || (Enabled(w, events[0]) && Runs(Next(w, events[0], config), events[1..], config))
  }

  function After(w: World, events: seq<Event>, config: Config): World
    requires Runs(w, events, config)
    decreases |events|
  {
    if events == [] then w else After(Next(w, events[0], config), events[1..], config)
  }

  lemma {:induction false} RunKeeps(w: World, events: seq<Event>, config: Config)
    requires Invariant(w, config) && Runs(w, events, config)
    ensures Invariant(After(w, events, config), config)
    decreases |events|
  {
    hide Invariant, Enabled, Next;
    if events != [] {
      StepKeeps(w, events[0], config);
      RunKeeps(Next(w, events[0], config), events[1..], config);
    }
  }

  lemma FreshInvariant(w: World, config: Config)
    requires w == World(config.maxConcurrent, false, 0, map[])
    ensures Invariant(w, config)
  {
    assert Reservers(w.tasks) == {} && Holders(w.tasks) == {};
  }

  predicate Finished(stage: Stage) {
    stage.Refused? || stage.Released?
  }

  /**
   * From a new gate, whatever interleaves: the queue never passes its bound, at most the permitted number hold a
   * permit, and when every caller has finished, by whatever exit, the queue is empty and every permit is back.
   */
  lemma GateBounds(w: World, events: seq<Event>, config: Config)
    requires w == World(config.maxConcurrent, false, 0, map[]) && Runs(w, events, config)
    ensures var t := After(w, events, config);
      && t.queued == |Reservers(t.tasks)| && (config.maxQueued.Some? ==> t.queued <= config.maxQueued.value)
      && |Holders(t.tasks)| <= config.maxConcurrent
      && ((forall k :: k in t.tasks ==> Finished(t.tasks[k])) ==> t.queued == 0 && t.available == config.maxConcurrent)
  {
    hide Runs, After, Next, Enabled;
    FreshInvariant(w, config);
    RunKeeps(w, events, config);
    var t := After(w, events, config);
    if forall k :: k in t.tasks ==> Finished(t.tasks[k]) {
      assert Reservers(t.tasks) == {} && Holders(t.tasks) == {};
    }
  }

  /**
   * A caller is refused for a full queue exactly when the value it loaded was full, whatever the queue holds by then.
   */
  lemma OverloadedIff(w: World, task: Task, spurious: bool, config: Config)
    requires Invariant(w, config) && Enabled(w, CompareExchange(task, spurious))
    ensures At(Next(w, CompareExchange(task, spurious), config), task, Refused(Overloaded)) <==>
      Full(w.tasks[task].current, config)
    ensures At(Next(w, CompareExchange(task, spurious), config), task, Reserved) <==>
      !spurious && w.tasks[task].current == w.queued && !Full(w.queued, config)
  {
  }

  // ----- what each caller can expect

  /** A free permit of an open gate goes to whoever asks, with or without waiting; a late caller is turned away. */
  lemma StepGrants(w: World, task: Task, late: bool, config: Config)
    requires task in w.tasks
    ensures w.tasks[task] == Trying ==>
      (Next(w, TryNow(task), config).tasks[task] == Holding <==> !w.closed && w.available >= 1)
    ensures w.tasks[task] == Waiting ==> (Enabled(w, Grant(task)) <==> !w.closed && w.available >= 1)
    ensures w.tasks[task] == Reserved ==>
      Next(w, CheckDeadline(task, late), config).tasks[task] == if late then Leaving(TimedOut) else Waiting
  {
  }

  /** Every caller that has not finished can take a step, without waiting for another; and the gate can be closed. */
  lemma NeverStuck(w: World, task: Task, config: Config)
    requires task in w.tasks && !Finished(w.tasks[task])
    ensures Enabled(w, Close) && Next(w, Close, config).closed
    ensures match w.tasks[task]
      case Trying => Enabled(w, TryNow(task))
      case Loading => Enabled(w, Load(task))
      case Loaded(_) => forall spurious :: Enabled(w, CompareExchange(task, spurious))
      case Reserved => forall late :: Enabled(w, CheckDeadline(task, late))
      case Waiting =>
        && Enabled(w, GiveUp(task, TimedOut)) && Enabled(w, GiveUp(task, Cancelled))
        && (Enabled(w, GiveUp(task, ShuttingDown)) <==> w.closed)
      case Granted => Enabled(w, DropReservation(task))
      case Leaving(_) => Enabled(w, DropReservation(task))
      case Holding => Enabled(w, Release(task))
      case Refused(_) => false
      case Released => false
  {
  }

  /** A caller is told of a shutdown only when there is one, and of an overload only before it has a place. */
  predicate Honest(w: World, task: Task)
    requires task in w.tasks
  {
    match w.tasks[task]
    case Leaving(why) => why != Overloaded && (why == ShuttingDown ==> w.closed)
    case Refused(why) => why == ShuttingDown ==> w.closed
    case _ => true
  }

  predicate AllHonest(w: World) {
    forall k :: k in w.tasks ==> Honest(w, k)
  }

  lemma HonestStep(w: World, event: Event, config: Config)
    requires Enabled(w, event) && AllHonest(w)
    ensures AllHonest(Next(w, event, config))
  {
  }

  /** On every run from a new gate. */
  lemma {:induction false} RefusalsAreHonest(w: World, events: seq<Event>, config: Config)
    requires Runs(w, events, config) && AllHonest(w)
    ensures AllHonest(After(w, events, config))
    decreases |events|
  {
    hide Next, Enabled, AllHonest;
    if events != [] {
      HonestStep(w, events[0], config);
      RefusalsAreHonest(Next(w, events[0], config), events[1..], config);
    }
  }

  /** Once the gate is closed it stays closed, and nobody gets a permit who had none. */
  lemma {:induction false} ClosedAdmitsNobody(w: World, events: seq<Event>, config: Config)
    requires Runs(w, events, config) && w.closed
    ensures var t := After(w, events, config);
      t.closed && forall k :: k in t.tasks && Holds(t.tasks[k]) ==> k in w.tasks && Holds(w.tasks[k])
    decreases |events|
  {
    if events != [] {
      ClosedAdmitsNobody(Next(w, events[0], config), events[1..], config);
    }
  }
}
