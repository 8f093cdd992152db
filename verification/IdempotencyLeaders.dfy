/** The leaders at work: who was told to do the work of a key and has not yet reported. */
module IdempotencyLeaders {
  import opened Wrappers
  import opened Idempotency
  import opened IdempotencyRuns

  /** A leader's token, the channel of the entry it was given, and when it began. */
  datatype Work = Work(token: Token, channel: nat, began: nat)

  datatype Report = Success(response: Response, weight: nat) | Failure(error: Error)

  datatype Event =
    | Request(key: RecordKey, fingerprint: Fingerprint, now: nat)
    | Finish(work: Work, report: Report, now: nat)

  /** `working` dates each leader at work with the latest time of a request since it began, or its own. */
  datatype World = World(state: State, working: map<Work, nat>)

  predicate Enabled(w: World, event: Event) {
    event.Finish? ==> event.work in w.working
  }

  function OpOf(event: Event): Op {
    match event
    case Request(key, fingerprint, now) => BeginOp(key, fingerprint, now)
    case Finish(work, Success(response, weight), now) => CompleteOp(work.token, response, weight, now)
    case Finish(work, Failure(error), now) => FailOp(work.token, error, now)
  }

  ghost predicate Leads(s: State, event: Event, config: Config)
    requires Invariant(s, config) && event.Request?
  {
    Begin(s, event.key, event.fingerprint, event.now, config).1 == Ok(Leader(Token(event.key, event.fingerprint)))
  }

  function Latest(a: nat, b: nat): nat {
    if a >= b then a else b
  }

  function Dated(working: map<Work, nat>, now: nat): map<Work, nat> {
    map work | work in working :: Latest(working[work], now)
  }

  /** Times of requests may go back. */
  ghost function Next(w: World, event: Event, config: Config): World
    requires Invariant(w.state, config)
  {
    World(Step(w.state, OpOf(event), config),
      match event
      case Request(key, fingerprint, now) =>
        var dated := Dated(w.working, now);
        if Leads(w.state, event, config) then dated[Work(Token(key, fingerprint), |w.state.channels|, now) := now]
        else dated
      case Finish(work, _, _) => w.working - {work})
  }

  ghost predicate Runs(w: World, events: seq<Event>, config: Config)
    requires Invariant(w.state, config)
    decreases |events|
  {
    events == [] || (Enabled(w, events[0]) && Runs(Next(w, events[0], config), events[1..], config))
  }

  ghost function After(w: World, events: seq<Event>, config: Config): (t: World)
    requires Invariant(w.state, config)
    ensures Invariant(t.state, config)
    decreases |events|
  {
    if events == [] then w else After(Next(w, events[0], config), events[1..], config)
  }

  /** The entry a leader was given is still pending, as it was given. */
  predicate Backed(s: State, work: Work) {
    && work.token.key in s.entries
    && var e := s.entries[work.token.key];
      && e.sender == work.channel && e.expiresAt == None && e.createdAt == work.began
      && e.fingerprint == work.token.fingerprint
  }

  /** The leader's time is up. */
  predicate Late(work: Work, now: nat, config: Config) {
    work.began + config.inFlightTtl <= now
  }

  /** In time a leader has its entry; from the first request after its time is up, there is none for its key. */
  predicate Standing(s: State, work: Work, latest: nat, config: Config) {
    work.channel < |s.channels| && if Late(work, latest, config) then work.token.key !in s.entries else Backed(s, work)
  }

  ghost predicate AllStanding(w: World, config: Config) {
    forall work :: work in w.working ==> Standing(w.state, work, w.working[work], config)
  }

  /** At most one leader is at work for each key. */
  ghost predicate SoleLeaders(w: World) {
    forall a, b :: a in w.working && b in w.working && a.token.key == b.token.key ==> a == b
  }

  /** There is a place for a new entry, or one can be made. */
  ghost predicate Room(s: State, now: nat, config: Config) {
    var live := Live(s.entries, now, config.inFlightTtl);
    |live| < config.maxEntries || exists k :: k in live && live[k].Evictable()
  }

  /** A request finds room when the leader at work for its key is late, by its own time or by that of one before it. */
  ghost predicate Overtaken(w: World, event: Event, config: Config) {
    && event.Request? && Room(w.state, event.now, config)
    && exists work ::
      work in w.working && work.token.key == event.key && Late(work, Latest(w.working[work], event.now), config)
  }

  /** A pending entry in time is kept as it is by any request, but for its last use. */
  lemma BeginBacked(s: State, work: Work, event: Event, config: Config)
    requires Invariant(s, config) && Backed(s, work) && event.Request? && !Late(work, event.now, config)
    ensures Backed(Begin(s, event.key, event.fingerprint, event.now, config).0, work)
    ensures Leads(s, event, config) ==> event.key != work.token.key
  {
    hide Total, BeginClean, Cleanup;
    CleanupKeeps(s, event.now, config);
    var clean := Cleanup(s, event.now, config.inFlightTtl);
    CleanBacked(s, work, event.now, config);
    BeginCleanBacked(clean, work, event, config);
  }

  lemma CleanBacked(s: State, work: Work, now: nat, config: Config)
    requires Invariant(s, config) && Backed(s, work) && !Late(work, now, config)
    ensures Backed(Cleanup(s, now, config.inFlightTtl), work)
  {
  }

  lemma BeginCleanBacked(clean: State, work: Work, event: Event, config: Config)
    requires Structure(clean) && Backed(clean, work) && event.Request?
    ensures var (t, r) := BeginClean(clean, event.key, event.fingerprint, event.now, config);
      && Backed(t, work)
      && (r.Ok? && r.value.Leader? ==> event.key != work.token.key)
  {
    hide Structure, Oldest, Answer;
    if event.key in clean.entries {
      LinkedEntry(clean, event.key);
      AnswerIsNoLeader(clean.channels[clean.entries[event.key].sender], clean.entries[event.key].sender);
    }
  }

  lemma AnswerIsNoLeader(outcome: Outcome, sender: nat)
    ensures Answer(outcome, sender).Ok? ==> !Answer(outcome, sender).value.Leader?
  {
  }

  /** The leader's own entry. */
  lemma LeaderBacked(s: State, event: Event, config: Config)
    requires Invariant(s, config) && event.Request? && Leads(s, event, config)
    ensures Backed(Begin(s, event.key, event.fingerprint, event.now, config).0,
      Work(Token(event.key, event.fingerprint), |s.channels|, event.now))
  {
    hide Total, Oldest, Structure, Live, Silence;
    CleanupKeeps(s, event.now, config);
    var clean := Cleanup(s, event.now, config.inFlightTtl);
    if event.key in clean.entries {
      LinkedEntry(clean, event.key);
      AnswerIsNoLeader(clean.channels[clean.entries[event.key].sender], clean.entries[event.key].sender);
    }
  }

  /** A report for one key leaves the pending entries of the others alone. */
  lemma FinishBacked(s: State, op: Op, work: Work, config: Config)
    requires Invariant(s, config) && Backed(s, work) && !op.BeginOp? && op.token.key != work.token.key
    ensures Backed(Step(s, op, config), work)
  {
    hide Total, Accounted, Structure, Reserve, Squeezed;
    if op.CompleteOp? && Matches(s, op.token) {
      ReserveKeeps(s, op.weight, op.token.key, config);
      ReserveMeaning(s, op.weight, op.token.key, config);
      PendingNotSqueezed(s, op.weight, op.token.key, work.token.key, config);
    }
  }

  lemma PendingNotSqueezed(s: State, incoming: nat, exclude: RecordKey, key: RecordKey, config: Config)
    requires Invariant(s, config) && key in s.entries && s.entries[key].expiresAt == None
    ensures !Squeezed(s, incoming, exclude, config, key)
  {
    LinkedPending(s, key, config);
  }

  /** A key without a live entry gets one only from a new leader. */
  lemma BeginAbsent(s: State, event: Event, key: RecordKey, config: Config)
    requires Invariant(s, config) && event.Request? && key !in Live(s.entries, event.now, config.inFlightTtl)
    ensures key in Begin(s, event.key, event.fingerprint, event.now, config).0.entries ==>
      key == event.key && Leads(s, event, config)
  {
    hide Total, Oldest, Structure, Answer, Live;
    CleanupKeeps(s, event.now, config);
  }

  lemma BeginChannels(s: State, event: Event, config: Config)
    requires Invariant(s, config) && event.Request?
    ensures var t := Begin(s, event.key, event.fingerprint, event.now, config).0;
      |t.channels| >= |s.channels| && (Leads(s, event, config) ==> |t.channels| > |s.channels|)
  {
    hide Total, Oldest, Structure, Live;
    CleanupKeeps(s, event.now, config);
    var clean := Cleanup(s, event.now, config.inFlightTtl);
    if event.key in clean.entries {
      LinkedEntry(clean, event.key);
      AnswerIsNoLeader(clean.channels[clean.entries[event.key].sender], clean.entries[event.key].sender);
    }
  }

  /** Whether a leader standing alone for its key is overtaken. */
  lemma LeadsBeside(s: State, work: Work, latest: nat, event: Event, config: Config)
    requires Invariant(s, config) && Standing(s, work, latest, config) && event.Request? && event.key == work.token.key
    ensures Leads(s, event, config) <==> Late(work, Latest(latest, event.now), config) && Room(s, event.now, config)
  {
    hide Invariant, Begin;
    LeadsIff(s, event.key, event.fingerprint, event.now, config);
  }

  lemma RequestStanding(s: State, work: Work, latest: nat, event: Event, config: Config)
    requires Invariant(s, config) && Standing(s, work, latest, config) && event.Request?
    requires Leads(s, event, config) ==> event.key != work.token.key
    ensures Standing(Begin(s, event.key, event.fingerprint, event.now, config).0, work, Latest(latest, event.now),
      config)
  {
    hide Invariant, Begin, Leads;
    BeginChannels(s, event, config);
    if Late(work, Latest(latest, event.now), config) {
      BeginAbsent(s, event, work.token.key, config);
    } else {
      BeginBacked(s, work, event, config);
    }
  }

  lemma FinishAbsent(s: State, op: Op, config: Config)
    requires Invariant(s, config) && !op.BeginOp?
    ensures var t := Step(s, op, config); t.entries.Keys <= s.entries.Keys && |t.channels| == |s.channels|
  {
    hide Total, Accounted, Structure, Reserve;
    if Matches(s, op.token) {
      LinkedEntry(s, op.token.key);
      if op.CompleteOp? {
        ReserveKeeps(s, op.weight, op.token.key, config);
        LinkedEntry(ReserveFor(s, op.token, op.weight, config).0, op.token.key);
      }
    }
  }

  lemma FinishStanding(s: State, op: Op, work: Work, latest: nat, config: Config)
    requires Invariant(s, config) && Standing(s, work, latest, config) && !op.BeginOp? && op.token.key != work.token.key
    ensures Standing(Step(s, op, config), work, latest, config)
  {
    hide Invariant, Step, Backed;
    FinishAbsent(s, op, config);
    if !Late(work, latest, config) {
      FinishBacked(s, op, work, config);
    }
  }

  lemma StepIsBegin(s: State, event: Event, config: Config)
    requires Invariant(s, config)
    ensures event.Request? ==>
      Step(s, OpOf(event), config) == Begin(s, event.key, event.fingerprint, event.now, config).0
  {
  }

  /** Sole leaders stay sole exactly when none is overtaken, and then each stands as before. */
  lemma StepSoleIff(w: World, event: Event, config: Config)
    requires Invariant(w.state, config) && AllStanding(w, config) && SoleLeaders(w)
    requires Enabled(w, event) && config.Valid()
    ensures SoleLeaders(Next(w, event, config)) <==> !Overtaken(w, event, config)
    ensures !Overtaken(w, event, config) ==> AllStanding(Next(w, event, config), config)
  {
    hide Invariant, Standing, Leads, Step, Room;
    if event.Request? {
      RequestSoleIff(w, event, config);
    } else {
      var t := Next(w, event, config);
      forall work | work in t.working ensures Standing(t.state, work, t.working[work], config) {
        FinishStanding(w.state, OpOf(event), work, w.working[work], config);
      }
    }
  }

  lemma RequestSoleIff(w: World, event: Event, config: Config)
    requires Invariant(w.state, config) && AllStanding(w, config) && SoleLeaders(w)
    requires event.Request? && config.Valid()
    ensures SoleLeaders(Next(w, event, config)) <==> !Overtaken(w, event, config)
    ensures !Overtaken(w, event, config) ==> AllStanding(Next(w, event, config), config)
  {
    hide Invariant, Standing, Leads, Step, Room, Late;
    var t := Next(w, event, config);
    var newcomer := Work(Token(event.key, event.fingerprint), |w.state.channels|, event.now);
    StepIsBegin(w.state, event, config);
    forall work | work in w.working
      ensures work != newcomer
      ensures work.token.key == event.key ==>
        (Leads(w.state, event, config) <==>
          Late(work, Latest(w.working[work], event.now), config) && Room(w.state, event.now, config))
      ensures (Leads(w.state, event, config) ==> event.key != work.token.key) ==>
        Standing(t.state, work, Latest(w.working[work], event.now), config)
    {
      StandingChannel(w.state, work, w.working[work], config);
      if work.token.key == event.key {
        LeadsBeside(w.state, work, w.working[work], event, config);
      }
      if Leads(w.state, event, config) ==> event.key != work.token.key {
        RequestStanding(w.state, work, w.working[work], event, config);
      }
    }
    if Leads(w.state, event, config) {
      FreshStanding(w.state, event, config);
      if Overtaken(w, event, config) {
        var work :| work in w.working && work.token.key == event.key;
        assert work in t.working && newcomer in t.working;
      }
    }
  }

  lemma StandingChannel(s: State, work: Work, latest: nat, config: Config)
    requires Standing(s, work, latest, config)
    ensures work.channel < |s.channels|
  {
  }

  lemma FreshStanding(s: State, event: Event, config: Config)
    requires Invariant(s, config) && event.Request? && Leads(s, event, config) && config.Valid()
    ensures Standing(Begin(s, event.key, event.fingerprint, event.now, config).0,
      Work(Token(event.key, event.fingerprint), |s.channels|, event.now), event.now, config)
  {
    hide Invariant, Begin, Leads;
    LeaderBacked(s, event, config);
    BeginChannels(s, event, config);
  }

  /** The leaders are sole after every prefix of the run. */
  ghost predicate SoleThroughout(w: World, events: seq<Event>, config: Config)
    requires Invariant(w.state, config)
    decreases |events|
  {
    SoleLeaders(w) && (events == [] || SoleThroughout(Next(w, events[0], config), events[1..], config))
  }

  ghost predicate NeverOvertaken(w: World, events: seq<Event>, config: Config)
    requires Invariant(w.state, config)
    decreases |events|
  {
    events == [] ||
    (!Overtaken(w, events[0], config) && NeverOvertaken(Next(w, events[0], config), events[1..], config))
  }

  /** At most one leader is at work for each key, throughout a run, exactly when no request of it overtakes one. */
  lemma {:induction false} SoleLeadersIff(w: World, events: seq<Event>, config: Config)
    requires Invariant(w.state, config) && AllStanding(w, config) && SoleLeaders(w)
    requires Runs(w, events, config) && config.Valid()
    ensures SoleThroughout(w, events, config) <==> NeverOvertaken(w, events, config)
    decreases |events|
  {
    hide Invariant, AllStanding, SoleLeaders, Enabled, Overtaken, Next;
    if events != [] {
      StepSoleIff(w, events[0], config);
      NextInvariant(w, events[0], config);
      var t := Next(w, events[0], config);
      if SoleLeaders(t) {
        SoleLeadersIff(t, events[1..], config);
      }
    }
  }

  /** An idle cache, whatever it holds, is where such runs start. */
  lemma IdleStands(w: World, config: Config)
    requires w.working == map[]
    ensures AllStanding(w, config) && SoleLeaders(w)
  {
  }

  /** While times do not go back, being late is a matter of the request's own time. */
  lemma OvertakenInOrder(w: World, event: Event, config: Config)
    requires event.Request? ==> forall work :: work in w.working ==> w.working[work] <= event.now
    ensures Overtaken(w, event, config) <==>
      && event.Request? && Room(w.state, event.now, config)
      && exists work :: work in w.working && work.token.key == event.key && Late(work, event.now, config)
  {
    hide Room;
    if event.Request? {
      forall work | work in w.working ensures Latest(w.working[work], event.now) == event.now {
      }
    }
  }

  lemma NextInvariant(w: World, event: Event, config: Config)
    requires Invariant(w.state, config)
    ensures Invariant(Next(w, event, config).state, config)
  {
  }

  // ----- a leader that is late

  /**
   * One leader lets its time pass, a second takes over, and the first then fails for good: its token, equal to the
   * second's, takes the second's entry away, so that a third is told to lead beside the second.
   */
  function Overlap(key: RecordKey, fingerprint: Fingerprint, first: Work, error: Error, config: Config): seq<Event> {
    [Request(key, fingerprint, 0), Request(key, fingerprint, config.inFlightTtl)]
      + [Finish(first, Failure(error), config.inFlightTtl), Request(key, fingerprint, config.inFlightTtl)]
  }

  lemma LeadsAlone(s: State, key: RecordKey, fingerprint: Fingerprint, now: nat, config: Config)
    requires Invariant(s, config) && config.Valid() && Live(s.entries, now, config.inFlightTtl).Keys == {}
    ensures Leads(s, Request(key, fingerprint, now), config)
    ensures var t := Step(s, BeginOp(key, fingerprint, now), config);
      && t.entries.Keys == {key} && |t.channels| == |s.channels| + 1
      && Backed(t, Work(Token(key, fingerprint), |s.channels|, now))
  {
    hide Total, Oldest, Structure, Silence;
    CleanupKeeps(s, now, config);
    LiveNone(s.entries, now, config);
    var clean := Cleanup(s, now, config.inFlightTtl);
    assert |clean.channels| == |s.channels|;
  }

  lemma LiveNone(m: Entries, now: nat, config: Config)
    requires Live(m, now, config.inFlightTtl).Keys == {}
    ensures Live(m, now, config.inFlightTtl) == map[]
  {
  }

  lemma FailEmpties(s: State, key: RecordKey, token: Token, error: Error, now: nat, config: Config)
    requires Invariant(s, config) && s.entries.Keys == {key} && token.key == key && Matches(s, token)
    requires !Inconclusive(error)
    ensures var t := Step(s, FailOp(token, error, now), config);
      t.entries.Keys == {} && |t.channels| == |s.channels|
  {
    LinkedEntry(s, key);
  }

  /** Late, a pending entry is no longer live. */
  lemma Overdue(s: State, key: RecordKey, work: Work, now: nat, config: Config)
    requires s.entries.Keys == {key} && work.token.key == key && Backed(s, work)
    requires work.began + config.inFlightTtl <= now
    ensures Live(s.entries, now, config.inFlightTtl).Keys == {}
  {
  }

  lemma RunTwo(w: World, a: Event, b: Event, config: Config)
    requires Invariant(w.state, config) && Enabled(w, a) && Enabled(Next(w, a, config), b)
    ensures Runs(w, [a, b], config)
    ensures After(w, [a, b], config) == Next(Next(w, a, config), b, config)
  {
    hide Enabled, Next, Invariant;
    NextInvariant(w, a, config);
    NextInvariant(Next(w, a, config), b, config);
    var one, two := [b], [a, b];
    assert one[1..] == [] && two[1..] == one;
    var w1 := Next(w, a, config);
    assert Runs(w1, one, config) && After(w1, one, config) == Next(w1, b, config);
  }

  lemma {:induction false} RunsConcat(w: World, a: seq<Event>, b: seq<Event>, config: Config)
    requires Invariant(w.state, config) && Runs(w, a, config) && Runs(After(w, a, config), b, config)
    ensures Runs(w, a + b, config) && After(w, a + b, config) == After(After(w, a, config), b, config)
    decreases |a|
  {
    hide Enabled, Next, Invariant;
    if a == [] {
      assert a + b == b;
    } else {
      assert (a + b)[0] == a[0] && (a + b)[1..] == a[1..] + b;
      NextInvariant(w, a[0], config);
      RunsConcat(Next(w, a[0], config), a[1..], b, config);
    }
  }

  /** From an empty cache a leader, and then its successor. */
  lemma Takeover(w: World, key: RecordKey, fingerprint: Fingerprint, config: Config)
    requires Invariant(w.state, config) && w.state.entries.Keys == {} && w.working == map[] && config.Valid()
    ensures var n, now, token := |w.state.channels|, config.inFlightTtl, Token(key, fingerprint);
      var events := [Request(key, fingerprint, 0), Request(key, fingerprint, now)];
      && Runs(w, events, config)
      && var t := After(w, events, config);
        && t.state.entries.Keys == {key} && |t.state.channels| == n + 2
        && Backed(t.state, Work(token, n + 1, now)) && t.working.Keys == {Work(token, n, 0), Work(token, n + 1, now)}
  {
    hide Invariant, Leads, Step, Backed, Live, Runs, After;
    var now, first := config.inFlightTtl, Work(Token(key, fingerprint), |w.state.channels|, 0);
    var a, b := Request(key, fingerprint, 0), Request(key, fingerprint, now);
    LiveEmpty(w.state.entries, 0, config);
    LeadsAlone(w.state, key, fingerprint, 0, config);
    var w1 := Next(w, a, config);
    NextInvariant(w, a, config);
    Overdue(w1.state, key, first, now, config);
    LeadsAlone(w1.state, key, fingerprint, now, config);
    RunTwo(w, a, b, config);
  }

  /** The late leader's failure takes its successor's entry away. */
  lemma Displacement(w: World, first: Work, second: Work, error: Error, config: Config)
    requires Invariant(w.state, config) && w.state.entries.Keys == {second.token.key} && Backed(w.state, second)
    requires w.working.Keys == {first, second} && first.token == second.token && first.began != second.began
    requires config.Valid() && !Inconclusive(error)
    ensures var key, fingerprint, now := second.token.key, second.token.fingerprint, config.inFlightTtl;
      var events := [Finish(first, Failure(error), now), Request(key, fingerprint, now)];
      && Runs(w, events, config)
      && After(w, events, config).working.Keys == {second, Work(second.token, |w.state.channels|, now)}
  {
    hide Invariant, Leads, Step, Backed, Live, Runs, After, Matches;
    var key, fingerprint, now := second.token.key, second.token.fingerprint, config.inFlightTtl;
    var a, b := Finish(first, Failure(error), now), Request(key, fingerprint, now);
    BackedMatches(w.state, second);
    FailEmpties(w.state, key, first.token, error, now, config);
    var w1 := Next(w, a, config);
    NextInvariant(w, a, config);
    LiveEmpty(w1.state.entries, now, config);
    LeadsAlone(w1.state, key, fingerprint, now, config);
    RunTwo(w, a, b, config);
    assert w1.working.Keys == {second};
    assert Next(w1, b, config).working.Keys == {second, Work(second.token, |w.state.channels|, now)};
  }

  /** From an empty cache two leaders come to be at work for one key, each within its time. */
  lemma OverlapArises(w: World, key: RecordKey, fingerprint: Fingerprint, error: Error, config: Config)
    requires Invariant(w.state, config) && w.state.entries.Keys == {} && w.working == map[]
    requires config.Valid() && !Inconclusive(error)
    ensures var n, now, token := |w.state.channels|, config.inFlightTtl, Token(key, fingerprint);
      var events := Overlap(key, fingerprint, Work(token, n, 0), error, config);
      && Runs(w, events, config)
      && After(w, events, config).working.Keys == {Work(token, n + 1, now), Work(token, n + 2, now)}
      && !SoleLeaders(After(w, events, config))
      && forall work :: work in After(w, events, config).working ==> !Late(work, now, config)
  {
    hide Invariant, Backed, Runs, After, Next;
    var n, now, token := |w.state.channels|, config.inFlightTtl, Token(key, fingerprint);
    var first, second, third := Work(token, n, 0), Work(token, n + 1, now), Work(token, n + 2, now);
    var a, b := [Request(key, fingerprint, 0), Request(key, fingerprint, now)],
      [Finish(first, Failure(error), now), Request(key, fingerprint, now)];
    Takeover(w, key, fingerprint, config);
    Displacement(After(w, a, config), first, second, error, config);
    RunsConcat(w, a, b, config);
    var t := After(w, a + b, config);
    assert second in t.working && third in t.working && second != third;
  }

  lemma LiveEmpty(m: Entries, now: nat, config: Config)
    requires m.Keys == {}
    ensures Live(m, now, config.inFlightTtl).Keys == {}
  {
  }

  lemma BackedMatches(s: State, work: Work)
    requires Backed(s, work)
    ensures Matches(s, work.token)
  {
  }
}
