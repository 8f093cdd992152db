/** The breaker with its callers: every interleaving of attempts, their results, and dropped permits. */
module BreakerRuns {
  import opened Wrappers
  import opened CircuitBreakers

  /** A result reported by a permit, and the epoch the breaker was in when it came. */
  datatype Completion = Completion(kind: PermitKind, outcome: Outcome, during: nat) {
    /** A result from an earlier epoch is ignored. */
    predicate Counts(kind: PermitKind) {
      this.kind == kind && !kind.DisabledPermit? && kind.epoch == during
    }
  }

  datatype EpochKind = ClosedEpoch | OpenEpoch | HalfOpenEpoch

  datatype Epoch = Epoch(kind: EpochKind, began: nat)

  datatype Event =
    | Attempt(now: nat)
    | Report(kind: PermitKind, result: Result<(), ErrorCode>, now: nat)
    | Forget(kind: PermitKind)

  /**
   * `live` holds the permits in use; `reports` and `epochs` are the history, which the breaker itself does not keep.
   */
  datatype World = World(
    breaker: State, live: multiset<PermitKind>, reports: seq<Completion>, epochs: seq<Epoch>, refusals: nat)

  const START := World(INITIAL, multiset{}, [], [Epoch(ClosedEpoch, 0)], 0)

  function KindOf(phase: Phase): EpochKind {
    match phase
    case Closed(_) => ClosedEpoch
    case Open(_) => OpenEpoch
    case HalfOpen(_, _) => HalfOpenEpoch
  }

  /** Only the holder of a permit can report a result or let go of it, and only once. */
  predicate Enabled(w: World, event: Event) {
    event.Attempt? || event.kind in w.live
  }

  function Record(epochs: seq<Epoch>, before: State, after: State, now: nat): seq<Epoch> {
    if after.epoch == before.epoch then epochs else epochs + [Epoch(KindOf(after.phase), now)]
  }

  function Next(w: World, event: Event, config: Config): World
    requires Enabled(w, event)
  {
    match event
    case Attempt(now) =>
      var (after, granted) := Acquire(w.breaker, now, config);
      World(after, if granted.Ok? then w.live + multiset{granted.value} else w.live, w.reports,
        Record(w.epochs, w.breaker, after, now), w.refusals + (if granted.Err? then 1 else 0))
    case Report(kind, result, now) =>
      var after := Complete(w.breaker, kind, Classify(result), now, config);
      World(after, w.live - multiset{kind}, w.reports + [Completion(kind, Classify(result), w.breaker.epoch)],
        Record(w.epochs, w.breaker, after, now), w.refusals)
    case Forget(kind) =>
      w.(breaker := Abandon(w.breaker, kind), live := w.live - multiset{kind})
  }

  /** The errors that say something about the provider's health; any other says nothing of a closed circuit. */
  predicate Unhealthy(result: Result<(), ErrorCode>) {
    result.Err? && match result.error
    case RateLimited => true
    case Overloaded => true
    case Timeout => true
    case Upstream => true
    case Protocol => true
    case _ => false
  }

  // ----- what the history says

  /** The failures reported in this closed epoch since the last healthy result; neutral results do not matter. */
  function FailuresSinceHealthy(reports: seq<Completion>, epoch: nat): nat {
    if reports == [] then 0
    else
      var last, before := reports[|reports| - 1], reports[..|reports| - 1];
      if !last.Counts(ClosedPermit(epoch)) || last.outcome == Neutral then FailuresSinceHealthy(before, epoch)
      else if last.outcome == Healthy then 0
      else FailuresSinceHealthy(before, epoch) + 1
  }

  /** How often a probe of this epoch reported `outcome`. */
  function Probes(reports: seq<Completion>, epoch: nat, outcome: Outcome): nat {
    if reports == [] then 0
    else
      var last, before := reports[|reports| - 1], reports[..|reports| - 1];
      Probes(before, epoch, outcome) + (if last.Counts(ProbePermit(epoch)) && last.outcome == outcome then 1 else 0)
  }

  /** Why a past epoch ended, and that it ended no later and no earlier. */
  predicate Ended(w: World, e: nat, config: Config)
    requires e + 1 < |w.epochs|
  {
    var next := w.epochs[e + 1];
    match w.epochs[e].kind
    case ClosedEpoch => next.kind == OpenEpoch && FailuresSinceHealthy(w.reports, e) == config.failureThreshold
    case OpenEpoch => next.kind == HalfOpenEpoch && next.began >= w.epochs[e].began + config.openDuration
    case HalfOpenEpoch =>
      var poor := Probes(w.reports, e, Failed) + Probes(w.reports, e, Neutral);
      if next.kind == ClosedEpoch then Probes(w.reports, e, Healthy) >= config.successThreshold && poor == 0
      else next.kind == OpenEpoch && poor == 1
  }

  /** The current phase is what the history of its epoch makes it. */
  predicate Ongoing(w: World, config: Config) {
    var s := w.breaker;
    match s.phase
    case Closed(n) => n == FailuresSinceHealthy(w.reports, s.epoch) < config.failureThreshold
    case Open(until) => s.epoch < |w.epochs| && until == w.epochs[s.epoch].began + config.openDuration
    case HalfOpen(inFlight, successes) =>
      && inFlight == w.live[ProbePermit(s.epoch)] <= config.halfOpenMaxCalls
      && successes == Probes(w.reports, s.epoch, Healthy)
      && Probes(w.reports, s.epoch, Failed) == 0 && Probes(w.reports, s.epoch, Neutral) == 0
  }

  /** Permits and reports belong to epochs of their kind that have begun. */
  predicate Issued(w: World, kind: PermitKind) {
    match kind
    case ClosedPermit(e) => e < |w.epochs| && w.epochs[e].kind == ClosedEpoch
    case ProbePermit(e) => e < |w.epochs| && w.epochs[e].kind == HalfOpenEpoch
    case DisabledPermit => false
  }

  ghost predicate Invariant(w: World, config: Config) {
    && w.breaker.epoch == w.breaker.transitions == |w.epochs| - 1
    && w.breaker.rejectedCalls == w.refusals
    && w.epochs[w.breaker.epoch].kind == KindOf(w.breaker.phase)
    && (forall kind :: kind in w.live ==> Issued(w, kind))
    && (forall i :: 0 <= i < |w.reports| ==> w.reports[i].during < |w.epochs|)
    && Ongoing(w, config)
    && (forall e :: 0 <= e < w.breaker.epoch ==> Ended(w, e, config))
  }

  // ----- counting

  lemma {:induction false} NoReportsYet(reports: seq<Completion>, epoch: nat)
    requires forall i :: 0 <= i < |reports| ==> reports[i].during < epoch
    ensures FailuresSinceHealthy(reports, epoch) == 0
    ensures forall outcome :: Probes(reports, epoch, outcome) == 0
    decreases |reports|
  {
    if reports != [] {
      NoReportsYet(reports[..|reports| - 1], epoch);
      forall outcome ensures Probes(reports, epoch, outcome) == 0 {
        assert Probes(reports[..|reports| - 1], epoch, outcome) == 0;
      }
    }
  }

  /** A report during one epoch says nothing about another. */
  lemma OtherEpoch(reports: seq<Completion>, report: Completion, e: nat)
    requires report.during != e
    ensures FailuresSinceHealthy(reports + [report], e) == FailuresSinceHealthy(reports, e)
    ensures forall outcome :: Probes(reports + [report], e, outcome) == Probes(reports, e, outcome)
  {
    assert (reports + [report])[..|reports|] == reports;
  }

  lemma ThisEpoch(reports: seq<Completion>, report: Completion, e: nat)
    ensures FailuresSinceHealthy(reports + [report], e) ==
      if !report.Counts(ClosedPermit(e)) || report.outcome == Neutral then FailuresSinceHealthy(reports, e)
      else if report.outcome == Healthy then 0 else FailuresSinceHealthy(reports, e) + 1
    ensures forall outcome ::
        Probes(reports + [report], e, outcome) == Probes(reports, e, outcome)
          + (if report.Counts(ProbePermit(e)) && report.outcome == outcome then 1 else 0)
  {
    assert (reports + [report])[..|reports|] == reports;
  }

  // ----- every step keeps the invariant

  lemma StartInvariant(config: Config)
    requires config.Valid() && config.enabled
    ensures Invariant(START, config)
  {
  }

  lemma AttemptKeeps(w: World, now: nat, config: Config)
    requires Invariant(w, config) && config.enabled
    ensures Invariant(Next(w, Attempt(now), config), config)
  {
    hide FailuresSinceHealthy, Probes, Ended;
    var t := Next(w, Attempt(now), config);
    if t.breaker.epoch != w.breaker.epoch {
      NoReportsYet(w.reports, t.breaker.epoch);
      assert ProbePermit(t.breaker.epoch) !in w.live;
      RecoveryEnds(w, now, config);
    }
    forall e | 0 <= e < w.breaker.epoch ensures Ended(t, e, config) {
      EndedSame(w, t, e, config);
    }
  }

  /** Why an epoch ended depends on the reports and on the epochs up to its end. */
  lemma EndedSame(w: World, t: World, e: nat, config: Config)
    requires e + 1 < |w.epochs| && w.epochs <= t.epochs && w.reports == t.reports
    ensures Ended(t, e, config) == Ended(w, e, config)
  {
  }

  lemma RecoveryEnds(w: World, now: nat, config: Config)
    requires w.breaker.epoch == |w.epochs| - 1 && w.epochs[w.breaker.epoch].kind == KindOf(w.breaker.phase)
    requires Ongoing(w, config) && Next(w, Attempt(now), config).breaker.epoch != w.breaker.epoch
    ensures Ended(Next(w, Attempt(now), config), w.breaker.epoch, config)
  {
  }

  lemma ForgetKeeps(w: World, kind: PermitKind, config: Config)
    requires Invariant(w, config) && kind in w.live
    ensures Invariant(Next(w, Forget(kind), config), config)
  {
    hide FailuresSinceHealthy, Probes, Ended;
    var t := Next(w, Forget(kind), config);
    forall e | 0 <= e < t.breaker.epoch ensures Ended(t, e, config) {
      EndedSame(w, t, e, config);
    }
    assert Issued(w, kind);
  }

  lemma ReportKeeps(w: World, kind: PermitKind, result: Result<(), ErrorCode>, now: nat, config: Config)
    requires Invariant(w, config) && kind in w.live && config.Valid() && config.enabled
    ensures Invariant(Next(w, Report(kind, result, now), config), config)
  {
    hide FailuresSinceHealthy, Probes, Ended;
    var t := Next(w, Report(kind, result, now), config);
    assert Issued(w, kind);
    forall e | 0 <= e < w.breaker.epoch ensures Ended(t, e, config) {
      EndedReport(w, kind, result, now, e, config);
    }
    if t.breaker.epoch != w.breaker.epoch {
      NoReportsYet(t.reports, t.breaker.epoch);
      ReportEnds(w, kind, result, now, config);
    } else {
      ThisEpoch(w.reports, Completion(kind, Classify(result), w.breaker.epoch), w.breaker.epoch);
    }
  }

  /** A report does not change why an earlier epoch ended. */
  lemma EndedReport(w: World, kind: PermitKind, result: Result<(), ErrorCode>, now: nat, e: nat, config: Config)
    requires kind in w.live && e < w.breaker.epoch == |w.epochs| - 1 && Ended(w, e, config)
    ensures Ended(Next(w, Report(kind, result, now), config), e, config)
  {
    hide FailuresSinceHealthy, Probes, Complete;
    OtherEpoch(w.reports, Completion(kind, Classify(result), w.breaker.epoch), e);
  }

  lemma ReportEnds(w: World, kind: PermitKind, result: Result<(), ErrorCode>, now: nat, config: Config)
    requires w.breaker.epoch == |w.epochs| - 1 && w.epochs[w.breaker.epoch].kind == KindOf(w.breaker.phase)
    requires Ongoing(w, config) && kind in w.live
    requires Next(w, Report(kind, result, now), config).breaker.epoch != w.breaker.epoch
    ensures Ended(Next(w, Report(kind, result, now), config), w.breaker.epoch, config)
  {
    hide FailuresSinceHealthy, Probes;
    ThisEpoch(w.reports, Completion(kind, Classify(result), w.breaker.epoch), w.breaker.epoch);
  }

  // ----- runs

  predicate Runs(w: World, events: seq<Event>, config: Config)
    decreases |events|
  {
    events == [] || (Enabled(w, events[0]) && Runs(Next(w, events[0], config), events[1..], config))
  }

  function After(w: World, events: seq<Event>, config: Config): World
    requires Runs(w, events, config)
    decreases |events|
  {
    if events == [] then w else After(Next(w, events[0], config), events[1..], config)
  }

  lemma {:induction false} RunKeeps(w: World, events: seq<Event>, config: Config)
    requires Invariant(w, config) && Runs(w, events, config) && config.Valid() && config.enabled
    ensures Invariant(After(w, events, config), config)
    decreases |events|
  {
    hide Invariant, Next;
    if events != [] {
      match events[0] {
        case Attempt(now) => AttemptKeeps(w, now, config);
        case Report(kind, result, now) => ReportKeeps(w, kind, result, now, config);
        case Forget(kind) => ForgetKeeps(w, kind, config);
      }
      RunKeeps(Next(w, events[0], config), events[1..], config);
    }
  }

  /** Every run explains itself: why each epoch ended, and what the present phase counts. */
  lemma RunHistory(w: World, events: seq<Event>, config: Config)
    requires w == START && Runs(w, events, config) && config.Valid() && config.enabled
    ensures var t := After(w, events, config);
      && t.breaker.epoch == t.breaker.transitions == |t.epochs| - 1 && t.breaker.rejectedCalls == t.refusals
      && t.epochs[t.breaker.epoch].kind == KindOf(t.breaker.phase)
      && Ongoing(t, config) && forall e :: 0 <= e < t.breaker.epoch ==> Ended(t, e, config)
  {
    hide FailuresSinceHealthy, Probes, Next, Runs, After;
    StartInvariant(config);
    RunKeeps(w, events, config);
  }

  /** A permit of the present epoch is of the present phase's kind. */
  lemma CurrentPermits(w: World, kind: PermitKind, config: Config)
    requires Invariant(w, config) && kind in w.live
    ensures !kind.DisabledPermit?
    ensures kind.epoch == w.breaker.epoch ==>
      (kind.ClosedPermit? && w.breaker.phase.Closed?) || (kind.ProbePermit? && w.breaker.phase.HalfOpen?)
    ensures kind.epoch <= w.breaker.epoch
  {
    assert Issued(w, kind);
  }

  /**
   * A result changes the breaker exactly when it comes in its own epoch and is neither a neutral result of a closed
   * circuit nor a healthy one with no failure to forget.
   */
  lemma ReportMatters(w: World, kind: PermitKind, result: Result<(), ErrorCode>, now: nat, config: Config)
    requires Invariant(w, config) && kind in w.live
    ensures Next(w, Report(kind, result, now), config).breaker != w.breaker <==>
      && kind.epoch == w.breaker.epoch
      && (kind.ProbePermit? || Unhealthy(result) || (result.Ok? && w.breaker.phase.consecutiveFailures > 0))
  {
    hide FailuresSinceHealthy, Probes, Ended;
    CurrentPermits(w, kind, config);
  }

  /** Letting go of a permit gives back a probe's place, and does nothing else; no count is ever clipped at zero. */
  lemma ForgetMatters(w: World, kind: PermitKind, config: Config)
    requires Invariant(w, config) && kind in w.live
    ensures var t := Next(w, Forget(kind), config);
      if kind == ProbePermit(w.breaker.epoch)
      then w.breaker.phase.HalfOpen? && w.breaker.phase.inFlight > 0
        && t.breaker == w.breaker.(phase := w.breaker.phase.(inFlight := w.breaker.phase.inFlight - 1))
      else t.breaker == w.breaker
  {
    hide FailuresSinceHealthy, Probes, Ended;
    CurrentPermits(w, kind, config);
  }

  /**
   * An attempt is refused exactly while an open circuit recovers, or while every probe of the present epoch is in
   * use.
   */
  lemma RefusedIff(w: World, now: nat, config: Config)
    requires Invariant(w, config) && config.Valid() && config.enabled
    ensures Acquire(w.breaker, now, config).1.Err? <==>
      || (w.breaker.phase.Open? && now < w.epochs[w.breaker.epoch].began + config.openDuration)
      || (w.breaker.phase.HalfOpen? && w.live[ProbePermit(w.breaker.epoch)] == config.halfOpenMaxCalls)
  {
    hide FailuresSinceHealthy, Probes, Ended;
  }

  /**
   * An open circuit says how long it will still refuse: every attempt before that is refused, and one then is let
   * through, if nobody comes between. A half-open one can only say how long it would be open.
   */
  lemma RetryAfterMeaning(w: World, now: nat, later: nat, config: Config)
    requires Invariant(w, config) && config.Valid() && config.enabled && Acquire(w.breaker, now, config).1.Err?
    ensures var rejection := Acquire(w.breaker, now, config).1.error;
      if w.breaker.phase.Open?
      then !rejection.probing && rejection.retryAfter > 0
        && (Acquire(Acquire(w.breaker, now, config).0, later, config).1.Ok? <==> later >= now + rejection.retryAfter)
      else rejection == Rejection(true, config.openDuration)
  {
    hide FailuresSinceHealthy, Probes, Ended;
  }

  /** A half-open circuit can always be probed again once its probes are done, whatever became of them. */
  lemma HalfOpenAdmits(w: World, now: nat, config: Config)
    requires Invariant(w, config) && config.Valid() && config.enabled
    requires w.breaker.phase.HalfOpen? && ProbePermit(w.breaker.epoch) !in w.live
    ensures Acquire(w.breaker, now, config).1 == Ok(ProbePermit(w.breaker.epoch))
  {
    hide FailuresSinceHealthy, Probes, Ended;
  }

  /** A circuit opens at the failure that makes the threshold, at a probe that is not healthy, and at nothing else. */
  lemma OpensIff(w: World, event: Event, config: Config)
    requires Invariant(w, config) && config.Valid() && config.enabled && Enabled(w, event)
    ensures Next(w, event, config).breaker.phase.Open? && Next(w, event, config).breaker.epoch != w.breaker.epoch <==>
      && event.Report? && event.kind.epoch == w.breaker.epoch
      && if event.kind.ClosedPermit?
        then Unhealthy(event.result) && FailuresSinceHealthy(w.reports, w.breaker.epoch) + 1 == config.failureThreshold
        else event.result.Err?
  {
    hide FailuresSinceHealthy, Probes, Ended;
    if !event.Attempt? {
      CurrentPermits(w, event.kind, config);
    }
  }

  /** A circuit closes at the last healthy probe in use, once enough have succeeded, and at nothing else. */
  lemma ClosesIff(w: World, event: Event, config: Config)
    requires Invariant(w, config) && config.Valid() && config.enabled && Enabled(w, event)
    ensures Next(w, event, config).breaker.phase.Closed? && Next(w, event, config).breaker.epoch != w.breaker.epoch <==>
      && event.Report? && event.kind == ProbePermit(w.breaker.epoch) && event.result.Ok?
      && w.live[event.kind] == 1 && Probes(w.reports, w.breaker.epoch, Healthy) + 1 >= config.successThreshold
  {
    hide FailuresSinceHealthy, Probes, Ended;
    if !event.Attempt? {
      CurrentPermits(w, event.kind, config);
    }
  }

  // ----- probes of earlier epochs

  /** With one probe at a time, no probe outlives its epoch. */
  ghost predicate SoleProbe(w: World) {
    && (forall kind :: kind in w.live && kind.ProbePermit? ==> kind.epoch == w.breaker.epoch)
    && w.live[ProbePermit(w.breaker.epoch)] <= 1
  }

  lemma {:induction false} SoleProbeKept(w: World, events: seq<Event>, config: Config)
    requires Invariant(w, config) && Runs(w, events, config) && config.Valid() && config.enabled
    requires config.halfOpenMaxCalls == 1 && SoleProbe(w)
    ensures SoleProbe(After(w, events, config))
    decreases |events|
  {
    hide Invariant, Next;
    if events != [] {
      RunKeeps(w, [events[0]], config);
      SoleProbeStep(w, events[0], config);
      SoleProbeKept(Next(w, events[0], config), events[1..], config);
    }
  }

  lemma SoleProbeStep(w: World, event: Event, config: Config)
    requires Invariant(w, config) && Enabled(w, event) && config.Valid() && config.enabled
    requires config.halfOpenMaxCalls == 1 && SoleProbe(w)
    ensures SoleProbe(Next(w, event, config))
  {
    hide FailuresSinceHealthy, Probes, Ended;
    match event {
      case Attempt(now) => SoleProbeAttempt(w, now, config);
      case Report(kind, result, now) =>
        CurrentPermits(w, kind, config);
        assert Issued(w, kind);
      case Forget(kind) =>
    }
  }

  lemma SoleProbeAttempt(w: World, now: nat, config: Config)
    requires Invariant(w, config) && config.enabled && config.halfOpenMaxCalls == 1 && SoleProbe(w)
    ensures SoleProbe(Next(w, Attempt(now), config))
  {
    hide FailuresSinceHealthy, Probes, Ended;
    forall kind | kind in w.live && kind.ProbePermit? ensures w.breaker.phase.HalfOpen? {
      assert Issued(w, kind);
    }
    assert !w.breaker.phase.HalfOpen? ==> w.live[ProbePermit(w.breaker.epoch)] == 0;
    assert ProbePermit(w.breaker.epoch + 1) !in w.live;
  }

  /** The probes in use of the epochs before `e`. */
  function ProbesBefore(live: multiset<PermitKind>, e: nat): nat {
    if e == 0 then 0 else ProbesBefore(live, e - 1) + live[ProbePermit(e - 1)]
  }

  /** The probes in use, over all epochs. */
  function LiveProbes(w: World): nat {
    ProbesBefore(w.live, |w.epochs|)
  }

  lemma {:induction false} OnlyEpoch(live: multiset<PermitKind>, e: nat, only: nat)
    requires forall kind :: kind in live && kind.ProbePermit? ==> kind.epoch == only
    ensures ProbesBefore(live, e) == if only < e then live[ProbePermit(only)] else 0
  {
    if e > 0 {
      OnlyEpoch(live, e - 1, only);
      assert e - 1 != only ==> ProbePermit(e - 1) !in live;
    }
  }

  lemma {:induction false} TwoEpochs(live: multiset<PermitKind>, e: nat, i: nat, j: nat)
    requires i < j
    ensures i < e ==> ProbesBefore(live, e) >= live[ProbePermit(i)]
    ensures j < e ==> ProbesBefore(live, e) >= live[ProbePermit(i)] + live[ProbePermit(j)]
  {
    if e > 0 {
      TwoEpochs(live, e - 1, i, j);
    }
  }

  /** With a limit of one, no run ever has two probes in use. */
  lemma OneProbe(events: seq<Event>, config: Config)
    requires Runs(START, events, config) && config.Valid() && config.enabled && config.halfOpenMaxCalls == 1
    ensures LiveProbes(After(START, events, config)) <= 1
  {
    hide Runs, After, Next, Ended, Ongoing;
    StartInvariant(config);
    SoleProbeKept(START, events, config);
    RunKeeps(START, events, config);
    var t := After(START, events, config);
    OnlyEpoch(t.live, |t.epochs|, t.breaker.epoch);
  }

  /** A probe fails while the others are in use; when the circuit recovers they are not counted. */
  function Reprobe(epoch: nat, now: nat, config: Config): seq<Event> {
    [Report(ProbePermit(epoch), Err(Timeout), now), Attempt(now + config.openDuration),
     Attempt(now + config.openDuration)]
  }

  lemma RunThree(w: World, a: Event, b: Event, c: Event, config: Config)
    requires Enabled(w, a) && Enabled(Next(w, a, config), b) && Enabled(Next(Next(w, a, config), b, config), c)
    ensures Runs(w, [a, b, c], config)
    ensures After(w, [a, b, c], config) == Next(Next(Next(w, a, config), b, config), c, config)
  {
    hide Enabled, Next;
    var w1 := Next(w, a, config);
    var w2 := Next(w1, b, config);
    var one, two, three := [c], [b, c], [a, b, c];
    assert one[1..] == [] && two[1..] == one && three[1..] == two;
    assert Runs(w2, one, config) && After(w2, one, config) == Next(w2, c, config);
    assert Runs(w1, two, config) && After(w1, two, config) == Next(w2, c, config);
  }

  lemma {:induction false} RunsConcat(w: World, a: seq<Event>, b: seq<Event>, config: Config)
    requires Runs(w, a, config) && Runs(After(w, a, config), b, config)
    ensures Runs(w, a + b, config) && After(w, a + b, config) == After(After(w, a, config), b, config)
    decreases |a|
  {
    hide Enabled, Next;
    if a == [] {
      assert a + b == b;
    } else {
      assert (a + b)[0] == a[0] && (a + b)[1..] == a[1..] + b;
      RunsConcat(Next(w, a[0], config), a[1..], b, config);
    }
  }

  /** From every half-open circuit with all its probes in use, this leads to more probes than the limit. */
  lemma ProbesOutliveEpochs(w: World, now: nat, config: Config)
    requires Invariant(w, config) && config.Valid() && config.enabled && config.halfOpenMaxCalls >= 2
    requires w.breaker.phase.HalfOpen? && w.live[ProbePermit(w.breaker.epoch)] == config.halfOpenMaxCalls
    ensures var events := Reprobe(w.breaker.epoch, now, config);
      Runs(w, events, config) && LiveProbes(After(w, events, config)) > config.halfOpenMaxCalls
  {
    hide FailuresSinceHealthy, Probes, Ended, Runs, After, ProbesBefore;
    var before, again := ProbePermit(w.breaker.epoch), ProbePermit(w.breaker.epoch + 2);
    var later := now + config.openDuration;
    assert !Issued(w, again);
    var t1 := Next(w, Report(before, Err(Timeout), now), config);
    assert t1.breaker == State(Open(later), w.breaker.epoch + 1, w.breaker.rejectedCalls, w.breaker.transitions + 1);
    var t2 := Next(t1, Attempt(later), config);
    assert t2.breaker.phase == HalfOpen(1, 0) && t2.live == t1.live + multiset{again};
    RunThree(w, Report(before, Err(Timeout), now), Attempt(later), Attempt(later), config);
    var t := Next(t2, Attempt(later), config);
    TwoEpochs(t.live, |t.epochs|, w.breaker.epoch, w.breaker.epoch + 2);
  }

  /** Calls that are let through and fail. */
  function Failures(n: nat): seq<Event> {
    if n == 0 then [] else [Attempt(0), Report(ClosedPermit(0), Err(Timeout), 0)] + Failures(n - 1)
  }

  function Attempts(n: nat, now: nat): seq<Event> {
    if n == 0 then [] else [Attempt(now)] + Attempts(n - 1, now)
  }

  lemma FailOnce(w: World, config: Config)
    requires config.enabled && w.breaker.phase.Closed? && w.breaker.epoch == 0 && w.live == multiset{}
    ensures Enabled(w, Attempt(0)) && Enabled(Next(w, Attempt(0), config), Report(ClosedPermit(0), Err(Timeout), 0))
    ensures var t := Next(Next(w, Attempt(0), config), Report(ClosedPermit(0), Err(Timeout), 0), config);
      && t.live == multiset{}
      && (if w.breaker.phase.consecutiveFailures + 1 >= config.failureThreshold
          then t.breaker.phase == Open(config.openDuration) && t.breaker.epoch == 1
          else t.breaker.phase == Closed(w.breaker.phase.consecutiveFailures + 1) && t.breaker.epoch == 0)
  {
    assert multiset{ClosedPermit(0)} - multiset{ClosedPermit(0)} == multiset{};
  }

  lemma {:induction false} FailuresOpen(w: World, n: nat, config: Config)
    requires config.enabled && w.breaker.phase.Closed? && w.breaker.epoch == 0 && w.live == multiset{} && n > 0
    requires w.breaker.phase.consecutiveFailures + n == config.failureThreshold
    ensures Runs(w, Failures(n), config)
    ensures var t := After(w, Failures(n), config);
      t.breaker.phase == Open(config.openDuration) && t.breaker.epoch == 1 && t.live == multiset{}
    decreases n
  {
    hide Next, Enabled;
    FailOnce(w, config);
    var a, b := Attempt(0), Report(ClosedPermit(0), Err(Timeout), 0);
    var w1 := Next(w, a, config);
    var t := Next(w1, b, config);
    var events := Failures(n);
    assert events[0] == a && events[1..][0] == b && events[1..][1..] == Failures(n - 1);
    if n > 1 {
      FailuresOpen(t, n - 1, config);
    }
    assert n == 1 ==> Failures(n - 1) == [];
    OneMore(w1, events[1..], config);
    OneMore(w, events, config);
  }

  lemma {:induction false} AttemptsFill(w: World, n: nat, now: nat, config: Config)
    requires config.enabled && w.breaker.phase.HalfOpen? && w.breaker.phase.inFlight + n <= config.halfOpenMaxCalls
    ensures Runs(w, Attempts(n, now), config)
    ensures var t := After(w, Attempts(n, now), config); var probe := ProbePermit(w.breaker.epoch);
      && t.breaker.phase.HalfOpen? && t.breaker.epoch == w.breaker.epoch
      && t.live[probe] == w.live[probe] + n
    decreases n
  {
    if n > 0 {
      assert Attempts(n, now)[1..] == Attempts(n - 1, now);
      AttemptsFill(Next(w, Attempt(now), config), n - 1, now, config);
    }
  }

  lemma AttemptsFromOpen(w: World, n: nat, now: nat, config: Config)
    requires config.enabled && w.breaker.phase == Open(now) && 0 < n <= config.halfOpenMaxCalls && w.live == multiset{}
    ensures Runs(w, Attempts(n, now), config)
    ensures var t := After(w, Attempts(n, now), config);
      && t.breaker.phase.HalfOpen? && t.breaker.epoch == w.breaker.epoch + 1
      && t.live[ProbePermit(t.breaker.epoch)] == n
  {
    hide Runs, After;
    var t := Next(w, Attempt(now), config);
    assert t.breaker.phase == HalfOpen(1, 0) && t.live == multiset{ProbePermit(w.breaker.epoch + 1)};
    AttemptsFill(t, n - 1, now, config);
    assert Attempts(n, now)[1..] == Attempts(n - 1, now);
    OneMore(w, Attempts(n, now), config);
  }

  lemma OneMore(w: World, events: seq<Event>, config: Config)
    requires events != [] && Enabled(w, events[0]) && Runs(Next(w, events[0], config), events[1..], config)
    ensures Runs(w, events, config)
    ensures After(w, events, config) == After(Next(w, events[0], config), events[1..], config)
  {
  }

  /** Enough failures to open the circuit, all its probes once it recovers, and then a failed probe. */
  function Overrun(config: Config): seq<Event> {
    Failures(config.failureThreshold) + Attempts(config.halfOpenMaxCalls, config.openDuration)
      + Reprobe(2, config.openDuration, config)
  }

  lemma OverrunArises(w: World, config: Config)
    requires Invariant(w, config) && config.Valid() && config.enabled && config.halfOpenMaxCalls >= 2
    requires w.breaker.phase == Closed(0) && w.breaker.epoch == 0 && w.live == multiset{}
    ensures Runs(w, Overrun(config), config)
    ensures LiveProbes(After(w, Overrun(config), config)) > config.halfOpenMaxCalls
  {
    hide Runs, After, Next, Invariant, LiveProbes, Reprobe, Attempts, Failures;
    var now := config.openDuration;
    FailuresOpen(w, config.failureThreshold, config);
    var tripped := After(w, Failures(config.failureThreshold), config);
    AttemptsFromOpen(tripped, config.halfOpenMaxCalls, now, config);
    RunsConcat(w, Failures(config.failureThreshold), Attempts(config.halfOpenMaxCalls, now), config);
    var filling := Failures(config.failureThreshold) + Attempts(config.halfOpenMaxCalls, now);
    RunKeeps(w, filling, config);
    ProbesOutliveEpochs(After(w, filling, config), now, config);
    RunsConcat(w, filling, Reprobe(2, now, config), config);
  }

  /** The limit holds over all epochs, on every run from the start, exactly when it is one. */
  lemma ProbeLimitIff(config: Config)
    requires config.Valid() && config.enabled
    ensures (forall events :: Runs(START, events, config) ==>
        LiveProbes(After(START, events, config)) <= config.halfOpenMaxCalls)
      <==> config.halfOpenMaxCalls == 1
  {
    hide Runs, After, Next, Invariant, LiveProbes, Overrun;
    StartInvariant(config);
    if config.halfOpenMaxCalls == 1 {
      forall events | Runs(START, events, config) ensures LiveProbes(After(START, events, config)) <= 1 {
        OneProbe(events, config);
      }
    } else {
      OverrunArises(START, config);
    }
  }
}
