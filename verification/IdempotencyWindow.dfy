/** For how long a repeated request is told the same, by the times of the calls alone. */
module IdempotencyWindows {
  import opened Wrappers
  import opened Idempotency
  import opened IdempotencyRuns

  /** What a repetition of the request is told, and until when. */
  datatype Grant = Grant(token: Token, answer: Result<Action, Error>, until: nat)

  /** What a call grants the request it concerns: to wait, a response, or the error that stands for one. */
  ghost function Granted(s: State, op: Op, config: Config): Option<Grant>
    requires Invariant(s, config)
  {
    match op
    case BeginOp(key, fingerprint, now) =>
      var token := Token(key, fingerprint);
      if Begin(s, key, fingerprint, now, config).1 == Ok(Leader(token))
      then Some(Grant(token, Ok(Wait(|s.channels|)), now + config.inFlightTtl))
      else None
    case CompleteOp(token, response, weight, now) =>
      if !Matches(s, token) then None
      else if Pinned(s, token.key) + weight <= config.maxCompletedBytes
      then Some(Grant(token, Ok(Cached(response)), now + config.completedTtl))
      else Some(Grant(token, Err(Unreplayable), now + config.completedTtl))
    case FailOp(token, error, now) =>
      if Matches(s, token) && Inconclusive(error)
      then Some(Grant(token, Err(error.(retryable := false)), now + config.unknownTtl))
      else None
  }

  /** The entry of `key` is settled again, or a live one is given up for the sake of another. */
  ghost predicate Disturbs(s: State, op: Op, key: RecordKey, config: Config)
    requires Invariant(s, config)
  {
    Settles(s, op, key) || (key in s.entries &&
      match op
      case BeginOp(_, _, now) => key in Live(s.entries, now, config.inFlightTtl) && Displaced(s, op, key, config)
      case CompleteOp(token, _, weight, _) =>
        Matches(s, token) && weight <= config.maxCompletedBytes && Squeezed(s, weight, token.key, config, key)
      case FailOp(_, _, _) => false)
  }

  ghost predicate LeftAlone(s: State, ops: seq<Op>, key: RecordKey, config: Config)
    requires Invariant(s, config)
    decreases |ops|
  {
    ops == [] || (!Disturbs(s, ops[0], key, config) && LeftAlone(Step(s, ops[0], config), ops[1..], key, config))
  }

  /** Every request of the run, for whatever key, comes before `until`. */
  predicate Before(ops: seq<Op>, until: nat)
    decreases |ops|
  {
    ops == [] || ((ops[0].BeginOp? ==> ops[0].now < until) && Before(ops[1..], until))
  }

  /** While times do not go back, it is enough that the last request comes in time. */
  lemma {:induction false} InOrder(ops: seq<Op>, now: nat, until: nat)
    requires now < until && forall i :: 0 <= i < |ops| && ops[i].BeginOp? ==> ops[i].now <= now
    ensures Before(ops, until)
    decreases |ops|
  {
    if ops != [] {
      InOrder(ops[1..], now, until);
    }
  }

  // ----- while the grant stands, and after

  predicate Grantable(answer: Result<Action, Error>) {
    match answer
    case Ok(action) => !action.Leader?
    case Err(error) => error.Unreplayable? || error.Provider?
  }

  ghost predicate Standing(s: State, grant: Grant, config: Config) {
    && Grantable(grant.answer) && grant.token.key in s.entries
    && var e := s.entries[grant.token.key];
      && e.fingerprint == grant.token.fingerprint && e.sender < |s.channels|
      && Answer(s.channels[e.sender], e.sender) == grant.answer
      && grant.until == if e.expiresAt.Some? then e.expiresAt.value else e.createdAt + config.inFlightTtl
  }

  /** At most a later leader has an entry for the key, which has not been settled. */
  ghost predicate Over(s: State, grant: Grant) {
    && Grantable(grant.answer)
    && (grant.answer.Ok? && grant.answer.value.Wait? ==> grant.answer.value.sender < |s.channels|)
    && (grant.token.key in s.entries ==>
        var c := s.entries[grant.token.key].sender;
        c < |s.channels| && s.channels[c] == Pending && grant.answer != Ok(Wait(c)))
  }

  /** An entry after a request is an earlier one, or the new leader's. */
  lemma BeginEntry(s: State, op: Op, key: RecordKey, config: Config)
    requires Invariant(s, config) && op.BeginOp?
    ensures var t := Begin(s, op.key, op.fingerprint, op.now, config).0;
      && |s.channels| <= |t.channels|
      && (key in t.entries && !(key in s.entries && Holds(t, key, s.entries[key].sender)) ==>
        && op.key == key && t.entries[key].sender == |s.channels| < |t.channels|
        && t.entries[key].createdAt == op.now && t.entries[key].expiresAt == None
        && t.entries[key].fingerprint == op.fingerprint && t.channels[|s.channels|] == Pending)
  {
    hide Total, Structure, BeginClean;
    CleanupKeeps(s, op.now, config);
    BeginCleanEntry(Cleanup(s, op.now, config.inFlightTtl), op, key, config);
  }

  lemma BeginCleanEntry(clean: State, op: Op, key: RecordKey, config: Config)
    requires Structure(clean) && op.BeginOp?
    ensures var t := BeginClean(clean, op.key, op.fingerprint, op.now, config).0;
      && |clean.channels| <= |t.channels|
      && (key in t.entries && !(key in clean.entries && Holds(t, key, clean.entries[key].sender)) ==>
        && op.key == key && t.entries[key].sender == |clean.channels| < |t.channels|
        && t.entries[key].createdAt == op.now && t.entries[key].expiresAt == None
        && t.entries[key].fingerprint == op.fingerprint && t.channels[|clean.channels|] == Pending)
  {
    hide Structure, EvictableKeys, Oldest, IsOldest, Answer;
    if op.key in clean.entries {
      LinkedEntry(clean, op.key);
    }
  }

  /** Neither a completion nor a failure makes an entry or a channel. */
  lemma ReportEntry(s: State, op: Op, key: RecordKey, config: Config)
    requires Invariant(s, config) && !op.BeginOp?
    ensures var t := Step(s, op, config);
      && |s.channels| == |t.channels| && (key in t.entries ==> key in s.entries && Holds(t, key, s.entries[key].sender))
  {
    hide Total, Accounted, Structure, Reserve;
    if Matches(s, op.token) {
      LinkedEntry(s, op.token.key);
      if op.CompleteOp? {
        ReserveKeeps(s, op.weight, op.token.key, config);
      }
    }
  }

  lemma StandingStep(s: State, op: Op, grant: Grant, config: Config)
    requires Invariant(s, config) && Standing(s, grant, config) && !Disturbs(s, op, grant.token.key, config)
    ensures var t := Step(s, op, config);
      if op.BeginOp? && op.now >= grant.until then Over(t, grant) else Standing(t, grant, config)
  {
    hide Invariant, Step, Displaced, Squeezed, Settles, Begin, Total;
    var key := grant.token.key;
    assert Releases(s, op, key, config) <==> op.BeginOp? && op.now >= grant.until by {
      ReleasesInTime(s, op, grant, config);
    }
    StepReleases(s, op, key, config);
    if Releases(s, op, key, config) {
      StepIsBegin(s, op, config);
      BeginEntry(s, op, key, config);
    } else {
      HeldStep(s, op, key, config);
    }
  }

  lemma StepIsBegin(s: State, op: Op, config: Config)
    requires Invariant(s, config) && op.BeginOp?
    ensures Step(s, op, config) == Begin(s, op.key, op.fingerprint, op.now, config).0
  {
  }

  lemma ReleasesInTime(s: State, op: Op, grant: Grant, config: Config)
    requires Invariant(s, config) && Standing(s, grant, config) && !Disturbs(s, op, grant.token.key, config)
    ensures Releases(s, op, grant.token.key, config) <==> op.BeginOp? && op.now >= grant.until
  {
    hide Invariant, Displaced, Squeezed;
  }

  lemma OverStep(s: State, op: Op, grant: Grant, config: Config)
    requires Invariant(s, config) && Over(s, grant) && !Disturbs(s, op, grant.token.key, config)
    ensures Over(Step(s, op, config), grant)
  {
    hide Invariant, Step, Displaced, Squeezed, Settles, Begin, Total, Releases;
    var key := grant.token.key;
    var t := Step(s, op, config);
    if op.BeginOp? {
      StepIsBegin(s, op, config);
      BeginEntry(s, op, key, config);
    } else {
      ReportEntry(s, op, key, config);
    }
    if key in s.entries && Holds(t, key, s.entries[key].sender) {
      StepReleases(s, op, key, config);
      HeldStep(s, op, key, config);
    }
  }

  /** A request with no live entry leads, or there is no place for it. */
  lemma AbsentAnswers(s: State, key: RecordKey, fingerprint: Fingerprint, now: nat, config: Config)
    requires Invariant(s, config) && key !in Live(s.entries, now, config.inFlightTtl)
    ensures Begin(s, key, fingerprint, now, config).1 in {Ok(Leader(Token(key, fingerprint))), Err(CapacityExhausted)}
  {
    hide Total, Structure, Oldest;
    CleanupKeeps(s, now, config);
  }

  lemma LiveAnswers(s: State, key: RecordKey, fingerprint: Fingerprint, now: nat, config: Config)
    requires Invariant(s, config) && key in Live(s.entries, now, config.inFlightTtl)
    ensures var c := s.entries[key].sender;
      && c < |s.channels|
      && Begin(s, key, fingerprint, now, config).1 ==
        if fingerprint == s.entries[key].fingerprint then Answer(s.channels[c], c) else Err(Conflict)
  {
    hide Total, Invariant, Begin;
    BeginAnswers(s, BeginOp(key, fingerprint, now), key, config);
  }

  lemma AskStanding(s: State, grant: Grant, now: nat, config: Config)
    requires Invariant(s, config) && Standing(s, grant, config)
    ensures Begin(s, grant.token.key, grant.token.fingerprint, now, config).1 == grant.answer <==> now < grant.until
  {
    hide Total, Invariant, Begin;
    var key := grant.token.key;
    if now < grant.until {
      LiveAnswers(s, key, grant.token.fingerprint, now, config);
    } else {
      AbsentAnswers(s, key, grant.token.fingerprint, now, config);
    }
  }

  lemma AskOver(s: State, grant: Grant, now: nat, config: Config)
    requires Invariant(s, config) && Over(s, grant)
    ensures Begin(s, grant.token.key, grant.token.fingerprint, now, config).1 != grant.answer
  {
    hide Total, Invariant, Begin;
    var key := grant.token.key;
    if key in Live(s.entries, now, config.inFlightTtl) {
      LiveAnswers(s, key, grant.token.fingerprint, now, config);
    } else {
      AbsentAnswers(s, key, grant.token.fingerprint, now, config);
    }
  }

  lemma {:induction false} OverRun(s: State, ops: seq<Op>, grant: Grant, config: Config)
    requires Invariant(s, config) && Over(s, grant) && LeftAlone(s, ops, grant.token.key, config)
    ensures Over(Run(s, ops, config), grant)
    decreases |ops|
  {
    hide Invariant, Over, Disturbs, Step;
    if ops != [] {
      OverStep(s, ops[0], grant, config);
      OverRun(Step(s, ops[0], config), ops[1..], grant, config);
    }
  }

  lemma {:induction false} StandingRun(s: State, ops: seq<Op>, grant: Grant, config: Config)
    requires Invariant(s, config) && Standing(s, grant, config) && LeftAlone(s, ops, grant.token.key, config)
    ensures var t := Run(s, ops, config);
      if Before(ops, grant.until) then Standing(t, grant, config) else Over(t, grant)
    decreases |ops|
  {
    hide Invariant, Standing, Over, Disturbs, Step;
    if ops != [] {
      StandingStep(s, ops[0], grant, config);
      var t := Step(s, ops[0], config);
      if ops[0].BeginOp? && ops[0].now >= grant.until {
        OverRun(t, ops[1..], grant, config);
      } else {
        StandingRun(t, ops[1..], grant, config);
      }
    }
  }

  // ----- what the calls grant

  lemma LeaderGrants(s: State, op: Op, config: Config)
    requires Invariant(s, config) && op.BeginOp? && Granted(s, op, config).Some?
    ensures Standing(Step(s, op, config), Granted(s, op, config).value, config)
  {
    hide Total, Invariant, Begin, Step;
    StepIsBegin(s, op, config);
    BeginEntry(s, op, op.key, config);
    LeaderEntry(s, op.key, op.fingerprint, op.now, config);
    NewChannel(s, op, config);
  }

  lemma NewChannel(s: State, op: Op, config: Config)
    requires Invariant(s, config) && op.BeginOp?
    requires Begin(s, op.key, op.fingerprint, op.now, config).1 == Ok(Leader(Token(op.key, op.fingerprint)))
    ensures var t := Begin(s, op.key, op.fingerprint, op.now, config).0;
      op.key in t.entries && t.entries[op.key].sender == |s.channels| && t.entries[op.key].createdAt == op.now
      && |t.channels| == |s.channels| + 1 && t.channels[|s.channels|] == Pending
  {
    hide Total, Structure, Oldest, Answer;
    CleanupKeeps(s, op.now, config);
    var clean := Cleanup(s, op.now, config.inFlightTtl);
    if op.key in clean.entries {
      LinkedEntry(clean, op.key);
      AnswerLeadsNone(clean, op.key);
    }
  }

  lemma AnswerLeadsNone(s: State, key: RecordKey)
    requires Structure(s) && key in s.entries
    ensures s.entries[key].sender < |s.channels|
    ensures var r := Answer(s.channels[s.entries[key].sender], s.entries[key].sender); r.Ok? ==> !r.value.Leader?
  {
    LinkedEntry(s, key);
  }

  lemma CompletionGrants(s: State, op: Op, config: Config)
    requires Invariant(s, config) && op.CompleteOp? && Granted(s, op, config).Some?
    ensures Standing(Step(s, op, config), Granted(s, op, config).value, config)
  {
    hide Total, Reserve, Reclaimable, Structure, Accounted;
    var token := op.token;
    ReserveKeeps(s, op.weight, token.key, config);
    ReserveFitsIff(s, op.weight, token.key, config);
    ReclaimableBound(s, token.key, config);
    LinkedEntry(ReserveFor(s, token, op.weight, config).0, token.key);
  }

  lemma FailureGrants(s: State, op: Op, config: Config)
    requires Invariant(s, config) && op.FailOp? && Granted(s, op, config).Some?
    ensures Standing(Step(s, op, config), Granted(s, op, config).value, config)
  {
    hide Total, Accounted, Structure;
    LinkedEntry(s, op.token.key);
  }

  /**
   * After any call that grants a request its answer, over every run in which its entry is neither settled again nor
   * given up for another while it is live: the same request is told the same if and only if it, and every request
   * before it, comes in time.
   */
  lemma AnsweredIff(s: State, op: Op, ops: seq<Op>, now: nat, config: Config)
    requires Invariant(s, config) && Granted(s, op, config).Some?
    requires LeftAlone(Step(s, op, config), ops, Granted(s, op, config).value.token.key, config)
    ensures var grant := Granted(s, op, config).value;
      var t := Run(Step(s, op, config), ops, config);
      Begin(t, grant.token.key, grant.token.fingerprint, now, config).1 == grant.answer <==>
        Before(ops, grant.until) && now < grant.until
  {
    hide Invariant, Begin, Step, Run, Standing, Over, Granted;
    var grant := Granted(s, op, config).value;
    match op {
      case BeginOp(_, _, _) => LeaderGrants(s, op, config);
      case CompleteOp(_, _, _, _) => CompletionGrants(s, op, config);
      case FailOp(_, _, _) => FailureGrants(s, op, config);
    }
    var t := Run(Step(s, op, config), ops, config);
    StandingRun(Step(s, op, config), ops, grant, config);
    if Before(ops, grant.until) {
      AskStanding(t, grant, now, config);
    } else {
      AskOver(t, grant, now, config);
    }
  }

  /** A response that fits is the answer until `completedTtl` after its completion, and no longer. */
  lemma CompletedWindow(s: State, token: Token, response: Response, weight: nat, completed: nat, ops: seq<Op>, now: nat,
    config: Config)
    requires Invariant(s, config) && Matches(s, token) && Pinned(s, token.key) + weight <= config.maxCompletedBytes
    requires LeftAlone(Step(s, CompleteOp(token, response, weight, completed), config), ops, token.key, config)
    ensures var t := Run(Step(s, CompleteOp(token, response, weight, completed), config), ops, config);
      var until := completed + config.completedTtl;
      Begin(t, token.key, token.fingerprint, now, config).1 == Ok(Cached(response)) <==>
        Before(ops, until) && now < until
  {
    hide Invariant, Begin, Step, Run, LeftAlone, Pinned;
    AnsweredIff(s, CompleteOp(token, response, weight, completed), ops, now, config);
  }

  /** One that does not fit leaves an error that stands for it, just as long. */
  lemma UnreplayableWindow(s: State, token: Token, response: Response, weight: nat, completed: nat, ops: seq<Op>,
    now: nat, config: Config)
    requires Invariant(s, config) && Matches(s, token) && Pinned(s, token.key) + weight > config.maxCompletedBytes
    requires LeftAlone(Step(s, CompleteOp(token, response, weight, completed), config), ops, token.key, config)
    ensures var t := Run(Step(s, CompleteOp(token, response, weight, completed), config), ops, config);
      var until := completed + config.completedTtl;
      Begin(t, token.key, token.fingerprint, now, config).1 == Err(Unreplayable) <==> Before(ops, until) && now < until
  {
    hide Invariant, Begin, Step, Run, LeftAlone, Pinned;
    AnsweredIff(s, CompleteOp(token, response, weight, completed), ops, now, config);
  }

  /** A failure that may have done the work is the answer, as one not to retry, until `unknownTtl` after it. */
  lemma UncertainWindow(s: State, token: Token, code: string, retryable: bool, failed: nat, ops: seq<Op>, now: nat,
    config: Config)
    requires Invariant(s, config) && Matches(s, token)
    requires LeftAlone(Step(s, FailOp(token, Provider(code, true, retryable), failed), config), ops, token.key, config)
    ensures var t := Run(Step(s, FailOp(token, Provider(code, true, retryable), failed), config), ops, config);
      var until := failed + config.unknownTtl;
      Begin(t, token.key, token.fingerprint, now, config).1 == Err(Provider(code, true, false)) <==>
        Before(ops, until) && now < until
  {
    hide Invariant, Begin, Step, Run, LeftAlone;
    AnsweredIff(s, FailOp(token, Provider(code, true, retryable), failed), ops, now, config);
  }

  /** Until its leader reports, a request is told to wait for it, until `inFlightTtl` after it began. */
  lemma WaitingWindow(s: State, key: RecordKey, fingerprint: Fingerprint, began: nat, ops: seq<Op>, now: nat,
    config: Config)
    requires Invariant(s, config) && Begin(s, key, fingerprint, began, config).1 == Ok(Leader(Token(key, fingerprint)))
    requires LeftAlone(Step(s, BeginOp(key, fingerprint, began), config), ops, key, config)
    ensures var t := Run(Step(s, BeginOp(key, fingerprint, began), config), ops, config);
      var until := began + config.inFlightTtl;
      Begin(t, key, fingerprint, now, config).1 == Ok(Wait(|s.channels|)) <==> Before(ops, until) && now < until
  {
    hide Invariant, Begin, Step, Run, LeftAlone;
    AnsweredIff(s, BeginOp(key, fingerprint, began), ops, now, config);
  }
}
