/** What the replay cache promises over every run, stale tokens included. */
module IdempotencyRuns {
  import opened Wrappers
  import opened Idempotency

  datatype Op =
    | BeginOp(key: RecordKey, fingerprint: Fingerprint, now: nat)
    | CompleteOp(token: Token, response: Response, weight: nat, now: nat)
    | FailOp(token: Token, error: Error, now: nat)

  ghost function Step(s: State, op: Op, config: Config): (t: State)
    requires Invariant(s, config)
    ensures Invariant(t, config)
  {
    match op
    case BeginOp(key, fingerprint, now) =>
      BeginKeeps(s, key, fingerprint, now, config);
      Begin(s, key, fingerprint, now, config).0
    case CompleteOp(token, response, weight, now) =>
      CompleteKeeps(s, token, response, weight, now, config);
      Complete(s, token, response, weight, now, config)
    case FailOp(token, error, now) =>
      FailKeeps(s, token, error, now, config);
      Fail(s, token, error, now, config)
  }

  ghost function Run(s: State, ops: seq<Op>, config: Config): (t: State)
    requires Invariant(s, config)
    ensures Invariant(t, config)
    decreases |ops|
  {
    if ops == [] then s else Run(Step(s, ops[0], config), ops[1..], config)
  }

  // ----- accounting

  /** What one step adds to the slack. */
  ghost function StepRecharge(s: State, op: Op): nat {
    match op
    case CompleteOp(token, _, _, _) => Recharge(s, token)
    case _ => 0
  }

  lemma StepSlack(s: State, op: Op, config: Config)
    requires Invariant(s, config)
    ensures Slack(Step(s, op, config)) == Slack(s) + StepRecharge(s, op)
  {
    hide Invariant, Slack, Recharge, Begin, Complete, Fail;
    match op
    case BeginOp(key, fingerprint, now) => BeginKeeps(s, key, fingerprint, now, config);
    case CompleteOp(token, response, weight, now) => CompleteKeeps(s, token, response, weight, now, config);
    case FailOp(token, error, now) => FailKeeps(s, token, error, now, config);
  }

  /** No completion of the run finds an entry that still holds the bytes of an earlier one. */
  ghost predicate NeverRecharges(s: State, ops: seq<Op>, config: Config)
    requires Invariant(s, config)
    decreases |ops|
  {
    ops == [] || (StepRecharge(s, ops[0]) == 0 && NeverRecharges(Step(s, ops[0], config), ops[1..], config))
  }

  /**
   * On every run the bytes charged cover the bytes retained, within the bound; the slack only grows, and the
   * two agree exactly when no entry is completed while it still holds an earlier response.
   */
  lemma {:induction false} RunAccounting(s: State, ops: seq<Op>, config: Config)
    requires Invariant(s, config)
    ensures var t := Run(s, ops, config);
      && Total(t.entries) <= t.completedBytes <= config.maxCompletedBytes && |t.entries| <= config.maxEntries
      && Slack(s) <= Slack(t)
      && (Slack(t) == Slack(s) <==> NeverRecharges(s, ops, config))
    decreases |ops|
  {
    hide Total, Step;
    if ops != [] {
      StepSlack(s, ops[0], config);
      RunAccounting(Step(s, ops[0], config), ops[1..], config);
    }
  }

  lemma InitialInvariant(config: Config)
    ensures Invariant(INITIAL, config) && Slack(INITIAL) == 0
  {
  }

  /**
   * From a cache without slack, as the empty one: the charge is exact just when no completion hits bytes already
   * charged.
   */
  lemma ExactAccounting(s: State, ops: seq<Op>, config: Config)
    requires Invariant(s, config) && Slack(s) == 0
    ensures var t := Run(s, ops, config); t.completedBytes == Total(t.entries) <==> NeverRecharges(s, ops, config)
  {
    hide Total, Step, NeverRecharges, Run, Invariant, Accounted, Structure;
    RunAccounting(s, ops, config);
  }

  /** Every completion of the run finds its entry still pending, as when no token outlives its entry. */
  ghost predicate TokensInTime(s: State, ops: seq<Op>, config: Config)
    requires Invariant(s, config)
    decreases |ops|
  {
    ops == [] || (
      && (ops[0].CompleteOp? && Matches(s, ops[0].token) ==> s.entries[ops[0].token.key].expiresAt == None)
      && TokensInTime(Step(s, ops[0], config), ops[1..], config))
  }

  lemma {:induction false} TokensInTimeNeverRecharge(s: State, ops: seq<Op>, config: Config)
    requires Invariant(s, config) && TokensInTime(s, ops, config)
    ensures NeverRecharges(s, ops, config)
    decreases |ops|
  {
    hide Total, Step;
    if ops != [] {
      if ops[0].CompleteOp? && Matches(s, ops[0].token) {
        LinkedEntry(s, ops[0].token.key);
      }
      TokensInTimeNeverRecharge(Step(s, ops[0], config), ops[1..], config);
    }
  }

  // ----- what a completion may give up, and when it succeeds

  /** The bytes that can be given up before those of an entry last used at `access`. */
  ghost function Older(m: Entries, exclude: RecordKey, access: nat): Entries {
    map k | k in m && k != exclude && m[k].Weighty() && m[k].lastAccess < access :: m[k]
  }

  ghost function Reclaimable(m: Entries, exclude: RecordKey): Entries {
    map k | k in m && k != exclude && m[k].Weighty() :: m[k]
  }

  lemma OlderWithout(m: Entries, exclude: RecordKey, victim: RecordKey, access: nat)
    requires victim in WeightyKeys(m, exclude)
    ensures Total(Older(m, exclude, access)) ==
      Total(Older(m - {victim}, exclude, access)) + (if m[victim].lastAccess < access then m[victim].retained else 0)
  {
    var part, rest := Older(m, exclude, access), Older(m - {victim}, exclude, access);
    if m[victim].lastAccess < access {
      assert part - {victim} == rest;
      TotalRemove(part, victim);
    } else {
      assert part == rest;
    }
  }

  lemma ReclaimableWithout(m: Entries, exclude: RecordKey, victim: RecordKey)
    requires victim in WeightyKeys(m, exclude)
    ensures Total(Reclaimable(m, exclude)) == Total(Reclaimable(m - {victim}, exclude)) + m[victim].retained
  {
    assert Reclaimable(m, exclude) - {victim} == Reclaimable(m - {victim}, exclude);
    TotalRemove(Reclaimable(m, exclude), victim);
  }

  /** Whether an entry must go so that `incoming` more bytes fit: all that is older goes first and is not enough. */
  ghost predicate Squeezed(s: State, incoming: nat, exclude: RecordKey, config: Config, k: RecordKey)
    requires k in s.entries
  {
    && k != exclude && s.entries[k].Weighty()
    && s.completedBytes + incoming - Total(Older(s.entries, exclude, s.entries[k].lastAccess))
      > config.maxCompletedBytes
  }

  lemma OldestHasNoOlder(m: Entries, exclude: RecordKey)
    requires WeightyKeys(m, exclude) != {}
    ensures Total(Older(m, exclude, m[Oldest(m, WeightyKeys(m, exclude))].lastAccess)) == 0
  {
    var part := Older(m, exclude, m[Oldest(m, WeightyKeys(m, exclude))].lastAccess);
    assert forall k :: k in part ==> k in WeightyKeys(m, exclude);
    assert part == map[];
  }

  /** Removing the victim leaves every other entry as squeezed as it was. */
  lemma SqueezedWithout(s: State, incoming: nat, exclude: RecordKey, config: Config, k: RecordKey)
    requires Invariant(s, config) && WeightyKeys(s.entries, exclude) != {} && k in s.entries
    requires k != Oldest(s.entries, WeightyKeys(s.entries, exclude))
    ensures var t := Remove(s, Oldest(s.entries, WeightyKeys(s.entries, exclude)));
      Squeezed(s, incoming, exclude, config, k) <==> Squeezed(t, incoming, exclude, config, k)
  {
    hide Total, Oldest, Older, Linked, Owned;
    var victim := Oldest(s.entries, WeightyKeys(s.entries, exclude));
    OlderWithout(s.entries, exclude, victim, s.entries[k].lastAccess);
    RemoveAccounts(s, victim, config);
    if k != exclude && s.entries[k].Weighty() {
      assert k in WeightyKeys(s.entries, exclude);
    }
  }

  /**
   * The eviction loop takes exactly the entries that are squeezed: a least recently used prefix, no longer than
   * needed.
   */
  lemma {:induction false} ReserveMeaning(s: State, incoming: nat, exclude: RecordKey, config: Config)
    requires Invariant(s, config)
    ensures forall k :: k in s.entries ==>
      (k in Reserve(s, incoming, config.maxCompletedBytes, exclude).0.entries <==>
      !Squeezed(s, incoming, exclude, config, k))
    decreases |s.entries|
  {
    hide Total, Oldest, Squeezed;
    var candidates := WeightyKeys(s.entries, exclude);
    var t := Reserve(s, incoming, config.maxCompletedBytes, exclude).0;
    forall k | k in s.entries ensures k in t.entries <==> !Squeezed(s, incoming, exclude, config, k) {
      if s.completedBytes + incoming <= config.maxCompletedBytes || candidates == {} {
        NothingSqueezed(s, incoming, exclude, config, k);
      } else {
        var victim := Oldest(s.entries, candidates);
        LinkedEntry(s, victim);
        RemoveKeeps(s, victim, config);
        var rest := Remove(s, victim);
        ReserveKeeps(rest, incoming, exclude, config);
        if k == victim {
          VictimSqueezed(s, incoming, exclude, config);
        } else {
          ReserveMeaning(rest, incoming, exclude, config);
          SqueezedWithout(s, incoming, exclude, config, k);
        }
      }
    }
  }

  lemma NothingSqueezed(s: State, incoming: nat, exclude: RecordKey, config: Config, k: RecordKey)
    requires k in s.entries
    requires s.completedBytes + incoming <= config.maxCompletedBytes || WeightyKeys(s.entries, exclude) == {}
    ensures !Squeezed(s, incoming, exclude, config, k)
  {
    if k != exclude && s.entries[k].Weighty() {
      assert k in WeightyKeys(s.entries, exclude);
    }
  }

  lemma VictimSqueezed(s: State, incoming: nat, exclude: RecordKey, config: Config)
    requires WeightyKeys(s.entries, exclude) != {} && s.completedBytes + incoming > config.maxCompletedBytes
    ensures Squeezed(s, incoming, exclude, config, Oldest(s.entries, WeightyKeys(s.entries, exclude)))
  {
    OldestHasNoOlder(s.entries, exclude);
  }

  /** Room can be made exactly when it would suffice to give up every other replayable response. */
  lemma {:induction false} ReserveFitsIff(s: State, incoming: nat, exclude: RecordKey, config: Config)
    requires Invariant(s, config)
    ensures Reserve(s, incoming, config.maxCompletedBytes, exclude).1 <==>
      s.completedBytes - Total(Reclaimable(s.entries, exclude)) + incoming <= config.maxCompletedBytes
    decreases |s.entries|
  {
    hide Total, Oldest, Reclaimable, Structure;
    var candidates := WeightyKeys(s.entries, exclude);
    if s.completedBytes + incoming <= config.maxCompletedBytes {
    } else if candidates == {} {
      NothingReclaimable(s.entries, exclude);
    } else {
      var victim := Oldest(s.entries, candidates);
      LinkedEntry(s, victim);
      assert Coherent(s.entries[victim], s.channels[s.entries[victim].sender]);
      RemoveKeeps(s, victim, config);
      ReclaimableWithout(s.entries, exclude, victim);
      ReserveFitsIff(Remove(s, victim), incoming, exclude, config);
    }
  }

  lemma NothingReclaimable(m: Entries, exclude: RecordKey)
    requires WeightyKeys(m, exclude) == {}
    ensures Total(Reclaimable(m, exclude)) == 0
  {
    assert forall k :: k in Reclaimable(m, exclude) ==> k in WeightyKeys(m, exclude);
    assert Reclaimable(m, exclude) == map[];
  }

  /** The bytes no eviction can free: those of uncertain entries, of this entry, and the slack. */
  ghost function Pinned(s: State, key: RecordKey): int {
    s.completedBytes - Total(Reclaimable(s.entries, key))
  }

  /** A completion is replayable later if and only if it fits beside the bytes that nothing can free. */
  lemma CompleteFitsIff(s: State, token: Token, response: Response, weight: nat, now: nat, config: Config)
    requires Invariant(s, config) && Matches(s, token)
    ensures var t := Complete(s, token, response, weight, now, config);
      && token.key in t.entries && t.entries[token.key].sender == s.entries[token.key].sender
      && t.entries[token.key].sender < |t.channels|
      && t.channels[t.entries[token.key].sender] ==
        if Pinned(s, token.key) + weight <= config.maxCompletedBytes then Completed(response) else Unknown(Unreplayable)
  {
    hide Total, Reserve, Reclaimable, Structure, Accounted;
    ReserveKeeps(s, weight, token.key, config);
    ReserveFitsIff(s, weight, token.key, config);
    ReclaimableBound(s, token.key, config);
    LinkedEntry(ReserveFor(s, token, weight, config).0, token.key);
  }

  lemma ReclaimableBound(s: State, key: RecordKey, config: Config)
    requires Invariant(s, config)
    ensures Slack(s) <= Pinned(s, key)
  {
    TotalSubmap(Reclaimable(s.entries, key), s.entries);
  }

  /** Slack is lost for good: once it leaves no room, no later completion of that weight is ever replayable. */
  lemma {:induction false} SlackStarves(s: State, ops: seq<Op>, token: Token, response: Response, weight: nat, now: nat,
    config: Config)
    requires Invariant(s, config) && Slack(s) + weight > config.maxCompletedBytes
    ensures Matches(Run(s, ops, config), token) ==>
      var t := Complete(Run(s, ops, config), token, response, weight, now, config);
      && token.key in t.entries && t.entries[token.key].sender < |t.channels|
      && t.channels[t.entries[token.key].sender] == Unknown(Unreplayable)
  {
    hide Complete, Run, Step, Pinned, Slack, Total, Invariant;
    var r := Run(s, ops, config);
    RunAccounting(s, ops, config);
    ReclaimableBound(r, token.key, config);
    if Matches(r, token) {
      CompleteFitsIff(r, token, response, weight, now, config);
    }
  }

  /** Completing an entry twice leaves the bytes of the first response charged. */
  lemma TwiceCompleted(s: State, token: Token, first: Response, second: Response, weight: nat, now: nat, config: Config)
    requires Invariant(s, config) && Matches(s, token) && Pinned(s, token.key) + weight <= config.maxCompletedBytes
    ensures var t := Step(s, CompleteOp(token, first, weight, now), config);
      Slack(Step(t, CompleteOp(token, second, weight, now), config)) == Slack(t) + weight
  {
    hide Total, Invariant, Slack, Reserve, Pinned, Complete;
    var t := Complete(s, token, first, weight, now, config);
    CompleteKeeps(s, token, first, weight, now, config);
    CompleteRetains(s, token, first, weight, now, config);
    CompleteKeeps(t, token, second, weight, now, config);
  }

  lemma CompleteRetains(s: State, token: Token, response: Response, weight: nat, now: nat, config: Config)
    requires Invariant(s, config) && Matches(s, token) && Pinned(s, token.key) + weight <= config.maxCompletedBytes
    ensures var t := Complete(s, token, response, weight, now, config);
      Matches(t, token) && t.entries[token.key].retained == weight
  {
    hide Total, Structure, Accounted, Reserve, Reclaimable;
    ReserveKeeps(s, weight, token.key, config);
    ReserveFitsIff(s, weight, token.key, config);
    ReclaimableBound(s, token.key, config);
  }

  lemma LeadFromEmpty(s: State, key: RecordKey, fingerprint: Fingerprint, now: nat, config: Config)
    requires Invariant(s, config) && s.completedBytes == 0 && config.Valid()
    requires Live(s.entries, now, config.inFlightTtl).Keys == {}
    ensures var (t, r) := Begin(s, key, fingerprint, now, config);
      && r == Ok(Leader(Token(key, fingerprint))) && t.completedBytes == 0 && t.entries.Keys == {key}
      && t.entries[key].createdAt == now && t.entries[key].expiresAt == None
      && t.entries[key].fingerprint == fingerprint
  {
    hide Structure;
    CleanupKeeps(s, now, config);
    TotalEmpty(Live(s.entries, now, config.inFlightTtl));
  }

  lemma TotalEmpty(m: Entries)
    requires m.Keys == {}
    ensures Total(m) == 0
  {
    assert m == map[];
  }

  /**
   * The first leader outlives its entry, so its token matches the entry of its successor; when both complete, the
   * bytes of the first completion stay charged, and the exact equality fails.
   */
  lemma StaleTokenLeaks(s: State, key: RecordKey, fingerprint: Fingerprint, first: Response, second: Response,
    weight: nat, config: Config)
    requires Invariant(s, config) && s.entries.Keys == {} && s.completedBytes == 0
    requires config.Valid() && weight <= config.maxCompletedBytes
    ensures var token, late := Token(key, fingerprint), config.inFlightTtl;
      var led := Step(s, BeginOp(key, fingerprint, 0), config);
      var again := Step(led, BeginOp(key, fingerprint, late), config);
      && Begin(led, key, fingerprint, late, config).1 == Ok(Leader(token))
      && Slack(Step(Step(again, CompleteOp(token, first, weight, late), config),
        CompleteOp(token, second, weight, late), config)) == weight
  {
    hide Total, Invariant, Reserve, Begin, Complete, Pinned;
    TotalEmpty(s.entries);
    var token, late := Token(key, fingerprint), config.inFlightTtl;
    LeadFromEmpty(s, key, fingerprint, 0, config);
    var led := Step(s, BeginOp(key, fingerprint, 0), config);
    LeadFromEmpty(led, key, fingerprint, late, config);
    var again := Step(led, BeginOp(key, fingerprint, late), config);
    NothingPinned(again, key);
    StepSlack(s, BeginOp(key, fingerprint, 0), config);
    StepSlack(led, BeginOp(key, fingerprint, late), config);
    LinkedPending(again, key, config);
    StepSlack(again, CompleteOp(token, first, weight, late), config);
    TwiceCompleted(again, token, first, second, weight, late, config);
  }

  lemma NothingPinned(s: State, key: RecordKey)
    requires s.completedBytes == 0
    ensures Pinned(s, key) <= 0
  {
  }

  lemma LinkedPending(s: State, key: RecordKey, config: Config)
    requires Invariant(s, config) && key in s.entries && s.entries[key].expiresAt == None
    ensures s.entries[key].retained == 0
  {
    LinkedEntry(s, key);
  }

  // ----- who leads, and for how long

  /** The entry of `key` that answers on channel `c` is still there. */
  ghost predicate Holds(s: State, key: RecordKey, c: nat) {
    key in s.entries && s.entries[key].sender == c
  }

  /** The new entry needs a place, and this one is the least recently used that can be given up. */
  ghost predicate Displaced(s: State, op: Op, key: RecordKey, config: Config)
    requires op.BeginOp? && key in s.entries
  {
    var live := Live(s.entries, op.now, config.inFlightTtl);
    && op.key !in live && |live| >= config.maxEntries && s.entries[key].Evictable()
    && forall k :: k in live && live[k].Evictable() ==> s.entries[key].lastAccess <= live[k].lastAccess
  }

  /** The four ways an entry goes. */
  ghost predicate Releases(s: State, op: Op, key: RecordKey, config: Config)
    requires key in s.entries
  {
    match op
    case BeginOp(_, _, now) => s.entries[key].Stale(now, config.inFlightTtl) || Displaced(s, op, key, config)
    case CompleteOp(token, _, weight, _) =>
      Matches(s, token) && weight <= config.maxCompletedBytes && Squeezed(s, weight, token.key, config, key)
    case FailOp(token, error, _) => Matches(s, token) && token.key == key && !Inconclusive(error)
  }

  lemma BeginReleases(s: State, op: Op, key: RecordKey, config: Config)
    requires Invariant(s, config) && key in s.entries && op.BeginOp?
    ensures Holds(Begin(s, op.key, op.fingerprint, op.now, config).0, key, s.entries[key].sender) <==>
      !Releases(s, op, key, config)
  {
    hide Total, Structure, BeginClean;
    CleanupKeeps(s, op.now, config);
    var live := Live(s.entries, op.now, config.inFlightTtl);
    var clean := Cleanup(s, op.now, config.inFlightTtl);
    LinkedEntry(s, key);
    BeginCleanReleases(clean, op, key, s.entries[key].sender, config);
    if EvictableKeys(live) != {} {
      VictimUnique(s, live, Oldest(live, EvictableKeys(live)), key);
    }
    assert forall k :: k in live && live[k].Evictable() ==> k in EvictableKeys(live);
  }

  lemma BeginCleanReleases(clean: State, op: Op, key: RecordKey, c: nat, config: Config)
    requires Structure(clean) && op.BeginOp? && c < |clean.channels|
    ensures Holds(BeginClean(clean, op.key, op.fingerprint, op.now, config).0, key, c) <==>
      Holds(clean, key, c) && !(
        && op.key !in clean.entries && |clean.entries| >= config.maxEntries
        && EvictableKeys(clean.entries) != {} && key == Oldest(clean.entries, EvictableKeys(clean.entries)))
  {
    hide Structure, EvictableKeys, Oldest, IsOldest, Answer;
    if op.key in clean.entries {
      LinkedEntry(clean, op.key);
    }
  }

  /** No two entries are equally old. */
  lemma VictimUnique(s: State, live: Entries, victim: RecordKey, key: RecordKey)
    requires Structure(s) && live.Keys <= s.entries.Keys && forall k :: k in live ==> live[k] == s.entries[k]
    requires EvictableKeys(live) != {} && IsOldest(live, EvictableKeys(live), victim) && key in s.entries
    ensures victim == key <==>
      key in live && live[key].Evictable() &&
      forall k :: k in live && live[k].Evictable() ==> s.entries[key].lastAccess <= live[k].lastAccess
  {
  }

  lemma StepReleases(s: State, op: Op, key: RecordKey, config: Config)
    requires Invariant(s, config) && key in s.entries
    ensures Holds(Step(s, op, config), key, s.entries[key].sender) <==> !Releases(s, op, key, config)
  {
    hide Invariant, Begin, Complete, Fail, Releases;
    match op
    case BeginOp(_, _, _) => BeginReleases(s, op, key, config);
    case CompleteOp(_, _, _, _) => CompleteReleases(s, op, key, config);
    case FailOp(_, _, _) => FailReleases(s, op, key, config);
  }

  lemma CompleteReleases(s: State, op: Op, key: RecordKey, config: Config)
    requires Invariant(s, config) && key in s.entries && op.CompleteOp?
    ensures Holds(Complete(s, op.token, op.response, op.weight, op.now, config), key, s.entries[key].sender) <==>
      !Releases(s, op, key, config)
  {
    hide Total, Accounted, Structure, Squeezed, Reserve;
    var token, weight := op.token, op.weight;
    if Matches(s, token) {
      ReserveKeeps(s, weight, token.key, config);
      ReserveMeaning(s, weight, token.key, config);
      NotSqueezedItself(s, weight, token.key, config);
    }
  }

  lemma FailReleases(s: State, op: Op, key: RecordKey, config: Config)
    requires Invariant(s, config) && key in s.entries && op.FailOp?
    ensures Holds(Fail(s, op.token, op.error, op.now, config), key, s.entries[key].sender) <==>
      !Releases(s, op, key, config)
  {
    hide Total, Accounted, Squeezed;
  }

  lemma NotSqueezedItself(s: State, incoming: nat, key: RecordKey, config: Config)
    requires key in s.entries
    ensures !Squeezed(s, incoming, key, config, key)
  {
  }

  /** A leader that has not finished keeps its entry until its time is up or it fails. */
  lemma PendingIsPinned(s: State, op: Op, key: RecordKey, config: Config)
    requires Invariant(s, config) && key in s.entries && s.entries[key].expiresAt == None
    requires Releases(s, op, key, config)
    ensures
      || (op.BeginOp? && s.entries[key].createdAt + config.inFlightTtl <= op.now)
      || (op.FailOp? && op.token.key == key)
  {
    hide Total, Accounted;
    LinkedEntry(s, key);
  }

  /** The entry is completed, or fails with its work possibly done. */
  ghost predicate Settles(s: State, op: Op, key: RecordKey) {
    !op.BeginOp? && Matches(s, op.token) && op.token.key == key
  }

  /** The same entry, whenever it was last used. */
  predicate SameButUse(e: Entry, f: Entry) {
    e.(lastAccess := f.lastAccess) == f
  }

  /** An entry that is not released keeps its request and channel; unless it is settled, nothing of it changes. */
  lemma HeldStep(s: State, op: Op, key: RecordKey, config: Config)
    requires Invariant(s, config) && key in s.entries && !Releases(s, op, key, config)
    ensures var t := Step(s, op, config); var c := s.entries[key].sender;
      && Holds(t, key, c) && t.entries[key].fingerprint == s.entries[key].fingerprint
      && c < |s.channels| && c < |t.channels|
      && (!Settles(s, op, key) ==> t.channels[c] == s.channels[c] && SameButUse(s.entries[key], t.entries[key]))
  {
    hide Total, Accounted, Releases, Begin, Complete;
    StepReleases(s, op, key, config);
    LinkedEntry(s, key);
    match op
    case BeginOp(_, _, _) => HeldBegin(s, op, key, config);
    case CompleteOp(_, _, _, _) => HeldComplete(s, op, key, config);
    case FailOp(_, _, _) =>
  }

  lemma HeldComplete(s: State, op: Op, key: RecordKey, config: Config)
    requires Invariant(s, config) && key in s.entries && op.CompleteOp?
    requires Holds(Complete(s, op.token, op.response, op.weight, op.now, config), key, s.entries[key].sender)
    ensures var t := Complete(s, op.token, op.response, op.weight, op.now, config); var c := s.entries[key].sender;
      && t.entries[key].fingerprint == s.entries[key].fingerprint
      && c < |s.channels| && c < |t.channels|
      && (!Settles(s, op, key) ==> t.channels[c] == s.channels[c] && SameButUse(s.entries[key], t.entries[key]))
  {
    hide Total, Accounted, Reserve;
    LinkedEntry(s, key);
    if Matches(s, op.token) {
      ReserveKeeps(s, op.weight, op.token.key, config);
    }
  }

  lemma HeldBegin(s: State, op: Op, key: RecordKey, config: Config)
    requires Invariant(s, config) && key in s.entries && op.BeginOp?
    requires Holds(Begin(s, op.key, op.fingerprint, op.now, config).0, key, s.entries[key].sender)
    ensures var t := Begin(s, op.key, op.fingerprint, op.now, config).0; var c := s.entries[key].sender;
      && SameButUse(s.entries[key], t.entries[key])
      && c < |s.channels| && c < |t.channels| && t.channels[c] == s.channels[c]
  {
    hide Total, BeginClean;
    CleanupKeeps(s, op.now, config);
    LinkedEntry(s, key);
    var clean := Cleanup(s, op.now, config.inFlightTtl);
    HeldBeginClean(clean, op, key, s.entries[key].sender, config);
    assert s.entries[key].sender !in Silenced(s.entries, op.now, config.inFlightTtl);
  }

  lemma HeldBeginClean(clean: State, op: Op, key: RecordKey, c: nat, config: Config)
    requires Structure(clean) && op.BeginOp? && c < |clean.channels|
    requires Holds(BeginClean(clean, op.key, op.fingerprint, op.now, config).0, key, c)
    ensures var t := BeginClean(clean, op.key, op.fingerprint, op.now, config).0;
      && Holds(clean, key, c) && SameButUse(clean.entries[key], t.entries[key])
      && c < |t.channels| && t.channels[c] == clean.channels[c]
  {
    hide Structure, EvictableKeys, Oldest, IsOldest, Answer;
    if op.key in clean.entries {
      LinkedEntry(clean, op.key);
    }
  }

  ghost predicate NeverReleased(s: State, ops: seq<Op>, key: RecordKey, config: Config)
    requires Invariant(s, config)
    decreases |ops|
  {
    ops == [] || (
      && key in s.entries && !Releases(s, ops[0], key, config)
      && NeverReleased(Step(s, ops[0], config), ops[1..], key, config))
  }

  /** No step of the run makes another leader for `key`, and another request under it is a conflict. */
  ghost predicate NoLeader(s: State, ops: seq<Op>, key: RecordKey, fingerprint: Fingerprint, config: Config)
    requires Invariant(s, config)
    decreases |ops|
  {
    ops == [] || (
      && (ops[0].BeginOp? && ops[0].key == key ==>
        var r := Begin(s, key, ops[0].fingerprint, ops[0].now, config).1;
        if ops[0].fingerprint == fingerprint then r.Err? || !r.value.Leader? else r == Err(Conflict))
      && NoLeader(Step(s, ops[0], config), ops[1..], key, fingerprint, config))
  }

  lemma BeginAnswers(s: State, op: Op, key: RecordKey, config: Config)
    requires Invariant(s, config) && key in s.entries && op.BeginOp? && op.key == key && !Releases(s, op, key, config)
    ensures var c := s.entries[key].sender;
      && c < |s.channels|
      && Begin(s, key, op.fingerprint, op.now, config).1 ==
        if op.fingerprint == s.entries[key].fingerprint then Answer(s.channels[c], c) else Err(Conflict)
  {
    hide Total, Oldest;
    CleanupKeeps(s, op.now, config);
    LinkedEntry(s, key);
    assert s.entries[key].sender !in Silenced(s.entries, op.now, config.inFlightTtl);
  }

  /** While an entry is not released, nobody else leads its key. */
  lemma {:induction false} SoleLeader(s: State, ops: seq<Op>, key: RecordKey, config: Config)
    requires Invariant(s, config) && key in s.entries
    ensures NeverReleased(s, ops, key, config) ==>
      && NoLeader(s, ops, key, s.entries[key].fingerprint, config)
      && Holds(Run(s, ops, config), key, s.entries[key].sender)
    decreases |ops|
  {
    hide Total, Invariant, Releases, Begin, Step;
    if ops != [] && NeverReleased(s, ops, key, config) {
      HeldStep(s, ops[0], key, config);
      if ops[0].BeginOp? && ops[0].key == key {
        BeginAnswers(s, ops[0], key, config);
      }
      SoleLeader(Step(s, ops[0], config), ops[1..], key, config);
    }
  }

  /** A key is led exactly when no live entry has it and there is, or can be made, a place. */
  lemma LeadsIff(s: State, key: RecordKey, fingerprint: Fingerprint, now: nat, config: Config)
    requires Invariant(s, config)
    ensures var live := Live(s.entries, now, config.inFlightTtl);
      Begin(s, key, fingerprint, now, config).1 == Ok(Leader(Token(key, fingerprint))) <==>
      key !in live && (|live| < config.maxEntries || exists k :: k in live && live[k].Evictable())
  {
    hide Total, Oldest;
    CleanupKeeps(s, now, config);
    var live := Live(s.entries, now, config.inFlightTtl);
    assert forall k :: k in EvictableKeys(live) <==> k in live && live[k].Evictable();
  }

  /** From the moment a key is led, nobody else leads it until its entry is released. */
  lemma LeadershipIsSole(s: State, key: RecordKey, fingerprint: Fingerprint, now: nat, ops: seq<Op>, config: Config)
    requires Invariant(s, config)
    ensures Begin(s, key, fingerprint, now, config).1 == Ok(Leader(Token(key, fingerprint))) ==>
      var t := Step(s, BeginOp(key, fingerprint, now), config);
      NeverReleased(t, ops, key, config) ==> NoLeader(t, ops, key, fingerprint, config)
  {
    hide Total, NeverReleased, NoLeader, Run, Invariant;
    if Begin(s, key, fingerprint, now, config).1 == Ok(Leader(Token(key, fingerprint))) {
      var t := Step(s, BeginOp(key, fingerprint, now), config);
      assert key in t.entries && t.entries[key].fingerprint == fingerprint by {
        LeaderEntry(s, key, fingerprint, now, config);
      }
      SoleLeader(t, ops, key, config);
    }
  }

  lemma LeaderEntry(s: State, key: RecordKey, fingerprint: Fingerprint, now: nat, config: Config)
    requires Invariant(s, config)
    requires Begin(s, key, fingerprint, now, config).1 == Ok(Leader(Token(key, fingerprint)))
    ensures var t := Begin(s, key, fingerprint, now, config).0;
      key in t.entries && t.entries[key].fingerprint == fingerprint && t.entries[key].expiresAt == None
  {
    hide Total, Oldest;
    CleanupKeeps(s, now, config);
  }

  ghost predicate Undisturbed(s: State, ops: seq<Op>, key: RecordKey, config: Config)
    requires Invariant(s, config)
    decreases |ops|
  {
    ops == [] || (
      && key in s.entries && !Releases(s, ops[0], key, config) && !Settles(s, ops[0], key)
      && Undisturbed(Step(s, ops[0], config), ops[1..], key, config))
  }

  /** Every repetition of the request within the run is told `answer`. */
  ghost predicate AlwaysAnswers(s: State, ops: seq<Op>, key: RecordKey, fingerprint: Fingerprint,
    answer: Result<Action, Error>, config: Config)
    requires Invariant(s, config)
    decreases |ops|
  {
    ops == [] || (
      && (ops[0].BeginOp? && ops[0].key == key && ops[0].fingerprint == fingerprint ==>
        Begin(s, key, fingerprint, ops[0].now, config).1 == answer)
      && AlwaysAnswers(Step(s, ops[0], config), ops[1..], key, fingerprint, answer, config))
  }

  /**
   * Until its entry is released or settled again, a request is always given the same answer: to wait, or the
   * response.
   */
  lemma {:induction false} Replay(s: State, ops: seq<Op>, key: RecordKey, config: Config)
    requires Invariant(s, config) && key in s.entries
    ensures s.entries[key].sender < |s.channels|
    ensures Undisturbed(s, ops, key, config) ==>
      var e := s.entries[key];
      AlwaysAnswers(s, ops, key, e.fingerprint, Answer(s.channels[e.sender], e.sender), config)
    decreases |ops|
  {
    hide Total, Accounted, Releases, Begin, Step, Answer, Settles;
    LinkedEntry(s, key);
    if ops != [] && Undisturbed(s, ops, key, config) {
      HeldStep(s, ops[0], key, config);
      if ops[0].BeginOp? && ops[0].key == key {
        BeginAnswers(s, ops[0], key, config);
      }
      Replay(Step(s, ops[0], config), ops[1..], key, config);
    }
  }

  /**
   * A response that fits is the answer to every repetition of its request until its entry is released or settled
   * again.
   */
  lemma CompletedIsReplayed(s: State, token: Token, response: Response, weight: nat, now: nat, ops: seq<Op>,
    config: Config)
    requires Invariant(s, config) && Matches(s, token) && Pinned(s, token.key) + weight <= config.maxCompletedBytes
    requires Undisturbed(Step(s, CompleteOp(token, response, weight, now), config), ops, token.key, config)
    ensures AlwaysAnswers(Step(s, CompleteOp(token, response, weight, now), config), ops, token.key, token.fingerprint,
      Ok(Cached(response)), config)
  {
    hide Total, Invariant, Undisturbed, AlwaysAnswers, Complete, Pinned;
    CompleteFitsIff(s, token, response, weight, now, config);
    CompleteRetains(s, token, response, weight, now, config);
    Replay(Step(s, CompleteOp(token, response, weight, now), config), ops, token.key, config);
  }
}
