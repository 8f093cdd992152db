/** The order in which entries are given up is the order of the calls that last used them. */
module IdempotencyRecency {
  import opened Wrappers
  import opened Idempotency
  import opened IdempotencyRuns

  /** A request for the entry, new or found again, or a completion of it that can be replayed. */
  ghost predicate Uses(s: State, op: Op, key: RecordKey, config: Config)
    requires Invariant(s, config)
  {
    match op
    case BeginOp(asked, fingerprint, now) =>
      asked == key
      && (key in Live(s.entries, now, config.inFlightTtl) ==> s.entries[key].fingerprint == fingerprint)
    case CompleteOp(token, _, weight, _) =>
      token.key == key && Matches(s, token) && Pinned(s, key) + weight <= config.maxCompletedBytes
    case FailOp(_, _, _) => false
  }

  /** The call of the run, counted from one, that last used the entry of `key`, or zero. */
  ghost function LastUse(s: State, ops: seq<Op>, key: RecordKey, config: Config): nat
    requires Invariant(s, config)
    decreases |ops|
  {
    if ops == [] then 0
    else
      var later := LastUse(Step(s, ops[0], config), ops[1..], key, config);
      if later > 0 then later + 1 else if Uses(s, ops[0], key, config) then 1 else 0
  }

  /** An entry in use becomes the most recent; any other keeps its access. */
  ghost predicate Recent(s: State, t: State, used: bool, key: RecordKey)
    requires key in t.entries
  {
    if used then forall j :: j in t.entries && j != key ==> t.entries[j].lastAccess < t.entries[key].lastAccess
    else key in s.entries && t.entries[key].lastAccess == s.entries[key].lastAccess
  }

  lemma StepUses(s: State, op: Op, key: RecordKey, config: Config)
    requires Invariant(s, config) && key in Step(s, op, config).entries
    ensures Recent(s, Step(s, op, config), Uses(s, op, key, config), key)
  {
    hide Begin, Complete, Invariant, Pinned, Recent, Live;
    match op
    case BeginOp(_, _, _) => BeginUses(s, op, key, config);
    case CompleteOp(_, _, _, _) => CompleteUses(s, op, key, config);
    case FailOp(_, _, _) => FailUses(s, op, key, config);
  }

  lemma BeginUses(s: State, op: Op, key: RecordKey, config: Config)
    requires Invariant(s, config) && op.BeginOp? && key in Begin(s, op.key, op.fingerprint, op.now, config).0.entries
    ensures Recent(s, Begin(s, op.key, op.fingerprint, op.now, config).0, Uses(s, op, key, config), key)
  {
    hide Total, Structure, BeginClean, Silence;
    CleanupKeeps(s, op.now, config);
    BeginCleanUses(Cleanup(s, op.now, config.inFlightTtl), op, key, config);
  }

  lemma BeginCleanUses(clean: State, op: Op, key: RecordKey, config: Config)
    requires Structure(clean) && op.BeginOp?
    requires key in BeginClean(clean, op.key, op.fingerprint, op.now, config).0.entries
    ensures Recent(clean, BeginClean(clean, op.key, op.fingerprint, op.now, config).0,
      op.key == key && (key in clean.entries ==> clean.entries[key].fingerprint == op.fingerprint), key)
  {
    hide Owned, Distinct, Coherent, EvictableKeys, Oldest, IsOldest, Answer;
    var t := BeginClean(clean, op.key, op.fingerprint, op.now, config).0;
    forall j | j in clean.entries ensures clean.entries[j].lastAccess <= clean.accessClock {
      LinkedEntry(clean, j);
    }
  }

  lemma CompleteUses(s: State, op: Op, key: RecordKey, config: Config)
    requires Invariant(s, config) && op.CompleteOp?
    requires key in Complete(s, op.token, op.response, op.weight, op.now, config).entries
    ensures Recent(s, Complete(s, op.token, op.response, op.weight, op.now, config), Uses(s, op, key, config), key)
  {
    hide Total, Reserve, Reclaimable, Owned, Distinct, Coherent, Accounted;
    if Matches(s, op.token) {
      ReserveKeeps(s, op.weight, op.token.key, config);
      ReserveFitsIff(s, op.weight, op.token.key, config);
      ReclaimableBound(s, op.token.key, config);
      forall j | j in s.entries ensures s.entries[j].lastAccess <= s.accessClock {
        LinkedEntry(s, j);
      }
    }
  }

  lemma FailUses(s: State, op: Op, key: RecordKey, config: Config)
    requires Invariant(s, config) && op.FailOp? && key in Fail(s, op.token, op.error, op.now, config).entries
    ensures Recent(s, Fail(s, op.token, op.error, op.now, config), Uses(s, op, key, config), key)
  {
    hide Total, Accounted, Structure;
    if Matches(s, op.token) {
      LinkedEntry(s, op.token.key);
    }
  }

  /** Over every run: of two entries the one last used later was accessed later. */
  lemma {:induction false} UseOrder(s: State, ops: seq<Op>, j: RecordKey, k: RecordKey, config: Config)
    requires Invariant(s, config) && j != k
    requires j in Run(s, ops, config).entries && k in Run(s, ops, config).entries
    ensures var t := Run(s, ops, config); var m, n := LastUse(s, ops, j, config), LastUse(s, ops, k, config);
      && (m == 0 ==> j in s.entries && t.entries[j].lastAccess == s.entries[j].lastAccess)
      && (n == 0 ==> k in s.entries && t.entries[k].lastAccess == s.entries[k].lastAccess)
      && (m > 0 || n > 0 ==> (t.entries[j].lastAccess < t.entries[k].lastAccess <==> m < n))
      && (m == n ==> m == 0)
    decreases |ops|
  {
    hide Invariant, Step, Uses;
    if ops != [] {
      var s1 := Step(s, ops[0], config);
      UseOrder(s1, ops[1..], j, k, config);
      OneKey(s, ops[0], j, k, config);
      if j in s1.entries {
        StepUses(s, ops[0], j, config);
      }
      if k in s1.entries {
        StepUses(s, ops[0], k, config);
      }
    }
  }

  lemma OneKey(s: State, op: Op, j: RecordKey, k: RecordKey, config: Config)
    requires Invariant(s, config) && j != k
    ensures !(Uses(s, op, j, config) && Uses(s, op, k, config))
  {
    hide Invariant, Pinned;
  }

  /**
   * After every run from the empty cache: what a new entry takes the place of is, of the finished entries that are
   * replayable, the one whose last use is longest ago.
   */
  lemma DisplacedIff(ops: seq<Op>, op: Op, key: RecordKey, config: Config)
    requires Invariant(INITIAL, config) && op.BeginOp? && key in Run(INITIAL, ops, config).entries
    ensures var s := Run(INITIAL, ops, config); var live := Live(s.entries, op.now, config.inFlightTtl);
      Displaced(s, op, key, config) <==>
        && op.key !in live && |live| >= config.maxEntries && s.entries[key].Evictable()
        && forall k :: k in live && live[k].Evictable() ==>
          LastUse(INITIAL, ops, key, config) <= LastUse(INITIAL, ops, k, config)
  {
    hide Invariant, Run, LastUse;
    var s := Run(INITIAL, ops, config);
    var live := Live(s.entries, op.now, config.inFlightTtl);
    forall k | k in live && k != key
      ensures s.entries[key].lastAccess <= live[k].lastAccess <==>
        LastUse(INITIAL, ops, key, config) <= LastUse(INITIAL, ops, k, config)
    {
      UseOrder(INITIAL, ops, k, key, config);
    }
  }
}
