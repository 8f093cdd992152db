/** The replay cache: leaders, followers, tombstones, and bytes retained under a bound. */
module Idempotency {
  import opened Wrappers

  datatype RecordKey = RecordKey(scope: string, key: string)

  /** A digest of the normalized request. */
  type Fingerprint = seq<int>

  type Response = string

  datatype Error =
    | Conflict | CapacityExhausted | Expired | Unreplayable
    | Provider(code: string, unknown: bool, retryable: bool)

  datatype Outcome = Pending | Completed(response: Response) | Failed(error: Error) | Unknown(error: Error)

  datatype Config = Config(
    maxEntries: nat, maxCompletedBytes: nat, completedTtl: nat, inFlightTtl: nat, unknownTtl: nat) {
    predicate Valid() {
      0 < maxEntries && 0 < maxCompletedBytes && 0 < completedTtl && 0 < inFlightTtl && 0 < unknownTtl
    }
  }

  /** `sender` names the watch channel the waiters of this entry hold. */
  datatype Entry = Entry(
    fingerprint: Fingerprint, createdAt: nat, expiresAt: Option<nat>, retained: nat, uncertain: bool,
    lastAccess: nat, sender: nat) {
    predicate Stale(now: nat, ttl: nat) {
      if expiresAt.Some? then expiresAt.value <= now else createdAt + ttl <= now
    }

    /** A finished entry that may be given up for a new one. */
    predicate Evictable() {
      expiresAt.Some? && !uncertain
    }

    /** A finished entry whose bytes may be given up. */
    predicate Weighty() {
      retained > 0 && !uncertain
    }
  }

  type Entries = map<RecordKey, Entry>

  datatype Token = Token(key: RecordKey, fingerprint: Fingerprint)

  datatype Action = Leader(token: Token) | Cached(response: Response) | Wait(sender: nat)

  datatype State = State(entries: Entries, completedBytes: nat, accessClock: nat, channels: seq<Outcome>)

  const INITIAL := State(map[], 0, 0, [])

  function SaturatingSub(a: nat, b: nat): nat {
    if a >= b then a - b else 0
  }

  // ----- sums over the entries

  ghost function Total(m: Entries): nat {
    if m == map[] then 0
    else
      var k :| k in m;
      m[k].retained + Total(m - {k})
  }

  lemma {:induction false} TotalRemove(m: Entries, k: RecordKey)
    requires k in m
    ensures Total(m) == m[k].retained + Total(m - {k})
    decreases |m|
  {
    var first :| first in m && Total(m) == m[first].retained + Total(m - {first});
    if first != k {
      TotalRemove(m - {first}, k);
      TotalRemove(m - {k}, first);
      assert m - {first} - {k} == m - {k} - {first};
    }
  }

  lemma TotalUpdate(m: Entries, k: RecordKey, e: Entry)
    ensures Total(m[k := e]) == e.retained + Total(m - {k})
  {
    TotalRemove(m[k := e], k);
    assert m[k := e] - {k} == m - {k};
  }

  lemma {:induction false} TotalSubmap(part: Entries, m: Entries)
    requires part.Keys <= m.Keys && forall k :: k in part ==> m[k] == part[k]
    ensures Total(part) <= Total(m) && |part| <= |m|
    decreases |m|
  {
    if k :| k in m && k !in part {
      TotalRemove(m, k);
      assert |m - {k}| == |m| - 1;
      TotalSubmap(part, m - {k});
    } else {
      assert part == m;
    }
  }

  // ----- the invariant

  /** An entry and the last value sent on its channel tell the same story. */
  ghost predicate Linked(s: State, k: RecordKey)
    requires k in s.entries
  {
    var e := s.entries[k];
    && e.sender < |s.channels|
    && e.lastAccess <= s.accessClock
    && Coherent(e, s.channels[e.sender])
  }

  predicate Coherent(e: Entry, outcome: Outcome) {
    match outcome
    case Pending => e.expiresAt == None && !e.uncertain && e.retained == 0
    case Completed(_) => e.expiresAt.Some? && !e.uncertain
    case Unknown(_) => e.expiresAt.Some? && e.uncertain
    case Failed(_) => false
  }

  ghost predicate Owned(s: State, c: nat) {
    exists k :: k in s.entries && s.entries[k].sender == c
  }

  ghost predicate Distinct(m: Entries) {
    forall j, k :: j in m && k in m && j != k ==> m[j].lastAccess != m[k].lastAccess && m[j].sender != m[k].sender
  }

  /** Accesses and channels are the entries' own, and no waiter waits on a channel nobody will use. */
  ghost predicate Structure(s: State) {
    && Distinct(s.entries)
    && (forall k :: k in s.entries ==> Linked(s, k))
    && (forall c :: 0 <= c < |s.channels| && s.channels[c] == Pending ==> Owned(s, c))
  }

  ghost predicate Accounted(s: State, config: Config) {
    Total(s.entries) <= s.completedBytes <= config.maxCompletedBytes && |s.entries| <= config.maxEntries
  }

  ghost predicate Invariant(s: State, config: Config) {
    Accounted(s, config) && Structure(s)
  }

  /** The bytes charged for entries that no longer hold them. */
  ghost function Slack(s: State): int {
    s.completedBytes - Total(s.entries)
  }

  // ----- the operations

  function Remove(s: State, k: RecordKey): State {
    if k in s.entries then
      s.(entries := s.entries - {k}, completedBytes := SaturatingSub(s.completedBytes, s.entries[k].retained))
    else s
  }

  function Send(s: State, c: nat, outcome: Outcome): State
    requires c < |s.channels|
  {
    s.(channels := s.channels[c := outcome])
  }

  function Live(m: Entries, now: nat, ttl: nat): Entries {
    map k | k in m && !m[k].Stale(now, ttl) :: m[k]
  }

  /** The channels of the pending entries that are past their time. */
  function Silenced(m: Entries, now: nat, ttl: nat): set<nat> {
    set k | k in m && m[k].Stale(now, ttl) && m[k].expiresAt == None :: m[k].sender
  }

  function Silence(channels: seq<Outcome>, silenced: set<nat>): (r: seq<Outcome>)
    ensures |r| == |channels|
  {
    seq(|channels|, c requires 0 <= c < |channels| => if c in silenced then Failed(Expired) else channels[c])
  }

  /** Entries past their time go with their bytes; those still pending tell their waiters. */
  ghost function Cleanup(s: State, now: nat, ttl: nat): State
    requires Total(s.entries) <= s.completedBytes
  {
    var live := Live(s.entries, now, ttl);
    State(live, s.completedBytes - Total(s.entries) + Total(live), s.accessClock,
      Silence(s.channels, Silenced(s.entries, now, ttl)))
  }

  ghost predicate IsOldest(m: Entries, candidates: set<RecordKey>, k: RecordKey)
    requires candidates <= m.Keys
  {
    k in candidates && forall j :: j in candidates ==> m[k].lastAccess <= m[j].lastAccess
  }

  lemma {:induction false} OldestExists(m: Entries, candidates: set<RecordKey>)
    requires candidates != {} && candidates <= m.Keys
    ensures exists k :: IsOldest(m, candidates, k)
    decreases |candidates|
  {
    var k :| k in candidates;
    var rest := candidates - {k};
    if rest == {} {
      assert candidates == {k};
      assert IsOldest(m, candidates, k);
    } else {
      OldestExists(m, rest);
      var r :| IsOldest(m, rest, r);
      var best := if m[k].lastAccess <= m[r].lastAccess then k else r;
      assert forall j :: j in candidates ==> j == k || j in rest;
      assert IsOldest(m, candidates, best);
    }
  }

  ghost function Oldest(m: Entries, candidates: set<RecordKey>): (k: RecordKey)
    requires candidates != {} && candidates <= m.Keys
    ensures IsOldest(m, candidates, k)
  {
    OldestExists(m, candidates);
    var k :| IsOldest(m, candidates, k);
    k
  }

  function EvictableKeys(m: Entries): set<RecordKey> {
    set k | k in m && m[k].Evictable()
  }

  function WeightyKeys(m: Entries, exclude: RecordKey): set<RecordKey> {
    set k | k in m && k != exclude && m[k].Weighty()
  }

  ghost function MakeCapacity(s: State, maximum: nat): Result<State, Error> {
    if |s.entries| < maximum then Ok(s)
    else if EvictableKeys(s.entries) == {} then Err(CapacityExhausted)
    else Ok(Remove(s, Oldest(s.entries, EvictableKeys(s.entries))))
  }

  /** What a caller repeating a known request is told. */
  function Answer(outcome: Outcome, sender: nat): Result<Action, Error> {
    match outcome
    case Pending => Ok(Wait(sender))
    case Completed(response) => Ok(Cached(response))
    case Failed(error) => Err(error)
    case Unknown(error) => Err(error)
  }

  ghost function Begin(s: State, key: RecordKey, fingerprint: Fingerprint, now: nat, config: Config)
    : (State, Result<Action, Error>)
    requires Invariant(s, config)
  {
    CleanupKeeps(s, now, config);
    BeginClean(Cleanup(s, now, config.inFlightTtl), key, fingerprint, now, config)
  }

  ghost function BeginClean(clean: State, key: RecordKey, fingerprint: Fingerprint, now: nat, config: Config)
    : (State, Result<Action, Error>)
    requires Structure(clean)
  {
    var ticked := clean.(accessClock := clean.accessClock + 1);
    if key in ticked.entries then
      var e := ticked.entries[key];
      if e.fingerprint != fingerprint then (ticked, Err(Conflict))
      else
        assert Linked(clean, key);
        var touched := ticked.(entries := ticked.entries[key := e.(lastAccess := ticked.accessClock)]);
        (touched, Answer(ticked.channels[e.sender], e.sender))
    else match MakeCapacity(ticked, config.maxEntries)
      case Err(e) => (ticked, Err(e))
      case Ok(roomy) =>
        var entry := Entry(fingerprint, now, None, 0, false, roomy.accessClock, |roomy.channels|);
        (roomy.(entries := roomy.entries[key := entry], channels := roomy.channels + [Pending]),
         Ok(Leader(Token(key, fingerprint))))
  }

  predicate Matches(s: State, token: Token) {
    token.key in s.entries && s.entries[token.key].fingerprint == token.fingerprint
  }

  /** Gives up the least recently used completed responses until `incoming` more bytes fit. */
  ghost function Reserve(s: State, incoming: nat, maximum: nat, exclude: RecordKey): (State, bool)
    decreases |s.entries|
  {
    if s.completedBytes + incoming <= maximum then (s, true)
    else if WeightyKeys(s.entries, exclude) == {} then (s, false)
    else
      var victim := Oldest(s.entries, WeightyKeys(s.entries, exclude));
      assert |s.entries - {victim}| == |s.entries| - 1;
      Reserve(Remove(s, victim), incoming, maximum, exclude)
  }

  /** A response heavier than the whole cache gives up nothing. */
  ghost function ReserveFor(s: State, token: Token, weight: nat, config: Config): (State, bool) {
    if weight > config.maxCompletedBytes then (s, false)
    else Reserve(s, weight, config.maxCompletedBytes, token.key)
  }

  ghost function Complete(s: State, token: Token, response: Response, weight: nat, now: nat, config: Config): State
    requires Invariant(s, config)
  {
    if !Matches(s, token) then s
    else
      var (reserved, fits) := ReserveFor(s, token, weight, config);
      ReserveKeeps(s, weight, token.key, config);
      assert Linked(reserved, token.key);
      var e := reserved.entries[token.key];
      var expires := Some(now + config.completedTtl);
      if !fits then
        Send(reserved.(entries :=
            reserved.entries[token.key := e.(expiresAt := expires, uncertain := true, retained := 0)]),
          e.sender, Unknown(Unreplayable))
      else
        var clock := reserved.accessClock + 1;
        var done := e.(expiresAt := expires, uncertain := false, retained := weight, lastAccess := clock);
        Send(reserved.(entries := reserved.entries[token.key := done], accessClock := clock,
            completedBytes := reserved.completedBytes + weight),
          e.sender, Completed(response))
  }

  /** The provider may or may not have done the work. */
  predicate Inconclusive(error: Error) {
    error.Provider? && error.unknown
  }

  ghost function Fail(s: State, token: Token, error: Error, now: nat, config: Config): State
    requires Invariant(s, config)
  {
    if !Matches(s, token) then s
    else
      assert Linked(s, token.key);
      var e := s.entries[token.key];
      if Inconclusive(error) then
        Send(s.(entries := s.entries[token.key := e.(expiresAt := Some(now + config.unknownTtl), uncertain := true)]),
          e.sender, Unknown(error.(retryable := false)))
      else Send(Remove(s, token.key), e.sender, Failed(error))
  }

  // ----- every operation keeps the invariant

  lemma LinkedEntry(s: State, key: RecordKey)
    requires Structure(s) && key in s.entries
    ensures Linked(s, key)
  {
  }

  lemma CleanupStructure(s: State, now: nat, ttl: nat)
    requires Structure(s) && Total(s.entries) <= s.completedBytes
    ensures Structure(Cleanup(s, now, ttl))
  {
    hide Total;
    var live := Live(s.entries, now, ttl);
    var t := Cleanup(s, now, ttl);
    forall k | k in live ensures Linked(t, k) {
      assert Linked(s, k);
      assert live[k].sender !in Silenced(s.entries, now, ttl);
    }
    forall c | 0 <= c < |t.channels| && t.channels[c] == Pending ensures Owned(t, c) {
      assert Owned(s, c);
      var k :| k in s.entries && s.entries[k].sender == c;
      assert Linked(s, k);
      assert k in live;
    }
  }

  lemma CleanupKeeps(s: State, now: nat, config: Config)
    requires Invariant(s, config)
    ensures Invariant(Cleanup(s, now, config.inFlightTtl), config)
    ensures Slack(Cleanup(s, now, config.inFlightTtl)) == Slack(s)
  {
    hide Structure, Total;
    CleanupStructure(s, now, config.inFlightTtl);
    TotalSubmap(Live(s.entries, now, config.inFlightTtl), s.entries);
  }

  /** An entry goes, and its channel, if anyone may still be waiting on it, is told so. */
  lemma DropStructure(s: State, key: RecordKey, bytes: nat, channels: seq<Outcome>)
    requires Structure(s) && key in s.entries && |channels| == |s.channels|
    requires var c := s.entries[key].sender;
      c < |channels| && channels[c] != Pending && channels == s.channels[c := channels[c]]
    ensures Structure(State(s.entries - {key}, bytes, s.accessClock, channels))
  {
    var t := State(s.entries - {key}, bytes, s.accessClock, channels);
    forall j | j in t.entries ensures Linked(t, j) {
      assert Linked(s, j);
    }
    forall c | 0 <= c < |t.channels| && t.channels[c] == Pending ensures Owned(t, c) {
      assert Owned(s, c);
      var j :| j in s.entries && s.entries[j].sender == c;
      assert j in t.entries;
    }
  }

  lemma RemoveAccounts(s: State, key: RecordKey, config: Config)
    requires Accounted(s, config) && key in s.entries
    ensures var t := Remove(s, key);
      && Accounted(t, config) && Slack(t) == Slack(s) && |t.entries| == |s.entries| - 1
      && t.completedBytes + s.entries[key].retained == s.completedBytes
  {
    TotalRemove(s.entries, key);
    assert |s.entries - {key}| == |s.entries| - 1;
  }

  /** Giving up a finished entry frees exactly the bytes it held: the subtraction never clips. */
  lemma RemoveKeeps(s: State, key: RecordKey, config: Config)
    requires Invariant(s, config) && key in s.entries && s.entries[key].expiresAt.Some?
    ensures var t := Remove(s, key);
      && Invariant(t, config) && Slack(t) == Slack(s) && |t.entries| == |s.entries| - 1
      && t.completedBytes + s.entries[key].retained == s.completedBytes
  {
    hide Accounted, Total, Slack;
    RemoveAccounts(s, key, config);
    assert Linked(s, key);
    DropStructure(s, key, Remove(s, key).completedBytes, s.channels);
  }

  /** Giving up any entry and telling its waiters. */
  lemma DropKeeps(s: State, key: RecordKey, outcome: Outcome, config: Config)
    requires Invariant(s, config) && key in s.entries && outcome != Pending
    ensures s.entries[key].sender < |s.channels|
    ensures var t := Send(Remove(s, key), s.entries[key].sender, outcome);
      Invariant(t, config) && Slack(t) == Slack(s)
  {
    hide Total;
    RemoveAccounts(s, key, config);
    assert Linked(s, key);
    var t := Send(Remove(s, key), s.entries[key].sender, outcome);
    DropStructure(s, key, t.completedBytes, t.channels);
  }

  lemma {:induction false} ReserveKeeps(s: State, incoming: nat, exclude: RecordKey, config: Config)
    requires Invariant(s, config)
    ensures var (t, fits) := Reserve(s, incoming, config.maxCompletedBytes, exclude);
      && Invariant(t, config)
      && (fits ==> t.completedBytes + incoming <= config.maxCompletedBytes)
      && t.channels == s.channels && t.accessClock == s.accessClock
      && (forall k :: k in t.entries ==> k in s.entries && t.entries[k] == s.entries[k])
      && (exclude in s.entries ==> exclude in t.entries)
      && Slack(t) == Slack(s)
    decreases |s.entries|
  {
    hide Total, Slack, Accounted;
    var candidates := WeightyKeys(s.entries, exclude);
    if s.completedBytes + incoming > config.maxCompletedBytes && candidates != {} {
      var victim := Oldest(s.entries, candidates);
      assert Linked(s, victim);
      RemoveKeeps(s, victim, config);
      ReserveKeeps(Remove(s, victim), incoming, exclude, config);
    }
  }

  lemma MakeCapacityKeeps(s: State, config: Config)
    requires Invariant(s, config) && MakeCapacity(s, config.maxEntries).Ok?
    ensures var roomy := MakeCapacity(s, config.maxEntries).value;
      && Invariant(roomy, config) && |roomy.entries| < config.maxEntries
      && roomy.channels == s.channels && roomy.accessClock == s.accessClock
      && (forall k :: k in roomy.entries ==> k in s.entries && roomy.entries[k] == s.entries[k])
      && Slack(roomy) == Slack(s)
  {
    hide Total, Slack, Structure;
    if |s.entries| >= config.maxEntries {
      var victim := Oldest(s.entries, EvictableKeys(s.entries));
      RemoveKeeps(s, victim, config);
    }
  }

  /** An entry is put in, or put back changed, with its own access and its own channel. */
  lemma PutStructure(s: State, key: RecordKey, e: Entry, bytes: nat, clock: nat, channels: seq<Outcome>)
    requires Structure(s) && s.accessClock <= clock && e.lastAccess <= clock
    requires forall k :: k in s.entries && k != key ==> s.entries[k].lastAccess != e.lastAccess
    requires if key in s.entries then e.sender == s.entries[key].sender && |channels| == |s.channels|
      else e.sender == |s.channels| && |channels| == |s.channels| + 1
    requires forall c :: 0 <= c < |s.channels| && c != e.sender ==> channels[c] == s.channels[c]
    requires e.sender < |channels| && Coherent(e, channels[e.sender])
    ensures Structure(State(s.entries[key := e], bytes, clock, channels))
  {
    hide Coherent;
    var t := State(s.entries[key := e], bytes, clock, channels);
    assert t.entries.Keys == s.entries.Keys + {key};
    forall k | k in s.entries ensures s.entries[k].sender < |s.channels| {
      assert Linked(s, k);
    }
    assert Distinct(t.entries);
    forall k | k in t.entries ensures Linked(t, k) {
      if k != key {
        assert Linked(s, k);
      }
    }
    forall c | 0 <= c < |t.channels| && t.channels[c] == Pending ensures Owned(t, c) {
      if c == e.sender {
        assert t.entries[key].sender == c;
      } else {
        assert Owned(s, c);
        var k :| k in s.entries && s.entries[k].sender == c;
        assert t.entries[k].sender == c;
      }
    }
  }

  /** Replacing a known entry. */
  lemma PutKeeps(s: State, key: RecordKey, e: Entry, bytes: nat, clock: nat, channels: seq<Outcome>, config: Config)
    requires Invariant(s, config) && key in s.entries && s.accessClock <= clock
    requires e.lastAccess == s.entries[key].lastAccess || s.accessClock < e.lastAccess == clock
    requires e.sender == s.entries[key].sender && |channels| == |s.channels|
    requires forall c :: 0 <= c < |s.channels| && c != e.sender ==> channels[c] == s.channels[c]
    requires e.sender < |channels| ==> Coherent(e, channels[e.sender])
    requires e.retained <= s.entries[key].retained + bytes
    requires bytes > 0 ==> s.completedBytes + bytes <= config.maxCompletedBytes
    ensures var t := State(s.entries[key := e], s.completedBytes + bytes, clock, channels);
      Invariant(t, config) && Slack(t) == Slack(s) + bytes + s.entries[key].retained - e.retained
  {
    hide Total, Coherent, Owned;
    TotalUpdate(s.entries, key, e);
    TotalRemove(s.entries, key);
    assert s.entries[key := e].Keys == s.entries.Keys;
    assert Linked(s, key);
    forall k | k in s.entries && k != key ensures s.entries[k].lastAccess != e.lastAccess {
      assert Linked(s, k);
    }
    PutStructure(s, key, e, s.completedBytes + bytes, clock, channels);
  }

  lemma InsertKeeps(s: State, key: RecordKey, e: Entry, config: Config)
    requires Invariant(s, config) && key !in s.entries && |s.entries| < config.maxEntries
    requires e.expiresAt == None && e.retained == 0 && !e.uncertain
    requires e.lastAccess == s.accessClock && e.sender == |s.channels|
    requires forall k :: k in s.entries ==> s.entries[k].lastAccess < s.accessClock
    ensures var t := s.(entries := s.entries[key := e], channels := s.channels + [Pending]);
      Invariant(t, config) && Slack(t) == Slack(s)
  {
    hide Total, Structure;
    TotalUpdate(s.entries, key, e);
    assert s.entries - {key} == s.entries;
    assert s.entries[key := e].Keys == s.entries.Keys + {key};
    PutStructure(s, key, e, s.completedBytes, s.accessClock, s.channels + [Pending]);
  }

  /** The clock moves past every access. */
  lemma TickKeeps(s: State, config: Config)
    requires Invariant(s, config)
    ensures var t := s.(accessClock := s.accessClock + 1);
      Invariant(t, config) && forall k :: k in t.entries ==> t.entries[k].lastAccess < t.accessClock
  {
    hide Total, Coherent;
    var t := s.(accessClock := s.accessClock + 1);
    forall k | k in t.entries ensures Linked(t, k) && t.entries[k].lastAccess < t.accessClock {
      assert Linked(s, k);
    }
    forall c | 0 <= c < |t.channels| && t.channels[c] == Pending ensures Owned(t, c) {
      assert Owned(s, c);
    }
  }

  lemma BeginKeeps(s: State, key: RecordKey, fingerprint: Fingerprint, now: nat, config: Config)
    requires Invariant(s, config)
    ensures var t := Begin(s, key, fingerprint, now, config).0;
      Invariant(t, config) && Slack(t) == Slack(s)
  {
    CleanupKeeps(s, now, config);
    BeginCleanKeeps(Cleanup(s, now, config.inFlightTtl), key, fingerprint, now, config);
  }

  lemma BeginCleanKeeps(clean: State, key: RecordKey, fingerprint: Fingerprint, now: nat, config: Config)
    requires Invariant(clean, config)
    ensures var t := BeginClean(clean, key, fingerprint, now, config).0;
      Invariant(t, config) && Slack(t) == Slack(clean)
  {
    hide Total, Accounted, Structure, MakeCapacity;
    var ticked := clean.(accessClock := clean.accessClock + 1);
    TickKeeps(clean, config);
    assert Slack(ticked) == Slack(clean);
    if key in clean.entries {
      var e := clean.entries[key];
      LinkedEntry(clean, key);
      PutKeeps(clean, key, e.(lastAccess := ticked.accessClock), 0, ticked.accessClock, clean.channels, config);
    } else if MakeCapacity(ticked, config.maxEntries).Ok? {
      MakeCapacityKeeps(ticked, config);
      var roomy := MakeCapacity(ticked, config.maxEntries).value;
      InsertKeeps(roomy, key, Entry(fingerprint, now, None, 0, false, roomy.accessClock, |roomy.channels|), config);
    }
  }

  /** What a completion adds to the slack: the bytes its entry was already charged for. */
  ghost function Recharge(s: State, token: Token): nat {
    if Matches(s, token) then s.entries[token.key].retained else 0
  }

  lemma CompleteKeeps(s: State, token: Token, response: Response, weight: nat, now: nat, config: Config)
    requires Invariant(s, config)
    ensures var t := Complete(s, token, response, weight, now, config);
      Invariant(t, config) && Slack(t) == Slack(s) + Recharge(s, token)
  {
    hide Total, Accounted, Structure, Reserve, Slack;
    if Matches(s, token) {
      var key := token.key;
      ReserveKeeps(s, weight, key, config);
      var (reserved, fits) := ReserveFor(s, token, weight, config);
      var e := reserved.entries[key];
      LinkedEntry(reserved, key);
      var expires := Some(now + config.completedTtl);
      if fits {
        var clock := reserved.accessClock + 1;
        PutKeeps(reserved, key, e.(expiresAt := expires, uncertain := false, retained := weight, lastAccess := clock),
          weight, clock, reserved.channels[e.sender := Completed(response)], config);
      } else {
        PutKeeps(reserved, key, e.(expiresAt := expires, uncertain := true, retained := 0), 0, reserved.accessClock,
          reserved.channels[e.sender := Unknown(Unreplayable)], config);
      }
    }
  }

  lemma FailKeeps(s: State, token: Token, error: Error, now: nat, config: Config)
    requires Invariant(s, config)
    ensures var t := Fail(s, token, error, now, config);
      Invariant(t, config) && Slack(t) == Slack(s)
  {
    hide Total, Accounted, Structure, Slack;
    if Matches(s, token) {
      var key := token.key;
      var e := s.entries[key];
      LinkedEntry(s, key);
      if Inconclusive(error) {
        PutKeeps(s, key, e.(expiresAt := Some(now + config.unknownTtl), uncertain := true), 0, s.accessClock,
          s.channels[e.sender := Unknown(error.(retryable := false))], config);
      } else {
        DropKeeps(s, key, Failed(error), config);
      }
    }
  }
}
