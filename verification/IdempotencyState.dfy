/** The replay cache as the coordinator keeps it: fields changed in place, one call at a time. */
module IdempotencyStates {
  import opened Wrappers
  import opened Idempotency

  class IdempotencyState {
    var entries: Entries
    var completedBytes: nat
    var accessClock: nat
    /** The last value sent on every watch channel. */
    var channels: seq<Outcome>

    ghost function Current(): State
      reads this
    {
      State(entries, completedBytes, accessClock, channels)
    }

    constructor ()
      ensures Current() == INITIAL
    {
      entries, completedBytes, accessClock, channels := map[], 0, 0, [];
    }

    method RemoveEntry(key: RecordKey) returns (removed: Option<Entry>)
      modifies this
      ensures Current() == Remove(old(Current()), key)
      ensures removed == if key in old(entries) then Some(old(entries)[key]) else None
    {
      if key !in entries {
        return None;
      }
      removed := Some(entries[key]);
      completedBytes := SaturatingSub(completedBytes, entries[key].retained);
      entries := entries - {key};
    }

    method SendReplace(sender: nat, outcome: Outcome)
      requires sender < |channels|
      modifies this
      ensures Current() == Send(old(Current()), sender, outcome)
    {
      channels := channels[sender := outcome];
    }

    method CleanUp(now: nat, ttl: nat, ghost config: Config)
      requires Invariant(Current(), config)
      modifies this
      ensures Current() == Cleanup(old(Current()), now, ttl)
    {
      hide Structure, Cleanup;
      ghost var start := Current();
      var stale := set k | k in entries && entries[k].Stale(now, ttl);
      while stale != {}
        invariant Invariant(Current(), config)
        invariant stale == StaleKeys(entries, now, ttl)
        invariant Cleanup(Current(), now, ttl) == Cleanup(start, now, ttl)
        decreases |stale|
      {
        var key :| key in stale;
        CleanupOne(Current(), key, now, ttl, config);
        var removed := RemoveEntry(key);
        if removed.Some? && removed.value.expiresAt == None {
          SendReplace(removed.value.sender, Failed(Expired));
        }
        stale := stale - {key};
      }
      NothingStale(Current(), now, ttl, config);
    }

    /** The candidate used longest ago. */
    method FindOldest(candidates: set<RecordKey>) returns (oldest: Option<RecordKey>)
      requires candidates <= entries.Keys && Distinct(entries)
      ensures oldest == if candidates == {} then None else Some(Oldest(entries, candidates))
    {
      oldest := None;
      var left := candidates;
      ghost var seen: set<RecordKey> := {};
      while left != {}
        invariant left <= candidates && seen <= candidates
        invariant forall k :: k in candidates ==> k in left || k in seen
        invariant if oldest == None then seen == {} else IsOldest(entries, seen, oldest.value)
        decreases |left|
      {
        var key :| key in left;
        if oldest == None || entries[key].lastAccess < entries[oldest.value].lastAccess {
          oldest := Some(key);
        }
        left, seen := left - {key}, seen + {key};
      }
      if candidates != {} {
        assert seen == candidates;
        OldestUnique(entries, candidates, oldest.value);
      }
    }

    method MakeRoom(maximum: nat) returns (r: Result<(), Error>)
      requires Distinct(entries)
      modifies this
      ensures MakeCapacity(old(Current()), maximum).Ok? ==>
        r.Ok? && Current() == MakeCapacity(old(Current()), maximum).value
      ensures MakeCapacity(old(Current()), maximum).Err? ==>
        r == Err(MakeCapacity(old(Current()), maximum).error) && Current() == old(Current())
    {
      if |entries| < maximum {
        return Ok(());
      }
      var victim := FindOldest(EvictableKeys(entries));
      if victim == None {
        return Err(CapacityExhausted);
      }
      var _ := RemoveEntry(victim.value);
      return Ok(());
    }

    method ReserveCompletedBytes(incoming: nat, maximum: nat, exclude: RecordKey) returns (fits: bool)
      requires Distinct(entries)
      modifies this
      ensures (Current(), fits) == Reserve(old(Current()), incoming, maximum, exclude)
    {
      ghost var start := Current();
      while completedBytes + incoming > maximum
        invariant Distinct(entries)
        invariant Reserve(Current(), incoming, maximum, exclude) == Reserve(start, incoming, maximum, exclude)
        decreases |entries|
      {
        var victim := FindOldest(WeightyKeys(entries, exclude));
        if victim == None {
          return false;
        }
        assert |entries - {victim.value}| == |entries| - 1;
        var _ := RemoveEntry(victim.value);
      }
      return true;
    }

    method BeginRequest(key: RecordKey, fingerprint: Fingerprint, now: nat, config: Config)
      returns (r: Result<Action, Error>)
      requires Invariant(Current(), config)
      modifies this
      ensures (Current(), r) == Begin(old(Current()), key, fingerprint, now, config)
      ensures Invariant(Current(), config)
    {
      hide Total, Structure, Accounted, Linked, Distinct;
      BeginKeeps(Current(), key, fingerprint, now, config);
      CleanupKeeps(Current(), now, config);
      CleanUp(now, config.inFlightTtl, config);
      ghost var clean := Current();
      StructureDistinct(clean);
      accessClock := accessClock + 1;
      if key in entries {
        LinkedEntry(clean, key);
        SenderInRange(clean, key);
        var entry := entries[key];
        if entry.fingerprint != fingerprint {
          return Err(Conflict);
        }
        entries := entries[key := entry.(lastAccess := accessClock)];
        match channels[entry.sender] {
          case Completed(response) => return Ok(Cached(response));
          case Failed(error) => return Err(error);
          case Unknown(error) => return Err(error);
          case Pending => return Ok(Wait(entry.sender));
        }
      }
      var room := MakeRoom(config.maxEntries);
      if room.Err? {
        return Err(room.error);
      }
      var sender := |channels|;
      channels := channels + [Pending];
      entries := entries[key := Entry(fingerprint, now, None, 0, false, accessClock, sender)];
      return Ok(Leader(Token(key, fingerprint)));
    }

    method CompleteRequest(token: Token, response: Response, weight: nat, now: nat, config: Config)
      requires Invariant(Current(), config)
      modifies this
      ensures Current() == Complete(old(Current()), token, response, weight, now, config)
      ensures Invariant(Current(), config)
    {
      hide Total, Structure, Accounted, Linked, Distinct, Reserve;
      CompleteKeeps(Current(), token, response, weight, now, config);
      if token.key !in entries || entries[token.key].fingerprint != token.fingerprint {
        return;
      }
      ReserveKeeps(Current(), weight, token.key, config);
      StructureDistinct(Current());
      var fits := false;
      if weight <= config.maxCompletedBytes {
        fits := ReserveCompletedBytes(weight, config.maxCompletedBytes, token.key);
      }
      SenderInRange(Current(), token.key);
      var entry := entries[token.key];
      if !fits {
        entries := entries[token.key := entry.(
          expiresAt := Some(now + config.completedTtl), uncertain := true, retained := 0)];
        SendReplace(entry.sender, Unknown(Unreplayable));
        return;
      }
      accessClock := accessClock + 1;
      entries := entries[token.key := entry.(
        expiresAt := Some(now + config.completedTtl), uncertain := false, retained := weight,
        lastAccess := accessClock)];
      completedBytes := completedBytes + weight;
      SendReplace(entry.sender, Completed(response));
    }

    method FailRequest(token: Token, error: Error, now: nat, config: Config)
      requires Invariant(Current(), config)
      modifies this
      ensures Current() == Fail(old(Current()), token, error, now, config)
      ensures Invariant(Current(), config)
    {
      hide Total, Structure, Accounted, Linked;
      FailKeeps(Current(), token, error, now, config);
      if token.key !in entries || entries[token.key].fingerprint != token.fingerprint {
        return;
      }
      SenderInRange(Current(), token.key);
      var entry := entries[token.key];
      if Inconclusive(error) {
        entries := entries[token.key := entry.(expiresAt := Some(now + config.unknownTtl), uncertain := true)];
        SendReplace(entry.sender, Unknown(error.(retryable := false)));
      } else {
        var removed := RemoveEntry(token.key);
        SendReplace(removed.value.sender, Failed(error));
      }
    }
  }

  function StaleKeys(m: Entries, now: nat, ttl: nat): set<RecordKey> {
    set k | k in m && m[k].Stale(now, ttl)
  }

  lemma StructureDistinct(s: State)
    requires Structure(s)
    ensures Distinct(s.entries)
  {
  }

  lemma SenderInRange(s: State, key: RecordKey)
    requires Structure(s) && key in s.entries
    ensures s.entries[key].sender < |s.channels|
  {
    LinkedEntry(s, key);
  }

  lemma OldestUnique(m: Entries, candidates: set<RecordKey>, k: RecordKey)
    requires candidates != {} && candidates <= m.Keys && Distinct(m) && IsOldest(m, candidates, k)
    ensures k == Oldest(m, candidates)
  {
  }

  /** One stale entry removed, and its waiters told. */
  function Expire(s: State, key: RecordKey): State
    requires key in s.entries && s.entries[key].sender < |s.channels|
  {
    if s.entries[key].expiresAt == None then Send(Remove(s, key), s.entries[key].sender, Failed(Expired))
    else Remove(s, key)
  }

  /** The stale entries may be removed one by one, in any order. */
  lemma CleanupOne(s: State, key: RecordKey, now: nat, ttl: nat, config: Config)
    requires Invariant(s, config) && key in StaleKeys(s.entries, now, ttl)
    ensures s.entries[key].sender < |s.channels|
    ensures Invariant(Expire(s, key), config)
    ensures StaleKeys(Expire(s, key).entries, now, ttl) == StaleKeys(s.entries, now, ttl) - {key}
    ensures Cleanup(Expire(s, key), now, ttl) == Cleanup(s, now, ttl)
  {
    hide Total, Structure;
    SenderInRange(s, key);
    if s.entries[key].expiresAt == None {
      DropKeeps(s, key, Failed(Expired), config);
    } else {
      RemoveKeeps(s, key, config);
    }
    var t := Expire(s, key);
    assert Live(t.entries, now, ttl) == Live(s.entries, now, ttl);
    SilencedOne(s, key, now, ttl);
    RemoveAccounts(s, key, config);
  }

  lemma SilencedOne(s: State, key: RecordKey, now: nat, ttl: nat)
    requires Structure(s) && key in StaleKeys(s.entries, now, ttl) && s.entries[key].sender < |s.channels|
    ensures Silence(Expire(s, key).channels, Silenced(Expire(s, key).entries, now, ttl))
      == Silence(s.channels, Silenced(s.entries, now, ttl))
  {
    var t, c := Expire(s, key), s.entries[key].sender;
    var before, after := Silenced(s.entries, now, ttl), Silenced(t.entries, now, ttl);
    forall x ensures x in before <==> x in after || (x == c && s.entries[key].expiresAt == None) {
      if x in before {
        var k :| k in s.entries && s.entries[k].Stale(now, ttl) && s.entries[k].expiresAt == None
          && s.entries[k].sender == x;
        assert k == key || k in t.entries;
      }
    }
  }

  lemma NothingStale(s: State, now: nat, ttl: nat, config: Config)
    requires Invariant(s, config) && StaleKeys(s.entries, now, ttl) == {}
    ensures Cleanup(s, now, ttl) == s
  {
    hide Total;
    assert forall k :: k in s.entries ==> k !in StaleKeys(s.entries, now, ttl);
    assert Live(s.entries, now, ttl) == s.entries;
    assert Silenced(s.entries, now, ttl) == {};
    assert Silence(s.channels, {}) == s.channels;
  }
}
