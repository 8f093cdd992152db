/** The retention pass: the newest artifacts that are young enough stay, and nothing else that is verified does. */
module ArtifactRetention {
  import opened Sorting
  import opened Wrappers
  import opened ArtifactStores
  import opened ArtifactRepairs

  datatype Policy = Policy(maxAge: nat, maxArtifacts: Option<nat>, maxScan: nat)

  datatype CleanupReport = CleanupReport(scanned: nat, deleted: nat, skipped: nat, scanLimitReached: bool)

  /** The order of the pass: latest first, and the greater identifier first among equals. */
  predicate Newer(a: Record, b: Record) {
    a.createdAt > b.createdAt || (a.createdAt == b.createdAt && a.id > b.id)
  }

  // ----- the scan

  predicate Eligible(d: Disk, id: Id, lib: Library) {
    ReadCandidate(d, id).Some? && Verified(d, ReadCandidate(d, id).value, lib)
  }

  function Scan(d: Disk, listing: Listing, limit: nat, found: seq<Record>, report: CleanupReport, lib: Library)
    : (seq<Record>, CleanupReport)
    decreases |listing|
  {
    if listing == [] then (found, report)
    else if report.scanned >= limit then (found, report.(scanLimitReached := true))
    else
      var counted := report.(scanned := report.scanned + 1);
      if listing[0].Some? && Eligible(d, listing[0].value, lib) then
        Scan(d, listing[1..], limit, found + [ReadCandidate(d, listing[0].value).value], counted, lib)
      else Scan(d, listing[1..], limit, found, counted.(skipped := counted.skipped + 1), lib)
  }

  // ----- the sort

  function NewestFirst(records: seq<Record>): (result: seq<Record>)
    ensures |result| == |records| && multiset(result) == multiset(records)
  {
    Sorted(Newer, records)
  }

  predicate Descending(records: seq<Record>) {
    forall i, j :: 0 <= i < j < |records| ==> Newer(records[i], records[j])
  }

  predicate DistinctIds(records: seq<Record>) {
    forall i, j :: 0 <= i < j < |records| ==> records[i].id != records[j].id
  }

  lemma NewestFirstDescending(records: seq<Record>)
    requires DistinctIds(records)
    ensures Descending(NewestFirst(records))
  {
    hide Sorted;
    SortedOrdered(Newer, records);
  }

  // ----- the deletions

  predicate Doomed(r: Record, index: nat, cutoff: nat, policy: Policy) {
    r.createdAt <= cutoff || (policy.maxArtifacts.Some? && index >= policy.maxArtifacts.value)
  }

  /** The write of a deletion that removes the artifact: the sidecar goes first, and the record last. */
  function ArtifactTurn(r: Record): nat {
    if r.sidecar.Some? then 1 else 0
  }

  /** The first `n` writes of a deletion take this file. */
  predicate Loses(r: Record, n: nat, name: Name) {
    (r.sidecar.Some? && r.sidecar.value.name == name && n > 0) || (r.name == name && n > ArtifactTurn(r))
  }

  /** The deletion of an artifact with its sidecar and its record, its first `n` writes done. */
  function Discard(d: Disk, r: Record, n: nat): Disk {
    var bare := if r.sidecar.Some? && n > 0 then DropFile(d, r.sidecar.value.name) else d;
    var gone := if n > ArtifactTurn(r) then DropFile(bare, r.name) else bare;
    if n > ArtifactTurn(r) + 1 then DropMarker(gone, r.id) else gone
  }

  /** A deletion that fails, at whichever write, is counted as skipped. */
  function Sweep(d: Disk, candidates: seq<Record>, index: nat, cutoff: nat, policy: Policy, faults: Faults,
    report: CleanupReport, lib: Library)
    : (Disk, CleanupReport)
    decreases |candidates|
  {
    if candidates == [] then (d, report)
    else
      var r := candidates[0];
      if !Doomed(r, index, cutoff, policy) then
        Sweep(d, candidates[1..], index + 1, cutoff, policy, faults, report, lib)
      else
        var verified := Verified(d, r, lib);
        Sweep(if verified then Discard(d, r, Reach(r.id, faults)) else d,
          candidates[1..], index + 1, cutoff, policy, faults,
          if verified && r.id !in faults then report.(deleted := report.deleted + 1)
          else report.(skipped := report.skipped + 1), lib)
  }

  function Cutoff(now: nat, policy: Policy): nat {
    if now >= policy.maxAge then now - policy.maxAge else 0
  }

  function Cleanup(d: Disk, listing: Listing, policy: Policy, now: nat, faults: Faults, lib: Library)
    : (Disk, CleanupReport)
  {
    var (found, scanned) := Scan(d, listing, policy.maxScan, [], CleanupReport(0, 0, 0, false), lib);
    Sweep(d, NewestFirst(found), 0, Cutoff(now, policy), policy, faults, scanned, lib)
  }

  /** Deletes one artifact after verifying it once more. */
  method RemoveVerified(store: ArtifactStore, r: Record, faults: Faults) returns (ok: bool)
    modifies store
    ensures var verified := Verified(old(store.Current()), r, store.lib);
      && ok == (verified && r.id !in faults)
      && store.Current() ==
        if verified then Discard(old(store.Current()), r, Reach(r.id, faults)) else old(store.Current())
  {
    if !Verified(Disk(store.files, store.markers), r, store.lib) {
      return false;
    }
    if r.sidecar.Some? {
      if Reach(r.id, faults) == 0 {
        return false;
      }
      store.RemoveFile(r.sidecar.value.name);
    }
    if Reach(r.id, faults) <= ArtifactTurn(r) {
      return false;
    }
    store.RemoveFile(r.name);
    if Reach(r.id, faults) <= ArtifactTurn(r) + 1 {
      return false;
    }
    store.markers := store.markers - {r.id};
    return r.id !in faults;
  }

  method ScanRecords(store: ArtifactStore, listing: Listing, limit: nat)
    returns (found: seq<Record>, report: CleanupReport)
    ensures (found, report) == Scan(store.Current(), listing, limit, [], CleanupReport(0, 0, 0, false), store.lib)
  {
    ghost var whole := Scan(store.Current(), listing, limit, [], CleanupReport(0, 0, 0, false), store.lib);
    var disk := Disk(store.files, store.markers);
    report := CleanupReport(0, 0, 0, false);
    found := [];
    var i := 0;
    while i < |listing|
      invariant 0 <= i <= |listing|
      invariant Scan(disk, listing[i..], limit, found, report, store.lib) == whole
    {
      assert listing[i..][0] == listing[i] && listing[i..][1..] == listing[i + 1..];
      if report.scanned >= limit {
        report := report.(scanLimitReached := true);
        return;
      }
      report := report.(scanned := report.scanned + 1);
      if listing[i].Some? && Eligible(disk, listing[i].value, store.lib) {
        found := found + [ReadCandidate(disk, listing[i].value).value];
      } else {
        report := report.(skipped := report.skipped + 1);
      }
      i := i + 1;
    }
  }

  method CleanUp(store: ArtifactStore, listing: Listing, policy: Policy, now: nat, faults: Faults)
    returns (report: CleanupReport)
    modifies store
    ensures (store.Current(), report) == Cleanup(old(store.Current()), listing, policy, now, faults, store.lib)
  {
    ghost var start := store.Current();
    var found;
    found, report := ScanRecords(store, listing, policy.maxScan);
    var candidates := InsertionSort(Newer, found);
    ghost var scanned := report;
    var cutoff := Cutoff(now, policy);
    var index := 0;
    while index < |candidates|
      invariant 0 <= index <= |candidates|
      invariant Sweep(store.Current(), candidates[index..], index, cutoff, policy, faults, report, store.lib) ==
        Sweep(start, candidates, 0, cutoff, policy, faults, scanned, store.lib)
    {
      var r := candidates[index];
      assert candidates[index..][0] == r && candidates[index..][1..] == candidates[index + 1..];
      if Doomed(r, index, cutoff, policy) {
        var ok := RemoveVerified(store, r, faults);
        report := if ok then report.(deleted := report.deleted + 1) else report.(skipped := report.skipped + 1);
      }
      index := index + 1;
    }
  }

  // ----- what a complete pass keeps

  /** How many verified artifacts are newer. */
  function Rank(d: Disk, r: Record, lib: Library): nat {
    |set id | id in d.markers && Eligible(d, id, lib) && Newer(ReadCandidate(d, id).value, r)|
  }

  /** Young enough, and with few enough that are newer. What was made at time zero is of no age. */
  predicate Retained(d: Disk, r: Record, now: nat, policy: Policy, lib: Library) {
    && r.createdAt > 0 && r.createdAt + policy.maxAge > now
    && (policy.maxArtifacts == None || Rank(d, r, lib) < policy.maxArtifacts.value)
  }

  function NotRetained(d: Disk, found: seq<Record>, now: nat, policy: Policy, lib: Library): set<Record> {
    set r | r in found && !Retained(d, r, now, policy, lib)
  }

  /** The records of the verified artifacts among `ids`, in their order. */
  function Found(d: Disk, ids: seq<Id>, lib: Library): (found: seq<Record>)
    ensures |found| <= |ids|
  {
    if ids == [] then []
    else if Eligible(d, ids[0], lib) then [ReadCandidate(d, ids[0]).value] + Found(d, ids[1..], lib)
    else Found(d, ids[1..], lib)
  }

  lemma {:induction false} FoundMeaning(d: Disk, ids: seq<Id>, lib: Library)
    requires ArtifactRepairs.Distinct(ids)
    ensures forall r :: r in Found(d, ids, lib) <==>
      r.id in ids && Eligible(d, r.id, lib) && ReadCandidate(d, r.id) == Some(r)
    ensures DistinctIds(Found(d, ids, lib))
  {
    if ids != [] {
      FoundMeaning(d, ids[1..], lib);
      assert forall id :: id in ids <==> id == ids[0] || id in ids[1..];
    }
  }

  lemma {:induction false} ScanMeaning(d: Disk, listing: Listing, limit: nat, found: seq<Record>,
    report: CleanupReport, lib: Library)
    requires report.scanned + |listing| <= limit
    ensures var verified := Found(d, Ids(listing), lib);
      Scan(d, listing, limit, found, report, lib) ==
      (found + verified, report.(scanned := report.scanned + |listing|,
        skipped := report.skipped + |listing| - |verified|))
    decreases |listing|
  {
    if listing != [] {
      var counted := report.(scanned := report.scanned + 1);
      var ids, rest := Ids(listing), Ids(listing[1..]);
      if listing[0].Some? {
        assert ids[0] == listing[0].value && ids[1..] == rest;
      }
      if listing[0].Some? && Eligible(d, listing[0].value, lib) {
        var r := ReadCandidate(d, ids[0]).value;
        ScanMeaning(d, listing[1..], limit, found + [r], counted, lib);
        assert found + [r] + Found(d, rest, lib) == found + ([r] + Found(d, rest, lib));
      } else {
        ScanMeaning(d, listing[1..], limit, found, counted.(skipped := counted.skipped + 1), lib);
      }
    } else {
      assert found + [] == found;
    }
  }

  /** The records a sweep deletes. */
  function DoomedRecords(candidates: seq<Record>, index: nat, cutoff: nat, policy: Policy): set<Record> {
    if candidates == [] then {}
    else
      DoomedRecords(candidates[1..], index + 1, cutoff, policy)
        + (if Doomed(candidates[0], index, cutoff, policy) then {candidates[0]} else {})
  }

  /** A disk without the files and the records that these deletions take. */
  ghost function Without(d: Disk, gone: set<Record>, faults: Faults): Disk {
    Disk(
      map name | name in d.files && (forall r :: r in gone ==> !Loses(r, Reach(r.id, faults), name)) :: d.files[name],
      map id | id in d.markers && (forall r :: r in gone && r.id == id ==> Reach(id, faults) <= ArtifactTurn(r) + 1)
        :: d.markers[id])
  }

  lemma DiscardMeaning(d: Disk, r: Record, n: nat)
    ensures var t := Discard(d, r, n);
      && (forall name :: name in t.files <==> name in d.files && !Loses(r, n, name))
      && (forall name :: name in t.files ==> t.files[name] == d.files[name])
      && (forall id :: id in t.markers <==> id in d.markers && (r.id == id ==> n <= ArtifactTurn(r) + 1))
      && (forall id :: id in t.markers ==> t.markers[id] == d.markers[id])
  {
  }

  /** A deletion that fails has taken the sidecar, or the sidecar and the artifact, in this order. */
  lemma DiscardPartMeaning(d: Disk, r: Record, n: nat)
    ensures Discard(d, r, n) ==
      if n == 0 then d
      else if r.sidecar.None? then
        if n == 1 then DropFile(d, r.name) else DropMarker(DropFile(d, r.name), r.id)
      else
        var bare := DropFile(d, r.sidecar.value.name);
        if n == 1 then bare
        else if n == 2 then DropFile(bare, r.name)
        else DropMarker(DropFile(bare, r.name), r.id)
  {
  }

  lemma WithoutOne(d: Disk, r: Record, gone: set<Record>, faults: Faults)
    ensures Without(Discard(d, r, Reach(r.id, faults)), gone, faults) == Without(d, gone + {r}, faults)
  {
    WithoutOneFile(d, r, gone, faults);
    WithoutOneMarker(d, r, gone, faults);
  }

  lemma WithoutOneFile(d: Disk, r: Record, gone: set<Record>, faults: Faults)
    ensures Without(Discard(d, r, Reach(r.id, faults)), gone, faults).files == Without(d, gone + {r}, faults).files
  {
    hide Loses, Discard, ArtifactTurn, Reach;
    DiscardMeaning(d, r, Reach(r.id, faults));
    assert forall s :: s in gone + {r} <==> s in gone || s == r;
  }

  lemma WithoutOneMarker(d: Disk, r: Record, gone: set<Record>, faults: Faults)
    ensures Without(Discard(d, r, Reach(r.id, faults)), gone, faults).markers == Without(d, gone + {r}, faults).markers
  {
    hide Loses, Discard, ArtifactTurn, Reach;
    DiscardMeaning(d, r, Reach(r.id, faults));
    assert forall s :: s in gone + {r} <==> s in gone || s == r;
  }

  /** Every candidate is a record of the disk, and whole. */
  ghost predicate Current(d: Disk, candidates: seq<Record>, lib: Library) {
    forall r :: r in candidates ==> ReadCandidate(d, r.id) == Some(r) && Verified(d, r, lib)
  }

  /** No file is recorded by both. */
  predicate Shareless(r: Record, s: Record) {
    !FileOf(s, r.name) && (r.sidecar.Some? ==> !FileOf(s, r.sidecar.value.name))
  }

  ghost predicate Separate(candidates: seq<Record>) {
    forall r, s :: r in candidates && s in candidates && r != s ==> Shareless(r, s)
  }

  /** No two artifacts that verify share a file; whatever else is on the disk. */
  ghost predicate EligibleApart(d: Disk, lib: Library) {
    forall i, j :: i in d.markers && j in d.markers && i != j && Eligible(d, i, lib) && Eligible(d, j, lib) ==>
      Shareless(ReadCandidate(d, i).value, ReadCandidate(d, j).value)
  }

  /** As in every store whose names were new. */
  lemma ConsistentEligible(d: Disk, lib: Library)
    requires Consistent(d, lib)
    ensures EligibleApart(d, lib)
  {
    forall i, j | i in d.markers && j in d.markers && i != j && Eligible(d, i, lib) && Eligible(d, j, lib)
      ensures Shareless(ReadCandidate(d, i).value, ReadCandidate(d, j).value)
    {
      SoundAt(d, i, lib);
      SoundAt(d, j, lib);
    }
  }

  /** Deleting one artifact, in part or in whole, leaves those whole that share no file with it. */
  lemma DiscardIsLocal(d: Disk, r: Record, n: nat, s: Record, lib: Library)
    requires Shareless(r, s) && r.id != s.id && ReadCandidate(d, s.id) == Some(s) && Verified(d, s, lib)
    ensures ReadCandidate(Discard(d, r, n), s.id) == Some(s) && Verified(Discard(d, r, n), s, lib)
  {
  }

  /** The deletions that failed. */
  function Halted(gone: set<Record>, faults: Faults): (halted: set<Record>)
    ensures |halted| <= |gone|
  {
    var halted := set r | r in gone && r.id in faults;
    SubsetSize(halted, gone);
    halted
  }

  /** Whichever deletions fail, and wherever: each takes what its writes took, and nothing else changes. */
  lemma {:induction false} SweepMeaning(d: Disk, candidates: seq<Record>, index: nat, cutoff: nat, policy: Policy,
    faults: Faults, report: CleanupReport, lib: Library)
    requires DistinctIds(candidates) && Separate(candidates) && Current(d, candidates, lib)
    ensures var gone := DoomedRecords(candidates, index, cutoff, policy); var halted := Halted(gone, faults);
      Sweep(d, candidates, index, cutoff, policy, faults, report, lib) ==
      (Without(d, gone, faults),
        report.(deleted := report.deleted + |gone| - |halted|, skipped := report.skipped + |halted|))
    decreases |candidates|
  {
    hide Without, Verified, Doomed, Discard, ReadCandidate, DistinctIds, Shareless, Sweep, DoomedRecords, Reach, Halted;
    SweepFirst(d, candidates, index, cutoff, policy, faults, report, lib);
    if candidates == [] {
      WithoutNothing(d, faults);
      HaltedOne({}, candidates, faults);
    } else {
      var r, rest := candidates[0], candidates[1..];
      var gone := DoomedRecords(rest, index + 1, cutoff, policy);
      DistinctRecords(candidates);
      HaltedOne(gone, candidates, faults);
      if Doomed(r, index, cutoff, policy) {
        var n := Reach(r.id, faults);
        forall s | s in rest
          ensures ReadCandidate(Discard(d, r, n), s.id) == Some(s) && Verified(Discard(d, r, n), s, lib)
        {
          DiscardIsLocal(d, r, n, s, lib);
        }
        SweepMeaning(Discard(d, r, n), rest, index + 1, cutoff, policy, faults,
          if r.id !in faults then report.(deleted := report.deleted + 1)
          else report.(skipped := report.skipped + 1), lib);
        WithoutOne(d, r, gone, faults);
        NotAmongRest(candidates, index, cutoff, policy);
      } else {
        SweepMeaning(d, rest, index + 1, cutoff, policy, faults, report, lib);
        assert gone + {} == gone;
      }
    }
  }

  lemma HaltedOne(gone: set<Record>, candidates: seq<Record>, faults: Faults)
    ensures Halted({}, faults) == {}
    ensures candidates != [] && candidates[0] !in gone ==>
      var r := candidates[0];
      && |gone + {r}| == |gone| + 1
      && |Halted(gone + {r}, faults)| == |Halted(gone, faults)| + (if r.id in faults then 1 else 0)
  {
    if candidates != [] && candidates[0] !in gone {
      var r := candidates[0];
      assert Halted(gone + {r}, faults) == Halted(gone, faults) + (if r.id in faults then {r} else {});
    }
  }

  lemma {:induction false} SubsetSize(a: set<Record>, b: set<Record>)
    requires a <= b
    ensures |a| <= |b|
  {
    if r :| r in a {
      SubsetSize(a - {r}, b - {r});
    }
  }

  lemma NotAmongRest(candidates: seq<Record>, index: nat, cutoff: nat, policy: Policy)
    requires candidates != [] && DistinctIds(candidates)
    ensures candidates[0] !in DoomedRecords(candidates[1..], index + 1, cutoff, policy)
  {
    DoomedAmong(candidates[1..], index + 1, cutoff, policy);
  }

  lemma SweepFirst(d: Disk, candidates: seq<Record>, index: nat, cutoff: nat, policy: Policy, faults: Faults,
    report: CleanupReport, lib: Library)
    ensures candidates == [] ==>
      Sweep(d, candidates, index, cutoff, policy, faults, report, lib) == (d, report)
      && DoomedRecords(candidates, index, cutoff, policy) == {}
    ensures candidates != [] ==>
      var r, rest, doomed := candidates[0], candidates[1..], Doomed(candidates[0], index, cutoff, policy);
      && Sweep(d, candidates, index, cutoff, policy, faults, report, lib) ==
        (if !doomed then Sweep(d, rest, index + 1, cutoff, policy, faults, report, lib)
         else
           var verified := Verified(d, r, lib);
           Sweep(if verified then Discard(d, r, Reach(r.id, faults)) else d, rest, index + 1, cutoff, policy, faults,
             if verified && r.id !in faults then report.(deleted := report.deleted + 1)
             else report.(skipped := report.skipped + 1), lib))
      && DoomedRecords(candidates, index, cutoff, policy) ==
        DoomedRecords(rest, index + 1, cutoff, policy) + (if doomed then {r} else {})
  {
  }

  lemma DistinctRecords(candidates: seq<Record>)
    requires candidates != [] && DistinctIds(candidates)
    ensures DistinctIds(candidates[1..]) && forall r :: r in candidates[1..] ==> r.id != candidates[0].id
  {
  }

  lemma WithoutNothing(d: Disk, faults: Faults)
    ensures Without(d, {}, faults) == d
  {
    assert Without(d, {}, faults).files == d.files;
    assert Without(d, {}, faults).markers == d.markers;
  }

  lemma {:induction false} DoomedAmong(candidates: seq<Record>, index: nat, cutoff: nat, policy: Policy)
    ensures forall r :: r in DoomedRecords(candidates, index, cutoff, policy) <==>
      exists i :: 0 <= i < |candidates| && candidates[i] == r && Doomed(r, index + i, cutoff, policy)
    decreases |candidates|
  {
    if candidates != [] {
      var rest := candidates[1..];
      DoomedAmong(rest, index + 1, cutoff, policy);
      forall r ensures r in DoomedRecords(candidates, index, cutoff, policy) <==>
        exists i :: 0 <= i < |candidates| && candidates[i] == r && Doomed(r, index + i, cutoff, policy)
      {
        if r in DoomedRecords(rest, index + 1, cutoff, policy) {
          var i :| 0 <= i < |rest| && rest[i] == r && Doomed(r, index + 1 + i, cutoff, policy);
          assert candidates[i + 1] == r && Doomed(r, index + (i + 1), cutoff, policy);
        }
        if i :| 0 < i < |candidates| && candidates[i] == r && Doomed(r, index + i, cutoff, policy) {
          assert rest[i - 1] == r && Doomed(r, index + 1 + (i - 1), cutoff, policy);
        }
      }
    }
  }

  lemma {:induction false} CountDistinct(records: seq<Record>)
    requires DistinctIds(records)
    ensures |set r | r in records :: r.id| == |records|
    decreases |records|
  {
    if records != [] {
      var rest := records[1..];
      CountDistinct(rest);
      assert (set r | r in records :: r.id) == (set r | r in rest :: r.id) + {records[0].id};
    }
  }

  /** A verified artifact's place in the order is the number of newer ones. */
  lemma RankIsIndex(d: Disk, candidates: seq<Record>, i: nat, lib: Library)
    requires i < |candidates| && Descending(candidates)
    requires forall r :: r in candidates <==>
      r.id in d.markers && Eligible(d, r.id, lib) && ReadCandidate(d, r.id) == Some(r)
    ensures Rank(d, candidates[i], lib) == i
  {
    var newer := candidates[..i];
    CountDistinct(newer);
    var ids := set id | id in d.markers && Eligible(d, id, lib) && Newer(ReadCandidate(d, id).value, candidates[i]);
    forall id ensures id in ids <==> id in (set r | r in newer :: r.id) {
      if id in ids {
        var r := ReadCandidate(d, id).value;
        assert r in candidates;
        var k :| 0 <= k < |candidates| && candidates[k] == r;
        assert k < i;
        assert r == newer[k];
      }
      if id in (set r | r in newer :: r.id) {
        var r :| r in newer && r.id == id;
        assert r in candidates;
      }
    }
    assert ids == set r | r in newer :: r.id;
  }

  /**
   * A complete pass keeps, of the verified artifacts, exactly those young enough and with fewer than the permitted
   * number newer than they are; it deletes the others with their sidecars and records, each as far as its writes
   * succeed, and touches nothing else. Unreadable entries, records that do not parse or verify, and failed deletions
   * are counted as skipped.
   */
  lemma RetentionMeaning(d: Disk, listing: Listing, policy: Policy, now: nat, faults: Faults, lib: Library)
    requires EligibleApart(d, lib) && Lists(d, listing) && |listing| <= policy.maxScan
    ensures var found := Found(d, Ids(listing), lib);
      var gone := NotRetained(d, found, now, policy, lib); var halted := Halted(gone, faults);
      Cleanup(d, listing, policy, now, faults, lib) ==
      (Without(d, gone, faults),
        CleanupReport(|listing|, |gone| - |halted|, |listing| - |found| + |halted|, false))
  {
    hide Without, Verified, Eligible, EligibleApart, Separate, Rank, Newer, Descending, DistinctIds, Retained, Sweep,
      Scan, NotRetained, DoomedRecords, NewestFirst, Found, Halted;
    var report := CleanupReport(0, 0, 0, false);
    var ids := Ids(listing);
    var found := Found(d, ids, lib);
    var cutoff := Cutoff(now, policy);
    ScanMeaning(d, listing, policy.maxScan, [], report, lib);
    assert [] + found == found;
    FoundMeaning(d, ids, lib);
    NewestFirstDescending(found);
    var sorted := NewestFirst(found);
    SortedSame(found);
    FoundCurrent(d, ids, lib);
    FoundSeparate(d, ids, lib);
    SortedDistinct(found);
    SweepMeaning(d, sorted, 0, cutoff, policy, faults, CleanupReport(|listing|, 0, |listing| - |found|, false), lib);
    DoomedIsNotRetained(d, found, sorted, now, policy, lib);
  }

  /** A record whose artifact stands as recorded, and its sidecar if it has one. */
  predicate Whole(d: Disk, id: Id, lib: Library) {
    && Readable(d, id)
    && var r := d.markers[id].record; ArtifactStands(d, r, lib) && (r.sidecar == None || SidecarStands(d, r, lib))
  }

  /** How many whole artifacts are later than this one, by time and then by identifier. */
  function Later(d: Disk, r: Record, lib: Library): nat {
    |set id | id in d.markers && IsLater(d, id, r, lib)|
  }

  predicate IsLater(d: Disk, id: Id, r: Record, lib: Library) {
    && Whole(d, id, lib)
    && var made := d.markers[id].record.createdAt; made > r.createdAt || (made == r.createdAt && id > r.id)
  }

  predicate Expired(d: Disk, id: Id, now: nat, policy: Policy, lib: Library) {
    && id in d.markers && Whole(d, id, lib)
    && var r := d.markers[id].record;
      || r.createdAt == 0 || r.createdAt + policy.maxAge <= now
      || (policy.maxArtifacts.Some? && Later(d, r, lib) >= policy.maxArtifacts.value)
  }

  /**
   * A complete pass whose deletions succeed: of the whole artifacts go exactly those too old or with too many later
   * ones, each with its record and its sidecar; every other record and every other file stays, as it was.
   */
  lemma RetentionIff(d: Disk, listing: Listing, policy: Policy, now: nat, lib: Library)
    requires EligibleApart(d, lib) && Lists(d, listing) && |listing| <= policy.maxScan
    ensures var (t, report) := Cleanup(d, listing, policy, now, map[], lib);
      && (forall id :: id in t.markers <==> id in d.markers && !Expired(d, id, now, policy, lib))
      && (forall id :: id in t.markers ==> t.markers[id] == d.markers[id])
      && (forall name ::
          name in t.files <==>
            && name in d.files
            && forall id :: Expired(d, id, now, policy, lib) ==> !FileOf(d.markers[id].record, name))
      && (forall name :: name in t.files ==> t.files[name] == d.files[name])
      && report.scanned == |listing| && !report.scanLimitReached
      && report.deleted == |set id | id in d.markers && Expired(d, id, now, policy, lib)|
      && report.skipped == |listing| - |set id | id in d.markers && Whole(d, id, lib)|
  {
    hide Cleanup, EligibleApart, Expired, Whole, Eligible, Lists, Without, Halted;
    var found := Found(d, Ids(listing), lib);
    var gone := NotRetained(d, found, now, policy, lib);
    RetentionMeaning(d, listing, policy, now, map[], lib);
    GoneIffExpired(d, listing, policy, now, lib);
    NoFaults(d, gone);
    CountGone(d, gone, set id | id in d.markers && Expired(d, id, now, policy, lib));
    CountFound(d, listing, lib);
  }

  lemma EligibleIff(d: Disk, id: Id, lib: Library)
    ensures Eligible(d, id, lib) <==> Whole(d, id, lib)
    ensures Eligible(d, id, lib) ==>
      && id in d.markers && d.markers[id].Parsed? && ReadCandidate(d, id) == Some(d.markers[id].record)
      && d.markers[id].record.id == id
  {
    hide Verified;
    if Readable(d, id) {
      VerifiedIff(d, d.markers[id].record, lib);
    }
  }

  lemma RankIsLater(d: Disk, r: Record, lib: Library)
    ensures Rank(d, r, lib) == Later(d, r, lib)
  {
    hide Verified, Whole;
    forall id | id in d.markers
      ensures Eligible(d, id, lib) && Newer(ReadCandidate(d, id).value, r) <==> IsLater(d, id, r, lib)
    {
      EligibleIff(d, id, lib);
    }
    assert (set id | id in d.markers && Eligible(d, id, lib) && Newer(ReadCandidate(d, id).value, r))
      == (set id | id in d.markers && IsLater(d, id, r, lib));
  }

  lemma GoneIffExpired(d: Disk, listing: Listing, policy: Policy, now: nat, lib: Library)
    requires Lists(d, listing)
    ensures var gone := NotRetained(d, Found(d, Ids(listing), lib), now, policy, lib);
      && (forall r :: r in gone ==>
          Expired(d, r.id, now, policy, lib) && r.id in d.markers && d.markers[r.id] == Parsed(r))
      && (forall id :: Expired(d, id, now, policy, lib) ==>
          && id in d.markers && d.markers[id].Parsed?
          && d.markers[id].record in gone && d.markers[id].record.id == id)
  {
    hide Whole, Eligible, Later, Rank, ReadCandidate;
    FoundMeaning(d, Ids(listing), lib);
    var found := Found(d, Ids(listing), lib);
    forall id ensures Expired(d, id, now, policy, lib) <==>
      && Eligible(d, id, lib) && id in d.markers && d.markers[id].Parsed?
      && !Retained(d, d.markers[id].record, now, policy, lib)
    {
      EligibleIff(d, id, lib);
      if id in d.markers && Whole(d, id, lib) {
        RankIsLater(d, d.markers[id].record, lib);
      }
    }
    forall id | Eligible(d, id, lib)
      ensures id in d.markers && d.markers[id].Parsed?
      ensures ReadCandidate(d, id) == Some(d.markers[id].record) && d.markers[id].record.id == id
    {
      EligibleIff(d, id, lib);
    }
  }

  lemma NoFaults(d: Disk, gone: set<Record>)
    ensures Halted(gone, map[]) == {}
    ensures var t := Without(d, gone, map[]);
      && (forall name :: name in t.files <==> name in d.files && forall r :: r in gone ==> !FileOf(r, name))
      && (forall name :: name in t.files ==> t.files[name] == d.files[name])
      && (forall id :: id in t.markers <==> id in d.markers && forall r :: r in gone ==> r.id != id)
      && (forall id :: id in t.markers ==> t.markers[id] == d.markers[id])
  {
    assert forall r: Record, name :: Loses(r, ALL, name) <==> FileOf(r, name);
  }

  lemma CountGone(d: Disk, gone: set<Record>, ids: set<Id>)
    requires forall r :: r in gone ==> r.id in ids && r.id in d.markers && d.markers[r.id] == Parsed(r)
    requires forall id :: id in ids ==>
      && id in d.markers && d.markers[id].Parsed? && d.markers[id].record in gone
      && d.markers[id].record.id == id
    ensures |gone| == |ids|
    decreases |gone|
  {
    if gone == {} {
      assert ids == {};
    } else {
      var r :| r in gone;
      CountGone(d, gone - {r}, ids - {r.id});
    }
  }

  lemma CountFound(d: Disk, listing: Listing, lib: Library)
    requires Lists(d, listing)
    ensures |Found(d, Ids(listing), lib)| == |set id | id in d.markers && Whole(d, id, lib)|
  {
    hide Whole, Eligible;
    var found := Found(d, Ids(listing), lib);
    FoundMeaning(d, Ids(listing), lib);
    CountDistinct(found);
    forall id ensures id in (set r | r in found :: r.id) <==> id in d.markers && Whole(d, id, lib) {
      EligibleIff(d, id, lib);
      if id in d.markers && Eligible(d, id, lib) {
        assert ReadCandidate(d, id).value in found;
      }
    }
    assert (set r | r in found :: r.id) == (set id | id in d.markers && Whole(d, id, lib));
  }

  lemma DoomedIsNotRetained(d: Disk, found: seq<Record>, sorted: seq<Record>, now: nat, policy: Policy, lib: Library)
    requires Descending(sorted) && forall r :: r in sorted <==> r in found
    requires forall r :: r in sorted <==>
      r.id in d.markers && Eligible(d, r.id, lib) && ReadCandidate(d, r.id) == Some(r)
    ensures DoomedRecords(sorted, 0, Cutoff(now, policy), policy) == NotRetained(d, found, now, policy, lib)
  {
    var cutoff := Cutoff(now, policy);
    hide Eligible, Rank, Newer, ReadCandidate, Descending;
    DoomedAmong(sorted, 0, cutoff, policy);
    forall i | 0 <= i < |sorted| ensures Rank(d, sorted[i], lib) == i {
      RankIsIndex(d, sorted, i, lib);
    }
    forall r ensures r in DoomedRecords(sorted, 0, cutoff, policy) <==>
      r in sorted && !Retained(d, r, now, policy, lib)
    {
      if r in sorted {
        var i :| 0 <= i < |sorted| && sorted[i] == r;
        assert Doomed(r, 0 + i, cutoff, policy) <==> !Retained(d, r, now, policy, lib);
      }
    }
  }

  lemma SortedSame(records: seq<Record>)
    ensures forall r :: r in NewestFirst(records) <==> r in records
  {
    var sorted := NewestFirst(records);
    forall r ensures r in sorted <==> r in records {
      assert r in sorted <==> r in multiset(sorted);
      assert r in records <==> r in multiset(records);
    }
  }

  lemma SortedDistinct(records: seq<Record>)
    requires DistinctIds(records)
    ensures DistinctIds(NewestFirst(records))
  {
    NewestFirstDescending(records);
    SortedSame(records);
    var sorted := NewestFirst(records);
    forall i, j | 0 <= i < j < |sorted| ensures sorted[i].id != sorted[j].id {
      assert Newer(sorted[i], sorted[j]);
      assert sorted[i] in records && sorted[j] in records;
    }
  }

  lemma FoundCurrent(d: Disk, ids: seq<Id>, lib: Library)
    requires ArtifactRepairs.Distinct(ids)
    ensures Current(d, NewestFirst(Found(d, ids, lib)), lib)
  {
    FoundMeaning(d, ids, lib);
    SortedSame(Found(d, ids, lib));
  }

  lemma FoundSeparate(d: Disk, ids: seq<Id>, lib: Library)
    requires EligibleApart(d, lib) && ArtifactRepairs.Distinct(ids) && forall id :: id in ids ==> id in d.markers
    ensures Separate(NewestFirst(Found(d, ids, lib)))
  {
    hide Shareless, Eligible;
    FoundMeaning(d, ids, lib);
    SortedSame(Found(d, ids, lib));
  }

  // ----- what a pass may take

  /** A deletion, however far it comes, takes nothing that its record does not vouch for. */
  lemma DiscardSafe(d: Disk, r: Record, n: nat, lib: Library)
    requires ReadCandidate(d, r.id) == Some(r) && Verified(d, r, lib)
    ensures SafeReduction(d, Discard(d, r, n), lib)
  {
    hide Discard, Vouched, Verified, SidecarOf;
    DiscardMeaning(d, r, n);
    VerifiedIff(d, r, lib);
    forall name | Loses(r, n, name) ensures Vouched(d, name, lib) {
      VouchedBy(d, r.id, name, lib);
    }
  }

  lemma {:induction false} SweepSafe(d: Disk, candidates: seq<Record>, index: nat, cutoff: nat, policy: Policy,
    faults: Faults, report: CleanupReport, lib: Library)
    requires DistinctIds(candidates) && forall r :: r in candidates ==> ReadCandidate(d, r.id) == Some(r)
    ensures SafeReduction(d, Sweep(d, candidates, index, cutoff, policy, faults, report, lib).0, lib)
    decreases |candidates|
  {
    hide Verified, Doomed, Discard, ReadCandidate, DistinctIds, SafeReduction, Sweep, Reach;
    SameIsSafe(d, lib);
    SweepFirst(d, candidates, index, cutoff, policy, faults, report, lib);
    if candidates != [] {
      var r, rest := candidates[0], candidates[1..];
      DistinctRecords(candidates);
      if Doomed(r, index, cutoff, policy) && Verified(d, r, lib) {
        var n := Reach(r.id, faults);
        var m := Discard(d, r, n);
        var next := if r.id !in faults then report.(deleted := report.deleted + 1)
          else report.(skipped := report.skipped + 1);
        DiscardSafe(d, r, n, lib);
        forall s | s in rest ensures ReadCandidate(m, s.id) == Some(s) {
          DiscardReads(d, r, n, s);
        }
        SweepSafe(m, rest, index + 1, cutoff, policy, faults, next, lib);
        ReductionChain(d, m, Sweep(m, rest, index + 1, cutoff, policy, faults, next, lib).0, lib);
      } else {
        SweepSafe(d, rest, index + 1, cutoff, policy, faults,
          if Doomed(r, index, cutoff, policy) then report.(skipped := report.skipped + 1) else report, lib);
      }
    }
  }

  lemma DiscardReads(d: Disk, r: Record, n: nat, s: Record)
    requires ReadCandidate(d, s.id) == Some(s) && s.id != r.id
    ensures ReadCandidate(Discard(d, r, n), s.id) == Some(s)
  {
  }

  /** What a scan finds are records of the disk, each once. */
  lemma {:induction false} ScanFinds(d: Disk, listing: Listing, limit: nat, found: seq<Record>, report: CleanupReport,
    lib: Library)
    requires ArtifactRepairs.Distinct(Ids(listing)) && DistinctIds(found)
    requires forall r :: r in found ==> ReadCandidate(d, r.id) == Some(r) && r.id !in Ids(listing)
    ensures var f := Scan(d, listing, limit, found, report, lib).0;
      DistinctIds(f) && forall r :: r in f ==> ReadCandidate(d, r.id) == Some(r)
    decreases |listing|
  {
    hide Verified, ReadCandidate;
    if listing != [] && report.scanned < limit {
      var counted := report.(scanned := report.scanned + 1);
      if listing[0].Some? {
        DistinctRest(listing);
      }
      if listing[0].Some? && Eligible(d, listing[0].value, lib) {
        CandidateId(d, listing[0].value);
        ScanFinds(d, listing[1..], limit, found + [ReadCandidate(d, listing[0].value).value], counted, lib);
      } else {
        ScanFinds(d, listing[1..], limit, found, counted.(skipped := counted.skipped + 1), lib);
      }
    }
  }

  lemma CandidateId(d: Disk, id: Id)
    ensures ReadCandidate(d, id).Some? ==> ReadCandidate(d, id).value.id == id
  {
  }

  /** Whatever is on the disk, wherever the scan ends, and however deletions fail. */
  lemma CleanupSafe(d: Disk, listing: Listing, policy: Policy, now: nat, faults: Faults, lib: Library)
    requires ArtifactRepairs.Distinct(Ids(listing))
    ensures SafeReduction(d, Cleanup(d, listing, policy, now, faults, lib).0, lib)
  {
    hide Scan, Sweep, SafeReduction, ReadCandidate;
    var (found, scanned) := Scan(d, listing, policy.maxScan, [], CleanupReport(0, 0, 0, false), lib);
    ScanFinds(d, listing, policy.maxScan, [], CleanupReport(0, 0, 0, false), lib);
    SortedSame(found);
    SortedDistinct(found);
    SweepSafe(d, NewestFirst(found), 0, Cutoff(now, policy), policy, faults, scanned, lib);
  }

  lemma VerifiedIff(d: Disk, r: Record, lib: Library)
    ensures Verified(d, r, lib) <==> ArtifactStands(d, r, lib) && (r.sidecar == None || SidecarStands(d, r, lib))
  {
    ValidIff(d, r, lib);
    SidecarIff(d, r, lib);
  }

  /** Whatever the disk and however the scan ends, every entry scanned was deleted, skipped, or kept as verified. */
  lemma {:induction false} ScanCounts(d: Disk, listing: Listing, limit: nat, found: seq<Record>,
    report: CleanupReport, lib: Library)
    requires report.scanned == report.skipped + |found| && report.scanned <= limit
    ensures var (f, r) := Scan(d, listing, limit, found, report, lib);
      && r.scanned == r.skipped + |f| && r.deleted == report.deleted
      && r.scanned == (if report.scanned + |listing| <= limit then report.scanned + |listing| else limit)
      && (r.scanLimitReached <==> report.scanLimitReached || report.scanned + |listing| > limit)
    decreases |listing|
  {
    if listing != [] && report.scanned < limit {
      var counted := report.(scanned := report.scanned + 1);
      if listing[0].Some? && Eligible(d, listing[0].value, lib) {
        ScanCounts(d, listing[1..], limit, found + [ReadCandidate(d, listing[0].value).value], counted, lib);
      } else {
        ScanCounts(d, listing[1..], limit, found, counted.(skipped := counted.skipped + 1), lib);
      }
    }
  }

  /** How many candidates a sweep passes over untouched. */
  function Spared(candidates: seq<Record>, index: nat, cutoff: nat, policy: Policy): nat
    decreases |candidates|
  {
    if candidates == [] then 0
    else
      Spared(candidates[1..], index + 1, cutoff, policy)
        + (if Doomed(candidates[0], index, cutoff, policy) then 0 else 1)
  }

  lemma {:induction false} SweepCounts(d: Disk, candidates: seq<Record>, index: nat, cutoff: nat, policy: Policy,
    faults: Faults, report: CleanupReport, lib: Library)
    ensures var r := Sweep(d, candidates, index, cutoff, policy, faults, report, lib).1;
      && r.deleted + r.skipped + Spared(candidates, index, cutoff, policy)
        == report.deleted + report.skipped + |candidates|
      && r.scanned == report.scanned && r.scanLimitReached == report.scanLimitReached
    decreases |candidates|
  {
    hide Verified, Discard, Doomed, Sweep, Spared;
    SweepFirst(d, candidates, index, cutoff, policy, faults, report, lib);
    SparedFirst(candidates, index, cutoff, policy);
    if candidates != [] {
      var r, rest := candidates[0], candidates[1..];
      if !Doomed(r, index, cutoff, policy) {
        SweepCounts(d, rest, index + 1, cutoff, policy, faults, report, lib);
      } else {
        var verified := Verified(d, r, lib);
        SweepCounts(if verified then Discard(d, r, Reach(r.id, faults)) else d, rest, index + 1, cutoff, policy, faults,
          if verified && r.id !in faults then report.(deleted := report.deleted + 1)
          else report.(skipped := report.skipped + 1), lib);
      }
    }
  }

  lemma SparedFirst(candidates: seq<Record>, index: nat, cutoff: nat, policy: Policy)
    ensures candidates == [] ==> Spared(candidates, index, cutoff, policy) == 0
    ensures candidates != [] ==>
      var rest := Spared(candidates[1..], index + 1, cutoff, policy);
      Spared(candidates, index, cutoff, policy) ==
        (if Doomed(candidates[0], index, cutoff, policy) then rest else rest + 1)
  {
  }

  /**
   * Whatever the disk, the listing and the failures: each entry scanned was deleted, skipped, or retained, and the scan
   * ended early exactly when there were more entries than its limit.
   */
  lemma CleanupCounts(d: Disk, listing: Listing, policy: Policy, now: nat, faults: Faults, lib: Library)
    ensures var report := Cleanup(d, listing, policy, now, faults, lib).1;
      var found := Scan(d, listing, policy.maxScan, [], CleanupReport(0, 0, 0, false), lib).0;
      && report.scanned ==
        report.deleted + report.skipped + Spared(NewestFirst(found), 0, Cutoff(now, policy), policy)
      && report.scanned == (if |listing| <= policy.maxScan then |listing| else policy.maxScan)
      && (report.scanLimitReached <==> |listing| > policy.maxScan)
  {
    hide Scan, Sweep, Spared;
    var empty := CleanupReport(0, 0, 0, false);
    ScanCounts(d, listing, policy.maxScan, [], empty, lib);
    var (found, scanned) := Scan(d, listing, policy.maxScan, [], empty, lib);
    SweepCounts(d, NewestFirst(found), 0, Cutoff(now, policy), policy, faults, scanned, lib);
  }
}
