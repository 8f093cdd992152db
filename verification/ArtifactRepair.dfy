/** The repair pass: what it changes, what it leaves, and that once is enough. */
module ArtifactRepairs {
  import opened Wrappers
  import opened ArtifactStores

  datatype Mode = Audit | Apply

  datatype Report = Report(
    scanned: nat, healthy: nat, orphanedRecords: nat, missingSidecars: nat, repaired: nat, skipped: nat,
    scanLimitReached: bool)

  const NOTHING := Report(0, 0, 0, 0, 0, 0, false)

  /** What a directory listing yields: the identifier of an ownership file, or an entry that could not be read. */
  type Listing = seq<Option<Id>>

  datatype Finding = Unreadable | Healthy | SidecarGone | Orphan(sidecar: SidecarState) | Damaged

  function Inspect(d: Disk, id: Id, lib: Library): Finding {
    match ReadCandidate(d, id)
    case None => Unreadable
    case Some(r) =>
      if ArtifactValid(d, r, lib) then
        match SidecarOf(d, r, lib)
        case MissingSidecar => SidecarGone
        case InvalidSidecar => Damaged
        case _ => Healthy
      else if StateOf(d, r.name) == Missing then Orphan(SidecarOf(d, r, lib))
      else Damaged
  }

  /** The records whose change fails, each with the number of its writes done before that. */
  type Faults = map<Id, nat>

  /** More writes than a change has. */
  const ALL := 3

  /** How many writes of a change are done at most. */
  function Reach(id: Id, faults: Faults): nat {
    if id in faults then faults[id] else ALL
  }

  /** The repair of one record, its first `n` writes done. */
  function MendPart(d: Disk, id: Id, n: nat, lib: Library): Disk {
    match ReadCandidate(d, id)
    case None => d
    case Some(r) =>
      match Inspect(d, id, lib)
      case SidecarGone => if n == 0 then d else PutMarker(d, r.(sidecar := None))
      case Orphan(ValidSidecar) =>
        if n == 0 then d
        else
          var bare := if r.sidecar.Some? then DropFile(d, r.sidecar.value.name) else d;
          if n == 1 then bare else DropMarker(bare, id)
      case Orphan(sidecar) => if sidecar == InvalidSidecar || n == 0 then d else DropMarker(d, id)
      case _ => d
  }

  /** The repair of one record, its writes all done. */
  function Mend(d: Disk, id: Id, lib: Library): Disk {
    MendPart(d, id, ALL, lib)
  }

  /** Counts one record; a repair that fails, at whichever write, is counted as skipped. */
  function Tally(report: Report, finding: Finding, mode: Mode, writable: bool): Report {
    var mended := if mode == Apply && writable then 1 else 0;
    var failed := if mode == Apply && !writable then 1 else 0;
    match finding
    case Unreadable => report.(skipped := report.skipped + 1)
    case Damaged => report.(skipped := report.skipped + 1)
    case Healthy => report.(healthy := report.healthy + 1)
    case SidecarGone =>
      report.(missingSidecars := report.missingSidecars + 1, repaired := report.repaired + mended,
        skipped := report.skipped + failed)
    case Orphan(InvalidSidecar) =>
      report.(orphanedRecords := report.orphanedRecords + 1, skipped := report.skipped + 1)
    case Orphan(_) =>
      report.(orphanedRecords := report.orphanedRecords + 1, repaired := report.repaired + mended,
        skipped := report.skipped + failed)
  }

  function Pass(d: Disk, listing: Listing, limit: nat, mode: Mode, faults: Faults, report: Report, lib: Library)
    : (Disk, Report)
    decreases |listing|
  {
    if listing == [] then (d, report)
    else if report.scanned >= limit then (d, report.(scanLimitReached := true))
    else
      var counted := report.(scanned := report.scanned + 1);
      match listing[0]
      case None => Pass(d, listing[1..], limit, mode, faults, Tally(counted, Unreadable, mode, true), lib)
      case Some(id) =>
        Pass(if mode == Apply then MendPart(d, id, Reach(id, faults), lib) else d, listing[1..], limit, mode, faults,
          Tally(counted, Inspect(d, id, lib), mode, id !in faults), lib)
  }

  class ArtifactStore {
    const lib: Library
    var files: map<Name, Node>
    var markers: map<Id, Marker>

    ghost function Current(): Disk
      reads this
    {
      Disk(files, markers)
    }

    constructor (lib: Library, files: map<Name, Node>, markers: map<Id, Marker>)
      ensures this.lib == lib && Current() == Disk(files, markers)
    {
      this.lib := lib;
      this.files := files;
      this.markers := markers;
    }

    method RemoveFile(name: Name)
      modifies this
      ensures Current() == DropFile(old(Current()), name)
    {
      files := files - {name};
    }

    /** `expected` is the record as the pass read it; it is read again before anything is changed. */
    method ClearMissingSidecar(id: Id, expected: Record, faults: Faults) returns (ok: bool)
      modifies this
      ensures var found := Inspect(old(Current()), id, lib);
        var due := ReadCandidate(old(Current()), id) == Some(expected) && found == SidecarGone;
        && ok == (due && id !in faults)
        && Current() == if due then MendPart(old(Current()), id, Reach(id, faults), lib) else old(Current())
    {
      var disk := Disk(files, markers);
      if ReadCandidate(disk, id) != Some(expected) || !ArtifactValid(disk, expected, lib)
        || SidecarOf(disk, expected, lib) != MissingSidecar || Reach(id, faults) == 0
      {
        return false;
      }
      markers := markers[expected.id := Parsed(expected.(sidecar := None))];
      return id !in faults;
    }

    method RemoveOrphanedRecord(id: Id, expected: Record, faults: Faults) returns (ok: bool)
      modifies this
      ensures var found := Inspect(old(Current()), id, lib);
        var due := ReadCandidate(old(Current()), id) == Some(expected)
          && found.Orphan? && found.sidecar != InvalidSidecar;
        && ok == (due && id !in faults)
        && Current() == if due then MendPart(old(Current()), id, Reach(id, faults), lib) else old(Current())
    {
      var disk := Disk(files, markers);
      if ReadCandidate(disk, id) != Some(expected) || StateOf(disk, expected.name) != Missing
        || Reach(id, faults) == 0
      {
        return false;
      }
      match SidecarOf(disk, expected, lib) {
        case ValidSidecar =>
          RemoveFile(expected.sidecar.value.name);
          if Reach(id, faults) == 1 {
            return false;
          }
        case NoSidecar =>
        case MissingSidecar =>
        case InvalidSidecar => return false;
      }
      markers := markers - {id};
      return id !in faults;
    }

    method RepairOrphans(listing: Listing, limit: nat, mode: Mode, faults: Faults) returns (report: Report)
      modifies this
      ensures (Current(), report) == Pass(old(Current()), listing, limit, mode, faults, NOTHING, lib)
    {
      ghost var start := Current();
      report := NOTHING;
      var i := 0;
      while i < |listing|
        invariant 0 <= i <= |listing|
        invariant Pass(Current(), listing[i..], limit, mode, faults, report, lib) ==
          Pass(start, listing, limit, mode, faults, NOTHING, lib)
      {
        assert listing[i..][0] == listing[i] && listing[i..][1..] == listing[i + 1..];
        if report.scanned >= limit {
          report := report.(scanLimitReached := true);
          return;
        }
        report := report.(scanned := report.scanned + 1);
        if listing[i].None? {
          report := report.(skipped := report.skipped + 1);
        } else {
          report := RepairEntry(listing[i].value, mode, faults, report);
        }
        i := i + 1;
      }
    }

    method RepairEntry(id: Id, mode: Mode, faults: Faults, counted: Report) returns (report: Report)
      modifies this
      ensures Current() ==
        if mode == Apply then MendPart(old(Current()), id, Reach(id, faults), lib) else old(Current())
      ensures report == Tally(counted, Inspect(old(Current()), id, lib), mode, id !in faults)
    {
      report := counted;
      var disk := Disk(files, markers);
      var candidate := ReadCandidate(disk, id);
      if candidate.None? {
        report := report.(skipped := report.skipped + 1);
        return;
      }
      var record := candidate.value;
      if ArtifactValid(disk, record, lib) {
        match SidecarOf(disk, record, lib) {
          case NoSidecar => report := report.(healthy := report.healthy + 1);
          case ValidSidecar => report := report.(healthy := report.healthy + 1);
          case MissingSidecar =>
            report := report.(missingSidecars := report.missingSidecars + 1);
            if mode == Apply {
              var ok := ClearMissingSidecar(id, record, faults);
              report := if ok then report.(repaired := report.repaired + 1) else report.(skipped := report.skipped + 1);
            }
          case InvalidSidecar => report := report.(skipped := report.skipped + 1);
        }
      } else if StateOf(disk, record.name) == Missing {
        report := report.(orphanedRecords := report.orphanedRecords + 1);
        match SidecarOf(disk, record, lib) {
          case InvalidSidecar => report := report.(skipped := report.skipped + 1);
          case _ =>
            if mode == Apply {
              var ok := RemoveOrphanedRecord(id, record, faults);
              report := if ok then report.(repaired := report.repaired + 1) else report.(skipped := report.skipped + 1);
            }
        }
      } else {
        report := report.(skipped := report.skipped + 1);
      }
    }
  }

  // ----- one record mended

  predicate FileOf(r: Record, name: Name) {
    r.name == name || (r.sidecar.Some? && r.sidecar.value.name == name)
  }

  /** The marker that a repair leaves for `id`: nothing of an orphan, and all of what it cannot judge. */
  function MarkerAfter(d: Disk, id: Id, lib: Library): Option<Marker> {
    if id !in d.markers then None
    else match Inspect(d, id, lib)
      case SidecarGone => Some(Parsed(ReadCandidate(d, id).value.(sidecar := None)))
      case Orphan(InvalidSidecar) => Some(d.markers[id])
      case Orphan(_) => None
      case _ => Some(d.markers[id])
  }

  /** The sidecar of an artifact that is gone. */
  predicate Leftover(d: Disk, id: Id, name: Name, lib: Library) {
    Inspect(d, id, lib) == Orphan(ValidSidecar) && ReadCandidate(d, id).value.sidecar.value.name == name
  }

  /** An orphan's sidecar is no other record's file; whatever else is on the disk. */
  ghost predicate OrphansApart(d: Disk, lib: Library) {
    forall i, j :: i != j && Inspect(d, i, lib) == Orphan(ValidSidecar) && ReadCandidate(d, j).Some? ==>
      !FileOf(ReadCandidate(d, j).value, ReadCandidate(d, i).value.sidecar.value.name)
  }

  /** As in every store whose names were new. */
  lemma ConsistentIsApart(d: Disk, lib: Library)
    requires Consistent(d, lib)
    ensures OrphansApart(d, lib)
  {
    forall i, j | i != j && Inspect(d, i, lib) == Orphan(ValidSidecar) && ReadCandidate(d, j).Some?
      ensures !FileOf(ReadCandidate(d, j).value, ReadCandidate(d, i).value.sidecar.value.name)
    {
      SoundAt(d, i, lib);
      SoundAt(d, j, lib);
    }
  }

  lemma MendMeaning(d: Disk, id: Id, lib: Library)
    ensures var t := Mend(d, id, lib);
      && MarkerOf(t, id) == MarkerAfter(d, id, lib)
      && (forall j :: j != id ==> MarkerOf(t, j) == MarkerOf(d, j))
      && (forall name :: name in t.files <==> name in d.files && !Leftover(d, id, name, lib))
      && (forall name :: name in t.files ==> t.files[name] == d.files[name])
  {
  }

  /** How many writes the repair of a record takes: an orphan's sidecar goes before its record. */
  function Writes(d: Disk, id: Id, lib: Library): nat {
    match Inspect(d, id, lib)
    case SidecarGone => 1
    case Orphan(ValidSidecar) => 2
    case Orphan(MissingSidecar) => 1
    case Orphan(NoSidecar) => 1
    case _ => 0
  }

  /** A repair that fails leaves the record as it was found, but for an orphan's sidecar once that is gone. */
  lemma MendPartMeaning(d: Disk, id: Id, n: nat, lib: Library)
    ensures MendPart(d, id, n, lib) ==
      if n >= Writes(d, id, lib) then Mend(d, id, lib)
      else if n == 0 then d
      else DropFile(d, ReadCandidate(d, id).value.sidecar.value.name)
  {
  }

  function MarkerOf(d: Disk, id: Id): Option<Marker> {
    if id in d.markers then Some(d.markers[id]) else None
  }

  /** Wherever it stops, a repair leaves a consistent disk. */
  lemma MendKeeps(d: Disk, id: Id, n: nat, lib: Library)
    requires Consistent(d, lib)
    ensures Consistent(MendPart(d, id, n, lib), lib)
  {
    if id in d.markers {
      assert Sound(d, id, lib);
      var r := d.markers[id].record;
      match Inspect(d, id, lib)
      case SidecarGone =>
        PutMarkerKeeps(d, r.(sidecar := None), lib);
      case Orphan(sidecar) =>
        DropFileKeeps(d, SidecarName(r.name.directory, id), lib);
        DropMarkerKeeps(d, id, lib);
        DropMarkerKeeps(DropFile(d, SidecarName(r.name.directory, id)), id, lib);
      case _ =>
    }
  }

  /** Mending one record, in part or in whole, changes nothing about another. */
  lemma MendIsLocal(d: Disk, id: Id, n: nat, j: Id, lib: Library)
    requires OrphansApart(d, lib) && j != id
    ensures var t := MendPart(d, id, n, lib);
      ReadCandidate(t, j) == ReadCandidate(d, j) && MarkerOf(t, j) == MarkerOf(d, j)
      && Inspect(t, j, lib) == Inspect(d, j, lib) && MarkerAfter(t, j, lib) == MarkerAfter(d, j, lib)
  {
    hide OrphansApart, Inspect, MendPart;
    var t := MendPart(d, id, n, lib);
    MendTakes(d, id, n, lib);
    if ReadCandidate(d, j).Some? {
      var r := ReadCandidate(d, j).value;
      forall name | FileOf(r, name) ensures StateOf(t, name) == StateOf(d, name) {
        LeftoverAlone(d, id, j, name, lib);
      }
    }
    SameView(d, t, j, lib);
  }

  /** What a repair, however far it comes, may change: the record itself, and its sidecar if that is left over. */
  lemma MendTakes(d: Disk, id: Id, n: nat, lib: Library)
    ensures var t := MendPart(d, id, n, lib);
      && (forall j :: j != id ==> MarkerOf(t, j) == MarkerOf(d, j))
      && (forall name :: !Leftover(d, id, name, lib) ==> StateOf(t, name) == StateOf(d, name))
  {
  }

  lemma LeftoverAlone(d: Disk, id: Id, j: Id, name: Name, lib: Library)
    requires OrphansApart(d, lib) && j != id && ReadCandidate(d, j).Some? && FileOf(ReadCandidate(d, j).value, name)
    ensures !Leftover(d, id, name, lib)
  {
  }

  lemma SameView(d: Disk, t: Disk, j: Id, lib: Library)
    requires MarkerOf(t, j) == MarkerOf(d, j)
    requires ReadCandidate(d, j).Some? ==>
      forall name :: FileOf(ReadCandidate(d, j).value, name) ==> StateOf(t, name) == StateOf(d, name)
    ensures ReadCandidate(t, j) == ReadCandidate(d, j) && Inspect(t, j, lib) == Inspect(d, j, lib)
    ensures MarkerAfter(t, j, lib) == MarkerAfter(d, j, lib)
  {
    if ReadCandidate(d, j).Some? {
      var r := ReadCandidate(d, j).value;
      assert FileOf(r, r.name);
      assert r.sidecar.Some? ==> FileOf(r, r.sidecar.value.name);
    }
  }

  /** A repair gives its own record no file that it had not. */
  lemma MendShrinks(d: Disk, id: Id, n: nat, name: Name, lib: Library)
    ensures var t := MendPart(d, id, n, lib);
      && (Leftover(t, id, name, lib) ==> Leftover(d, id, name, lib))
      && (ReadCandidate(t, id).Some? && FileOf(ReadCandidate(t, id).value, name) ==>
          ReadCandidate(d, id).Some? && FileOf(ReadCandidate(d, id).value, name))
  {
  }

  lemma MendKeepsApart(d: Disk, id: Id, n: nat, lib: Library)
    requires OrphansApart(d, lib)
    ensures OrphansApart(MendPart(d, id, n, lib), lib)
  {
    var t := MendPart(d, id, n, lib);
    forall i, j | i != j && Inspect(t, i, lib) == Orphan(ValidSidecar) && ReadCandidate(t, j).Some?
      ensures !FileOf(ReadCandidate(t, j).value, ReadCandidate(t, i).value.sidecar.value.name)
    {
      var name := ReadCandidate(t, i).value.sidecar.value.name;
      StillApart(d, id, n, i, j, name, lib);
    }
  }

  lemma StillApart(d: Disk, id: Id, n: nat, i: Id, j: Id, name: Name, lib: Library)
    requires OrphansApart(d, lib) && i != j
    ensures var t := MendPart(d, id, n, lib);
      Leftover(t, i, name, lib) && ReadCandidate(t, j).Some? ==> !FileOf(ReadCandidate(t, j).value, name)
  {
    hide OrphansApart, Inspect, MendPart, MarkerAfter, ReadCandidate, FileOf;
    MendShrinks(d, id, n, name, lib);
    if i != id {
      MendIsLocal(d, id, n, i, lib);
    }
    if j != id {
      MendIsLocal(d, id, n, j, lib);
    }
    if ReadCandidate(d, j).Some? && FileOf(ReadCandidate(d, j).value, name) {
      LeftoverAlone(d, i, j, name, lib);
    }
  }

  lemma SoundAt(d: Disk, id: Id, lib: Library)
    requires Consistent(d, lib)
    ensures id in d.markers ==> Sound(d, id, lib)
  {
  }

  // ----- what is found, by what stands on the disk

  predicate Readable(d: Disk, id: Id) {
    id in d.markers && d.markers[id].Parsed? && d.markers[id].record.id == id
  }

  predicate ArtifactStands(d: Disk, r: Record, lib: Library) {
    r.name in d.files && IsArtifact(r, r.name, d.files[r.name], lib)
  }

  predicate SidecarStands(d: Disk, r: Record, lib: Library) {
    && r.sidecar.Some? && r.sidecar.value.name in d.files
    && IsSidecar(r, r.sidecar.value.name, d.files[r.sidecar.value.name], lib)
  }

  predicate SidecarLost(d: Disk, r: Record) {
    r.sidecar.Some? && r.sidecar.value.name !in d.files
  }

  /** Every finding, with the whole condition under which it is made. */
  lemma InspectIff(d: Disk, id: Id, lib: Library)
    ensures var f := Inspect(d, id, lib);
      if !Readable(d, id) then f == Unreadable
      else
        var r := d.markers[id].record;
        && f != Unreadable
        && (f == Healthy <==> ArtifactStands(d, r, lib) && (r.sidecar == None || SidecarStands(d, r, lib)))
        && (f == SidecarGone <==> ArtifactStands(d, r, lib) && SidecarLost(d, r))
        && (f.Orphan? <==> r.name !in d.files)
        && (f == Orphan(ValidSidecar) <==> r.name !in d.files && SidecarStands(d, r, lib))
        && (f == Orphan(InvalidSidecar) <==>
            r.name !in d.files && r.sidecar.Some? && !SidecarLost(d, r) && !SidecarStands(d, r, lib))
  {
    if Readable(d, id) {
      ValidIff(d, d.markers[id].record, lib);
      SidecarIff(d, d.markers[id].record, lib);
    }
  }

  /** However far it comes, a repair takes no file that a record does not vouch for. */
  lemma MendSafe(d: Disk, id: Id, n: nat, lib: Library)
    ensures SafeReduction(d, MendPart(d, id, n, lib), lib)
  {
    hide Inspect, Vouched;
    InspectIff(d, id, lib);
    if Inspect(d, id, lib) == Orphan(ValidSidecar) {
      VouchedBy(d, id, d.markers[id].record.sidecar.value.name, lib);
    }
  }

  /** Nor does a pass, on whatever disk, over whatever listing, and however its repairs fail. */
  lemma {:induction false} PassSafe(d: Disk, listing: Listing, limit: nat, mode: Mode, faults: Faults, report: Report,
    lib: Library)
    ensures SafeReduction(d, Pass(d, listing, limit, mode, faults, report, lib).0, lib)
    decreases |listing|
  {
    hide Inspect, MendPart, SafeReduction;
    SameIsSafe(d, lib);
    if listing != [] && report.scanned < limit {
      var counted := report.(scanned := report.scanned + 1);
      if listing[0].None? {
        PassSafe(d, listing[1..], limit, mode, faults, Tally(counted, Unreadable, mode, true), lib);
      } else {
        var id := listing[0].value;
        var m := if mode == Apply then MendPart(d, id, Reach(id, faults), lib) else d;
        var next := Tally(counted, Inspect(d, id, lib), mode, id !in faults);
        MendSafe(d, id, Reach(id, faults), lib);
        PassSafe(m, listing[1..], limit, mode, faults, next, lib);
        ReductionChain(d, m, Pass(m, listing[1..], limit, mode, faults, next, lib).0, lib);
      }
    }
  }

  lemma SameIsSafe(d: Disk, lib: Library)
    ensures SafeReduction(d, d, lib)
  {
  }

  // ----- the whole pass

  /** The identifiers of a listing, without the entries that could not be read. */
  function Ids(listing: Listing): (ids: seq<Id>)
    ensures |ids| <= |listing|
  {
    if listing == [] then []
    else if listing[0].Some? then [listing[0].value] + Ids(listing[1..])
    else Ids(listing[1..])
  }

  predicate Distinct(ids: seq<Id>) {
    forall i, j :: 0 <= i < j < |ids| ==> ids[i] != ids[j]
  }

  /** The listing holds every record once, whatever else it holds. */
  ghost predicate Lists(d: Disk, listing: Listing) {
    Distinct(Ids(listing)) && forall id :: id in Ids(listing) <==> id in d.markers
  }

  /** What a complete pass over `ids` makes of a disk. */
  ghost predicate Mended(d: Disk, t: Disk, ids: seq<Id>, lib: Library) {
    && (forall id :: MarkerOf(t, id) == if id in ids then MarkerAfter(d, id, lib) else MarkerOf(d, id))
    && (forall name ::
        name in t.files <==> name in d.files && forall id :: id in ids ==> !Leftover(d, id, name, lib))
    && (forall name :: name in t.files ==> t.files[name] == d.files[name])
  }

  /**
   * Whatever the order of the listing, and whatever else is in it, the result is the same; records that do not parse
   * and files that are not as recorded stay.
   */
  lemma {:induction false} PassMeaning(d: Disk, listing: Listing, limit: nat, report: Report, lib: Library)
    requires OrphansApart(d, lib) && Distinct(Ids(listing)) && report.scanned + |listing| <= limit
    ensures Mended(d, Pass(d, listing, limit, Apply, map[], report, lib).0, Ids(listing), lib)
    decreases |listing|
  {
    hide OrphansApart, Inspect, Leftover, MarkerAfter, MendPart;
    if listing != [] {
      var rest := listing[1..];
      var counted := report.(scanned := report.scanned + 1);
      if listing[0].None? {
        PassMeaning(d, rest, limit, Tally(counted, Unreadable, Apply, true), lib);
      } else {
        var id := listing[0].value;
        MendKeepsApart(d, id, ALL, lib);
        DistinctRest(listing);
        PassMeaning(Mend(d, id, lib), rest, limit, Tally(counted, Inspect(d, id, lib), Apply, true), lib);
        MendedExtends(d, id, Pass(d, listing, limit, Apply, map[], report, lib).0, Ids(rest), lib);
      }
    }
  }

  lemma DistinctRest(listing: Listing)
    requires listing != [] && listing[0].Some? && Distinct(Ids(listing))
    ensures var id, rest := listing[0].value, Ids(listing[1..]);
      Ids(listing) == [id] + rest && id !in rest && Distinct(rest)
  {
    var ids := Ids(listing);
    assert ids[0] == listing[0].value && ids[1..] == Ids(listing[1..]);
    assert forall id :: id in ids[1..] ==> id != ids[0];
  }

  /** One record mended and then the others are all of them mended. */
  lemma MendedExtends(d: Disk, id: Id, u: Disk, rest: seq<Id>, lib: Library)
    requires OrphansApart(d, lib) && id !in rest && Mended(Mend(d, id, lib), u, rest, lib)
    ensures Mended(d, u, [id] + rest, lib)
  {
    hide OrphansApart, Inspect, Leftover, MarkerAfter, MendPart, MarkerOf;
    var t := Mend(d, id, lib);
    MendMeaning(d, id, lib);
    assert forall j :: j in [id] + rest <==> j == id || j in rest;
    forall j | j in rest ensures MarkerAfter(t, j, lib) == MarkerAfter(d, j, lib) {
      MendIsLocal(d, id, ALL, j, lib);
    }
    forall j, name | j in rest ensures Leftover(t, j, name, lib) == Leftover(d, j, name, lib) {
      LeftoverLocal(d, id, j, name, lib);
    }
  }

  lemma LeftoverLocal(d: Disk, id: Id, j: Id, name: Name, lib: Library)
    requires OrphansApart(d, lib) && j != id
    ensures Leftover(Mend(d, id, lib), j, name, lib) == Leftover(d, j, name, lib)
  {
    hide OrphansApart, Inspect, MarkerAfter, MendPart;
    MendIsLocal(d, id, ALL, j, lib);
  }

  /** However its repairs fail, a pass leaves a consistent disk. */
  lemma {:induction false} PassKeeps(d: Disk, listing: Listing, limit: nat, mode: Mode, faults: Faults, report: Report,
    lib: Library)
    requires Consistent(d, lib)
    ensures Consistent(Pass(d, listing, limit, mode, faults, report, lib).0, lib)
    decreases |listing|
  {
    hide Consistent, Inspect, MendPart;
    if listing != [] && report.scanned < limit {
      var counted := report.(scanned := report.scanned + 1);
      if listing[0].None? {
        PassKeeps(d, listing[1..], limit, mode, faults, Tally(counted, Unreadable, mode, true), lib);
      } else {
        var id := listing[0].value;
        MendKeeps(d, id, Reach(id, faults), lib);
        PassKeeps(if mode == Apply then MendPart(d, id, Reach(id, faults), lib) else d, listing[1..], limit, mode,
          faults, Tally(counted, Inspect(d, id, lib), mode, id !in faults), lib);
      }
    }
  }

  /** A pass accounts for every entry: healthy, repaired, or skipped. */
  lemma {:induction false} PassCounts(d: Disk, listing: Listing, limit: nat, faults: Faults, report: Report,
    lib: Library)
    requires report.scanned == report.healthy + report.repaired + report.skipped && report.scanned <= limit
    ensures var r := Pass(d, listing, limit, Apply, faults, report, lib).1;
      && r.scanned == r.healthy + r.repaired + r.skipped
      && r.scanLimitReached == (report.scanLimitReached || report.scanned + |listing| > limit)
    decreases |listing|
  {
    hide Inspect, MendPart;
    if listing != [] && report.scanned < limit {
      var counted := report.(scanned := report.scanned + 1);
      if listing[0].None? {
        PassCounts(d, listing[1..], limit, faults, Tally(counted, Unreadable, Apply, true), lib);
      } else {
        var id := listing[0].value;
        PassCounts(MendPart(d, id, Reach(id, faults), lib), listing[1..], limit, faults,
          Tally(counted, Inspect(d, id, lib), Apply, id !in faults), lib);
      }
    }
  }

  /** How many of these records are found so. */
  function Number(d: Disk, ids: seq<Id>, what: (Id, Finding) -> bool, lib: Library): nat {
    if ids == [] then 0
    else (if what(ids[0], Inspect(d, ids[0], lib)) then 1 else 0) + Number(d, ids[1..], what, lib)
  }

  lemma {:induction false} NumberSame(d: Disk, t: Disk, ids: seq<Id>, what: (Id, Finding) -> bool, lib: Library)
    requires forall id :: id in ids ==> Inspect(t, id, lib) == Inspect(d, id, lib)
    ensures Number(t, ids, what, lib) == Number(d, ids, what, lib)
  {
    hide Inspect;
    if ids != [] {
      NumberSame(d, t, ids[1..], what, lib);
    }
  }

  /** What a report counts, by the disk as the pass found it. */
  predicate Reports(report: Report, before: Report, d: Disk, ids: seq<Id>, entries: nat, mode: Mode, faults: Faults,
    lib: Library)
  {
    var healthy := Number(d, ids, (id, f) => f == Healthy, lib);
    var repaired := Number(d, ids, (id: Id, f) => mode == Apply && Due(f) && id !in faults, lib);
    var unrepaired := Number(d, ids, (id: Id, f) => mode == Audit && Due(f), lib);
    && report.scanned == before.scanned + entries
    && report.healthy == before.healthy + healthy
    && report.orphanedRecords == before.orphanedRecords + Number(d, ids, (id, f: Finding) => f.Orphan?, lib)
    && report.missingSidecars == before.missingSidecars + Number(d, ids, (id, f) => f == SidecarGone, lib)
    && report.repaired == before.repaired + repaired
    && report.skipped + healthy + repaired + unrepaired == before.skipped + entries
    && report.scanLimitReached == before.scanLimitReached
  }

  /** A complete pass reports what stood on the disk before it, however many of its repairs fail. */
  lemma {:induction false} PassReports(d: Disk, listing: Listing, limit: nat, mode: Mode, faults: Faults,
    report: Report, lib: Library)
    requires OrphansApart(d, lib) && Distinct(Ids(listing)) && report.scanned + |listing| <= limit
    ensures Reports(Pass(d, listing, limit, mode, faults, report, lib).1, report, d, Ids(listing), |listing|, mode,
      faults, lib)
    decreases |listing|
  {
    hide OrphansApart, Inspect, MendPart, Number, Due, Reports;
    if listing == [] {
      ReportsNothing(report, d, mode, faults, lib);
    } else {
      var rest := listing[1..];
      var counted := report.(scanned := report.scanned + 1);
      if listing[0].None? {
        var next := Tally(counted, Unreadable, mode, true);
        PassReports(d, rest, limit, mode, faults, next, lib);
        ReportsUnread(Pass(d, rest, limit, mode, faults, next, lib).1, report, d, Ids(rest), |rest|, mode, faults, lib);
      } else {
        var id := listing[0].value;
        var t := if mode == Apply then MendPart(d, id, Reach(id, faults), lib) else d;
        var next := Tally(counted, Inspect(d, id, lib), mode, id !in faults);
        DistinctRest(listing);
        MendKeepsApart(d, id, Reach(id, faults), lib);
        forall j | j in Ids(rest) ensures Inspect(t, j, lib) == Inspect(d, j, lib) {
          MendIsLocal(d, id, Reach(id, faults), j, lib);
        }
        PassReports(t, rest, limit, mode, faults, next, lib);
        ReportsFirst(Pass(t, rest, limit, mode, faults, next, lib).1, report, d, t, id, Ids(rest), |rest|, mode, faults,
          lib);
      }
    }
  }

  lemma ReportsNothing(report: Report, d: Disk, mode: Mode, faults: Faults, lib: Library)
    ensures Reports(report, report, d, [], 0, mode, faults, lib)
  {
  }

  lemma ReportsUnread(last: Report, report: Report, d: Disk, ids: seq<Id>, entries: nat, mode: Mode, faults: Faults,
    lib: Library)
    requires Reports(last, Tally(report.(scanned := report.scanned + 1), Unreadable, mode, true), d, ids, entries, mode,
      faults, lib)
    ensures Reports(last, report, d, ids, entries + 1, mode, faults, lib)
  {
    hide Number;
  }

  lemma ReportsFirst(last: Report, report: Report, d: Disk, t: Disk, id: Id, rest: seq<Id>, entries: nat, mode: Mode,
    faults: Faults, lib: Library)
    requires forall j :: j in rest ==> Inspect(t, j, lib) == Inspect(d, j, lib)
    requires Reports(last, Tally(report.(scanned := report.scanned + 1), Inspect(d, id, lib), mode, id !in faults), t,
      rest, entries, mode, faults, lib)
    ensures Reports(last, report, d, [id] + rest, entries + 1, mode, faults, lib)
  {
    hide Inspect;
    assert ([id] + rest)[1..] == rest;
    NumberSame(d, t, rest, (id, f) => f == Healthy, lib);
    NumberSame(d, t, rest, (id: Id, f) => mode == Apply && Due(f) && id !in faults, lib);
    NumberSame(d, t, rest, (id: Id, f) => mode == Audit && Due(f), lib);
    NumberSame(d, t, rest, (id, f: Finding) => f.Orphan?, lib);
    NumberSame(d, t, rest, (id, f) => f == SidecarGone, lib);
  }

  /** What was found, whatever was done about it. */
  predicate SameFindings(a: Report, b: Report) {
    && a.scanned == b.scanned && a.healthy == b.healthy && a.orphanedRecords == b.orphanedRecords
    && a.missingSidecars == b.missingSidecars && a.scanLimitReached == b.scanLimitReached
  }

  /** Two disks on which these records look the same. */
  ghost predicate LookAlike(d: Disk, e: Disk, ids: seq<Id>, lib: Library) {
    forall id :: id in ids ==> Inspect(e, id, lib) == Inspect(d, id, lib)
  }

  /** An audit changes nothing, and finds what a repairing pass over the same listing finds, however that one fails. */
  lemma {:induction false} AuditPredicts(d: Disk, e: Disk, listing: Listing, limit: nat, faults: Faults, audit: Report,
    report: Report, lib: Library)
    requires OrphansApart(e, lib) && Distinct(Ids(listing)) && SameFindings(audit, report)
    requires LookAlike(d, e, Ids(listing), lib)
    ensures Pass(d, listing, limit, Audit, map[], audit, lib).0 == d
    ensures SameFindings(Pass(d, listing, limit, Audit, map[], audit, lib).1,
      Pass(e, listing, limit, Apply, faults, report, lib).1)
    decreases |listing|
  {
    hide OrphansApart, Inspect, MendPart, MarkerAfter, Leftover;
    if listing != [] && report.scanned < limit {
      var rest := listing[1..];
      var counted, applied := audit.(scanned := audit.scanned + 1), report.(scanned := report.scanned + 1);
      if listing[0].None? {
        AuditPredicts(d, e, rest, limit, faults, Tally(counted, Unreadable, Audit, true),
          Tally(applied, Unreadable, Apply, true), lib);
      } else {
        var id := listing[0].value;
        var t := MendPart(e, id, Reach(id, faults), lib);
        DistinctRest(listing);
        MendKeepsApart(e, id, Reach(id, faults), lib);
        forall j | j in Ids(rest) ensures Inspect(t, j, lib) == Inspect(d, j, lib) {
          assert j in Ids(listing) && j != id;
          MendIsLocal(e, id, Reach(id, faults), j, lib);
        }
        AuditPredicts(d, t, rest, limit, faults, Tally(counted, Inspect(d, id, lib), Audit, true),
          Tally(applied, Inspect(e, id, lib), Apply, id !in faults), lib);
      }
    }
  }

  predicate AllHealthy(d: Disk, lib: Library) {
    forall id :: id in d.markers ==> Inspect(d, id, lib) == Healthy
  }

  /** A repair would change this record. */
  predicate Due(finding: Finding) {
    finding == SidecarGone || (finding.Orphan? && finding.sidecar != InvalidSidecar)
  }

  predicate NothingDue(d: Disk, lib: Library) {
    forall id :: id in d.markers ==> !Due(Inspect(d, id, lib))
  }

  /** Files that no pass takes away look the same after it. */
  lemma OwnFilesStay(d: Disk, t: Disk, ids: seq<Id>, id: Id, name: Name, lib: Library)
    requires OrphansApart(d, lib) && Mended(d, t, ids, lib) && MarkerAfter(d, id, lib).Some?
    requires ReadCandidate(d, id).Some? && FileOf(ReadCandidate(d, id).value, name)
    ensures StateOf(t, name) == StateOf(d, name)
  {
    hide OrphansApart, Inspect, MarkerAfter;
    forall j | j in ids ensures !Leftover(d, j, name, lib) {
      if j == id {
        OwnIsNoLeftover(d, id, name, lib);
      } else {
        LeftoverAlone(d, j, id, name, lib);
      }
    }
  }

  lemma OwnIsNoLeftover(d: Disk, id: Id, name: Name, lib: Library)
    requires MarkerAfter(d, id, lib).Some?
    ensures !Leftover(d, id, name, lib)
  {
  }

  /** What a complete pass leaves of a record: one without its sidecar is healthy, any other looks as before. */
  lemma SettledRecord(d: Disk, t: Disk, ids: seq<Id>, id: Id, lib: Library)
    requires OrphansApart(d, lib) && Mended(d, t, ids, lib) && id in ids && id in t.markers
    ensures id in d.markers && Inspect(t, id, lib) ==
      if Inspect(d, id, lib) == SidecarGone then Healthy else Inspect(d, id, lib)
    ensures !Due(Inspect(t, id, lib))
  {
    hide OrphansApart, Mended, Leftover;
    assert MarkerOf(t, id) == MarkerAfter(d, id, lib) by {
      MendedAt(d, t, ids, id, lib);
    }
    if ReadCandidate(d, id).Some? {
      var r := ReadCandidate(d, id).value;
      OwnFilesStay(d, t, ids, id, r.name, lib);
      if r.sidecar.Some? {
        OwnFilesStay(d, t, ids, id, r.sidecar.value.name, lib);
      }
    }
  }

  lemma MendedAt(d: Disk, t: Disk, ids: seq<Id>, id: Id, lib: Library)
    requires Mended(d, t, ids, lib)
    ensures MarkerOf(t, id) == if id in ids then MarkerAfter(d, id, lib) else MarkerOf(d, id)
  {
  }

  lemma MendNothing(d: Disk, id: Id, n: nat, lib: Library)
    requires !Due(Inspect(d, id, lib))
    ensures MendPart(d, id, n, lib) == d
  {
  }

  lemma Unlisted(d: Disk, id: Id, lib: Library)
    ensures id !in d.markers ==> Inspect(d, id, lib) == Unreadable
  {
  }

  /** A pass with nothing due repairs nothing. */
  lemma {:induction false} PassOverNothing(d: Disk, listing: Listing, limit: nat, faults: Faults, report: Report,
    lib: Library)
    requires NothingDue(d, lib)
    ensures var (t, r) := Pass(d, listing, limit, Apply, faults, report, lib); t == d && r.repaired == report.repaired
    decreases |listing|
  {
    hide Inspect, MendPart;
    if listing != [] && report.scanned < limit {
      var counted := report.(scanned := report.scanned + 1);
      if listing[0].None? {
        PassOverNothing(d, listing[1..], limit, faults, Tally(counted, Unreadable, Apply, true), lib);
      } else {
        var id := listing[0].value;
        Unlisted(d, id, lib);
        MendNothing(d, id, Reach(id, faults), lib);
        PassOverNothing(d, listing[1..], limit, faults, Tally(counted, Inspect(d, id, lib), Apply, id !in faults), lib);
      }
    }
  }

  /** Damaged records and files or not: after one complete pass nothing is due, and no later pass repairs anything. */
  lemma OneRepairIsEnough(d: Disk, listing: Listing, limit: nat, again: Listing, bound: nat, faults: Faults,
    lib: Library)
    requires OrphansApart(d, lib) && Lists(d, listing) && |listing| <= limit
    ensures var t := Pass(d, listing, limit, Apply, map[], NOTHING, lib).0;
      && NothingDue(t, lib)
      && Pass(t, again, bound, Apply, faults, NOTHING, lib).0 == t
      && Pass(t, again, bound, Apply, faults, NOTHING, lib).1.repaired == 0
  {
    hide OrphansApart, Mended, Pass, Inspect, Due, MarkerAfter;
    PassMeaning(d, listing, limit, NOTHING, lib);
    var t := Pass(d, listing, limit, Apply, map[], NOTHING, lib).0;
    forall id | id in t.markers ensures !Due(Inspect(t, id, lib)) {
      MendedAt(d, t, Ids(listing), id, lib);
      SettledRecord(d, t, Ids(listing), id, lib);
    }
    PassOverNothing(t, again, bound, faults, NOTHING, lib);
  }

  /** After one complete pass every record left has its artifact, and its sidecar if it names one. */
  lemma RecoveredOnce(d: Disk, listing: Listing, limit: nat, lib: Library)
    requires Consistent(d, lib) && Lists(d, listing) && |listing| <= limit
    ensures AllHealthy(Pass(d, listing, limit, Apply, map[], NOTHING, lib).0, lib)
  {
    hide Consistent, OrphansApart, Mended, Pass, Inspect, Due, MarkerAfter;
    ConsistentIsApart(d, lib);
    PassMeaning(d, listing, limit, NOTHING, lib);
    var t := Pass(d, listing, limit, Apply, map[], NOTHING, lib).0;
    forall id | id in t.markers ensures Inspect(t, id, lib) == Healthy {
      MendedAt(d, t, Ids(listing), id, lib);
      SettledRecord(d, t, Ids(listing), id, lib);
      NeverDamaged(d, id, lib);
    }
  }

  /** On a consistent disk every record is healthy or due. */
  lemma NeverDamaged(d: Disk, id: Id, lib: Library)
    requires Consistent(d, lib) && id in d.markers
    ensures Inspect(d, id, lib) == Healthy || Due(Inspect(d, id, lib))
  {
    SoundAt(d, id, lib);
  }

  /** A pass over healthy records repairs nothing and changes nothing; what it skips are the unreadable entries. */
  lemma {:induction false} PassOverHealthy(d: Disk, listing: Listing, limit: nat, report: Report, lib: Library)
    requires AllHealthy(d, lib) && (forall id :: id in Ids(listing) ==> id in d.markers)
    requires report.scanned + |listing| <= limit
    ensures Pass(d, listing, limit, Apply, map[], report, lib) ==
      (d, report.(scanned := report.scanned + |listing|, healthy := report.healthy + |Ids(listing)|,
        skipped := report.skipped + |listing| - |Ids(listing)|))
    decreases |listing|
  {
    hide Inspect, MendPart;
    if listing != [] {
      var counted := report.(scanned := report.scanned + 1);
      if listing[0].None? {
        PassOverHealthy(d, listing[1..], limit, counted.(skipped := counted.skipped + 1), lib);
      } else {
        assert Ids(listing)[0] == listing[0].value && Ids(listing)[1..] == Ids(listing[1..]);
        assert Inspect(d, listing[0].value, lib) == Healthy;
        MendNothing(d, listing[0].value, ALL, lib);
        PassOverHealthy(d, listing[1..], limit, counted.(healthy := counted.healthy + 1), lib);
      }
    }
  }

  /**
   * From every disk that any run can leave, crashes included, and after any pass that failed in any way: one complete
   * repair leaves only healthy records, and a second finds nothing to do. Entries that cannot be read, such as
   * temporary files left by a crash, are skipped by both.
   */
  lemma Recovery(w: World, events: seq<Event>, earlier: Listing, bound: nat, faults: Faults, listing: Listing,
    again: Listing, limit: nat, lib: Library)
    requires Invariant(w, lib) && Runs(w, events, lib) && NewNames(w, events, lib)
    requires |listing| <= limit && |again| <= limit
    requires var d := Pass(After(w, events, lib).disk, earlier, bound, Apply, faults, NOTHING, lib).0;
      Lists(d, listing) && Lists(Pass(d, listing, limit, Apply, map[], NOTHING, lib).0, again)
    ensures var d := Pass(After(w, events, lib).disk, earlier, bound, Apply, faults, NOTHING, lib).0;
      var t := Pass(d, listing, limit, Apply, map[], NOTHING, lib).0;
      && AllHealthy(t, lib) && Consistent(t, lib)
      && Pass(t, again, limit, Apply, map[], NOTHING, lib)
        == (t, Report(|again|, |Ids(again)|, 0, 0, 0, |again| - |Ids(again)|, false))
  {
    hide Consistent, Underway, Careful, AllHealthy, Pass, Runs, NewNames, After;
    RunKeeps(w, events, lib);
    var start := After(w, events, lib).disk;
    PassKeeps(start, earlier, bound, Apply, faults, NOTHING, lib);
    var d := Pass(start, earlier, bound, Apply, faults, NOTHING, lib).0;
    RecoveredOnce(d, listing, limit, lib);
    PassKeeps(d, listing, limit, Apply, map[], NOTHING, lib);
    PassOverHealthy(Pass(d, listing, limit, Apply, map[], NOTHING, lib).0, again, limit, NOTHING, lib);
  }

  /** The writes that a repair plans, all done, are the mending of the record. */
  lemma PlanMends(w: World, id: Id, lib: Library)
    requires w.progress == Idle && ReadCandidate(w.disk, id).Some?
    ensures var begun := Next(w, Repair(id), lib);
      var done := AdvanceWith(AdvanceWith(begun, Done, lib), Done, lib);
      done.progress == Idle && done.disk == Mend(w.disk, id, lib)
  {
  }

  // ----- names used again

  /** A finished publication leaves the disk consistent exactly when no record spoke of its name before. */
  lemma PublishConsistentIff(d: Disk, r: Record, content: Bytes, lib: Library)
    requires Consistent(d, lib) && Publishable(d, r, content, lib)
    ensures Consistent(PutMarker(PutFile(d, r.name, content), r), lib) <==> Unclaimed(d, r.name)
  {
    var t := PutMarker(PutFile(d, r.name, content), r);
    if Unclaimed(d, r.name) {
      PutFileKeeps(d, r.name, content, lib);
      PutMarkerKeeps(PutFile(d, r.name, content), r, lib);
    } else {
      var id :| id in d.markers && d.markers[id].Parsed? && (d.markers[id].record.name == r.name ||
        (d.markers[id].record.sidecar.Some? && d.markers[id].record.sidecar.value.name == r.name));
      SoundAt(d, id, lib);
      assert t.markers[id] == d.markers[id] && t.markers[r.id] == Parsed(r);
      assert d.markers[id].record.name == r.name;
      assert !Apart(t);
    }
  }

  /** Once every record is healthy, a name not in use is spoken of by no record. */
  lemma RepairedFreesNames(d: Disk, name: Name, lib: Library)
    requires AllHealthy(d, lib) && name !in d.files
    ensures Unclaimed(d, name)
  {
    forall id | id in d.markers && d.markers[id].Parsed?
      ensures d.markers[id].record.name != name
      ensures d.markers[id].record.sidecar.Some? ==> d.markers[id].record.sidecar.value.name != name
    {
      assert Inspect(d, id, lib) == Healthy;
    }
  }
}
