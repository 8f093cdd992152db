/** The artifact root as a map of files beside a map of ownership records, changed by one write at a time. */
module ArtifactStores {
  import opened Wrappers

  type Id = nat

  type Bytes = seq<int>

  type Digest = seq<int>

  /**
   * A file below the root. Images and sidecars never share a name: an image keeps an image extension, and the sidecar
   * of artifact `id` is `metadata-<id>.json` in the artifact's own directory.
   */
  datatype Name = ImageName(directory: string, filename: string) | SidecarName(directory: string, id: Id)

  /** A regular file, or anything else in the way: a directory, a link, a path through a file. */
  datatype Node = File(content: Bytes) | Blocked

  datatype Reference = Reference(name: Name, digest: Digest)

  datatype Record = Record(id: Id, name: Name, createdAt: nat, digest: Digest, sidecar: Option<Reference>)

  /** What stands in an ownership file: a record, or something that does not parse as one. */
  datatype Marker = Parsed(record: Record) | Malformed

  datatype Disk = Disk(files: map<Name, Node>, markers: map<Id, Marker>)

  const MAX_SIDECAR_BYTES := 1024 * 1024

  /** The hash function, the image inspection with its limits, and the JSON parser. */
  datatype Library = Library(digest: Bytes -> Digest, isImage: Bytes -> bool, isObject: Bytes -> bool)

  datatype PathState = Missing | Regular(content: Bytes) | Invalid

  datatype SidecarState = NoSidecar | MissingSidecar | ValidSidecar | InvalidSidecar

  function StateOf(d: Disk, name: Name): PathState {
    if name !in d.files then Missing
    else match d.files[name]
      case File(content) => Regular(content)
      case Blocked => Invalid
  }

  /** The record of a marker, when it parses and is the one its file name says. */
  function ReadCandidate(d: Disk, id: Id): Option<Record> {
    if id in d.markers && d.markers[id].Parsed? && d.markers[id].record.id == id
    then Some(d.markers[id].record)
    else None
  }

  predicate ArtifactValid(d: Disk, r: Record, lib: Library) {
    match StateOf(d, r.name)
    case Regular(content) => lib.digest(content) == r.digest && lib.isImage(content)
    case _ => false
  }

  predicate AcceptableSidecar(content: Bytes, lib: Library) {
    0 < |content| <= MAX_SIDECAR_BYTES && lib.isObject(content)
  }

  function SidecarOf(d: Disk, r: Record, lib: Library): SidecarState {
    match r.sidecar
    case None => NoSidecar
    case Some(reference) =>
      match StateOf(d, reference.name)
      case Missing => MissingSidecar
      case Invalid => InvalidSidecar
      case Regular(content) =>
        if |content| <= MAX_SIDECAR_BYTES && lib.digest(content) == reference.digest && lib.isObject(content)
        then ValidSidecar
        else InvalidSidecar
  }

  /** The artifact is whole, and so is its sidecar if it has one. */
  predicate Verified(d: Disk, r: Record, lib: Library) {
    ArtifactValid(d, r, lib) && SidecarOf(d, r, lib) in {NoSidecar, ValidSidecar}
  }

  // ----- single writes

  function PutFile(d: Disk, name: Name, content: Bytes): Disk {
    d.(files := d.files[name := File(content)])
  }

  function DropFile(d: Disk, name: Name): Disk {
    d.(files := d.files - {name})
  }

  function PutMarker(d: Disk, r: Record): Disk {
    d.(markers := d.markers[r.id := Parsed(r)])
  }

  function DropMarker(d: Disk, id: Id): Disk {
    d.(markers := d.markers - {id})
  }

  // ----- the operations, one write at a time

  /** Where an operation stands: the write it makes next. */
  datatype Progress =
    | Idle
    | WriteArtifact(record: Record, content: Bytes)
    | WriteRecord(record: Record)
    | Retract(name: Name)
    | WriteSidecar(record: Record, content: Bytes)
    | WriteReference(record: Record)
    | RemoveSidecar(record: Record)
    | RemoveArtifact(record: Record)
    | RemoveRecord(record: Record)
    | RemoveOrphanSidecar(record: Record)

  /** A write happens, or fails, or happens and then its directory cannot be synced. */
  datatype Verdict = Done | Failed | Unsynced

  /**
   * `base` is the disk the operation under way found; `used` are the identifiers ever given out, and `stopped` those
   * whose attachment ever stopped after its first write, with neither its second nor its undoing.
   */
  datatype World = World(disk: Disk, progress: Progress, base: Disk, used: set<Id>, stopped: set<Id>) {
    function Start(progress: Progress): World {
      this.(progress := progress, base := disk)
    }

    function Write(disk: Disk, progress: Progress): World {
      this.(disk := disk, progress := progress)
    }
  }

  datatype Event =
    | Publish(record: Record, content: Bytes)
    | Attach(id: Id, content: Bytes)
    | Remove(id: Id)
    | Repair(id: Id)
    | Advance(verdict: Verdict)
    | Crash

  /** The sidecar name and digest that a record gets. */
  function Referring(r: Record, content: Bytes, lib: Library): Record {
    r.(sidecar := Some(Reference(SidecarName(r.name.directory, r.id), lib.digest(content))))
  }

  /** No record speaks of this file. */
  ghost predicate Unclaimed(d: Disk, name: Name) {
    forall id :: id in d.markers && d.markers[id].Parsed? ==>
      var r := d.markers[id].record; r.name != name && (r.sidecar.Some? ==> r.sidecar.value.name != name)
  }

  /** What a publication starts from: a verified image, a new identifier, and a name nobody has. */
  predicate Publishable(d: Disk, r: Record, content: Bytes, lib: Library) {
    && r.name.ImageName? && r.sidecar == None && r.digest == lib.digest(content) && lib.isImage(content)
    && r.id !in d.markers && r.name !in d.files
  }

  predicate Attachable(d: Disk, id: Id, content: Bytes, lib: Library) {
    && AcceptableSidecar(content, lib)
    && match ReadCandidate(d, id)
      case None => false
      case Some(r) =>
        r.sidecar == None && Verified(d, r, lib) && SidecarName(r.name.directory, id) !in d.files
  }

  /** The first write of a repair, if one is due. */
  function RepairPlan(d: Disk, r: Record, lib: Library): Progress {
    if ArtifactValid(d, r, lib) then
      if SidecarOf(d, r, lib) == MissingSidecar then WriteReference(r.(sidecar := None)) else Idle
    else if StateOf(d, r.name) != Missing then Idle
    else match SidecarOf(d, r, lib)
      case InvalidSidecar => Idle
      case ValidSidecar => RemoveOrphanSidecar(r)
      case _ => RemoveRecord(r)
  }

  predicate Enabled(w: World, event: Event, lib: Library) {
    match event
    case Publish(r, content) => w.progress == Idle && Publishable(w.disk, r, content, lib) && r.id !in w.used
    case Attach(id, content) => w.progress == Idle && Attachable(w.disk, id, content, lib)
    case Remove(id) =>
      w.progress == Idle && ReadCandidate(w.disk, id).Some? && Verified(w.disk, ReadCandidate(w.disk, id).value, lib)
    case Repair(id) => w.progress == Idle && ReadCandidate(w.disk, id).Some?
    case Advance(_) => w.progress != Idle
    case Crash => true
  }

  function AdvanceWith(w: World, verdict: Verdict, lib: Library): World {
    var d := w.disk;
    match w.progress
    case Idle => w.Write(d, Idle)
    case WriteArtifact(r, content) =>
      (match verdict
       case Done => w.Write(PutFile(d, r.name, content), WriteRecord(r))
       case Failed => w.Write(d, Idle)
       case Unsynced => w.Write(PutFile(d, r.name, content), Retract(r.name)))
    case WriteRecord(r) =>
      (match verdict
       case Done => w.Write(PutMarker(d, r), Idle)
       case Failed => w.Write(d, Retract(r.name))
       case Unsynced => w.Write(PutMarker(d, r), Retract(r.name)))
    case Retract(name) => w.Write(if verdict == Failed then d else DropFile(d, name), Idle)
    case WriteSidecar(r, content) =>
      var name := SidecarName(r.name.directory, r.id);
      (match verdict
       case Done => w.Write(PutFile(d, name, content), WriteReference(Referring(r, content, lib)))
       case Failed => w.Write(d, Idle)
       case Unsynced => w.Write(PutFile(d, name, content), Idle))
    case WriteReference(r) =>
      var undo := if r.sidecar.Some? then Retract(r.sidecar.value.name) else Idle;
      (match verdict
       case Done => w.Write(PutMarker(d, r), Idle)
       case Failed => w.Write(d, undo)
       case Unsynced => w.Write(PutMarker(d, r), undo))
    case RemoveSidecar(r) =>
      if verdict == Failed then w.Write(d, Idle)
      else w.Write(if r.sidecar.Some? then DropFile(d, r.sidecar.value.name) else d, RemoveArtifact(r))
    case RemoveArtifact(r) =>
      if verdict == Failed then w.Write(d, Idle) else w.Write(DropFile(d, r.name), RemoveRecord(r))
    case RemoveRecord(r) =>
      if verdict == Failed then w.Write(d, Idle) else w.Write(DropMarker(d, r.id), Idle)
    case RemoveOrphanSidecar(r) =>
      if verdict == Failed then w.Write(d, Idle)
      else w.Write(if r.sidecar.Some? then DropFile(d, r.sidecar.value.name) else d,
        if verdict == Unsynced then Idle else RemoveRecord(r))
  }

  /** The attachment that this event stops between its first write and either its second or its undoing. */
  function Stops(w: World, event: Event): set<Id> {
    match w.progress
    case WriteSidecar(r, _) => if event == Advance(Unsynced) then {r.id} else {}
    case WriteReference(r) => if event == Crash && r.sidecar.Some? then {r.id} else {}
    case Retract(SidecarName(_, id)) =>
      if (event == Crash || event == Advance(Failed)) && ReadCandidate(w.disk, id).Some?
        && ReadCandidate(w.disk, id).value.sidecar == None
      then {id}
      else {}
    case _ => {}
  }

  function Next(w: World, event: Event, lib: Library): World {
    Move(w, event, lib).(stopped := w.stopped + Stops(w, event))
  }

  function Move(w: World, event: Event, lib: Library): World {
    match event
    case Publish(r, content) => w.Start(WriteArtifact(r, content)).(used := w.used + {r.id})
    case Attach(id, content) =>
      if ReadCandidate(w.disk, id).None? then w
      else w.Start(WriteSidecar(ReadCandidate(w.disk, id).value, content))
    case Remove(id) =>
      if ReadCandidate(w.disk, id).None? then w
      else
        var r := ReadCandidate(w.disk, id).value;
        w.Start(if r.sidecar.Some? then RemoveSidecar(r) else RemoveArtifact(r))
    case Repair(id) =>
      if ReadCandidate(w.disk, id).None? then w
      else w.Start(RepairPlan(w.disk, ReadCandidate(w.disk, id).value, lib))
    case Advance(verdict) => AdvanceWith(w, verdict, lib)
    case Crash => w.(progress := Idle)
  }

  // ----- consistency

  /** A record speaks of its own files, and each of them is either as recorded or gone. */
  ghost predicate Sound(d: Disk, id: Id, lib: Library)
    requires id in d.markers
  {
    match d.markers[id]
    case Malformed => false
    case Parsed(r) =>
      && r.id == id && r.name.ImageName?
      && (r.sidecar.Some? ==> r.sidecar.value.name == SidecarName(r.name.directory, id))
      && (r.name in d.files ==> ArtifactValid(d, r, lib))
      && SidecarOf(d, r, lib) != InvalidSidecar
  }

  ghost predicate Apart(d: Disk) {
    forall i, j :: i in d.markers && j in d.markers && i != j && d.markers[i].Parsed? && d.markers[j].Parsed? ==>
      d.markers[i].record.name != d.markers[j].record.name
  }

  ghost predicate Consistent(d: Disk, lib: Library) {
    (forall id :: id in d.markers ==> Sound(d, id, lib)) && Apart(d)
  }

  /** A recorded file that is as recorded. */
  ghost predicate Expendable(d: Disk, name: Name, lib: Library) {
    exists id :: id in d.markers && Owns(d, id, name, lib)
  }

  predicate Owns(d: Disk, id: Id, name: Name, lib: Library)
    requires id in d.markers
  {
    match ReadCandidate(d, id)
    case None => false
    case Some(r) =>
      || (r.name == name && ArtifactValid(d, r, lib))
      || (r.sidecar.Some? && r.sidecar.value.name == name && SidecarOf(d, r, lib) == ValidSidecar)
  }

  /** What the write under way may rely on. */
  ghost predicate Underway(w: World, lib: Library) {
    var d := w.disk;
    match w.progress
    case Idle => true
    case WriteArtifact(r, content) =>
      Publishable(d, r, content, lib) && Unclaimed(d, r.name) && r.name !in w.base.files
    case WriteRecord(r) =>
      && r.name.ImageName? && r.sidecar == None && r.id !in d.markers && Unclaimed(d, r.name)
      && ArtifactValid(d, r, lib) && r.name !in w.base.files
    case Retract(name) => name !in w.base.files
    case WriteSidecar(r, content) =>
      && Attachable(d, r.id, content, lib) && ReadCandidate(d, r.id) == Some(r)
      && SidecarName(r.name.directory, r.id) !in w.base.files
    case WriteReference(r) =>
      && ReadCandidate(d, r.id).Some?
      && ReadCandidate(d, r.id).value.(sidecar := None) == r.(sidecar := None)
      && SidecarOf(d, r, lib) in {NoSidecar, ValidSidecar}
      && (r.sidecar.Some? ==>
        r.sidecar.value.name == SidecarName(r.name.directory, r.id) && r.sidecar.value.name !in w.base.files)
    case RemoveSidecar(r) =>
      && ReadCandidate(d, r.id) == Some(r) && r.sidecar.Some?
      && Expendable(w.base, r.sidecar.value.name, lib) && Expendable(w.base, r.name, lib)
    case RemoveArtifact(r) => ReadCandidate(d, r.id) == Some(r) && Expendable(w.base, r.name, lib)
    case RemoveRecord(r) => ReadCandidate(d, r.id) == Some(r)
    case RemoveOrphanSidecar(r) =>
      ReadCandidate(d, r.id) == Some(r) && r.sidecar.Some? && Expendable(w.base, r.sidecar.value.name, lib)
  }

  /** No file the operation found has changed, and none is gone that was not recorded exactly as it was. */
  ghost predicate Careful(w: World, lib: Library) {
    forall name :: name in w.base.files ==>
      if name in w.disk.files then w.disk.files[name] == w.base.files[name] else Expendable(w.base, name, lib)
  }

  ghost predicate Invariant(w: World, lib: Library) {
    Consistent(w.disk, lib) && Underway(w, lib) && Careful(w, lib)
  }

  lemma DropFileKeeps(d: Disk, name: Name, lib: Library)
    requires Consistent(d, lib)
    ensures Consistent(DropFile(d, name), lib)
  {
    var t := DropFile(d, name);
    forall id | id in t.markers ensures Sound(t, id, lib) {
      assert Sound(d, id, lib);
    }
  }

  lemma DropMarkerKeeps(d: Disk, id: Id, lib: Library)
    requires Consistent(d, lib)
    ensures Consistent(DropMarker(d, id), lib)
  {
    var t := DropMarker(d, id);
    forall j | j in t.markers ensures Sound(t, j, lib) {
      assert Sound(d, j, lib);
    }
  }

  lemma PutFileKeeps(d: Disk, name: Name, content: Bytes, lib: Library)
    requires Consistent(d, lib) && Unclaimed(d, name)
    ensures Consistent(PutFile(d, name, content), lib)
    ensures Unclaimed(PutFile(d, name, content), name)
  {
    var t := PutFile(d, name, content);
    forall id | id in t.markers ensures Sound(t, id, lib) {
      assert Sound(d, id, lib);
    }
  }

  /** The sidecar of an artifact that has none is spoken of by no record. */
  lemma SidecarUnclaimed(d: Disk, r: Record, lib: Library)
    requires Consistent(d, lib) && ReadCandidate(d, r.id) == Some(r) && r.sidecar == None
    ensures Unclaimed(d, SidecarName(r.name.directory, r.id))
  {
    forall id | id in d.markers ensures Sound(d, id, lib) {
    }
  }

  lemma PutMarkerKeeps(d: Disk, r: Record, lib: Library)
    requires Consistent(d, lib)
    requires Sound(PutMarker(d, r), r.id, lib)
    requires forall j :: j in d.markers && j != r.id && d.markers[j].Parsed? ==> d.markers[j].record.name != r.name
    ensures Consistent(PutMarker(d, r), lib)
  {
    var t := PutMarker(d, r);
    forall j | j in t.markers ensures Sound(t, j, lib) {
      if j != r.id {
        assert Sound(d, j, lib);
      }
    }
  }

  lemma PublishKeeps(w: World, verdict: Verdict, lib: Library)
    requires Invariant(w, lib) && (w.progress.WriteArtifact? || w.progress.WriteRecord?)
    ensures Invariant(AdvanceWith(w, verdict, lib), lib)
  {
    var r := w.progress.record;
    if w.progress.WriteArtifact? {
      PutFileKeeps(w.disk, r.name, w.progress.content, lib);
    } else if verdict != Failed {
      PutMarkerKeeps(w.disk, r, lib);
    }
  }

  lemma AttachKeeps(w: World, verdict: Verdict, lib: Library)
    requires Invariant(w, lib) && (w.progress.WriteSidecar? || w.progress.WriteReference?)
    ensures Invariant(AdvanceWith(w, verdict, lib), lib)
  {
    var r := w.progress.record;
    assert Sound(w.disk, r.id, lib);
    if w.progress.WriteSidecar? {
      SidecarUnclaimed(w.disk, r, lib);
      PutFileKeeps(w.disk, SidecarName(r.name.directory, r.id), w.progress.content, lib);
    } else if verdict != Failed {
      PutMarkerKeeps(w.disk, r, lib);
    }
  }

  lemma RemoveKeeps(w: World, verdict: Verdict, lib: Library)
    requires Invariant(w, lib) && !w.progress.Idle?
    requires !w.progress.WriteSidecar? && !w.progress.WriteReference?
    requires !w.progress.WriteArtifact? && !w.progress.WriteRecord?
    ensures Invariant(AdvanceWith(w, verdict, lib), lib)
  {
    hide Consistent, Expendable;
    match w.progress
    case Retract(name) => DropFileKeeps(w.disk, name, lib);
    case RemoveSidecar(r) => if r.sidecar.Some? { DropFileKeeps(w.disk, r.sidecar.value.name, lib); }
    case RemoveArtifact(r) => DropFileKeeps(w.disk, r.name, lib);
    case RemoveRecord(r) => DropMarkerKeeps(w.disk, r.id, lib);
    case RemoveOrphanSidecar(r) => if r.sidecar.Some? { DropFileKeeps(w.disk, r.sidecar.value.name, lib); }
  }

  lemma OwnFiles(d: Disk, id: Id, lib: Library)
    requires ReadCandidate(d, id).Some?
    ensures var r := ReadCandidate(d, id).value;
      && (ArtifactValid(d, r, lib) ==> Expendable(d, r.name, lib))
      && (SidecarOf(d, r, lib) == ValidSidecar ==> Expendable(d, r.sidecar.value.name, lib))
  {
    var r := ReadCandidate(d, id).value;
    assert ArtifactValid(d, r, lib) ==> Owns(d, id, r.name, lib);
    assert SidecarOf(d, r, lib) == ValidSidecar ==> Owns(d, id, r.sidecar.value.name, lib);
  }

  /** A publication takes a name that no record speaks of. */
  ghost predicate Unambiguous(w: World, event: Event) {
    event.Publish? ==> Unclaimed(w.disk, event.record.name)
  }

  lemma StepKeeps(w: World, event: Event, lib: Library)
    requires Invariant(w, lib) && Enabled(w, event, lib) && Unambiguous(w, event)
    ensures Invariant(Next(w, event, lib), lib)
  {
    hide Consistent, AdvanceWith, Unclaimed, Stops;
    match event
    case Remove(id) => OwnFiles(w.disk, id, lib);
    case Repair(id) => OwnFiles(w.disk, id, lib);
    case Advance(verdict) =>
      if w.progress.WriteArtifact? || w.progress.WriteRecord? {
        PublishKeeps(w, verdict, lib);
      } else if w.progress.WriteSidecar? || w.progress.WriteReference? {
        AttachKeeps(w, verdict, lib);
      } else {
        RemoveKeeps(w, verdict, lib);
      }
    case _ =>
  }

  // ----- runs

  predicate Runs(w: World, events: seq<Event>, lib: Library)
    decreases |events|
  {
    events == [] || (Enabled(w, events[0], lib) && Runs(Next(w, events[0], lib), events[1..], lib))
  }

  /** Every publication of the run takes a name that no record speaks of, as generated names are. */
  ghost predicate NewNames(w: World, events: seq<Event>, lib: Library)
    decreases |events|
  {
    events == [] || (Unambiguous(w, events[0]) && NewNames(Next(w, events[0], lib), events[1..], lib))
  }

  function After(w: World, events: seq<Event>, lib: Library): World
    decreases |events|
  {
    if events == [] then w else After(Next(w, events[0], lib), events[1..], lib)
  }

  lemma {:induction false} RunKeeps(w: World, events: seq<Event>, lib: Library)
    requires Invariant(w, lib) && Runs(w, events, lib) && NewNames(w, events, lib)
    ensures Consistent(After(w, events, lib).disk, lib) && Underway(After(w, events, lib), lib)
    ensures Careful(After(w, events, lib), lib)
    decreases |events|
  {
    hide Consistent, Underway, Careful, Enabled, Unambiguous, Next;
    if events != [] {
      StepKeeps(w, events[0], lib);
      RunKeeps(Next(w, events[0], lib), events[1..], lib);
    }
  }

  lemma EmptyInvariant(w: World, lib: Library)
    requires w.disk.markers.Keys == {} && w.progress == Idle && w.base == w.disk
    ensures Invariant(w, lib)
  {
  }

  // ----- what a record vouches for

  /** The file is the artifact of this record, byte for byte. */
  predicate IsArtifact(r: Record, name: Name, node: Node, lib: Library) {
    r.name == name && node.File? && lib.digest(node.content) == r.digest && lib.isImage(node.content)
  }

  /** The file is the sidecar of this record, byte for byte: a JSON object of at most a mebibyte. */
  predicate IsSidecar(r: Record, name: Name, node: Node, lib: Library) {
    && r.sidecar.Some? && r.sidecar.value.name == name && node.File?
    && lib.digest(node.content) == r.sidecar.value.digest && lib.isObject(node.content) && |node.content| <= 1048576
  }

  /** Some record of the disk is about exactly this file. */
  ghost predicate Vouched(d: Disk, name: Name, lib: Library) {
    && name in d.files
    && exists id ::
      && id in d.markers && d.markers[id].Parsed? && d.markers[id].record.id == id
      && (IsArtifact(d.markers[id].record, name, d.files[name], lib)
          || IsSidecar(d.markers[id].record, name, d.files[name], lib))
  }

  lemma VouchedBy(d: Disk, id: Id, name: Name, lib: Library)
    requires name in d.files && id in d.markers && d.markers[id].Parsed? && d.markers[id].record.id == id
    requires IsArtifact(d.markers[id].record, name, d.files[name], lib)
      || IsSidecar(d.markers[id].record, name, d.files[name], lib)
    ensures Vouched(d, name, lib)
  {
  }

  lemma ValidIff(d: Disk, r: Record, lib: Library)
    ensures ArtifactValid(d, r, lib) <==> r.name in d.files && IsArtifact(r, r.name, d.files[r.name], lib)
  {
  }

  /** The four states of a sidecar, by what stands under its name. */
  lemma SidecarIff(d: Disk, r: Record, lib: Library)
    ensures var s := SidecarOf(d, r, lib);
      if r.sidecar.None? then s == NoSidecar
      else
        var name := r.sidecar.value.name;
        && (s == MissingSidecar <==> name !in d.files)
        && (s == ValidSidecar <==> name in d.files && IsSidecar(r, name, d.files[name], lib))
        && s != NoSidecar
  {
  }

  lemma ExpendableIsVouched(d: Disk, name: Name, lib: Library)
    ensures Expendable(d, name, lib) <==> Vouched(d, name, lib)
  {
    forall id | id in d.markers && ReadCandidate(d, id).Some?
      ensures Owns(d, id, name, lib) <==>
        name in d.files && (IsArtifact(ReadCandidate(d, id).value, name, d.files[name], lib)
          || IsSidecar(ReadCandidate(d, id).value, name, d.files[name], lib))
    {
      ValidIff(d, ReadCandidate(d, id).value, lib);
      SidecarIff(d, ReadCandidate(d, id).value, lib);
    }
  }

  /** The disk that the operation under way found, `before` being that of the one before the run. */
  function StartDisk(w: World, before: Disk, events: seq<Event>, lib: Library): Disk
    decreases |events|
  {
    if events == [] then before
    else
      StartDisk(Next(w, events[0], lib), if events[0].Advance? || events[0].Crash? then before else w.disk,
        events[1..], lib)
  }

  lemma {:induction false} BaseIsStart(w: World, events: seq<Event>, lib: Library)
    requires Runs(w, events, lib)
    ensures After(w, events, lib).base == StartDisk(w, w.base, events, lib)
    decreases |events|
  {
    hide RepairPlan;
    if events != [] {
      BaseIsStart(Next(w, events[0], lib), events[1..], lib);
    }
  }

  /**
   * From a store without records, with names no record speaks of, whatever is started, fails, or is cut short by a
   * crash: every record speaks of its own files, each of which is as recorded or gone; and no operation has changed a
   * file it found, or removed one that was not, byte for byte, the artifact or the sidecar of a record.
   */
  lemma RecordedFilesAreSafe(w: World, events: seq<Event>, lib: Library)
    requires w.disk.markers.Keys == {} && w.progress == Idle && w.base == w.disk
    requires Runs(w, events, lib) && NewNames(w, events, lib)
    ensures var t := After(w, events, lib).disk; var found := StartDisk(w, w.disk, events, lib);
      && (forall id :: id in t.markers ==>
        && t.markers[id].Parsed? && t.markers[id].record.id == id
        && (var r := t.markers[id].record;
          && (r.name in t.files ==> IsArtifact(r, r.name, t.files[r.name], lib))
          && (r.sidecar.Some? && r.sidecar.value.name in t.files ==>
              IsSidecar(r, r.sidecar.value.name, t.files[r.sidecar.value.name], lib))))
      && (forall name :: name in found.files ==>
        if name in t.files then t.files[name] == found.files[name] else Vouched(found, name, lib))
  {
    hide Runs, NewNames, After, Underway, StartDisk, Vouched, Expendable;
    EmptyInvariant(w, lib);
    RunKeeps(w, events, lib);
    BaseIsStart(w, events, lib);
    var t := After(w, events, lib);
    forall name ensures Expendable(t.base, name, lib) <==> Vouched(t.base, name, lib) {
      ExpendableIsVouched(t.base, name, lib);
    }
    forall id | id in t.disk.markers ensures Sound(t.disk, id, lib) {
      SidecarIff(t.disk, t.disk.markers[id].record, lib);
    }
  }

  // ----- records go last

  /** Nothing of this record's files is left. */
  predicate Bare(r: Record, t: Disk) {
    r.name !in t.files && (r.sidecar.Some? ==> r.sidecar.value.name !in t.files)
  }

  /** The record a removal under way is about, and what it has taken already. */
  predicate Stripped(w: World) {
    var d := w.disk;
    match w.progress
    case RemoveSidecar(r) => ReadCandidate(d, r.id) == Some(r)
    case RemoveOrphanSidecar(r) => ReadCandidate(d, r.id) == Some(r) && r.name !in d.files
    case RemoveArtifact(r) =>
      ReadCandidate(d, r.id) == Some(r) && (r.sidecar.Some? ==> r.sidecar.value.name !in d.files)
    case RemoveRecord(r) => ReadCandidate(d, r.id) == Some(r) && Bare(r, d)
    case _ => true
  }

  lemma {:induction false} RunStrips(w: World, events: seq<Event>, lib: Library)
    requires Stripped(w) && Runs(w, events, lib)
    ensures Stripped(After(w, events, lib))
    decreases |events|
  {
    if events != [] {
      StepStrips(w, events[0], lib);
      RunStrips(Next(w, events[0], lib), events[1..], lib);
    }
  }

  lemma StepStrips(w: World, event: Event, lib: Library)
    requires Stripped(w) && Enabled(w, event, lib)
    ensures Stripped(Next(w, event, lib))
  {
  }

  /**
   * On every run, names used again included, a record goes only when nothing of its files is left; so one whose
   * removal was cut short, or failed at any of its writes, is still there to be repaired.
   */
  lemma RecordsGoLast(w: World, events: seq<Event>, event: Event, lib: Library)
    requires w.progress == Idle && Runs(w, events, lib) && Enabled(After(w, events, lib), event, lib)
    ensures var t := After(w, events, lib); var u := Next(t, event, lib);
      forall id :: id in t.disk.markers && id !in u.disk.markers ==>
        t.disk.markers[id].Parsed? && t.disk.markers[id].record.id == id && Bare(t.disk.markers[id].record, u.disk)
  {
    hide Runs, After, RepairPlan, Enabled;
    RunStrips(w, events, lib);
  }

  /** A removal ends with its first write that fails, an orphan's also with a sidecar that may come back. */
  lemma RemovalEndsIff(w: World, verdict: Verdict, lib: Library)
    requires w.progress.RemoveSidecar? || w.progress.RemoveArtifact? || w.progress.RemoveRecord?
      || w.progress.RemoveOrphanSidecar?
    ensures var t := Next(w, Advance(verdict), lib);
      && (t.disk == w.disk <== verdict == Failed)
      && (t.progress == Idle <==>
          verdict == Failed || w.progress.RemoveRecord? || (w.progress.RemoveOrphanSidecar? && verdict == Unsynced))
  {
  }

  // ----- what a pass may take

  /** A record stays as it is, or loses a reference whose file is gone. */
  predicate SameOrCleared(before: Marker, after: Marker, t: Disk) {
    || after == before
    || (before.Parsed? && before.record.sidecar.Some? && before.record.sidecar.value.name !in t.files
        && after == Parsed(before.record.(sidecar := None)))
  }

  /**
   * Files only go, and only such as are, byte for byte, the artifact or the sidecar of a record; records only go when
   * all of their files have gone.
   */
  ghost predicate SafeReduction(d: Disk, t: Disk, lib: Library) {
    && (forall name :: name in t.files ==> name in d.files && t.files[name] == d.files[name])
    && (forall name :: name in d.files && name !in t.files ==> Vouched(d, name, lib))
    && (forall id :: id in t.markers ==> id in d.markers && SameOrCleared(d.markers[id], t.markers[id], t))
    && (forall id :: id in d.markers && id !in t.markers ==>
        d.markers[id].Parsed? && d.markers[id].record.id == id && Bare(d.markers[id].record, t))
  }

  lemma ReductionChain(d: Disk, m: Disk, t: Disk, lib: Library)
    requires SafeReduction(d, m, lib) && SafeReduction(m, t, lib)
    ensures SafeReduction(d, t, lib)
  {
    hide Vouched, SameOrCleared, Bare;
    forall name | name in m.files && Vouched(m, name, lib) ensures Vouched(d, name, lib) {
      VouchedBefore(d, m, name, lib);
    }
    forall id | id in d.markers
      ensures id in t.markers ==> SameOrCleared(d.markers[id], t.markers[id], t)
      ensures id !in t.markers ==>
        d.markers[id].Parsed? && d.markers[id].record.id == id && Bare(d.markers[id].record, t)
    {
      MarkerChain(d, m, t, id, lib);
    }
  }

  lemma MarkerChain(d: Disk, m: Disk, t: Disk, id: Id, lib: Library)
    requires SafeReduction(d, m, lib) && SafeReduction(m, t, lib) && id in d.markers
    ensures id in t.markers ==> SameOrCleared(d.markers[id], t.markers[id], t)
    ensures id !in t.markers ==>
      d.markers[id].Parsed? && d.markers[id].record.id == id && Bare(d.markers[id].record, t)
  {
    hide Vouched;
    if id in m.markers {
      assert SameOrCleared(d.markers[id], m.markers[id], m);
      if id in t.markers {
        assert SameOrCleared(m.markers[id], t.markers[id], t);
      }
    }
  }

  lemma VouchedBefore(d: Disk, m: Disk, name: Name, lib: Library)
    requires SafeReduction(d, m, lib) && Vouched(m, name, lib)
    ensures Vouched(d, name, lib)
  {
    var id :| id in m.markers && m.markers[id].Parsed? && m.markers[id].record.id == id
      && (IsArtifact(m.markers[id].record, name, m.files[name], lib)
          || IsSidecar(m.markers[id].record, name, m.files[name], lib));
    assert SameOrCleared(d.markers[id], m.markers[id], m);
  }
}
