/** What a run of the store leaves behind: attachments that stopped half way, and names used twice. */
module ArtifactHistories {
  import opened Wrappers
  import opened ArtifactStores
  import opened ArtifactRepairs

  // ----- the shape of the store on every run

  function OwnSidecar(r: Record): Name {
    SidecarName(r.name.directory, r.id)
  }

  /** A marker holds its own record, which names no sidecar but its own. */
  predicate Shaped(d: Disk, id: Id)
    requires id in d.markers
  {
    match ReadCandidate(d, id)
    case None => false
    case Some(r) => r.name.ImageName? && (r.sidecar.Some? ==> r.sidecar.value.name == OwnSidecar(r))
  }

  /** An identifier that is in the middle of being attached to: its sidecar stands, its reference does not yet. */
  predicate Midway(w: World, id: Id) {
    match w.progress
    case WriteReference(r) => r.id == id && r.sidecar.Some?
    case Retract(SidecarName(_, j)) => j == id
    case _ => false
  }

  /** A new artifact, of which nothing is known. */
  predicate Unknown(w: World, r: Record) {
    && r.name.ImageName? && r.sidecar == None && r.id in w.used && r.id !in w.disk.markers && r.id !in w.stopped
    && OwnSidecar(r) !in w.disk.files
  }

  predicate OnTrack(w: World) {
    var d := w.disk;
    match w.progress
    case Idle => true
    case WriteArtifact(r, _) => Unknown(w, r)
    case WriteRecord(r) => Unknown(w, r)
    case Retract(ImageName(_, _)) => true
    case Retract(SidecarName(directory, id)) =>
      && id !in w.stopped && ReadCandidate(d, id).Some?
      && var r := ReadCandidate(d, id).value;
        r.name.directory == directory && (r.sidecar == None ==> OwnSidecar(r) in d.files)
    case WriteSidecar(r, _) => ReadCandidate(d, r.id) == Some(r) && r.sidecar == None && OwnSidecar(r) !in d.files
    case WriteReference(r) =>
      && ReadCandidate(d, r.id).Some?
      && var before := ReadCandidate(d, r.id).value;
        && before.(sidecar := None) == r.(sidecar := None)
        && (if r.sidecar.Some?
            then r.id !in w.stopped && r.sidecar.value.name == OwnSidecar(r) && before.sidecar == None
              && OwnSidecar(r) in d.files
            else before.sidecar.Some? && OwnSidecar(r) !in d.files)
    case RemoveSidecar(r) => ReadCandidate(d, r.id) == Some(r) && r.sidecar.Some?
    case RemoveArtifact(r) => ReadCandidate(d, r.id) == Some(r)
    case RemoveRecord(r) => ReadCandidate(d, r.id) == Some(r)
    case RemoveOrphanSidecar(r) => ReadCandidate(d, r.id) == Some(r) && r.sidecar.Some?
  }

  /** A record without a sidecar has a file under its sidecar's name exactly when its attachment stopped half way. */
  predicate Told(w: World, id: Id)
    requires id in w.disk.markers && Shaped(w.disk, id)
  {
    var r := w.disk.markers[id].record;
    if r.sidecar == None then OwnSidecar(r) in w.disk.files <==> id in w.stopped || Midway(w, id)
    else id !in w.stopped
  }

  ghost predicate Known(w: World) {
    && w.stopped <= w.used && w.disk.markers.Keys <= w.used
    && (forall name :: name in w.disk.files && name.SidecarName? ==> name.id in w.used)
    && (forall id :: id in w.disk.markers ==> Shaped(w.disk, id) && Told(w, id))
    && OnTrack(w)
  }

  predicate Empty(w: World) {
    w.disk == Disk(map[], map[]) && w.progress == Idle && w.base == w.disk && w.used == {} && w.stopped == {}
  }

  lemma EmptyKnown(w: World)
    requires Empty(w)
    ensures Known(w)
  {
  }

  lemma StartKnown(w: World, event: Event, lib: Library)
    requires Known(w) && Enabled(w, event, lib) && !event.Advance?
    ensures Known(Next(w, event, lib))
  {
    var t := Next(w, event, lib);
    if event.Attach? || event.Remove? || event.Repair? {
      assert Shaped(w.disk, event.id) && Told(w, event.id);
    }
    forall id | id in t.disk.markers ensures Shaped(t.disk, id) && Told(t, id) {
      assert Shaped(w.disk, id) && Told(w, id);
    }
  }

  lemma PublishKnown(w: World, verdict: Verdict, lib: Library)
    requires Known(w) && (w.progress.WriteArtifact? || w.progress.WriteRecord?)
    ensures Known(Next(w, Advance(verdict), lib))
  {
    var t := Next(w, Advance(verdict), lib);
    forall id | id in t.disk.markers ensures Shaped(t.disk, id) && Told(t, id) {
      if id in w.disk.markers {
        assert Shaped(w.disk, id) && Told(w, id);
      }
    }
  }

  lemma AttachKnown(w: World, verdict: Verdict, lib: Library)
    requires Known(w) && (w.progress.WriteSidecar? || w.progress.WriteReference?)
    ensures Known(Next(w, Advance(verdict), lib))
  {
    var t := Next(w, Advance(verdict), lib);
    forall id | id in t.disk.markers ensures Shaped(t.disk, id) && Told(t, id) {
      if id in w.disk.markers {
        assert Shaped(w.disk, id) && Told(w, id);
      }
    }
  }

  lemma RetractKnown(w: World, verdict: Verdict, lib: Library)
    requires Known(w) && w.progress.Retract?
    ensures Known(Next(w, Advance(verdict), lib))
  {
    var t := Next(w, Advance(verdict), lib);
    forall id | id in t.disk.markers ensures Shaped(t.disk, id) && Told(t, id) {
      assert Shaped(w.disk, id) && Told(w, id);
    }
  }

  lemma SidecarKnown(w: World, verdict: Verdict, lib: Library)
    requires Known(w) && (w.progress.RemoveSidecar? || w.progress.RemoveOrphanSidecar?)
    ensures Known(Next(w, Advance(verdict), lib))
  {
    var t := Next(w, Advance(verdict), lib);
    forall id | id in t.disk.markers ensures Shaped(t.disk, id) && Told(t, id) {
      assert Shaped(w.disk, id) && Told(w, id);
    }
  }

  lemma RecordKnown(w: World, verdict: Verdict, lib: Library)
    requires Known(w) && (w.progress.RemoveArtifact? || w.progress.RemoveRecord?)
    ensures Known(Next(w, Advance(verdict), lib))
  {
    var t := Next(w, Advance(verdict), lib);
    forall id | id in t.disk.markers ensures Shaped(t.disk, id) && Told(t, id) {
      assert Shaped(w.disk, id) && Told(w, id);
    }
  }

  lemma AdvanceKnown(w: World, verdict: Verdict, lib: Library)
    requires Known(w) && w.progress != Idle
    ensures Known(Next(w, Advance(verdict), lib))
  {
    hide Known, Next;
    if w.progress.WriteArtifact? || w.progress.WriteRecord? {
      PublishKnown(w, verdict, lib);
    } else if w.progress.WriteSidecar? || w.progress.WriteReference? {
      AttachKnown(w, verdict, lib);
    } else if w.progress.Retract? {
      RetractKnown(w, verdict, lib);
    } else if w.progress.RemoveSidecar? || w.progress.RemoveOrphanSidecar? {
      SidecarKnown(w, verdict, lib);
    } else {
      RecordKnown(w, verdict, lib);
    }
  }

  lemma StepKnown(w: World, event: Event, lib: Library)
    requires Known(w) && Enabled(w, event, lib)
    ensures Known(Next(w, event, lib))
    ensures w.stopped <= Next(w, event, lib).stopped
  {
    hide Known, Move;
    if event.Advance? {
      AdvanceKnown(w, event.verdict, lib);
    } else {
      StartKnown(w, event, lib);
    }
  }

  lemma {:induction false} RunKnown(w: World, events: seq<Event>, lib: Library)
    requires Known(w) && Runs(w, events, lib)
    ensures Known(After(w, events, lib)) && w.stopped <= After(w, events, lib).stopped
    decreases |events|
  {
    hide Known, Next, Enabled;
    if events != [] {
      StepKnown(w, events[0], lib);
      RunKnown(Next(w, events[0], lib), events[1..], lib);
    }
  }

  /** The identifiers that some step of the run stops. */
  predicate StoppedIn(w: World, events: seq<Event>, id: Id, lib: Library)
    decreases |events|
  {
    events != [] && (id in Stops(w, events[0]) || StoppedIn(Next(w, events[0], lib), events[1..], id, lib))
  }

  lemma {:induction false} StoppedMeaning(w: World, events: seq<Event>, id: Id, lib: Library)
    ensures id in After(w, events, lib).stopped <==> id in w.stopped || StoppedIn(w, events, id, lib)
    decreases |events|
  {
    hide Stops, Move;
    if events != [] {
      StoppedMeaning(Next(w, events[0], lib), events[1..], id, lib);
    }
  }

  // ----- attachments that stopped half way

  /**
   * On every run from an empty store: a record without a sidecar has a file under its sidecar's name if and only if an
   * attachment to it stopped after its first write, with neither its second write nor its undoing.
   */
  lemma StraySidecarIff(w: World, events: seq<Event>, id: Id, lib: Library)
    requires Empty(w) && Runs(w, events, lib) && After(w, events, lib).progress == Idle
    requires id in After(w, events, lib).disk.markers
    ensures var d := After(w, events, lib).disk;
      && ReadCandidate(d, id).Some?
      && var r := ReadCandidate(d, id).value;
        r.sidecar == None ==> (OwnSidecar(r) in d.files <==> StoppedIn(w, events, id, lib))
  {
    hide Runs, After, StoppedIn;
    EmptyKnown(w);
    RunKnown(w, events, lib);
    StoppedMeaning(w, events, id, lib);
    var t := After(w, events, lib);
    assert Shaped(t.disk, id) && Told(t, id);
  }

  /** After that, whatever runs, nothing can be attached to that identifier again. */
  lemma StoppedForever(w: World, events: seq<Event>, id: Id, content: Bytes, lib: Library)
    requires Known(w) && id in w.stopped && Runs(w, events, lib)
    ensures !Attachable(After(w, events, lib).disk, id, content, lib)
  {
    hide Runs, After;
    RunKnown(w, events, lib);
    var t := After(w, events, lib);
    if id in t.disk.markers {
      assert Shaped(t.disk, id) && Told(t, id);
    }
  }

  /** A whole artifact without a sidecar takes one exactly when no attachment to it ever stopped half way. */
  lemma AttachableIff(w: World, events: seq<Event>, id: Id, content: Bytes, lib: Library)
    requires Empty(w) && Runs(w, events, lib) && After(w, events, lib).progress == Idle
    requires AcceptableSidecar(content, lib) && ReadCandidate(After(w, events, lib).disk, id).Some?
    ensures var d := After(w, events, lib).disk; var r := ReadCandidate(d, id).value;
      ArtifactValid(d, r, lib) && r.sidecar == None ==>
        (Attachable(d, id, content, lib) <==> !StoppedIn(w, events, id, lib))
  {
    hide Runs, After, StoppedIn;
    StraySidecarIff(w, events, id, lib);
  }

  // ----- repair after any run

  lemma ShapedApart(d: Disk, lib: Library)
    requires forall id :: id in d.markers ==> Shaped(d, id)
    ensures OrphansApart(d, lib)
  {
    forall i, j | i != j && Inspect(d, i, lib) == Orphan(ValidSidecar) && ReadCandidate(d, j).Some?
      ensures !FileOf(ReadCandidate(d, j).value, ReadCandidate(d, i).value.sidecar.value.name)
    {
      assert Shaped(d, i) && Shaped(d, j);
    }
  }

  /**
   * From every disk that any run from an empty store leaves, names used again included: one complete repair leaves
   * nothing to repair, and no later pass changes anything.
   */
  lemma RepairSettles(w: World, events: seq<Event>, listing: Listing, limit: nat, again: Listing, bound: nat,
    faults: Faults, lib: Library)
    requires Empty(w) && Runs(w, events, lib)
    requires Lists(After(w, events, lib).disk, listing) && |listing| <= limit
    ensures OrphansApart(After(w, events, lib).disk, lib)
    ensures var t := Pass(After(w, events, lib).disk, listing, limit, Apply, map[], NOTHING, lib).0;
      && NothingDue(t, lib)
      && Pass(t, again, bound, Apply, faults, NOTHING, lib).0 == t
      && Pass(t, again, bound, Apply, faults, NOTHING, lib).1.repaired == 0
  {
    hide Runs, After, OrphansApart, NothingDue, Pass, Lists;
    EmptyKnown(w);
    RunKnown(w, events, lib);
    var d := After(w, events, lib).disk;
    ShapedApart(d, lib);
    OneRepairIsEnough(d, listing, limit, again, bound, faults, lib);
  }

  /** The six events of an artifact published, and an attachment to it cut short between its two writes. */
  function Interruption(r: Record, image: Bytes, content: Bytes): seq<Event> {
    PublishEvents(r, image) + [Attach(r.id, content), Advance(Done), Crash]
  }

  lemma RunThree(w: World, a: Event, b: Event, c: Event, lib: Library)
    requires Enabled(w, a, lib) && Enabled(Next(w, a, lib), b, lib) && Enabled(Next(Next(w, a, lib), b, lib), c, lib)
    ensures Runs(w, [a, b, c], lib) && After(w, [a, b, c], lib) == Next(Next(Next(w, a, lib), b, lib), c, lib)
  {
    hide Enabled, Next;
    var w1 := Next(w, a, lib);
    var w2 := Next(w1, b, lib);
    var one, two, three := [c], [b, c], [a, b, c];
    assert one[1..] == [] && two[1..] == one && three[1..] == two;
    assert Runs(w2, one, lib) && After(w2, one, lib) == Next(w2, c, lib);
    assert Runs(w1, two, lib) && After(w1, two, lib) == Next(w2, c, lib);
  }

  /** Such a run starts from the empty store, and leaves an artifact that is healthy to the repair pass. */
  lemma InterruptionArises(w: World, r: Record, image: Bytes, content: Bytes, lib: Library)
    requires Empty(w) && Publishable(w.disk, r, image, lib) && AcceptableSidecar(content, lib)
    ensures var events := Interruption(r, image, content); var t := After(w, events, lib);
      && Runs(w, events, lib) && t.progress == Idle && StoppedIn(w, events, r.id, lib)
      && Inspect(t.disk, r.id, lib) == Healthy && Mend(t.disk, r.id, lib) == t.disk
  {
    hide Runs, After, StoppedIn, PublishEvents, Published, Next, Enabled;
    PublishedRun(w, r, image, lib);
    var p := Published(w, r, image, lib);
    CutAttachment(p, r, content, lib);
    var tail := [Attach(r.id, content), Advance(Done), Crash];
    RunThree(p, Attach(r.id, content), Advance(Done), Crash, lib);
    RunsConcat(w, PublishEvents(r, image), tail, lib);
    StoppedMeaning(w, Interruption(r, image, content), r.id, lib);
  }

  lemma CutAttachment(w: World, r: Record, content: Bytes, lib: Library)
    requires w.progress == Idle && ReadCandidate(w.disk, r.id) == Some(r) && ArtifactValid(w.disk, r, lib)
    requires r.name.ImageName? && r.sidecar == None && OwnSidecar(r) !in w.disk.files && AcceptableSidecar(content, lib)
    ensures var w1 := Next(w, Attach(r.id, content), lib); var w2 := Next(w1, Advance(Done), lib);
      var t := Next(w2, Crash, lib);
      && Enabled(w, Attach(r.id, content), lib) && Enabled(w1, Advance(Done), lib) && Enabled(w2, Crash, lib)
      && t.progress == Idle && r.id in t.stopped
      && Inspect(t.disk, r.id, lib) == Healthy && Mend(t.disk, r.id, lib) == t.disk
  {
  }

  // ----- names used twice

  /** The operation under way is about this record. */
  predicate Concerns(progress: Progress, id: Id) {
    match progress
    case Idle => false
    case Retract(_) => false
    case _ => progress.record.id == id
  }

  /** Another file stands where the record's artifact was. */
  predicate Stranded(w: World, r: Record, lib: Library) {
    && ReadCandidate(w.disk, r.id) == Some(r) && r.name.ImageName?
    && r.name in w.disk.files && !ArtifactValid(w.disk, r, lib)
    && !Concerns(w.progress, r.id) && (w.progress.WriteArtifact? ==> w.progress.record.name != r.name)
  }

  /** While the other file stands the record is damaged and no repair touches it; without it the record is an orphan. */
  lemma StrandedStep(w: World, event: Event, r: Record, lib: Library)
    requires Stranded(w, r, lib) && Enabled(w, event, lib)
    ensures var t := Next(w, event, lib);
      if r.name in t.disk.files then Stranded(t, r, lib)
      else ReadCandidate(t.disk, r.id) == Some(r)
  {
  }

  /** The file stands in every world of the run but perhaps the last. */
  predicate StandsUntilEnd(w: World, events: seq<Event>, name: Name, lib: Library)
    decreases |events|
  {
    events == [] || (name in w.disk.files && StandsUntilEnd(Next(w, events[0], lib), events[1..], name, lib))
  }

  lemma {:induction false} StrandedRun(w: World, events: seq<Event>, r: Record, lib: Library)
    requires Stranded(w, r, lib) && Runs(w, events, lib) && StandsUntilEnd(w, events, r.name, lib)
    ensures var t := After(w, events, lib);
      if r.name in t.disk.files then Stranded(t, r, lib) else ReadCandidate(t.disk, r.id) == Some(r)
    decreases |events|
  {
    hide Stranded, Next, Enabled;
    if events != [] {
      StrandedStep(w, events[0], r, lib);
      var t := Next(w, events[0], lib);
      if events[1..] == [] || r.name in t.disk.files {
        if r.name in t.disk.files {
          StrandedRun(t, events[1..], r, lib);
        }
      }
    } else {
      StrandedHere(w, r, lib);
    }
  }

  lemma StrandedHere(w: World, r: Record, lib: Library)
    requires Stranded(w, r, lib)
    ensures r.name in w.disk.files && ReadCandidate(w.disk, r.id) == Some(r)
  {
  }

  /**
   * Over every run, up to the step that removes the other file: the record is damaged exactly while that file stands,
   * and repair leaves it as it is; once the file is removed the record is an orphan, which repair removes unless its
   * own sidecar is damaged.
   */
  lemma StrandedUntilRemoved(w: World, events: seq<Event>, r: Record, lib: Library)
    requires Stranded(w, r, lib) && Runs(w, events, lib) && StandsUntilEnd(w, events, r.name, lib)
    ensures var d := After(w, events, lib).disk;
      && (Inspect(d, r.id, lib) == Damaged <==> r.name in d.files)
      && (r.name in d.files ==> Mend(d, r.id, lib) == d)
      && (r.name !in d.files ==>
        && Inspect(d, r.id, lib) == Orphan(SidecarOf(d, r, lib))
        && (SidecarOf(d, r, lib) != InvalidSidecar ==> r.id !in Mend(d, r.id, lib).markers))
  {
    hide Runs, After, StandsUntilEnd;
    StrandedRun(w, events, r, lib);
  }

  /** An artifact published, its removal cut short before its record, and its name taken by another image. */
  function Reuse(r: Record, image: Bytes, other: Record, otherImage: Bytes): seq<Event> {
    PublishEvents(r, image) + [Remove(r.id), Advance(Done), Crash] + PublishEvents(other, otherImage)
  }

  /** Such a run starts from the empty store, and the newer artifact can then be removed, which ends it. */
  lemma ReuseArises(w: World, r: Record, image: Bytes, other: Record, otherImage: Bytes, lib: Library)
    requires Empty(w) && Publishable(w.disk, r, image, lib) && Publishable(w.disk, other, otherImage, lib)
    requires other.id != r.id && other.name == r.name && other.digest != r.digest
    ensures var events := Reuse(r, image, other, otherImage); var t := After(w, events, lib);
      && Runs(w, events, lib) && t.progress == Idle && Stranded(t, r, lib)
      && Enabled(t, Remove(other.id), lib)
      && r.name !in Next(Next(t, Remove(other.id), lib), Advance(Done), lib).disk.files
  {
    hide Runs, After, Enabled, Next, PublishEvents, Published, Cut, Publishable;
    var w6 := Cut(w, r, image, lib);
    PublishedRun(w, r, image, lib);
    CutRun(w, r, image, lib);
    ReusedDisk(w.disk, r, image, other, otherImage, lib);
    PublishedRun(w6, other, otherImage, lib);
    RunsConcat(w, PublishEvents(r, image), [Remove(r.id), Advance(Done), Crash], lib);
    RunsConcat(w, PublishEvents(r, image) + [Remove(r.id), Advance(Done), Crash], PublishEvents(other, otherImage),
      lib);
    NewerRemovable(Published(w6, other, otherImage, lib), other, lib);
  }

  lemma ReusedDisk(d: Disk, r: Record, image: Bytes, other: Record, otherImage: Bytes, lib: Library)
    requires Publishable(d, r, image, lib) && Publishable(d, other, otherImage, lib)
    requires other.id != r.id && other.name == r.name && other.digest != r.digest
    ensures var cut := DropFile(PutMarker(PutFile(d, r.name, image), r), r.name);
      var t := PutMarker(PutFile(cut, other.name, otherImage), other);
      && Publishable(cut, other, otherImage, lib) && other.sidecar == None
      && ReadCandidate(t, r.id) == Some(r) && r.name in t.files && !ArtifactValid(t, r, lib)
      && ReadCandidate(t, other.id) == Some(other) && ArtifactValid(t, other, lib)
  {
  }

  lemma NewerRemovable(w: World, r: Record, lib: Library)
    requires w.progress == Idle && ReadCandidate(w.disk, r.id) == Some(r) && ArtifactValid(w.disk, r, lib)
    requires r.sidecar == None
    ensures Enabled(w, Remove(r.id), lib)
    ensures r.name !in Next(Next(w, Remove(r.id), lib), Advance(Done), lib).disk.files
  {
  }

  function PublishEvents(r: Record, image: Bytes): seq<Event> {
    [Publish(r, image), Advance(Done), Advance(Done)]
  }

  function Published(w: World, r: Record, image: Bytes, lib: Library): World {
    Next(Next(Next(w, Publish(r, image), lib), Advance(Done), lib), Advance(Done), lib)
  }

  function Cut(w: World, r: Record, image: Bytes, lib: Library): World {
    Next(Next(Next(Published(w, r, image, lib), Remove(r.id), lib), Advance(Done), lib), Crash, lib)
  }

  lemma PublishedRun(w: World, r: Record, image: Bytes, lib: Library)
    requires w.progress == Idle && Publishable(w.disk, r, image, lib) && r.id !in w.used
    ensures Runs(w, PublishEvents(r, image), lib)
    ensures After(w, PublishEvents(r, image), lib) == Published(w, r, image, lib)
    ensures var t := Published(w, r, image, lib);
      && t.progress == Idle && t.used == w.used + {r.id}
      && t.disk == PutMarker(PutFile(w.disk, r.name, image), r)
  {
    hide Runs, After;
    RunThree(w, Publish(r, image), Advance(Done), Advance(Done), lib);
  }

  lemma CutRun(w: World, r: Record, image: Bytes, lib: Library)
    requires w.progress == Idle && Publishable(w.disk, r, image, lib) && r.id !in w.used
    ensures var p := Published(w, r, image, lib);
      && Runs(p, [Remove(r.id), Advance(Done), Crash], lib)
      && After(p, [Remove(r.id), Advance(Done), Crash], lib) == Cut(w, r, image, lib)
    ensures var t := Cut(w, r, image, lib);
      && t.progress == Idle && t.used == w.used + {r.id}
      && t.disk == DropFile(PutMarker(PutFile(w.disk, r.name, image), r), r.name)
  {
    hide Runs, After;
    PublishedRun(w, r, image, lib);
    var p := Published(w, r, image, lib);
    assert ReadCandidate(p.disk, r.id) == Some(r) && ArtifactValid(p.disk, r, lib);
    RunThree(p, Remove(r.id), Advance(Done), Crash, lib);
  }

  lemma {:induction false} RunsConcat(w: World, a: seq<Event>, b: seq<Event>, lib: Library)
    requires Runs(w, a, lib) && Runs(After(w, a, lib), b, lib)
    ensures Runs(w, a + b, lib) && After(w, a + b, lib) == After(After(w, a, lib), b, lib)
    decreases |a|
  {
    hide Enabled, Next;
    if a == [] {
      assert a + b == b;
    } else {
      assert (a + b)[0] == a[0] && (a + b)[1..] == a[1..] + b;
      RunsConcat(Next(w, a[0], lib), a[1..], b, lib);
    }
  }

  // ----- operations that are not cut short

  /** What an attachment starts from: a whole artifact without a sidecar, an object of bounded size, and a free name. */
  lemma AttachStartsIff(w: World, id: Id, content: Bytes, lib: Library)
    ensures Enabled(w, Attach(id, content), lib) <==>
      && w.progress == Idle && Readable(w.disk, id) && w.disk.markers[id].record.sidecar == None
      && ArtifactStands(w.disk, w.disk.markers[id].record, lib)
      && 1 <= |content| <= 1048576 && lib.isObject(content)
      && SidecarName(w.disk.markers[id].record.name.directory, id) !in w.disk.files
  {
  }

  /** What a removal starts from: an artifact that stands as recorded, with its sidecar if it has one. */
  lemma RemoveStartsIff(w: World, id: Id, lib: Library)
    ensures Enabled(w, Remove(id), lib) <==>
      && w.progress == Idle && Readable(w.disk, id)
      && var r := w.disk.markers[id].record;
        ArtifactStands(w.disk, r, lib) && (r.sidecar == None || SidecarStands(w.disk, r, lib))
  {
    if Readable(w.disk, id) {
      ValidIff(w.disk, w.disk.markers[id].record, lib);
      SidecarIff(w.disk, w.disk.markers[id].record, lib);
    }
  }

  /** Two writes done, the sidecar stands under its name and its record refers to it; nothing else changes. */
  lemma AttachMeaning(w: World, id: Id, content: Bytes, lib: Library)
    requires Enabled(w, Attach(id, content), lib)
    ensures var r := w.disk.markers[id].record;
      var name := SidecarName(r.name.directory, id);
      var t := Next(Next(Next(w, Attach(id, content), lib), Advance(Done), lib), Advance(Done), lib);
      && t.progress == Idle && t.disk.files == w.disk.files[name := File(content)]
      && t.disk.markers == w.disk.markers[id := Parsed(r.(sidecar := Some(Reference(name, lib.digest(content)))))]
  {
  }

  /** When the second write fails and the first is undone, the disk is as it was found. */
  lemma AttachUndone(w: World, id: Id, content: Bytes, lib: Library)
    requires Enabled(w, Attach(id, content), lib)
    ensures var begun := Next(Next(w, Attach(id, content), lib), Advance(Done), lib);
      var t := Next(Next(begun, Advance(Failed), lib), Advance(Done), lib);
      t.progress == Idle && t.disk.files == w.disk.files && t.disk.markers == w.disk.markers
  {
  }

  /** All writes done, a removal has taken the sidecar, the artifact and the record, and nothing else. */
  lemma RemoveMeaning(w: World, id: Id, lib: Library)
    requires Enabled(w, Remove(id), lib)
    ensures var r := w.disk.markers[id].record;
      var begun := Next(w, Remove(id), lib);
      var bare := if r.sidecar.Some? then Next(begun, Advance(Done), lib) else begun;
      var t := Next(Next(bare, Advance(Done), lib), Advance(Done), lib);
      && t.progress == Idle && t.disk.markers == w.disk.markers - {id}
      && t.disk.files == w.disk.files - {r.name} - (if r.sidecar.Some? then {r.sidecar.value.name} else {})
  {
    hide SidecarOf;
    RemoveStartsIff(w, id, lib);
  }
}
