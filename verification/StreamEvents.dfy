/** One generation call's events, read defensively, and the result they add up to. */
module StreamEvents {
  import opened Wrappers
  import opened FanOut

  const MAX_REVISED_PROMPT_BYTES := 128 * 1024

  datatype ItemKind =
    | ImageCall | Message | Reasoning | FunctionCall | WebSearchCall | ComputerCall | OtherItem | MissingItem

  datatype Status = InProgress | Generating | CompletedStatus | FailedStatus | OtherStatus | MissingStatus

  datatype ContentKind = Refusal | OutputText | OtherContent | MissingContent

  /** An output item: its texts are absent when they are not strings. */
  datatype Item = Item(
    kind: ItemKind, status: Status, contents: seq<ContentKind>, result: Option<string>, revised: Option<string>)

  datatype PartialIndex = NoIndex | Index(n: nat)

  datatype Event =
    | Ignored
    | Malformed
    | ItemDone(item: Item)
    | PartialImage(image: Option<string>, index: PartialIndex)
    | Completed(output: seq<Item>, usage: Usage)
    | Failed(error: Error)

  datatype Partial = Partial(index: nat, image: string)

  datatype Problem =
    | BadJson | TooLarge | SecondImage | LongRevisedPrompt | IndexOutOfRange
    | Reported(error: Error) | Unfinished | Declined | ToolFailed | NoImage

  datatype State = State(
    finalImage: Option<string>, nextPartial: nat, revised: Option<string>, usage: Usage, failure: Option<Error>,
    completed: bool, itemKinds: set<ItemKind>, contentKinds: set<ContentKind>, statuses: set<Status>)

  const INITIAL := State(None, 0, None, NO_USAGE, None, false, {}, {}, {})

  predicate Given(text: Option<string>) {
    text.Some? && text.value != ""
  }

  // ----- one event

  function RecordItem(s: State, item: Item): State {
    s.(itemKinds := s.itemKinds + {item.kind},
       statuses := if item.kind == ImageCall then s.statuses + {item.status} else s.statuses,
       contentKinds := if item.kind == Message then s.contentKinds + (set c | c in item.contents) else s.contentKinds)
  }

  function CaptureImage(s: State, item: Item, maximum: nat): Result<State, Problem> {
    if Given(item.result) && |item.result.value| > maximum then Err(TooLarge)
    else if Given(item.result) && s.finalImage.Some? && s.finalImage != item.result then Err(SecondImage)
    else if Given(item.revised) && |item.revised.value| > MAX_REVISED_PROMPT_BYTES then Err(LongRevisedPrompt)
    else Ok(s.(finalImage := if Given(item.result) then item.result else s.finalImage,
        revised := if Given(item.revised) then item.revised else s.revised))
  }

  function TakeItem(s: State, item: Item, maximum: nat): Result<State, Problem> {
    var recorded := RecordItem(s, item);
    if item.kind == ImageCall then CaptureImage(recorded, item, maximum) else Ok(recorded)
  }

  function TakeItems(s: State, items: seq<Item>, maximum: nat): Result<State, Problem>
    decreases |items|
  {
    if items == [] then Ok(s)
    else match TakeItem(s, items[0], maximum)
      case Err(e) => Err(e)
      case Ok(t) => TakeItems(t, items[1..], maximum)
  }

  function NextIndex(n: nat): nat {
    if n >= 255 then 255 else n + 1
  }

  function Process(s: State, event: Event, maximum: nat): Result<(State, Option<Partial>), Problem> {
    match event
    case Ignored => Ok((s, None))
    case Malformed => Err(BadJson)
    case ItemDone(item) =>
      (match TakeItem(s, item, maximum) case Err(e) => Err(e) case Ok(t) => Ok((t, None)))
    case PartialImage(None, _) => Ok((s, None))
    case PartialImage(Some(image), index) =>
      if |image| > maximum then Err(TooLarge)
      else if index.Index? && index.n > 255 then Err(IndexOutOfRange)
      else
        var at := if index.Index? then index.n else s.nextPartial;
        Ok((s.(nextPartial := NextIndex(at)), Some(Partial(at, image))))
    case Completed(output, usage) =>
      (match TakeItems(s.(completed := true), output, maximum)
       case Err(e) => Err(e)
       case Ok(t) => Ok((t.(usage := usage), None)))
    case Failed(error) => Ok((s.(failure := Some(error)), None))
  }

  function MissingImage(s: State): Problem {
    if Refusal in s.contentKinds then Declined else if FailedStatus in s.statuses then ToolFailed else NoImage
  }

  function Finish(s: State): Result<Call, Problem> {
    if s.failure.Some? then Err(Reported(s.failure.value))
    else if !s.completed then Err(Unfinished)
    else if s.finalImage == None then Err(MissingImage(s))
    else Ok(Call(s.finalImage.value, 1, s.revised, s.usage))
  }

  function ProcessAll(s: State, events: seq<Event>, partials: seq<Partial>, maximum: nat): Result<(State,
    seq<Partial>), Problem>
    decreases |events|
  {
    if events == [] then Ok((s, partials))
    else match Process(s, events[0], maximum)
      case Err(e) => Err(e)
      case Ok(step) =>
        ProcessAll(step.0, events[1..], if step.1.Some? then partials + [step.1.value] else partials, maximum)
  }

  // ----- the state as it is changed

  class EventState {
    var state: State

    constructor ()
      ensures state == INITIAL
    {
      state := INITIAL;
    }

    method CaptureImageItem(item: Item, maximum: nat) returns (r: Result<(), Problem>)
      modifies this
      ensures match CaptureImage(old(state), item, maximum)
        case Ok(t) => r.Ok? && state == t
        case Err(e) => r == Err(e)
    {
      if Given(item.result) {
        if |item.result.value| > maximum {
          return Err(TooLarge);
        }
        if state.finalImage.Some? && state.finalImage != item.result {
          return Err(SecondImage);
        }
        state := state.(finalImage := item.result);
      }
      if Given(item.revised) {
        if |item.revised.value| > MAX_REVISED_PROMPT_BYTES {
          return Err(LongRevisedPrompt);
        }
        state := state.(revised := item.revised);
      }
      return Ok(());
    }

    method RecordOutputItem(item: Item)
      modifies this
      ensures state == RecordItem(old(state), item)
    {
      state := state.(itemKinds := state.itemKinds + {item.kind});
      if item.kind == ImageCall {
        state := state.(statuses := state.statuses + {item.status});
      }
      if item.kind == Message {
        ghost var before := state;
        var i := 0;
        while i < |item.contents|
          invariant 0 <= i <= |item.contents|
          invariant state == before.(contentKinds := before.contentKinds + (set c | c in item.contents[..i]))
        {
          assert item.contents[..i + 1] == item.contents[..i] + [item.contents[i]];
          state := state.(contentKinds := state.contentKinds + {item.contents[i]});
          i := i + 1;
        }
        assert item.contents[..|item.contents|] == item.contents;
      }
    }

    method ProcessEvent(event: Event, maximum: nat) returns (r: Result<Option<Partial>, Problem>)
      modifies this
      ensures match Process(old(state), event, maximum)
        case Ok(step) => r == Ok(step.1) && state == step.0
        case Err(e) => r == Err(e)
    {
      hide CaptureImage, RecordItem;
      match event {
        case Ignored =>
        case Malformed => return Err(BadJson);
        case ItemDone(item) =>
          RecordOutputItem(item);
          if item.kind == ImageCall {
            var done := CaptureImageItem(item, maximum);
            if done.Err? { return Err(done.error); }
          }
        case PartialImage(image, index) =>
          if image.Some? {
            if |image.value| > maximum {
              return Err(TooLarge);
            }
            if index.Index? && index.n > 255 {
              return Err(IndexOutOfRange);
            }
            var at := if index.Index? then index.n else state.nextPartial;
            state := state.(nextPartial := NextIndex(at));
            return Ok(Some(Partial(at, image.value)));
          }
        case Completed(output, usage) =>
          state := state.(completed := true);
          ghost var begun := state;
          var i := 0;
          while i < |output|
            invariant 0 <= i <= |output|
            invariant TakeItems(state, output[i..], maximum) == TakeItems(begun, output, maximum)
          {
            assert output[i..][0] == output[i] && output[i..][1..] == output[i + 1..];
            RecordOutputItem(output[i]);
            if output[i].kind == ImageCall {
              var done := CaptureImageItem(output[i], maximum);
              if done.Err? { return Err(done.error); }
            }
            i := i + 1;
          }
          state := state.(usage := usage);
        case Failed(error) =>
          state := state.(failure := Some(error));
      }
      return Ok(None);
    }
  }

  // ----- what a whole stream says

  /** A text that is there and not empty. */
  predicate Says(text: Option<string>) {
    match text
    case None => false
    case Some(said) => |said| > 0
  }

  /** The image calls of a stream, in order, wherever they are reported. */
  function ImageCalls(events: seq<Event>): seq<Item> {
    if events == [] then [] else CallsOf(events[0]) + ImageCalls(events[1..])
  }

  function CallsOf(event: Event): seq<Item> {
    match event
    case ItemDone(item) => if item.kind == ImageCall then [item] else []
    case Completed(output, _) => OnlyCalls(output)
    case _ => []
  }

  function OnlyCalls(items: seq<Item>): seq<Item> {
    if items == [] then []
    else (if items[0].kind == ImageCall then [items[0]] else []) + OnlyCalls(items[1..])
  }

  /** The first image given, or the one there already. */
  function FirstImage(before: Option<string>, calls: seq<Item>): Option<string>
    decreases |calls|
  {
    if before.Some? || calls == [] then before
    else FirstImage(if Says(calls[0].result) then calls[0].result else None, calls[1..])
  }

  function LastRevised(before: Option<string>, calls: seq<Item>): Option<string>
    decreases |calls|
  {
    if calls == [] then before
    else LastRevised(if Says(calls[0].revised) then calls[0].revised else before, calls[1..])
  }

  /** Small enough, and the same image as every other. */
  predicate Agrees(call: Item, image: Option<string>, maximum: nat) {
    && (Says(call.result) ==> |call.result.value| <= maximum && call.result == image)
    && (Says(call.revised) ==> |call.revised.value| <= MAX_REVISED_PROMPT_BYTES)
  }

  predicate AllAgree(calls: seq<Item>, image: Option<string>, maximum: nat) {
    forall call :: call in calls ==> Agrees(call, image, maximum)
  }

  predicate Readable(event: Event, maximum: nat) {
    match event
    case Malformed => false
    case PartialImage(Some(image), index) => |image| <= maximum && (index.Index? ==> index.n <= 255)
    case _ => true
  }

  lemma {:induction false} FirstImageConcat(before: Option<string>, a: seq<Item>, b: seq<Item>)
    ensures FirstImage(before, a + b) == FirstImage(FirstImage(before, a), b)
    decreases |a|
  {
    if a == [] {
      assert a + b == b;
    } else if before == None {
      assert (a + b)[0] == a[0] && (a + b)[1..] == a[1..] + b;
      FirstImageConcat(if Says(a[0].result) then a[0].result else None, a[1..], b);
    }
  }

  lemma {:induction false} LastRevisedConcat(before: Option<string>, a: seq<Item>, b: seq<Item>)
    ensures LastRevised(before, a + b) == LastRevised(LastRevised(before, a), b)
    decreases |a|
  {
    if a == [] {
      assert a + b == b;
    } else {
      assert (a + b)[0] == a[0] && (a + b)[1..] == a[1..] + b;
      LastRevisedConcat(if Says(a[0].revised) then a[0].revised else before, a[1..], b);
    }
  }

  lemma AllAgreeConcat(a: seq<Item>, b: seq<Item>, image: Option<string>, maximum: nat)
    ensures AllAgree(a + b, image, maximum) <==> AllAgree(a, image, maximum) && AllAgree(b, image, maximum)
  {
    assert forall call :: call in a + b <==> call in a || call in b;
  }

  /** What some image calls leave in the state, when they agree with one another and with it. */
  ghost predicate Took(s: State, calls: seq<Item>, maximum: nat, r: Result<State, Problem>) {
    && (r.Ok? <==> AllAgree(calls, FirstImage(s.finalImage, calls), maximum))
    && (r.Ok? ==>
      && r.value.finalImage == FirstImage(s.finalImage, calls) && r.value.revised == LastRevised(s.revised, calls)
      && r.value.completed == s.completed && r.value.failure == s.failure && r.value.usage == s.usage)
  }

  /** With an image known, agreeing with all is agreeing with it. */
  lemma FirstImageKept(image: string, calls: seq<Item>)
    ensures FirstImage(Some(image), calls) == Some(image)
  {
  }

  lemma TookOne(s: State, item: Item, maximum: nat)
    requires item.kind == ImageCall
    ensures Took(s, [item], maximum, TakeItem(s, item, maximum))
  {
    assert [item][1..] == [];
    assert item in [item];
  }

  lemma TookNone(s: State, t: State, maximum: nat)
    requires t.finalImage == s.finalImage && t.revised == s.revised && t.completed == s.completed
    requires t.failure == s.failure && t.usage == s.usage
    ensures Took(s, [], maximum, Ok(t))
  {
  }

  /** Two runs of image calls, one after the other. */
  lemma TookBoth(s: State, a: seq<Item>, b: seq<Item>, maximum: nat, first: Result<State, Problem>,
    second: Result<State, Problem>)
    requires Took(s, a, maximum, first) && (first.Ok? ==> Took(first.value, b, maximum, second))
    requires first.Err? ==> second.Err?
    ensures Took(s, a + b, maximum, second)
  {
    hide LastRevised, FirstImage, AllAgree;
    var whole, part := FirstImage(s.finalImage, a + b), FirstImage(s.finalImage, a);
    FirstImageConcat(s.finalImage, a, b);
    LastRevisedConcat(s.revised, a, b);
    AllAgreeConcat(a, b, whole, maximum);
    if part.Some? {
      FirstImageKept(part.value, b);
    } else {
      NoImageAgrees(s.finalImage, a, whole, maximum);
    }
  }

  /** Calls without an image agree with any. */
  lemma {:induction false} NoImageAgrees(before: Option<string>, calls: seq<Item>, image: Option<string>, maximum: nat)
    requires FirstImage(before, calls) == None
    ensures AllAgree(calls, image, maximum) <==> AllAgree(calls, None, maximum)
    decreases |calls|
  {
    if calls != [] {
      NoImageAgrees(before, calls[1..], image, maximum);
      assert calls == [calls[0]] + calls[1..];
      AllAgreeConcat([calls[0]], calls[1..], image, maximum);
      AllAgreeConcat([calls[0]], calls[1..], None, maximum);
      assert calls[0] in [calls[0]];
    }
  }

  lemma {:induction false} TookItems(s: State, items: seq<Item>, maximum: nat)
    ensures Took(s, OnlyCalls(items), maximum, TakeItems(s, items, maximum))
    decreases |items|
  {
    hide Took, TakeItem;
    if items == [] {
      TookNone(s, s, maximum);
    } else {
      var first := TakeItem(s, items[0], maximum);
      var head := if items[0].kind == ImageCall then [items[0]] else [];
      TookFirst(s, items[0], maximum);
      if first.Ok? {
        TookItems(first.value, items[1..], maximum);
      }
      TookBoth(s, head, OnlyCalls(items[1..]), maximum, first, TakeItems(s, items, maximum));
    }
  }

  lemma TookFirst(s: State, item: Item, maximum: nat)
    ensures Took(s, if item.kind == ImageCall then [item] else [], maximum, TakeItem(s, item, maximum))
  {
    if item.kind == ImageCall {
      TookOne(s, item, maximum);
    }
  }

  function AnyCompleted(events: seq<Event>): bool {
    events != [] && (events[0].Completed? || AnyCompleted(events[1..]))
  }

  function LastFailure(before: Option<Error>, events: seq<Event>): Option<Error>
    decreases |events|
  {
    if events == [] then before
    else LastFailure(if events[0].Failed? then Some(events[0].error) else before, events[1..])
  }

  function LastUsage(before: Usage, events: seq<Event>): Usage
    decreases |events|
  {
    if events == [] then before
    else LastUsage(if events[0].Completed? then events[0].usage else before, events[1..])
  }

  predicate AllReadable(events: seq<Event>, maximum: nat) {
    forall event :: event in events ==> Readable(event, maximum)
  }

  /** What a stream leaves in the state. */
  ghost predicate Read(s: State, events: seq<Event>, maximum: nat, r: Result<(State, seq<Partial>), Problem>) {
    var calls := ImageCalls(events);
    && (r.Ok? <==> AllReadable(events, maximum) && AllAgree(calls, FirstImage(s.finalImage, calls), maximum))
    && (r.Ok? ==>
      var t := r.value.0;
      && t.finalImage == FirstImage(s.finalImage, calls) && t.revised == LastRevised(s.revised, calls)
      && t.completed == (s.completed || AnyCompleted(events))
      && t.failure == LastFailure(s.failure, events) && t.usage == LastUsage(s.usage, events))
  }

  /** One event: readable and in agreement, or an error. */
  lemma ProcessMeaning(s: State, event: Event, maximum: nat)
    ensures var calls, r := CallsOf(event), Process(s, event, maximum);
      && (r.Ok? <==> Readable(event, maximum) && AllAgree(calls, FirstImage(s.finalImage, calls), maximum))
      && (r.Ok? ==>
        var t := r.value.0;
        && t.finalImage == FirstImage(s.finalImage, calls) && t.revised == LastRevised(s.revised, calls)
        && t.completed == (s.completed || event.Completed?)
        && t.failure == (if event.Failed? then Some(event.error) else s.failure)
        && t.usage == (if event.Completed? then event.usage else s.usage))
  {
    hide TakeItem, TakeItems, OnlyCalls;
    match event
    case ItemDone(item) => TookFirst(s, item, maximum);
    case Completed(output, usage) => TookItems(s.(completed := true), output, maximum);
    case _ =>
  }

  lemma {:induction false} ReadMeaning(s: State, events: seq<Event>, partials: seq<Partial>, maximum: nat)
    ensures Read(s, events, maximum, ProcessAll(s, events, partials, maximum))
    decreases |events|
  {
    hide Process, CallsOf, AllAgree, FirstImage, LastRevised, Readable;
    if events == [] {
      NothingAgrees(s, maximum);
    } else {
      var first, rest := events[0], events[1..];
      var calls, more := CallsOf(first), ImageCalls(rest);
      ProcessMeaning(s, first, maximum);
      FirstImageConcat(s.finalImage, calls, more);
      LastRevisedConcat(s.revised, calls, more);
      AllAgreeConcat(calls, more, FirstImage(s.finalImage, calls + more), maximum);
      var part := FirstImage(s.finalImage, calls);
      if part.Some? {
        FirstImageKept(part.value, more);
      } else {
        NoImageAgrees(s.finalImage, calls, FirstImage(s.finalImage, calls + more), maximum);
      }
      assert forall event :: event in events <==> event == first || event in rest;
      if Process(s, first, maximum).Ok? {
        var step := Process(s, first, maximum).value;
        ReadMeaning(step.0, rest, if step.1.Some? then partials + [step.1.value] else partials, maximum);
      }
    }
  }

  lemma NothingAgrees(s: State, maximum: nat)
    ensures AllAgree([], s.finalImage, maximum) && FirstImage(s.finalImage, []) == s.finalImage
    ensures LastRevised(s.revised, []) == s.revised
  {
  }

  /** The result of a call from all its events. */
  function Outcome(events: seq<Event>, maximum: nat): Result<Call, Problem> {
    match ProcessAll(INITIAL, events, [], maximum)
    case Err(e) => Err(e)
    case Ok(read) => Finish(read.0)
  }

  /**
   * A stream gives an image exactly when every event can be read, every image call that gives an image gives the same
   * one within the bounds, some call does, the response completed, and no failure was reported, in whatever order
   * these come; partial images never count. The revised prompt is the last one given and the usage that of the last
   * completion.
   */
  lemma OutcomeIff(events: seq<Event>, maximum: nat)
    ensures var calls := ImageCalls(events); var image := FirstImage(None, calls);
      && (Outcome(events, maximum).Ok? <==>
        && AllReadable(events, maximum) && AllAgree(calls, image, maximum)
        && image.Some? && AnyCompleted(events) && LastFailure(None, events) == None)
      && (Outcome(events, maximum).Ok? ==>
        Outcome(events, maximum).value == Call(image.value, 1, LastRevised(None, calls), LastUsage(NO_USAGE, events)))
  {
    hide ProcessAll, ImageCalls, AllReadable, AllAgree, FirstImage, LastRevised, LastUsage, LastFailure, AnyCompleted;
    ReadMeaning(INITIAL, events, [], maximum);
  }

  // ----- partial images

  /** The partial images of a stream that give any data, with the index each is given, in order. */
  function GivenPartials(events: seq<Event>): seq<(string, PartialIndex)> {
    if events == [] then []
    else
      (if events[0].PartialImage? && events[0].image.Some? then [(events[0].image.value, events[0].index)] else [])
        + GivenPartials(events[1..])
  }

  /** Each partial has the index given with it, or else the one after the partial before it; 255 is the last. */
  ghost predicate Numbered(given: seq<(string, PartialIndex)>, partials: seq<Partial>, first: nat) {
    && |given| == |partials|
    && forall i :: 0 <= i < |given| ==>
      && partials[i].image == given[i].0
      && (if given[i].1.Index? then partials[i].index == given[i].1.n
          else if i == 0 then partials[i].index == first
          else if partials[i - 1].index >= 255 then partials[i].index == 255
          else partials[i].index == partials[i - 1].index + 1)
  }

  lemma {:induction false} PartialsNumbered(s: State, events: seq<Event>, partials: seq<Partial>, maximum: nat)
    requires ProcessAll(s, events, partials, maximum).Ok?
    ensures var all := ProcessAll(s, events, partials, maximum).value.1;
      && partials <= all && Numbered(GivenPartials(events), all[|partials|..], s.nextPartial)
    decreases |events|
  {
    hide Process, Numbered;
    if events == [] {
      assert partials[|partials|..] == [];
      NoneNumbered(s.nextPartial);
    } else {
      var event, rest := events[0], events[1..];
      var step := Process(s, event, maximum).value;
      PartialStep(s, event, maximum);
      var more := if step.1.Some? then partials + [step.1.value] else partials;
      PartialsNumbered(step.0, rest, more, maximum);
      var all := ProcessAll(s, events, partials, maximum).value.1;
      if step.1.Some? {
        assert all[|partials|..] == [step.1.value] + all[|more|..] && partials <= more;
        NumberedCons(event.image.value, event.index, GivenPartials(rest), step.1.value, all[|more|..], s.nextPartial);
      } else {
        assert [] + GivenPartials(rest) == GivenPartials(rest);
      }
    }
  }

  lemma NoneNumbered(first: nat)
    ensures Numbered([], [], first)
  {
  }

  lemma NumberedCons(image: string, index: PartialIndex, given: seq<(string, PartialIndex)>, partial: Partial,
    partials: seq<Partial>, first: nat)
    requires partial == Partial(if index.Index? then index.n else first, image)
    requires Numbered(given, partials, if partial.index >= 255 then 255 else partial.index + 1)
    ensures Numbered([(image, index)] + given, [partial] + partials, first)
  {
  }

  lemma PartialStep(s: State, event: Event, maximum: nat)
    requires Process(s, event, maximum).Ok?
    ensures var (t, partial) := Process(s, event, maximum).value;
      if event.PartialImage? && event.image.Some?
      then partial == Some(Partial(if event.index.Index? then event.index.n else s.nextPartial, event.image.value))
        && t.nextPartial == (if partial.value.index >= 255 then 255 else partial.value.index + 1)
      else partial == None && t.nextPartial == s.nextPartial
  {
    hide TakeItem, TakeItems;
    match event
    case ItemDone(item) => TakeKeepsNext(s, item, maximum);
    case Completed(output, _) => TakeAllKeepNext(s.(completed := true), output, maximum);
    case _ =>
  }

  lemma TakeKeepsNext(s: State, item: Item, maximum: nat)
    ensures TakeItem(s, item, maximum).Ok? ==> TakeItem(s, item, maximum).value.nextPartial == s.nextPartial
  {
  }

  lemma {:induction false} TakeAllKeepNext(s: State, items: seq<Item>, maximum: nat)
    ensures TakeItems(s, items, maximum).Ok? ==> TakeItems(s, items, maximum).value.nextPartial == s.nextPartial
    decreases |items|
  {
    hide TakeItem;
    if items != [] {
      TakeKeepsNext(s, items[0], maximum);
      if TakeItem(s, items[0], maximum).Ok? {
        TakeAllKeepNext(TakeItem(s, items[0], maximum).value, items[1..], maximum);
      }
    }
  }

  /** The listener gets every partial image of a stream that is read, in order and numbered from zero. */
  lemma PartialsMeaning(events: seq<Event>, maximum: nat)
    requires ProcessAll(INITIAL, events, [], maximum).Ok?
    ensures Numbered(GivenPartials(events), ProcessAll(INITIAL, events, [], maximum).value.1, 0)
  {
    PartialsNumbered(INITIAL, events, [], maximum);
  }

  // ----- why there is no image

  /** The items of a stream, wherever they are reported. */
  function Items(events: seq<Event>): seq<Item> {
    if events == [] then []
    else ItemsOf(events[0]) + Items(events[1..])
  }

  function ItemsOf(event: Event): seq<Item> {
    match event
    case ItemDone(item) => [item]
    case Completed(output, _) => output
    case _ => []
  }

  predicate AnyOf(items: seq<Item>, kind: ItemKind) {
    exists item :: item in items && item.kind == kind
  }

  predicate AnyPart(items: seq<Item>, part: ContentKind) {
    exists item :: item in items && item.kind == Message && part in item.contents
  }

  predicate AnyCall(items: seq<Item>, status: Status) {
    exists item :: item in items && item.kind == ImageCall && item.status == status
  }

  /** The kinds of items, of message parts and of image call statuses seen, and no others. */
  ghost predicate Noted(s: State, t: State, items: seq<Item>) {
    && (forall kind :: kind in t.itemKinds <==> kind in s.itemKinds || AnyOf(items, kind))
    && (forall part :: part in t.contentKinds <==> part in s.contentKinds || AnyPart(items, part))
    && (forall status :: status in t.statuses <==> status in s.statuses || AnyCall(items, status))
  }

  lemma NotedBoth(s: State, m: State, t: State, a: seq<Item>, b: seq<Item>)
    requires Noted(s, m, a) && Noted(m, t, b)
    ensures Noted(s, t, a + b)
  {
    assert forall item :: item in a + b <==> item in a || item in b;
    forall kind ensures AnyOf(a + b, kind) <==> AnyOf(a, kind) || AnyOf(b, kind) {
    }
    forall part ensures AnyPart(a + b, part) <==> AnyPart(a, part) || AnyPart(b, part) {
    }
    forall status ensures AnyCall(a + b, status) <==> AnyCall(a, status) || AnyCall(b, status) {
    }
  }

  lemma NotedOne(s: State, item: Item, maximum: nat)
    requires TakeItem(s, item, maximum).Ok?
    ensures Noted(s, TakeItem(s, item, maximum).value, [item])
  {
    forall kind ensures AnyOf([item], kind) <==> item.kind == kind {
      assert item in [item];
    }
    forall part ensures AnyPart([item], part) <==> item.kind == Message && part in item.contents {
      assert item in [item];
    }
    forall status ensures AnyCall([item], status) <==> item.kind == ImageCall && item.status == status {
      assert item in [item];
    }
  }

  lemma {:induction false} NotedItems(s: State, items: seq<Item>, maximum: nat)
    requires TakeItems(s, items, maximum).Ok?
    ensures Noted(s, TakeItems(s, items, maximum).value, items)
    decreases |items|
  {
    hide TakeItem, Noted;
    if items == [] {
      NotedNothing(s);
    } else {
      var m := TakeItem(s, items[0], maximum).value;
      NotedOne(s, items[0], maximum);
      NotedItems(m, items[1..], maximum);
      NotedBoth(s, m, TakeItems(s, items, maximum).value, [items[0]], items[1..]);
      assert [items[0]] + items[1..] == items;
    }
  }

  lemma NotedEvent(s: State, event: Event, maximum: nat)
    requires Process(s, event, maximum).Ok?
    ensures Noted(s, Process(s, event, maximum).value.0, ItemsOf(event))
  {
    hide TakeItem, TakeItems;
    match event
    case ItemDone(item) => NotedOne(s, item, maximum);
    case Completed(output, _) => NotedItems(s.(completed := true), output, maximum);
    case _ =>
  }

  lemma {:induction false} NotedAll(s: State, events: seq<Event>, partials: seq<Partial>, maximum: nat)
    requires ProcessAll(s, events, partials, maximum).Ok?
    ensures Noted(s, ProcessAll(s, events, partials, maximum).value.0, Items(events))
    decreases |events|
  {
    hide Process, Noted, ItemsOf;
    if events == [] {
      NotedNothing(s);
    } else {
      var step := Process(s, events[0], maximum).value;
      NotedEvent(s, events[0], maximum);
      var more := if step.1.Some? then partials + [step.1.value] else partials;
      NotedAll(step.0, events[1..], more, maximum);
      NotedBoth(s, step.0, ProcessAll(s, events, partials, maximum).value.0, ItemsOf(events[0]), Items(events[1..]));
    }
  }

  lemma NotedNothing(s: State)
    ensures Noted(s, s, [])
  {
  }

  /** The reason given for a stream that is read and gives no result: the first of these that applies. */
  lemma ReasonMeaning(events: seq<Event>, maximum: nat)
    requires ProcessAll(INITIAL, events, [], maximum).Ok? && Outcome(events, maximum).Err?
    ensures Outcome(events, maximum).error ==
      if LastFailure(None, events).Some? then Reported(LastFailure(None, events).value)
      else if !AnyCompleted(events) then Unfinished
      else if AnyPart(Items(events), Refusal) then Declined
      else if AnyCall(Items(events), FailedStatus) then ToolFailed
      else NoImage
  {
    hide ProcessAll, LastFailure, AnyCompleted, ImageCalls, AllReadable, AllAgree, FirstImage, LastRevised, LastUsage;
    ReadMeaning(INITIAL, events, [], maximum);
    NotedAll(INITIAL, events, [], maximum);
  }
}
