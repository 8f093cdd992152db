/** What a negotiation makes of every field of a request, and when it succeeds, without the steps that lead there. */
module NegotiationValues {
  import opened Wrappers
  import opened Capabilities
  import opened Negotiation

  // ----- the value of each field

  function Distance(a: nat, b: nat): nat {
    if a <= b then b - a else a - b
  }

  /** `y` is in the range, and nothing in it is nearer to `x`. */
  ghost predicate Nearest(x: nat, y: nat, min: nat, max: nat) {
    min <= y <= max && forall z :: min <= z <= max ==> Distance(x, y) <= Distance(x, z)
  }

  /** A supported value stays; any other gives way to the preferred one, or else to the least there is. */
  predicate Replaced<T(==)>(asked: T, given: T, supported: seq<T>, preferred: T) {
    if asked in supported then given == asked
    else if preferred in supported then given == preferred
    else supported != [] && given == supported[0]
  }

  /** A negative prompt is honored as it is. */
  predicate Honored(mode: NegativePromptMode, support: SupportLevel) {
    (mode == NativePrompt || mode == AutoPrompt) && support == Native
  }

  /** A negative prompt becomes part of the prompt. */
  predicate Merged(mode: NegativePromptMode, support: SupportLevel) {
    mode == MergePrompt || (mode == AutoPrompt && support == Emulated)
  }

  /** What is settled for the field of one step, of the request as it was and as it is in the end. */
  ghost predicate Chosen(stage: Stage, r: Request, t: Request, p: Provider) {
    var q, e := r.parameters, t.parameters;
    match stage
    case ActionStage =>
      if q.action in p.actions then e.action == q.action else e.action == AutoAction && AutoAction in p.actions
    case CountStage => Nearest(q.n, e.n, p.count.min, p.count.max)
    case SizeStage =>
      if SizeSupported(q.size, p.sizes) then e.size == q.size
      else if q.size.Exact? && p.sizes.auto then e.size == AutoSize
      else p.sizes.allowed != [] && e.size == p.sizes.allowed[0]
    case AspectRatioStage => e.aspectRatio == if p.aspectRatio == Unsupported then None else q.aspectRatio
    case ResolutionStage => e.resolution == if p.resolution == Unsupported then None else q.resolution
    case QualityStage => Replaced(q.quality, e.quality, p.qualities, AutoQuality)
    case FormatStage => Replaced(q.outputFormat, e.outputFormat, p.outputFormats, Png)
    case CompressionStage => e.outputCompression == if e.outputFormat == Png then None else q.outputCompression
    case BackgroundStage => Replaced(q.background, e.background, p.backgrounds, AutoBackground)
    case ModerationStage => Replaced(q.moderation, e.moderation, p.moderation, AutoModeration)
    case PartialImagesStage => Nearest(q.partialImages, e.partialImages, p.partialImages.min, p.partialImages.max)
    case NegativePromptStage =>
      match r.negativePrompt
      case None => t.negativePrompt == None && t.prompt == r.prompt
      case Some(avoided) =>
        if Honored(r.policies.negativePrompt, p.negativePrompt) then
          t.negativePrompt == Some(avoided) && t.prompt == r.prompt
        else
          && t.negativePrompt == None
          && t.prompt == r.prompt + ("\n\nNegative constraints " + "(avoid these elements): ") + avoided
  }

  /** An edge of an arbitrary size, beside the other one. */
  predicate EdgeWithin(edge: nat, other: nat, s: Sizes) {
    && (s.minEdge.Some? ==> edge >= s.minEdge.value) && (s.maxEdge.Some? ==> edge <= s.maxEdge.value)
    && (s.edgeMultiple.Some? ==> edge % s.edgeMultiple.value == 0)
    && (s.maxAspectRatio.Some? ==> edge as real <= s.maxAspectRatio.value * other as real)
  }

  /** A size is supported by name, or because both of its edges and its area are within the bounds. */
  lemma SizeSupportedIff(size: ImageSize, s: Sizes)
    ensures SizeSupported(size, s) <==>
      match size
      case AutoSize => s.auto
      case Exact(width, height) =>
        || size in s.allowed
        || (s.arbitrary && EdgeWithin(width, height, s) && EdgeWithin(height, width, s)
          && (s.minPixels.Some? ==> width * height >= s.minPixels.value)
          && (s.maxPixels.Some? ==> width * height <= s.maxPixels.value))
  {
    if size.Exact? && s.maxAspectRatio.Some? {
      RatioIff(Min(size.width, size.height), Max(size.width, size.height), s.maxAspectRatio.value);
    }
  }

  lemma RatioIff(short: nat, long: nat, bound: real)
    requires 0 < short <= long
    ensures long as real / short as real <= bound <==> long as real <= bound * short as real
    ensures long as real <= bound * short as real ==> short as real <= bound * long as real
  {
    var x, y := short as real, long as real;
    assert y == y / x * x;
    if y / x <= bound {
      assert y / x * x <= bound * x;
    } else {
      assert y / x * x > bound * x;
    }
    if y <= bound * x {
      assert (bound - 1.0) * x >= 0.0;
      assert bound * y >= y;
    }
  }

  /** The record of one step: what was asked, and what is given for it. */
  function Recorded(stage: Stage, r: Request, t: Request, p: Provider): seq<Change> {
    var q, e := r.parameters, t.parameters;
    match stage
    case ActionStage => if q.action == e.action then [] else [ActionChange(q.action)]
    case CountStage => if q.n == e.n then [] else [CountChange(q.n, e.n)]
    case SizeStage => if SizeSupported(q.size, p.sizes) then [] else [SizeChange(q.size, e.size)]
    case AspectRatioStage =>
      if q.aspectRatio == e.aspectRatio || q.aspectRatio == None then [] else [AspectRatioDropped(q.aspectRatio.value)]
    case ResolutionStage =>
      if q.resolution == e.resolution || q.resolution == None then [] else [ResolutionDropped(q.resolution.value)]
    case QualityStage => if q.quality == e.quality then [] else [QualityChange(q.quality, e.quality)]
    case FormatStage =>
      if q.outputFormat == e.outputFormat then [] else [FormatChange(q.outputFormat, e.outputFormat)]
    case CompressionStage =>
      if q.outputCompression == e.outputCompression || q.outputCompression == None then []
      else [CompressionDropped(q.outputCompression.value)]
    case BackgroundStage => if q.background == e.background then [] else [BackgroundChange(q.background, e.background)]
    case ModerationStage => if q.moderation == e.moderation then [] else [ModerationChange(q.moderation, e.moderation)]
    case PartialImagesStage =>
      if q.partialImages == e.partialImages then [] else [PartialImagesChange(q.partialImages, e.partialImages)]
    case NegativePromptStage => if r.negativePrompt == t.negativePrompt then [] else [NegativePromptMerged]
  }

  function RecordedAll(stages: seq<Stage>, r: Request, t: Request, p: Provider): seq<Change> {
    if stages == [] then [] else Recorded(stages[0], r, t, p) + RecordedAll(stages[1..], r, t, p)
  }

  /** Whether something can be settled for the field at all, of a strict request without changing what was asked. */
  predicate Possible(stage: Stage, r: Request, p: Provider) {
    var q, strict := r.parameters, r.policies.compatibility == Strict;
    match stage
    case ActionStage => q.action in p.actions || AutoAction in p.actions
    case CountStage => p.count.min <= q.n <= p.count.max || !strict
    case SizeStage =>
      || SizeSupported(q.size, p.sizes)
      || (!strict && ((q.size.Exact? && p.sizes.auto) || p.sizes.allowed != []))
    case AspectRatioStage => q.aspectRatio == None || p.aspectRatio != Unsupported || !strict
    case ResolutionStage => q.resolution == None || p.resolution != Unsupported || !strict
    case QualityStage => q.quality in p.qualities || (!strict && p.qualities != [])
    case FormatStage => q.outputFormat in p.outputFormats || (!strict && p.outputFormats != [])
    case CompressionStage => q.outputCompression == None || q.outputFormat != Png || !strict
    case BackgroundStage => q.background in p.backgrounds || (!strict && p.backgrounds != [])
    case ModerationStage => q.moderation in p.moderation || (!strict && p.moderation != [])
    case PartialImagesStage => p.partialImages.min <= q.partialImages <= p.partialImages.max || !strict
    case NegativePromptStage =>
      var mode := r.policies.negativePrompt;
      r.negativePrompt == None || Honored(mode, p.negativePrompt) || Merged(mode, p.negativePrompt)
  }

  /** The same value in the field of this step. */
  predicate SameField(stage: Stage, r: Request, t: Request) {
    var q, e := r.parameters, t.parameters;
    match stage
    case ActionStage => e.action == q.action
    case CountStage => e.n == q.n
    case SizeStage => e.size == q.size
    case AspectRatioStage => e.aspectRatio == q.aspectRatio
    case ResolutionStage => e.resolution == q.resolution
    case QualityStage => e.quality == q.quality
    case FormatStage => e.outputFormat == q.outputFormat
    case CompressionStage => e.outputCompression == q.outputCompression
    case BackgroundStage => e.background == q.background
    case ModerationStage => e.moderation == q.moderation
    case PartialImagesStage => e.partialImages == q.partialImages
    case NegativePromptStage => t.negativePrompt == r.negativePrompt && t.prompt == r.prompt
  }

  // ----- one step

  lemma ClampIsNearest(x: U8, range: Range)
    requires range.min <= range.max
    ensures Nearest(x, range.Clamp(x), range.min, range.max)
    ensures range.Contains(x) ==> range.Clamp(x) == x
  {
  }

  lemma StepOkIff(stage: Stage, r: Request, p: Provider)
    ensures Apply(stage, r, p).Ok? <==> Possible(stage, r, p)
  {
    hide SizeSupported;
  }

  lemma StepChooses(stage: Stage, r: Request, p: Provider)
    requires p.Valid() && Apply(stage, r, p).Ok?
    ensures var (t, changes) := Apply(stage, r, p).value;
      Chosen(stage, r, t, p) && changes == Recorded(stage, r, t, p)
  {
    hide SizeSupported, Nearest;
    ClampIsNearest(r.parameters.n, p.count);
    ClampIsNearest(r.parameters.partialImages, p.partialImages);
  }

  lemma StepKeepsFields(stage: Stage, other: Stage, r: Request, p: Provider)
    requires Apply(stage, r, p).Ok? && other != stage
    ensures SameField(other, r, Apply(stage, r, p).value.0)
  {
    hide Apply, SameBut, SameField;
    ApplyTouches(stage, r, p);
    var t := Apply(stage, r, p).value.0;
    if other == NegativePromptStage {
      OutsidePrompts(stage, r, t);
    } else if stage == NegativePromptStage {
      SameParameters(other, r, t);
    } else {
      InsideParameters(stage, other, r, t);
    }
  }

  lemma OutsidePrompts(stage: Stage, r: Request, t: Request)
    requires SameBut(stage, r, t) && stage != NegativePromptStage
    ensures SameField(NegativePromptStage, r, t)
  {
  }

  lemma SameParameters(other: Stage, r: Request, t: Request)
    requires SameBut(NegativePromptStage, r, t) && other != NegativePromptStage
    ensures SameField(other, r, t)
  {
  }

  lemma InsideParameters(stage: Stage, other: Stage, r: Request, t: Request)
    requires SameBut(stage, r, t) && stage != other && stage != NegativePromptStage && other != NegativePromptStage
    ensures SameField(other, r, t)
  {
  }

  // ----- one step among others

  lemma ChosenThrough(stage: Stage, r: Request, m: Request, t: Request, p: Provider)
    requires Chosen(stage, r, m, p) && SameField(stage, m, t)
    requires stage == CompressionStage ==> SameField(FormatStage, m, t)
    ensures Chosen(stage, r, t, p) && Recorded(stage, r, m, p) == Recorded(stage, r, t, p)
  {
    hide SizeSupported, Nearest;
  }

  lemma ChosenLater(stage: Stage, r: Request, m: Request, t: Request, p: Provider)
    requires SameField(stage, r, m) && SameFrame(r, m)
    ensures Chosen(stage, m, t, p) <==> Chosen(stage, r, t, p)
    ensures Recorded(stage, m, t, p) == Recorded(stage, r, t, p)
    ensures stage != CompressionStage ==> (Possible(stage, m, p) <==> Possible(stage, r, p))
  {
    hide SizeSupported, Nearest;
  }

  lemma {:induction false} RecordedLater(stages: seq<Stage>, r: Request, m: Request, t: Request, p: Provider)
    requires SameFrame(r, m) && forall stage :: stage in stages ==> SameField(stage, r, m)
    ensures RecordedAll(stages, m, t, p) == RecordedAll(stages, r, t, p)
  {
    hide Recorded, SameField;
    if stages != [] {
      ChosenLater(stages[0], r, m, t, p);
      RecordedLater(stages[1..], r, m, t, p);
    }
  }

  lemma SameThrough(stage: Stage, r: Request, m: Request, t: Request)
    requires SameField(stage, r, m) && SameField(stage, m, t)
    ensures SameField(stage, r, t)
  {
  }

  lemma {:induction false} StepsChoose(stages: seq<Stage>, r: Request, changes: seq<Change>, p: Provider)
    requires p.Valid() && Ordered(stages) && ApplyAll(stages, r, changes, p).Ok?
    ensures var (t, record) := ApplyAll(stages, r, changes, p).value;
      && SameFrame(r, t)
      && (forall stage :: stage in stages ==> Chosen(stage, r, t, p))
      && (forall stage :: stage !in stages ==> SameField(stage, r, t))
      && record == changes + RecordedAll(stages, r, t, p)
    decreases |stages|
  {
    hide Apply, Chosen, Recorded, SameField;
    if stages == [] {
      forall stage ensures SameField(stage, r, r) {
        FieldItself(stage, r);
      }
    } else {
      var first, rest := stages[0], stages[1..];
      var (m, more) := Apply(first, r, p).value;
      StepChooses(first, r, p);
      OtherFrame(first, r, p);
      OrderedRest(stages);
      StepsChoose(rest, m, changes + more, p);
      var t := ApplyAll(stages, r, changes, p).value.0;
      forall stage | stage != first ensures SameField(stage, r, m) {
        StepKeepsFields(first, stage, r, p);
      }
      ChosenThrough(first, r, m, t, p);
      forall stage | stage in rest ensures Chosen(stage, r, t, p) {
        ChosenLater(stage, r, m, t, p);
      }
      forall stage | stage !in stages ensures SameField(stage, r, t) {
        SameThrough(stage, r, m, t);
      }
      RecordedLater(rest, r, m, t, p);
      assert changes + more + RecordedAll(rest, m, t, p) == changes + (more + RecordedAll(rest, m, t, p));
    }
  }

  lemma FieldItself(stage: Stage, r: Request)
    ensures SameField(stage, r, r)
  {
  }

  lemma OtherFrame(stage: Stage, r: Request, p: Provider)
    requires Apply(stage, r, p).Ok?
    ensures SameFrame(r, Apply(stage, r, p).value.0)
  {
    hide Apply;
    ApplyTouches(stage, r, p);
  }

  lemma OrderedRest(stages: seq<Stage>)
    requires stages != [] && Ordered(stages)
    ensures Ordered(stages[1..]) && stages[0] !in stages[1..]
    ensures stages[0] == CompressionStage ==> FormatStage !in stages[1..]
  {
  }

  // ----- when it succeeds

  /** The first step that cannot be taken. */
  function FirstImpossible(stages: seq<Stage>, r: Request, p: Provider): Option<Stage> {
    if stages == [] then None
    else if !Possible(stages[0], r, p) then Some(stages[0])
    else FirstImpossible(stages[1..], r, p)
  }

  /** A compression is judged by the format asked for, which a strict request keeps. */
  lemma PossibleLater(first: Stage, stage: Stage, r: Request, p: Provider)
    requires p.Valid() && Apply(first, r, p).Ok? && stage != first
    ensures Possible(stage, Apply(first, r, p).value.0, p) <==> Possible(stage, r, p)
  {
    hide Apply, SameField;
    var m := Apply(first, r, p).value.0;
    StepKeepsFields(first, stage, r, p);
    OtherFrame(first, r, p);
    ChosenLater(stage, r, m, m, p);
    if stage == CompressionStage {
      CompressionLater(first, r, p);
    }
  }

  lemma CompressionLater(first: Stage, r: Request, p: Provider)
    requires p.Valid() && Apply(first, r, p).Ok? && first != CompressionStage
    ensures Possible(CompressionStage, Apply(first, r, p).value.0, p) <==> Possible(CompressionStage, r, p)
  {
    hide Apply;
    StepKeepsFields(first, CompressionStage, r, p);
    OtherFrame(first, r, p);
    if first == FormatStage {
      StepOkIff(first, r, p);
      StepChooses(first, r, p);
    } else {
      StepKeepsFields(first, FormatStage, r, p);
    }
  }

  lemma {:induction false} StepsOkIff(stages: seq<Stage>, r: Request, changes: seq<Change>, p: Provider)
    requires p.Valid() && Ordered(stages)
    ensures var refused := FirstImpossible(stages, r, p);
      if refused.Some? then ApplyAll(stages, r, changes, p) == Err(UnsupportedField(Field(refused.value)))
      else ApplyAll(stages, r, changes, p).Ok?
    decreases |stages|
  {
    hide Apply, Possible, Ordered;
    if stages != [] {
      var first, rest := stages[0], stages[1..];
      StepOkIff(first, r, p);
      OrderedRest(stages);
      if Apply(first, r, p).Ok? {
        var (m, more) := Apply(first, r, p).value;
        StepsOkIff(rest, m, changes + more, p);
        ImpossibleLater(first, rest, r, p);
      } else {
        RefusesItself(first, r, p);
      }
    }
  }

  lemma RefusesItself(stage: Stage, r: Request, p: Provider)
    requires Apply(stage, r, p).Err?
    ensures Apply(stage, r, p) == Err(UnsupportedField(Field(stage)))
  {
    hide SizeSupported;
  }

  lemma {:induction false} ImpossibleLater(first: Stage, rest: seq<Stage>, r: Request, p: Provider)
    requires p.Valid() && Apply(first, r, p).Ok? && first !in rest
    ensures FirstImpossible(rest, Apply(first, r, p).value.0, p) == FirstImpossible(rest, r, p)
  {
    hide Apply, Possible;
    if rest != [] {
      PossibleLater(first, rest[0], r, p);
      ImpossibleLater(first, rest[1..], r, p);
    }
  }

  /** What no normalization can make up for. */
  predicate Admissible(r: Request, p: Provider) {
    && (r.model == None || p.model == None || r.model == p.model)
    && (match r.operation
        case Generate(references) => p.generation && Taken(references, p.referenceImages)
        case Edit(images, mask, references) =>
          && p.edits && Taken(references, p.referenceImages)
          && images <= p.editImages.maxCount && p.editImages.support != Unsupported
          && (mask ==> p.masks.maxCount > 0 && p.masks.support != Unsupported))
    && (r.session == Persistent ==> p.persistentSessions) && (r.session == Thread ==> p.explicitThreads)
    && (r.user.Some? ==> p.userAttribution != Unsupported)
    && (r.parameters.inputFidelity.Some? ==> r.parameters.inputFidelity.value in p.inputFidelities)
  }

  predicate Taken(count: nat, inputs: Inputs) {
    count <= inputs.maxCount && (count > 0 ==> inputs.support != Unsupported)
  }

  lemma CheckIff(r: Request, p: Provider)
    ensures Check(r, p) == None <==> Admissible(r, p)
  {
  }

  /** When a negotiation succeeds, and which field it refuses otherwise. */
  lemma NegotiateOkIff(r: Request, p: Provider)
    ensures Negotiate(r, p).Ok? <==>
      && p.Valid() && Admissible(r, p) && (forall stage: Stage :: Possible(stage, r, p))
      && (r.policies.revisedPrompt == Require ==> p.revisedPrompt != Unsupported)
    ensures p.Valid() && Admissible(r, p) && FirstImpossible(STAGES, r, p).Some? ==>
      Negotiate(r, p) == Err(UnsupportedField(Field(FirstImpossible(STAGES, r, p).value)))
  {
    hide Admissible, Check, Possible, Ordered, ApplyAll, FirstImpossible;
    CheckIff(r, p);
    StagesOrdered();
    if p.Valid() {
      StepsOkIff(STAGES, r, [], p);
    }
    NoneImpossibleIff(STAGES, r, p);
  }

  lemma {:induction false} NoneImpossibleIff(stages: seq<Stage>, r: Request, p: Provider)
    ensures FirstImpossible(stages, r, p) == None <==> forall stage :: stage in stages ==> Possible(stage, r, p)
  {
    hide Possible;
    if stages != [] {
      NoneImpossibleIff(stages[1..], r, p);
      assert forall stage :: stage in stages <==> stage == stages[0] || stage in stages[1..];
    }
  }

  /** Every field of a negotiated request, and the record of how it came about. */
  lemma NegotiatedValues(r: Request, p: Provider)
    requires Negotiate(r, p).Ok?
    ensures var (t, record) := Negotiate(r, p).value;
      && SameFrame(r, t)
      && (forall stage: Stage :: Chosen(stage, r, t, p))
      && record == RecordedAll(STAGES, r, t, p)
  {
    hide Apply, Chosen, RecordedAll, Check, Ordered;
    StagesOrdered();
    StepsChoose(STAGES, r, [], p);
    var t := Negotiate(r, p).value.0;
    assert [] + RecordedAll(STAGES, r, t, p) == RecordedAll(STAGES, r, t, p);
  }
}
