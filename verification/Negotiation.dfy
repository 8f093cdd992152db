/** What a provider declares it can do. */
module Capabilities {
  import opened Wrappers

  datatype SupportLevel = Native | Emulated | Unsupported
  datatype ImageAction = AutoAction | GenerateAction | EditAction
  datatype ImageSize = AutoSize | Exact(width: Positive, height: Positive)
  datatype Quality = AutoQuality | Low | Medium | High
  datatype OutputFormat = Png | Jpeg | Webp
  datatype Background = AutoBackground | Opaque | Transparent
  datatype Moderation = AutoModeration | LowModeration
  datatype InputFidelity = LowFidelity | HighFidelity
  datatype BatchMode = NativeBatch | FanOut

  type Positive = n: nat | n > 0 witness 1

  type U8 = n: nat | n <= 255

  datatype Range = Range(min: U8, max: U8) {
    predicate Contains(value: U8) {
      min <= value <= max
    }

    function Clamp(value: U8): U8 {
      if value < min then min else if value > max then max else value
    }
  }

  datatype Batching = Batching(mode: BatchMode, nativeCount: Range, maxParallelOutputs: U8)

  datatype Sizes = Sizes(
    auto: bool, allowed: seq<ImageSize>, arbitrary: bool, minEdge: Option<nat>, maxEdge: Option<nat>,
    edgeMultiple: Option<Positive>, minPixels: Option<nat>, maxPixels: Option<nat>, maxAspectRatio: Option<real>)

  datatype Inputs = Inputs(support: SupportLevel, maxCount: nat)

  /** A set of values is the sequence of its elements in their order. */
  datatype Provider = Provider(
    name: string, model: Option<string>, generation: bool, edits: bool, count: Range, batching: Batching, sizes: Sizes,
    aspectRatio: SupportLevel, resolution: SupportLevel, qualities: seq<Quality>, outputFormats: seq<OutputFormat>,
    backgrounds: seq<Background>, transparentBackground: SupportLevel, moderation: seq<Moderation>,
    negativePrompt: SupportLevel, revisedPrompt: SupportLevel, userAttribution: SupportLevel,
    inputFidelities: seq<InputFidelity>, actions: seq<ImageAction>, referenceImages: Inputs, editImages: Inputs,
    masks: Inputs, partialImages: Range, persistentSessions: bool, explicitThreads: bool) {

    predicate Valid() {
      && 0 < count.min <= count.max
      && 0 < batching.nativeCount.min <= batching.nativeCount.max
      && count.min <= batching.nativeCount.min && batching.nativeCount.max <= count.max
      && 0 < batching.maxParallelOutputs <= count.max
      && (batching.mode == NativeBatch ==> batching.nativeCount == count)
      && (batching.mode == FanOut ==> batching.nativeCount.max < count.max)
      && partialImages.min <= partialImages.max
      && (Transparent in backgrounds <==> transparentBackground == Native)
      && (transparentBackground == Emulated ==>
        && (AutoBackground in backgrounds || Opaque in backgrounds)
        && (Png in outputFormats || Webp in outputFormats))
    }
  }
}

/** Fitting a request to a provider, with a record of every change. */
module Negotiation {
  import opened Wrappers
  import opened Capabilities

  datatype Resolution = OneK | TwoK | FourK
  datatype CompatibilityMode = Strict | Normalize | BestEffort
  datatype NegativePromptMode = AutoPrompt | NativePrompt | MergePrompt | RejectPrompt
  datatype RevisedPromptPolicy = Include | Omit | Require
  datatype SessionMode = Isolated | Persistent | Thread
  datatype Operation = Generate(references: nat) | Edit(images: nat, mask: bool, references: nat)

  datatype Parameters = Parameters(
    action: ImageAction, n: U8, size: ImageSize, aspectRatio: Option<string>, resolution: Option<Resolution>,
    quality: Quality, outputFormat: OutputFormat, outputCompression: Option<U8>, background: Background,
    moderation: Moderation, inputFidelity: Option<InputFidelity>, partialImages: U8)

  datatype Policies = Policies(
    compatibility: CompatibilityMode, negativePrompt: NegativePromptMode, revisedPrompt: RevisedPromptPolicy)

  datatype Request = Request(
    prompt: string, negativePrompt: Option<string>, operation: Operation, parameters: Parameters, policies: Policies,
    session: SessionMode, model: Option<string>, user: Option<string>) {

    predicate IsStrict() {
      policies.compatibility == Strict
    }

    function Under(mode: CompatibilityMode): Request {
      this.(policies := policies.(compatibility := mode))
    }
  }

  /** One recorded normalization: the field, what was asked and what is done, and why. */
  datatype Change =
    | ActionChange(action: ImageAction)
    | CountChange(count: U8, countTo: U8)
    | SizeChange(size: ImageSize, sizeTo: ImageSize)
    | AspectRatioDropped(ratio: string)
    | ResolutionDropped(resolution: Resolution)
    | QualityChange(quality: Quality, qualityTo: Quality)
    | FormatChange(format: OutputFormat, formatTo: OutputFormat)
    | CompressionDropped(compression: U8)
    | BackgroundChange(background: Background, backgroundTo: Background)
    | ModerationChange(moderation: Moderation, moderationTo: Moderation)
    | PartialImagesChange(partial: U8, partialTo: U8)
    | NegativePromptMerged

  datatype Error = InvalidCapabilities | UnsupportedField(field: string)

  type Outcome = Result<(Request, seq<Change>), Error>

  // ----- checks that change nothing

  function CheckInputs(r: Request, p: Provider): Option<string> {
    if r.operation.references > p.referenceImages.maxCount then Some("reference_images")
    else if r.operation.references > 0 && p.referenceImages.support == Unsupported then Some("reference_images")
    else match r.operation
      case Generate(_) => None
      case Edit(images, mask, _) =>
        if images > p.editImages.maxCount || p.editImages.support == Unsupported then Some("images")
        else if mask && (p.masks.support == Unsupported || p.masks.maxCount == 0) then Some("mask")
        else None
  }

  /** The first field of the request that the provider cannot honor at all. */
  function Check(r: Request, p: Provider): Option<string> {
    if r.model.Some? && p.model.Some? && r.model != p.model then Some("routing.model")
    else if !(if r.operation.Generate? then p.generation else p.edits) then Some("operation")
    else if CheckInputs(r, p).Some? then CheckInputs(r, p)
    else if (r.session == Persistent && !p.persistentSessions) || (r.session == Thread && !p.explicitThreads)
    then Some("session.mode")
    else if r.user.Some? && p.userAttribution == Unsupported then Some("user")
    else if r.parameters.inputFidelity.Some? && r.parameters.inputFidelity.value !in p.inputFidelities
    then Some("parameters.input_fidelity")
    else None
  }

  // ----- steps that normalize

  datatype Stage =
    | ActionStage | CountStage | SizeStage | AspectRatioStage | ResolutionStage | QualityStage | FormatStage
    | CompressionStage | BackgroundStage | ModerationStage | PartialImagesStage | NegativePromptStage

  const STAGES := [
    ActionStage, CountStage, SizeStage, AspectRatioStage, ResolutionStage, QualityStage, FormatStage, CompressionStage,
    BackgroundStage, ModerationStage, PartialImagesStage, NegativePromptStage]

  function Field(stage: Stage): string {
    match stage
    case ActionStage => "parameters.action"
    case CountStage => "parameters.n"
    case SizeStage => "parameters.size"
    case AspectRatioStage => "parameters.aspect_ratio"
    case ResolutionStage => "parameters.resolution"
    case QualityStage => "parameters.quality"
    case FormatStage => "parameters.output_format"
    case CompressionStage => "parameters.output_compression"
    case BackgroundStage => "parameters.background"
    case ModerationStage => "parameters.moderation"
    case PartialImagesStage => "parameters.partial_images"
    case NegativePromptStage => "negative_prompt"
  }

  function Least<T>(s: seq<T>): Option<T> {
    if s == [] then None else Some(s[0])
  }

  /** The preferred value if it is supported, and the least supported one otherwise. */
  function Fallback<T(==)>(supported: seq<T>, preferred: T): Option<T> {
    if preferred in supported then Some(preferred) else Least(supported)
  }

  function Min(a: nat, b: nat): nat {
    if a <= b then a else b
  }

  function Max(a: nat, b: nat): nat {
    if a >= b then a else b
  }

  predicate SizeSupported(size: ImageSize, s: Sizes) {
    match size
    case AutoSize => s.auto
    case Exact(width, height) =>
      || size in s.allowed
      || (var short, long, pixels := Min(width, height), Max(width, height), width * height;
        && s.arbitrary
        && (s.minEdge.Some? ==> short >= s.minEdge.value)
        && (s.maxEdge.Some? ==> long <= s.maxEdge.value)
        && (s.edgeMultiple.Some? ==> width % s.edgeMultiple.value == 0 && height % s.edgeMultiple.value == 0)
        && (s.minPixels.Some? ==> pixels >= s.minPixels.value)
        && (s.maxPixels.Some? ==> pixels <= s.maxPixels.value)
        && (s.maxAspectRatio.Some? ==> long as real / short as real <= s.maxAspectRatio.value))
  }

  function SizeFallback(size: ImageSize, s: Sizes): Option<ImageSize> {
    if size != AutoSize && s.auto then Some(AutoSize) else Least(s.allowed)
  }

  const MERGE_TEXT := "\n\nNegative constraints " + "(avoid these elements): "

  /** Whether a negative prompt is merged into the prompt; nothing when it is refused. */
  function Merges(mode: NegativePromptMode, support: SupportLevel): Option<bool> {
    match mode
    case RejectPrompt => None
    case NativePrompt => if support == Native then Some(false) else None
    case MergePrompt => Some(true)
    case AutoPrompt =>
      match support
      case Native => Some(false)
      case Emulated => Some(true)
      case Unsupported => None
  }

  /** A change that only a lenient request accepts. */
  function Lenient(r: Request, field: string, changed: Request, change: Change): Outcome {
    if r.IsStrict() then Err(UnsupportedField(field)) else Ok((changed, [change]))
  }

  function Apply(stage: Stage, r: Request, p: Provider): Outcome {
    var q := r.parameters;
    var refused := Err(UnsupportedField(Field(stage)));
    match stage
    case ActionStage =>
      if q.action in p.actions then Ok((r, []))
      else if q.action != AutoAction && AutoAction in p.actions
      then Ok((r.(parameters := q.(action := AutoAction)), [ActionChange(q.action)]))
      else refused
    case CountStage =>
      if p.count.Contains(q.n) then Ok((r, []))
      else Lenient(r, Field(stage), r.(parameters := q.(n := p.count.Clamp(q.n))), CountChange(q.n, p.count.Clamp(q.n)))
    case SizeStage =>
      if SizeSupported(q.size, p.sizes) then Ok((r, []))
      else if r.IsStrict() then refused
      else (match SizeFallback(q.size, p.sizes)
        case None => refused
        case Some(size) => Ok((r.(parameters := q.(size := size)), [SizeChange(q.size, size)])))
    case AspectRatioStage =>
      if q.aspectRatio.Some? && p.aspectRatio == Unsupported
      then Lenient(r, Field(stage), r.(parameters := q.(aspectRatio := None)), AspectRatioDropped(q.aspectRatio.value))
      else Ok((r, []))
    case ResolutionStage =>
      if q.resolution.Some? && p.resolution == Unsupported
      then Lenient(r, Field(stage), r.(parameters := q.(resolution := None)), ResolutionDropped(q.resolution.value))
      else Ok((r, []))
    case QualityStage =>
      if q.quality in p.qualities then Ok((r, []))
      else (match Fallback(p.qualities, AutoQuality)
        case None => refused
        case Some(v) => Lenient(r, Field(stage), r.(parameters := q.(quality := v)), QualityChange(q.quality, v)))
    case FormatStage =>
      if q.outputFormat in p.outputFormats then Ok((r, []))
      else (match Fallback(p.outputFormats, Png)
        case None => refused
        case Some(v) =>
          Lenient(r, Field(stage), r.(parameters := q.(outputFormat := v)), FormatChange(q.outputFormat, v)))
    case CompressionStage =>
      if q.outputCompression.Some? && q.outputFormat == Png
      then Lenient(r, Field(stage), r.(parameters := q.(outputCompression := None)),
        CompressionDropped(q.outputCompression.value))
      else Ok((r, []))
    case BackgroundStage =>
      if q.background in p.backgrounds then Ok((r, []))
      else (match Fallback(p.backgrounds, AutoBackground)
        case None => refused
        case Some(v) =>
          Lenient(r, Field(stage), r.(parameters := q.(background := v)), BackgroundChange(q.background, v)))
    case ModerationStage =>
      if q.moderation in p.moderation then Ok((r, []))
      else (match Fallback(p.moderation, AutoModeration)
        case None => refused
        case Some(v) =>
          Lenient(r, Field(stage), r.(parameters := q.(moderation := v)), ModerationChange(q.moderation, v)))
    case PartialImagesStage =>
      if p.partialImages.Contains(q.partialImages) then Ok((r, []))
      else
        var v := p.partialImages.Clamp(q.partialImages);
        Lenient(r, Field(stage), r.(parameters := q.(partialImages := v)), PartialImagesChange(q.partialImages, v))
    case NegativePromptStage =>
      if r.negativePrompt == None then Ok((r, []))
      else (match Merges(r.policies.negativePrompt, p.negativePrompt)
        case None => refused
        case Some(false) => Ok((r, []))
        case Some(true) =>
          Ok((r.(prompt := r.prompt + MERGE_TEXT + r.negativePrompt.value, negativePrompt := None),
            [NegativePromptMerged])))
  }

  function ApplyAll(stages: seq<Stage>, r: Request, changes: seq<Change>, p: Provider): Outcome
    decreases |stages|
  {
    if stages == [] then Ok((r, changes))
    else match Apply(stages[0], r, p)
      case Err(e) => Err(e)
      case Ok((changed, more)) => ApplyAll(stages[1..], changed, changes + more, p)
  }

  function Negotiate(r: Request, p: Provider): Outcome {
    if !p.Valid() then Err(InvalidCapabilities)
    else if Check(r, p).Some? then Err(UnsupportedField(Check(r, p).value))
    else match ApplyAll(STAGES, r, [], p)
      case Err(e) => Err(e)
      case Ok(result) =>
        if r.policies.revisedPrompt == Require && p.revisedPrompt == Unsupported
        then Err(UnsupportedField("policies.revised_prompt"))
        else Ok(result)
  }

  // ----- the negotiation as it runs

  /** The effective request and the record, as the steps change them. */
  class Negotiator {
    const provider: Provider
    var request: Request
    var normalizations: seq<Change>

    constructor (request: Request, provider: Provider)
      ensures this.provider == provider && this.request == request && normalizations == []
    {
      this.provider := provider;
      this.request := request;
      normalizations := [];
    }

    /** The steps have been taken from an earlier request and record. */
    ghost predicate Took(stages: seq<Stage>, before: Request, had: seq<Change>, r: Result<(), Error>)
      reads this
    {
      match ApplyAll(stages, before, had, provider)
      case Ok((t, changes)) => r.Ok? && request == t && normalizations == changes
      case Err(e) => r == Err(e)
    }

    method Record(change: Change)
      modifies this`normalizations
      ensures normalizations == old(normalizations) + [change]
    {
      normalizations := normalizations + [change];
    }

    method NegotiateAction() returns (r: Result<(), Error>)
      modifies this
      ensures Took([ActionStage], old(request), old(normalizations), r)
    {
      var q := request.parameters;
      if q.action in provider.actions {
        return Ok(());
      }
      if q.action != AutoAction && AutoAction in provider.actions {
        Record(ActionChange(q.action));
        request := request.(parameters := q.(action := AutoAction));
        return Ok(());
      }
      return Err(UnsupportedField("parameters.action"));
    }

    method NegotiateCount() returns (r: Result<(), Error>)
      modifies this
      ensures Took([CountStage], old(request), old(normalizations), r)
    {
      var q := request.parameters;
      if provider.count.Contains(q.n) {
        return Ok(());
      }
      if request.IsStrict() {
        return Err(UnsupportedField("parameters.n"));
      }
      var effective := provider.count.Clamp(q.n);
      Record(CountChange(q.n, effective));
      request := request.(parameters := q.(n := effective));
      return Ok(());
    }

    method NegotiateSize() returns (r: Result<(), Error>)
      modifies this
      ensures Took([SizeStage], old(request), old(normalizations), r)
    {
      var q := request.parameters;
      if SizeSupported(q.size, provider.sizes) {
        return Ok(());
      }
      if request.IsStrict() {
        return Err(UnsupportedField("parameters.size"));
      }
      var effective := SizeFallback(q.size, provider.sizes);
      if effective.None? {
        return Err(UnsupportedField("parameters.size"));
      }
      Record(SizeChange(q.size, effective.value));
      request := request.(parameters := q.(size := effective.value));
      return Ok(());
    }

    method NegotiateHints() returns (r: Result<(), Error>)
      modifies this
      ensures Took([AspectRatioStage, ResolutionStage], old(request), old(normalizations), r)
    {
      var ratio := request.parameters.aspectRatio;
      if ratio.Some? && provider.aspectRatio == Unsupported {
        if request.IsStrict() {
          return Err(UnsupportedField("parameters.aspect_ratio"));
        }
        request := request.(parameters := request.parameters.(aspectRatio := None));
        Record(AspectRatioDropped(ratio.value));
      }
      var resolution := request.parameters.resolution;
      if resolution.Some? && provider.resolution == Unsupported {
        if request.IsStrict() {
          return Err(UnsupportedField("parameters.resolution"));
        }
        request := request.(parameters := request.parameters.(resolution := None));
        Record(ResolutionDropped(resolution.value));
      }
      return Ok(());
    }

    method NegotiateQuality() returns (r: Result<(), Error>)
      modifies this
      ensures Took([QualityStage], old(request), old(normalizations), r)
    {
      var q := request.parameters;
      if q.quality in provider.qualities {
        return Ok(());
      }
      var effective := Fallback(provider.qualities, AutoQuality);
      if effective.None? || request.IsStrict() {
        return Err(UnsupportedField("parameters.quality"));
      }
      Record(QualityChange(q.quality, effective.value));
      request := request.(parameters := q.(quality := effective.value));
      return Ok(());
    }

    method NegotiateFormat() returns (r: Result<(), Error>)
      modifies this
      ensures Took([FormatStage, CompressionStage], old(request), old(normalizations), r)
    {
      var format := request.parameters.outputFormat;
      if format !in provider.outputFormats {
        var effective := Fallback(provider.outputFormats, Png);
        if effective.None? || request.IsStrict() {
          return Err(UnsupportedField("parameters.output_format"));
        }
        Record(FormatChange(format, effective.value));
        request := request.(parameters := request.parameters.(outputFormat := effective.value));
      }
      var compression := request.parameters.outputCompression;
      if compression.Some? && request.parameters.outputFormat == Png {
        if request.IsStrict() {
          return Err(UnsupportedField("parameters.output_compression"));
        }
        request := request.(parameters := request.parameters.(outputCompression := None));
        Record(CompressionDropped(compression.value));
      }
      return Ok(());
    }

    method NegotiateBackground() returns (r: Result<(), Error>)
      modifies this
      ensures Took([BackgroundStage], old(request), old(normalizations), r)
    {
      var q := request.parameters;
      if q.background in provider.backgrounds {
        return Ok(());
      }
      var effective := Fallback(provider.backgrounds, AutoBackground);
      if effective.None? || request.IsStrict() {
        return Err(UnsupportedField("parameters.background"));
      }
      Record(BackgroundChange(q.background, effective.value));
      request := request.(parameters := q.(background := effective.value));
      return Ok(());
    }

    method NegotiateModeration() returns (r: Result<(), Error>)
      modifies this
      ensures Took([ModerationStage], old(request), old(normalizations), r)
    {
      var q := request.parameters;
      if q.moderation in provider.moderation {
        return Ok(());
      }
      var effective := Fallback(provider.moderation, AutoModeration);
      if effective.None? || request.IsStrict() {
        return Err(UnsupportedField("parameters.moderation"));
      }
      Record(ModerationChange(q.moderation, effective.value));
      request := request.(parameters := q.(moderation := effective.value));
      return Ok(());
    }

    method NegotiatePartialImages() returns (r: Result<(), Error>)
      modifies this
      ensures Took([PartialImagesStage], old(request), old(normalizations), r)
    {
      var q := request.parameters;
      if provider.partialImages.Contains(q.partialImages) {
        return Ok(());
      }
      if request.IsStrict() {
        return Err(UnsupportedField("parameters.partial_images"));
      }
      var effective := provider.partialImages.Clamp(q.partialImages);
      Record(PartialImagesChange(q.partialImages, effective));
      request := request.(parameters := q.(partialImages := effective));
      return Ok(());
    }

    method NegotiateNegativePrompt() returns (r: Result<(), Error>)
      modifies this
      ensures Took([NegativePromptStage], old(request), old(normalizations), r)
    {
      if request.negativePrompt.None? {
        return Ok(());
      }
      var merge := Merges(request.policies.negativePrompt, provider.negativePrompt);
      if merge.None? {
        return Err(UnsupportedField("negative_prompt"));
      }
      if merge.value {
        request := request.(
          prompt := request.prompt + MERGE_TEXT + request.negativePrompt.value, negativePrompt := None);
        Record(NegativePromptMerged);
      }
      return Ok(());
    }

    /** Every step in order, stopping at the first that refuses. */
    method NegotiateSteps() returns (r: Result<(), Error>)
      modifies this
      ensures Took(STAGES, old(request), old(normalizations), r)
    {
      r := NegotiateFirst();
      ApplyAllConcat(FIRST_STAGES, LAST_STAGES, old(request), old(normalizations), provider);
      StagesSplit();
      if r.Ok? {
        r := NegotiateLast();
      }
    }

    method NegotiateFirst() returns (r: Result<(), Error>)
      modifies this
      ensures Took(FIRST_STAGES, old(request), old(normalizations), r)
    {
      hide Apply;
      r := NegotiateAction();
      if r.Err? { return; }
      r := NegotiateCount();
      if r.Err? { return; }
      r := NegotiateSize();
      if r.Err? { return; }
      r := NegotiateHints();
    }

    method NegotiateLast() returns (r: Result<(), Error>)
      modifies this
      ensures Took(LAST_STAGES, old(request), old(normalizations), r)
    {
      hide Apply;
      r := NegotiateQuality();
      if r.Err? { return; }
      r := NegotiateFormat();
      if r.Err? { return; }
      r := NegotiateBackground();
      if r.Err? { return; }
      r := NegotiateModeration();
      if r.Err? { return; }
      r := NegotiatePartialImages();
      if r.Err? { return; }
      r := NegotiateNegativePrompt();
    }
  }

  method NegotiateRequest(r: Request, p: Provider) returns (outcome: Outcome)
    ensures outcome == Negotiate(r, p)
  {
    hide ApplyAll, Check;
    if !p.Valid() {
      return Err(InvalidCapabilities);
    }
    var refused := Check(r, p);
    if refused.Some? {
      return Err(UnsupportedField(refused.value));
    }
    var negotiator := new Negotiator(r, p);
    var done := negotiator.NegotiateSteps();
    if done.Err? {
      return Err(done.error);
    }
    if r.policies.revisedPrompt == Require && p.revisedPrompt == Unsupported {
      return Err(UnsupportedField("policies.revised_prompt"));
    }
    return Ok((negotiator.request, negotiator.normalizations));
  }

  const FIRST_STAGES := [ActionStage, CountStage, SizeStage, AspectRatioStage, ResolutionStage]

  const LAST_STAGES := [
    QualityStage, FormatStage, CompressionStage, BackgroundStage, ModerationStage, PartialImagesStage,
    NegativePromptStage]

  lemma StagesSplit()
    ensures STAGES == FIRST_STAGES + LAST_STAGES
  {
  }

  lemma {:induction false} ApplyAllConcat(a: seq<Stage>, b: seq<Stage>, r: Request, changes: seq<Change>, p: Provider)
    ensures ApplyAll(a + b, r, changes, p) ==
      match ApplyAll(a, r, changes, p)
      case Err(e) => Err(e)
      case Ok((t, more)) => ApplyAll(b, t, more, p)
    decreases |a|
  {
    hide Apply;
    if a == [] {
      assert a + b == b;
    } else {
      assert (a + b)[0] == a[0] && (a + b)[1..] == a[1..] + b;
      if Apply(a[0], r, p).Ok? {
        var (changed, more) := Apply(a[0], r, p).value;
        ApplyAllConcat(a[1..], b, changed, changes + more, p);
      }
    }
  }

  // ----- settled requests

  /** A step has nothing to do, however strict the request. */
  predicate Settled(stage: Stage, r: Request, p: Provider) {
    var q := r.parameters;
    match stage
    case ActionStage => q.action in p.actions
    case CountStage => p.count.Contains(q.n)
    case SizeStage => SizeSupported(q.size, p.sizes)
    case AspectRatioStage => q.aspectRatio.Some? ==> p.aspectRatio != Unsupported
    case ResolutionStage => q.resolution.Some? ==> p.resolution != Unsupported
    case QualityStage => q.quality in p.qualities
    case FormatStage => q.outputFormat in p.outputFormats
    case CompressionStage => q.outputCompression.Some? ==> q.outputFormat != Png
    case BackgroundStage => q.background in p.backgrounds
    case ModerationStage => q.moderation in p.moderation
    case PartialImagesStage => p.partialImages.Contains(q.partialImages)
    case NegativePromptStage =>
      r.negativePrompt.Some? ==> Merges(r.policies.negativePrompt, p.negativePrompt) == Some(false)
  }

  /**
   * The only fallback that is not itself supported: `auto` as the least fixed size of a provider that refuses `auto`.
   */
  predicate Degenerate(s: Sizes) {
    !s.auto && s.allowed != [] && s.allowed[0] == AutoSize
  }

  lemma SettledIff(stage: Stage, r: Request, p: Provider)
    ensures Settled(stage, r, p) <==> Apply(stage, r, p) == Ok((r, []))
    ensures Settled(stage, r, p) <==> Apply(stage, r, p).Ok? && Apply(stage, r, p).value.1 == []
  {
  }

  /** What one step does: it settles its own field and leaves the rest as settled as it was. */
  lemma ApplySettles(stage: Stage, r: Request, p: Provider)
    requires p.Valid() && Apply(stage, r, p).Ok?
    ensures var t := Apply(stage, r, p).value.0;
      && (Settled(stage, t, p) <==> (stage == SizeStage && Degenerate(p.sizes) ==> Settled(SizeStage, r, p)))
      && t.policies == r.policies && t.operation == r.operation && t.session == r.session && t.model == r.model
      && t.user == r.user && t.parameters.inputFidelity == r.parameters.inputFidelity
      && (stage != SizeStage ==> t.parameters.size == r.parameters.size)
      && (stage == SizeStage && Degenerate(p.sizes) && !Settled(SizeStage, r, p) ==> t.parameters.size == AutoSize)
  {
  }

  /** Apart from the field of one step, the same request. */
  predicate SameBut(stage: Stage, r: Request, t: Request) {
    var q := t.parameters;
    match stage
    case ActionStage => t == r.(parameters := r.parameters.(action := q.action))
    case CountStage => t == r.(parameters := r.parameters.(n := q.n))
    case SizeStage => t == r.(parameters := r.parameters.(size := q.size))
    case AspectRatioStage => t == r.(parameters := r.parameters.(aspectRatio := q.aspectRatio))
    case ResolutionStage => t == r.(parameters := r.parameters.(resolution := q.resolution))
    case QualityStage => t == r.(parameters := r.parameters.(quality := q.quality))
    case FormatStage => t == r.(parameters := r.parameters.(outputFormat := q.outputFormat))
    case CompressionStage => t == r.(parameters := r.parameters.(outputCompression := q.outputCompression))
    case BackgroundStage => t == r.(parameters := r.parameters.(background := q.background))
    case ModerationStage => t == r.(parameters := r.parameters.(moderation := q.moderation))
    case PartialImagesStage => t == r.(parameters := r.parameters.(partialImages := q.partialImages))
    case NegativePromptStage => t == r.(prompt := t.prompt, negativePrompt := t.negativePrompt)
  }

  lemma ApplyTouches(stage: Stage, r: Request, p: Provider)
    requires Apply(stage, r, p).Ok?
    ensures SameBut(stage, r, Apply(stage, r, p).value.0)
  {
    hide SizeSupported, Merges;
  }

  lemma SettledElsewhere(stage: Stage, other: Stage, r: Request, t: Request, p: Provider)
    requires SameBut(stage, r, t) && other != stage && !(stage == FormatStage && other == CompressionStage)
    ensures Settled(other, t, p) <==> Settled(other, r, p)
  {
    hide SizeSupported, Merges;
  }

  lemma ApplyKeeps(stage: Stage, other: Stage, r: Request, p: Provider)
    requires Apply(stage, r, p).Ok? && other != stage && !(stage == FormatStage && other == CompressionStage)
    ensures Settled(other, Apply(stage, r, p).value.0, p) <==> Settled(other, r, p)
  {
    hide Apply, Settled, SameBut;
    ApplyTouches(stage, r, p);
    SettledElsewhere(stage, other, r, Apply(stage, r, p).value.0, p);
  }

  /** No step comes twice, and the format is chosen before the compression is judged. */
  predicate Ordered(stages: seq<Stage>) {
    forall i, j :: 0 <= i < j < |stages| ==>
      stages[i] != stages[j] && !(stages[i] == CompressionStage && stages[j] == FormatStage)
  }

  lemma StagesOrdered()
    ensures Ordered(STAGES) && forall stage: Stage :: stage in STAGES
  {
    forall stage: Stage ensures stage in STAGES {
      match stage
      case ActionStage => assert STAGES[0] == stage;
      case CountStage => assert STAGES[1] == stage;
      case SizeStage => assert STAGES[2] == stage;
      case AspectRatioStage => assert STAGES[3] == stage;
      case ResolutionStage => assert STAGES[4] == stage;
      case QualityStage => assert STAGES[5] == stage;
      case FormatStage => assert STAGES[6] == stage;
      case CompressionStage => assert STAGES[7] == stage;
      case BackgroundStage => assert STAGES[8] == stage;
      case ModerationStage => assert STAGES[9] == stage;
      case PartialImagesStage => assert STAGES[10] == stage;
      case NegativePromptStage => assert STAGES[11] == stage;
    }
  }

  /** The size is supported, or will be. */
  predicate SizeSettles(r: Request, p: Provider) {
    SizeSupported(r.parameters.size, p.sizes) || !Degenerate(p.sizes)
  }

  /** What a negotiation never touches. */
  predicate SameFrame(r: Request, t: Request) {
    && t.policies == r.policies && t.operation == r.operation && t.session == r.session && t.model == r.model
    && t.user == r.user && t.parameters.inputFidelity == r.parameters.inputFidelity
  }

  lemma {:induction false} ApplyAllSettles(stages: seq<Stage>, r: Request, changes: seq<Change>, p: Provider)
    requires p.Valid() && Ordered(stages) && ApplyAll(stages, r, changes, p).Ok?
    ensures var t := ApplyAll(stages, r, changes, p).value.0;
      && SameFrame(r, t)
      && (forall stage :: stage in stages && (stage == SizeStage ==> SizeSettles(r, p)) ==> Settled(stage, t, p))
      && (SizeStage in stages && !SizeSettles(r, p) ==> t.parameters.size == AutoSize)
      && (forall stage :: stage !in stages && (stage == CompressionStage ==> FormatStage !in stages) ==>
        (Settled(stage, t, p) <==> Settled(stage, r, p)))
      && (SizeStage !in stages ==> t.parameters.size == r.parameters.size)
    decreases |stages|
  {
    hide Apply, Settled, Degenerate;
    if stages != [] {
      var first, rest := stages[0], stages[1..];
      var (changed, more) := Apply(first, r, p).value;
      assert first !in rest && (first == CompressionStage ==> FormatStage !in rest);
      ApplySettles(first, r, p);
      ApplyAllSettles(rest, changed, changes + more, p);
      forall stage | stage != first && !(first == FormatStage && stage == CompressionStage)
        ensures Settled(stage, changed, p) <==> Settled(stage, r, p)
      {
        ApplyKeeps(first, stage, r, p);
      }
      assert forall stage :: stage in stages <==> stage == first || stage in rest;
      SizeSettlesIsSettled(r, p);
      SizeSettlesIsSettled(changed, p);
    }
  }

  lemma SizeSettlesIsSettled(r: Request, p: Provider)
    ensures SizeSettles(r, p) <==> Settled(SizeStage, r, p) || !Degenerate(p.sizes)
  {
  }

  /** Changes only accumulate. */
  lemma {:induction false} ApplyAllGrows(stages: seq<Stage>, r: Request, changes: seq<Change>, p: Provider)
    requires ApplyAll(stages, r, changes, p).Ok?
    ensures |changes| <= |ApplyAll(stages, r, changes, p).value.1|
    decreases |stages|
  {
    hide Apply;
    if stages != [] {
      var (changed, more) := Apply(stages[0], r, p).value;
      ApplyAllGrows(stages[1..], changed, changes + more, p);
    }
  }

  /** Nothing is changed and nothing is recorded exactly when every step is settled before it starts. */
  lemma {:induction false} ApplyAllNothing(stages: seq<Stage>, r: Request, changes: seq<Change>, p: Provider)
    ensures (forall stage :: stage in stages ==> Settled(stage, r, p)) <==>
      ApplyAll(stages, r, changes, p).Ok? && |ApplyAll(stages, r, changes, p).value.1| == |changes|
    ensures (forall stage :: stage in stages ==> Settled(stage, r, p)) ==>
      ApplyAll(stages, r, changes, p) == Ok((r, changes))
    decreases |stages|
  {
    hide Apply, Settled;
    if stages != [] {
      var first, rest := stages[0], stages[1..];
      SettledIff(first, r, p);
      assert forall stage :: stage in stages <==> stage == first || stage in rest;
      if Settled(first, r, p) {
        assert changes + [] == changes;
        ApplyAllNothing(rest, r, changes, p);
      } else if Apply(first, r, p).Ok? {
        var (changed, more) := Apply(first, r, p).value;
        if ApplyAll(rest, changed, changes + more, p).Ok? {
          ApplyAllGrows(rest, changed, changes + more, p);
        }
      }
    }
  }

  // ----- the whole negotiation

  predicate WithinCapabilities(r: Request, p: Provider) {
    Check(r, p) == None && forall stage: Stage :: Settled(stage, r, p)
  }

  lemma SettledUnder(stage: Stage, r: Request, mode: CompatibilityMode, p: Provider)
    ensures Settled(stage, r.Under(mode), p) <==> Settled(stage, r, p)
  {
  }

  lemma CheckSame(r: Request, t: Request, p: Provider)
    requires t.operation == r.operation && t.session == r.session && t.model == r.model && t.user == r.user
    requires t.parameters.inputFidelity == r.parameters.inputFidelity
    ensures Check(t, p) == Check(r, p)
  {
  }

  /** A negotiated request is within capabilities, unless its size fell back to an `auto` the provider refuses. */
  lemma NegotiatedWithin(r: Request, p: Provider)
    ensures Negotiate(r, p).Ok? ==>
      var t := Negotiate(r, p).value.0;
      && SameFrame(r, t)
      && (WithinCapabilities(t, p) <==> SizeSettles(r, p))
      && (!SizeSettles(r, p) ==> t.parameters.size == AutoSize && !p.sizes.auto)
  {
    hide Apply, ApplyAll, Check;
    if Negotiate(r, p).Ok? {
      StagesOrdered();
      ApplyAllSettles(STAGES, r, [], p);
      var t := Negotiate(r, p).value.0;
      CheckSame(r, t, p);
      if !SizeSettles(r, p) {
        assert !Settled(SizeStage, t, p);
      }
    }
  }

  /** A request within capabilities negotiates to itself with nothing recorded, and no other does. */
  lemma NothingToDoIff(r: Request, p: Provider)
    requires p.Valid() && !(r.policies.revisedPrompt == Require && p.revisedPrompt == Unsupported)
    ensures Negotiate(r, p) == Ok((r, [])) <==> WithinCapabilities(r, p)
    ensures Negotiate(r, p).Ok? && Negotiate(r, p).value.1 == [] <==> WithinCapabilities(r, p)
  {
    hide Apply, ApplyAll, Check, Settled;
    StagesOrdered();
    ApplyAllNothing(STAGES, r, [], p);
  }

  /**
   * Negotiating a negotiated request again, even strictly, changes and records nothing: always, unless the size fell
   * back to a refused `auto`, which the guard on the request before the call tells.
   */
  lemma Fixpoint(r: Request, mode: CompatibilityMode, p: Provider)
    ensures Negotiate(r, p).Ok? ==>
      var t := Negotiate(r, p).value.0.Under(mode);
      (Negotiate(t, p) == Ok((t, [])) <==> SizeSettles(r, p))
  {
    hide Apply, ApplyAll, Check, Settled, SizeSettles;
    if Negotiate(r, p).Ok? {
      NegotiatedWithin(r, p);
      var t := Negotiate(r, p).value.0;
      var u := t.Under(mode);
      CheckSame(t, u, p);
      forall stage: Stage ensures Settled(stage, u, p) <==> Settled(stage, t, p) {
        SettledUnder(stage, t, mode, p);
      }
      NothingToDoIff(u, p);
    }
  }

  /** The record is empty exactly when the request is unchanged, but for a refused `auto` replaced by itself. */
  lemma RecordEmptyIff(r: Request, p: Provider)
    ensures Negotiate(r, p).Ok? ==>
      var (t, changes) := Negotiate(r, p).value;
      (changes == [] <==> t == r && !(r.parameters.size == AutoSize && Degenerate(p.sizes)))
  {
    hide Apply, ApplyAll, Check;
    if Negotiate(r, p).Ok? {
      NegotiatedWithin(r, p);
      NothingToDoIff(r, p);
    }
  }

  /** When the guard fails on a lenient request for `auto`, the one change recorded is that of `auto` into itself. */
  lemma AutoReplacedByItself(r: Request, p: Provider)
    requires p.Valid() && Check(r, p) == None && !r.IsStrict()
    requires !(r.policies.revisedPrompt == Require && p.revisedPrompt == Unsupported)
    requires r.parameters.size == AutoSize && Degenerate(p.sizes)
    requires forall stage: Stage :: stage != SizeStage ==> Settled(stage, r, p)
    ensures Negotiate(r, p) == Ok((r, [SizeChange(AutoSize, AutoSize)]))
  {
    hide Check, Settled, Apply, STAGES, Degenerate;
    var change := SizeChange(AutoSize, AutoSize);
    AutoReplaced(r, p);
    hide BEFORE_SIZE, AFTER_SIZE;
    var before, after := BEFORE_SIZE, AFTER_SIZE;
    AroundSize();
    assert ([SizeStage] + after)[1..] == after;
    ApplyAllConcat(before, [SizeStage] + after, r, [], p);
    ApplyAllNothing(before, r, [], p);
    ApplyAllNothing(after, r, [change], p);
    assert [] + [change] == [change];
  }

  lemma AutoReplaced(r: Request, p: Provider)
    requires !r.IsStrict() && r.parameters.size == AutoSize && Degenerate(p.sizes)
    ensures Apply(SizeStage, r, p) == Ok((r, [SizeChange(AutoSize, AutoSize)]))
  {
  }

  const BEFORE_SIZE := [ActionStage, CountStage]

  const AFTER_SIZE := [
    AspectRatioStage, ResolutionStage, QualityStage, FormatStage, CompressionStage, BackgroundStage, ModerationStage,
    PartialImagesStage, NegativePromptStage]

  lemma AroundSize()
    ensures STAGES == BEFORE_SIZE + ([SizeStage] + AFTER_SIZE) && SizeStage !in BEFORE_SIZE && SizeStage !in AFTER_SIZE
  {
  }

  /** A provider whose only size is `auto`, and which does not take `auto` for a size of its own choosing. */
  function FixedAutoProvider(): Provider {
    Provider("fixed", None, true, false, Range(1, 2), Batching(NativeBatch, Range(1, 2), 1),
      Sizes(false, [AutoSize], false, None, None, None, None, None, None), Unsupported, Unsupported, [AutoQuality],
      [Png], [AutoBackground], Unsupported, [AutoModeration], Unsupported, Native, Unsupported, [], [AutoAction],
      Inputs(Unsupported, 0), Inputs(Unsupported, 0), Inputs(Unsupported, 0), Range(0, 0), false, false)
  }

  function AutoRequest(): Request {
    Request("a lighthouse", None, Generate(0),
      Parameters(AutoAction, 1, AutoSize, None, None, AutoQuality, Png, None, AutoBackground, AutoModeration, None, 0),
      Policies(Normalize, AutoPrompt, Include), Isolated, None, None)
  }

  /** So negotiation is no fixpoint, and its record names a change where there is none. */
  lemma NotAlwaysFixed()
    ensures var r, p := AutoRequest(), FixedAutoProvider();
      p.Valid() && Negotiate(r, p) == Ok((r, [SizeChange(AutoSize, AutoSize)]))
  {
    var r, p := AutoRequest(), FixedAutoProvider();
    assert AutoQuality == p.qualities[0] && Png == p.outputFormats[0] && AutoBackground == p.backgrounds[0];
    assert AutoModeration == p.moderation[0] && AutoAction == p.actions[0];
    forall stage: Stage | stage != SizeStage ensures Settled(stage, r, p) {
    }
    AutoReplacedByItself(r, p);
  }

  // ----- strictness

  /** The two changes that even a strict request accepts. */
  predicate Tolerated(changes: seq<Change>) {
    forall change :: change in changes ==> change.ActionChange? || change.NegativePromptMerged?
  }

  /** Apart from its action and its prompts, the same request. */
  predicate SameButActionAndPrompt(r: Request, t: Request) {
    t.(prompt := r.prompt, negativePrompt := r.negativePrompt,
      parameters := t.parameters.(action := r.parameters.action)) == r
  }

  lemma ApplyStrict(stage: Stage, r: Request, p: Provider)
    requires r.IsStrict()
    ensures var lenient := Apply(stage, r.Under(Normalize), p);
      && (Apply(stage, r, p).Ok? <==> lenient.Ok? && Tolerated(lenient.value.1))
      && (Apply(stage, r, p).Ok? ==>
        && lenient == Ok((Apply(stage, r, p).value.0.Under(Normalize), Apply(stage, r, p).value.1))
        && SameButActionAndPrompt(r, Apply(stage, r, p).value.0))
  {
    var lenient := Apply(stage, r.Under(Normalize), p);
    if lenient.Ok? && lenient.value.1 != [] {
      assert lenient.value.1[0] in lenient.value.1;
    }
  }

  lemma {:induction false} ApplyAllStrict(stages: seq<Stage>, r: Request, changes: seq<Change>, p: Provider)
    requires r.IsStrict() && Tolerated(changes)
    ensures var lenient := ApplyAll(stages, r.Under(Normalize), changes, p);
      && (ApplyAll(stages, r, changes, p).Ok? <==> lenient.Ok? && Tolerated(lenient.value.1))
      && (ApplyAll(stages, r, changes, p).Ok? ==>
        && (var (settled, recorded) := ApplyAll(stages, r, changes, p).value;
          lenient == Ok((settled.Under(Normalize), recorded)))
        && SameButActionAndPrompt(r, ApplyAll(stages, r, changes, p).value.0))
    decreases |stages|
  {
    hide Apply;
    if stages != [] {
      ApplyStrict(stages[0], r, p);
      var lenient := Apply(stages[0], r.Under(Normalize), p);
      if Apply(stages[0], r, p).Ok? {
        var (changed, more) := Apply(stages[0], r, p).value;
        ApplyAllStrict(stages[1..], changed, changes + more, p);
      } else if lenient.Ok? {
        var (changed, more) := lenient.value;
        if ApplyAll(stages[1..], changed, changes + more, p).Ok? {
          ApplyAllKeepsChanges(stages[1..], changed, changes + more, p);
        }
      }
    }
  }

  lemma {:induction false} ApplyAllKeepsChanges(stages: seq<Stage>, r: Request, changes: seq<Change>, p: Provider)
    requires ApplyAll(stages, r, changes, p).Ok?
    ensures forall change :: change in changes ==> change in ApplyAll(stages, r, changes, p).value.1
    decreases |stages|
  {
    hide Apply;
    if stages != [] {
      var (changed, more) := Apply(stages[0], r, p).value;
      ApplyAllKeepsChanges(stages[1..], changed, changes + more, p);
    }
  }

  /**
   * A strict request succeeds exactly when the same request, normalized, succeeds with no change but an automatic
   * action and a merged negative prompt; the two then agree, and nothing else of the request is altered.
   */
  lemma StrictIff(r: Request, p: Provider)
    requires r.IsStrict()
    ensures var lenient := Negotiate(r.Under(Normalize), p);
      && (Negotiate(r, p).Ok? <==> lenient.Ok? && Tolerated(lenient.value.1))
      && (Negotiate(r, p).Ok? ==>
        && lenient == Ok((Negotiate(r, p).value.0.Under(Normalize), Negotiate(r, p).value.1))
        && SameButActionAndPrompt(r, Negotiate(r, p).value.0))
  {
    hide Apply, ApplyAll, Check, Tolerated, SameButActionAndPrompt;
    CheckSame(r, r.Under(Normalize), p);
    assert Tolerated([]) by {
      NothingTolerated();
    }
    ApplyAllStrict(STAGES, r, [], p);
  }

  lemma NothingTolerated()
    ensures Tolerated([])
  {
  }
}
