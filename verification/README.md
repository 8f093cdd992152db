# Imagegen bridge: a verified model

This project models the stateful and byte-level parts of the imagegen bridge in Dafny and proves what they keep over every
input and every run.

- **Metadata in image containers** (`Webp`, `Png`, `Checksums`, `Jpeg`, `Base64`, `Metadata`): the chunk and segment walkers,
  the rewriters that put an XMP packet into an image, and the record that the packet carries.
- **Replay cache** (`Idempotency`, `IdempotencyRuns`, `IdempotencyWindows`, `IdempotencyRecency`, `IdempotencyLeaders`,
  `IdempotencyStates`): leaders, followers, tombstones, expiry, and bytes retained under a bound with least-recently-used
  eviction.
- **Event stream decoder** (`Sse`, `SseLimits`, `SseStandards`): incremental decoding that does not depend on how the stream is
  cut into pieces, which streams it accepts, and how it stands to the WHATWG HTML standard, section 9.2.6.
- **Artifact store** (`ArtifactStores`, `ArtifactHistories`, `ArtifactRepairs`, `ArtifactRetention`, `ArtifactNames`):
  publication, attachment, removal and repair as single writes, with a failure or a crash possible at each; what runs leave
  behind; the repair and retention passes; names.
- **Circuit breaker** (`CircuitBreakers`, `BreakerRuns`): the breaker, its permits, and every interleaving of its callers.
- **RPC correlation** (`Rpc`) and **admission gate** (`Admission`): small concurrent protocols as step systems.
- **Negotiation** (`Capabilities`, `Negotiation`, `NegotiationValues`): fitting a request to a provider, step by step, with a
  record of changes; and what becomes of every field, without the steps.
- **Chroma matte** (`Chroma`): the integer arithmetic of the soft matte and its effect on every pixel.
- **Layered configuration** (`LayeredConfig`, `ConfigLoaders`): merging with provenance; which source rules a field, and the
  keys that name fields.
- **Generation calls** (`StreamEvents`, `FanOut`): what one call's events add up to, and the result of many calls, which does
  not depend on the order of completion.

Code that changes fields or runs loops is a class or a method proved against a specification function; what the program
promises is proved about that function. Where the code does not do what its names or comments suggest, a lemma says exactly
when it does:

- a WebP image at the reader's chunk cap takes a record and then cannot give it back (`Webp.EmbeddingCanPassTheCap`); a JPEG
  image embedded in twice keeps the older packet behind the newer (`Jpeg.EmbedAgain`);
- a leader that outlives its entry leaves bytes charged for good, which can starve the replay cache
  (`IdempotencyRuns.StaleTokenLeaks`, `IdempotencyRuns.SlackStarves`);
- at most one leader is at work for each key, throughout a run, exactly when no request of it finds room while the leader at
  work for its key is late (`IdempotencyLeaders.SoleLeadersIff`, `IdempotencyLeaders.OverlapArises`);
- the event decoder gives the events of section 9.2.6 exactly when every event has a first value, no field is bare and nothing
  is pending at the end, on every stream without a byte order mark and without a carriage return outside a line end
  (`SseStandards.StandardIff`, `SseStandards.RunStandardIff`); a byte order mark hides the first line, which matters exactly
  when that is a data line of some event, as long as nothing is pending at the end (`SseStandards.MarkedStandardIff`); one lemma
  shows each difference, and two more that a pending event or a lone carriage return may or may not matter;
- an attachment that stops after its first write, neither finished nor undone, leaves an artifact to which nothing can be
  attached again, and nothing else does (`ArtifactHistories.StraySidecarIff`, `ArtifactHistories.StoppedForever`);
- an orphaned record whose name is used again is damaged exactly while the newer file stands, and an orphan once it is removed
  (`ArtifactHistories.StrandedUntilRemoved`);
- over all epochs the limit on half-open probes holds on every run exactly when it is one (`BreakerRuns.ProbeLimitIff`);
- negotiation is not a fixpoint when `auto` is the least fixed size of a provider that refuses `auto`
  (`Negotiation.Fixpoint`), and then the record of changes names a change that is none (`Negotiation.RecordEmptyIff`,
  `Negotiation.NotAlwaysFixed`);
- a transparent threshold above 32 does not make every pixel within it transparent (`Chroma.WithinThresholdEmptyIff`), nor does
  the opaque threshold keep every pixel beyond it opaque (`Chroma.BeyondThresholdOpaqueIff`);
- a closing connection tells a waiting request exactly when the request was put into the table before the last drain
  (`Rpc.ToldIff`, `Rpc.OrphanArises`);
- the origin kept for a configuration value is the wrong one exactly when a value of the same dotted name was written since,
  from another origin (`LayeredConfig.OriginRightIff`, `LayeredConfig.DottedKeyCollides`), and origins of values that are gone
  stay (`LayeredConfig.StaleIff`).

## Model

| member | source | states |
|---|---|---|
| Webp.ReadIff | crates/artifacts/src/metadata.rs:340-375 | the reader takes a chunk off the front exactly when its rendering, padding included, stands there |
| Webp.WalkIff | crates/artifacts/src/metadata.rs:324-377 | a walk succeeds with these chunks exactly when the body is their encoding and they are within the cap |
| Webp.ParseIff | crates/artifacts/src/metadata.rs:324-377 | parsing returns chunks exactly for the containers of these chunks: size field, padding and cap included |
| Webp.VisitChunks | crates/artifacts/src/metadata.rs:324-377 | the visiting loop folds the visitor over the walked chunks and stops early without looking further |
| Webp.EmbedWebp | crates/artifacts/src/metadata.rs:265-310 | the two passes with their patched size field compute the rewritten container, errors included |
| Webp.ExtractWebp | crates/artifacts/src/metadata.rs:312-322 | extraction stops at the first XMP chunk and bounds it |
| Webp.SurveyMeaning | crates/artifacts/src/metadata.rs:265-279 | the first pass finds whether a VP8X chunk is present and which flags a new one needs |
| Webp.CopyMeaning | crates/artifacts/src/metadata.rs:289-304 | the second pass writes the source chunks without XMP, the VP8X flagged, or refuses a short VP8X |
| Webp.NewHeadMeaning | crates/artifacts/src/metadata.rs:280-288 | a new VP8X comes first exactly when there was none, with the bits the source asks for and the canvas size |
| Webp.NewHeaderMeaning | crates/artifacts/src/metadata.rs:265-288 | the ten bytes of a new VP8X: a bit is set exactly when the source holds a chunk asking for it, the XMP bit always, and the bytes at 4 and at 7, read as little-endian numbers, are the width and the height less one |
| Webp.Vp8lAlphaIff | crates/artifacts/src/metadata.rs:397-403 | a lossless image asks for alpha exactly when bit 28 of the word behind its signature is set |
| Webp.RewriteOkIff | crates/artifacts/src/metadata.rs:265-310 | a source can be rewritten exactly when it has a VP8X or its canvas fits 24 bits, and every VP8X has ten bytes |
| Webp.RewriteMeaning | crates/artifacts/src/metadata.rs:265-310 | the result is a header describing the source if there was none, then every chunk other than XMP in its place, unchanged but for the XMP bit of a VP8X, and one XMP chunk at the end |
| Webp.EmbedRoundTrip | crates/artifacts/src/metadata.rs:265-400 | a successful embedding parses to the rewritten chunks and gives the XMP back, exactly while the result is within the chunk cap |
| Webp.EmbedOkIff | crates/artifacts/src/metadata.rs:265-310 | an embedding succeeds exactly when the source reads, can be rewritten, and the result fits the size field |
| Webp.ExtractIff | crates/artifacts/src/metadata.rs:312-322 | the packet is that of the first XMP chunk that can be reached, when it has 1 to 57344 bytes; there is none exactly when the whole walk meets neither one nor a fault |
| Webp.PaddedWithZero | crates/artifacts/src/metadata.rs:379-392 | a written chunk has an even number of bytes, the last of them zero when the data has an odd number |
| Webp.EmbedTwice | crates/artifacts/src/metadata.rs:265-310 | embedding over an embedding is embedding once while the first result is within the chunk cap, and is refused past it |
| Webp.EmbeddingCanPassTheCap | crates/artifacts/src/metadata.rs:280-310 | a readable source at the cap embeds successfully and cannot be read any more |
| Png.ReadIff | crates/artifacts/src/metadata.rs:150-176 | a chunk is read exactly when its rendering stands there |
| Png.WalkIff | crates/artifacts/src/metadata.rs:106-176 | a datastream is read without fault exactly when it is its chunks one after the other |
| Checksums.Crc32 | crates/artifacts/src/metadata.rs:444-453 | the two loops compute the register as its recursion defines it |
| Checksums.ChecksumIsRemainder | crates/artifacts/src/metadata.rs:444-453 | the checksum is the inverted remainder of the data, moved up by 32 powers and with its first 32 coefficients inverted, on division by the generator of section 5.5 of PNG: quotient and remainder are the only ones |
| Png.EmbedPng | crates/artifacts/src/metadata.rs:106-129 | the copying loop computes the datastream without XMP and with the new chunk before the first IEND |
| Png.ExtractPng | crates/artifacts/src/metadata.rs:131-148 | extraction reads the first XMP chunk and nothing after it |
| Png.CopyMeaning | crates/artifacts/src/metadata.rs:106-129 | what the loop has written at each chunk is the rewriting of what it has read |
| Png.ReadNewXmp | crates/artifacts/src/metadata.rs:137-145 | the chunk that is written is recognized and its text is the packet, whenever its size allows |
| Png.EmbedRoundTrip | crates/artifacts/src/metadata.rs:106-197 | the output is the source without XMP and with one new chunk before the first IEND, and extraction returns the packet |
| Png.EmbedPlace | crates/artifacts/src/metadata.rs:106-197 | every chunk that is not XMP is kept, the new one stands right before the first IEND, its checksum is that of its kind and data, and an image whose checksums are right keeps them so |
| Png.EmbedTwice | crates/artifacts/src/metadata.rs:106-129 | embedding over an embedding is embedding once |
| Jpeg.ScanMarker | crates/artifacts/src/metadata.rs:222-262 | one turn of the marker loop: fill bytes, lone markers, lengths, and the XMP segment |
| Jpeg.StandaloneIff | crates/artifacts/src/metadata.rs:236-238 | the markers without a length are TEM and the eight restart markers |
| Jpeg.ExtractJpeg | crates/artifacts/src/metadata.rs:220-263 | the marker loop computes the scan |
| Jpeg.ScanMeaning | crates/artifacts/src/metadata.rs:220-263 | over every sequence of rendered segments the reader returns the first XMP segment, or scans on |
| Jpeg.FoundIff | crates/artifacts/src/metadata.rs:220-263 | a packet is found exactly when rendered segments stand in front, it is the first of XMP among them, and it is within the bound |
| Jpeg.NoneIff | crates/artifacts/src/metadata.rs:220-263 | none is found exactly when segments of other kinds lead to the scan, the end of the image or the end of the input |
| Jpeg.EmbedRoundTrip | crates/artifacts/src/metadata.rs:199-263 | embedding succeeds exactly up to 65504 bytes, keeps every source byte, and the newest packet is the one extracted |
| Jpeg.EmbedShape | crates/artifacts/src/metadata.rs:199-218 | the new bytes are an APP1 marker, its length, the header and the packet, right behind the start of the image |
| Jpeg.EmbedAgain | crates/artifacts/src/metadata.rs:199-218 | embedding over an embedding is not embedding once: the newer packet is extracted and the older stays behind it |
| Base64.DecodeEncode | crates/artifacts/src/metadata.rs:58-104 | decoding an encoding gives the bytes back (RFC 4648, section 4) |
| Base64.DecodeIff | crates/artifacts/src/metadata.rs:58-78 | a text decodes to bytes exactly when it is their encoding |
| Metadata.EmbedImageMetadata | crates/artifacts/src/metadata.rs:23-55 | the checks before and after embedding, and the choice of container |
| Metadata.PacketRoundTrip | crates/artifacts/src/metadata.rs:95-104 | the first pair of tags in a packet encloses exactly the encoded record |
| Metadata.PacketFits | crates/artifacts/src/metadata.rs:9-10 | every record of at most 40 KiB gives a packet within the reader's bound and the JPEG segment |
| Metadata.EmbedOkIff | crates/artifacts/src/metadata.rs:23-55 | an embedding succeeds exactly for a valid record and an image of the expected format, when the container takes it and nothing that the inspection sees has changed |
| Metadata.ExtractIff | crates/artifacts/src/metadata.rs:58-78 | a record is found exactly when a packet is, its first pair of tags encloses the record's code, and the record is an object of 1 to 40960 bytes |
| Metadata.RecordRoundTrip | crates/artifacts/src/metadata.rs:23-104 | the record embedded is the record extracted, whatever the image held before, except a WebP past the cap |
| Sse.SseDecoder.PushChunk | crates/codex-responses/src/sse.rs:54-78 | the loop that splits lines off the buffer computes the specification of a push, errors and state included |
| Sse.SseDecoder.FinishStream | crates/codex-responses/src/sse.rs:81-91 | the end of the stream: every trailing carriage return dropped, the last line processed, the last event flushed |
| Sse.DropsReturns | crates/codex-responses/src/sse.rs:64-91 | a line loses one carriage return at most, the last line of a stream every one at its end, and nothing else |
| Sse.SseDecoder.Process | crates/codex-responses/src/sse.rs:93-112 | one line: an event flushed, a data line joined within the limit, or nothing |
| Sse.PushSplit | crates/codex-responses/src/sse.rs:54-78 | a push succeeds exactly when its two parts pushed one after the other do and the whole fits the line limit, with the same events and state |
| Sse.PushKeepsInvariant | crates/codex-responses/src/sse.rs:54-78 | between pushes the buffer has no line feed and buffer and data are within their limits |
| Sse.LinesMeaning | crates/codex-responses/src/sse.rs:64-76 | the reference splitting: the lines joined again are the stream, and no line holds a line feed |
| Sse.DrainMeaning | crates/codex-responses/src/sse.rs:64-120 | draining emits the reference events of the lines and keeps the payload of the unfinished one |
| Sse.PushAllIsDrain | crates/codex-responses/src/sse.rs:54-78 | any cutting of a stream succeeds exactly when the whole decodes within the limits and every piece fits the line limit, with the same result |
| Sse.RunMeaning | crates/codex-responses/src/sse.rs:54-124 | all pushes and the end together are one reference decoding of the whole stream |
| SseLimits.Utf8Iff | crates/codex-responses/src/sse.rs:70-78 | the check on a line accepts exactly the encodings of texts, each scalar value in its shortest form (RFC 3629, section 3) |
| SseLimits.RunOkIff | crates/codex-responses/src/sse.rs:54-124 | however it is cut, a stream is accepted exactly when it is text within the stream limit, every chunk fits beside the unfinished line it meets, and the events it decodes to are, each and in number, within the limits |
| SseStandards.LinesAgreeIff | crates/codex-responses/src/sse.rs:67-72 | the lines are those of section 9.2.6 exactly when every carriage return stands before a line feed |
| SseStandards.EventsAgreeIff | crates/codex-responses/src/sse.rs:93-124 | over the same lines the standard's events are the code's exactly when no event loses an empty first value or a bare field and nothing is flushed at the end |
| SseStandards.StandardIff | crates/codex-responses/src/sse.rs:54-124 | on streams without byte order mark and lone carriage returns the decoding is that of section 9.2.6 exactly when every event keeps its first value, no field is bare and nothing is pending at the end |
| SseStandards.MarkedReference | crates/codex-responses/src/sse.rs:54-124 | behind a byte order mark the decoder gives the events of the lines with the first one hidden and what is pending at the end, the standard those of all the lines |
| SseStandards.MarkedStandardIff | crates/codex-responses/src/sse.rs:54-124 | behind a byte order mark and without lone carriage returns: if nothing is pending at the end, the decoding is that of section 9.2.6 exactly when the line at the mark is in no event, or is no data line and the other lines pass the checks; if something is pending, only when the line at the mark is a data line of some event |
| SseStandards.RunStandardIff | crates/codex-responses/src/sse.rs:54-124 | both hold for every run that succeeds, however cut; and a run only succeeds on well-formed UTF-8 |
| SseStandards.EndFlushes | crates/codex-responses/src/sse.rs:81-91 | the event that no blank line ended is given, where the standard discards it |
| SseStandards.EmptyEventLost | crates/codex-responses/src/sse.rs:114-117 | an event with empty data is lost, where the standard dispatches it |
| SseStandards.LeadingEmptyLost | crates/codex-responses/src/sse.rs:106-109 | an empty first data line is lost, where the standard keeps it |
| SseStandards.BareFieldIgnored | crates/codex-responses/src/sse.rs:100-111 | a line `data` without a colon is ignored, where the standard takes it for empty data |
| SseStandards.ReturnIsNoEnd | crates/codex-responses/src/sse.rs:67-72 | a carriage return alone ends no line, where it does in the standard |
| SseStandards.MarkHidesEvent | crates/codex-responses/src/sse.rs:93-112 | a byte order mark hides the first data line, where the standard takes it away |
| SseStandards.ReturnInComment | crates/codex-responses/src/sse.rs:67-99 | a lone carriage return in a comment makes no difference |
| SseStandards.MarkCanAgree | crates/codex-responses/src/sse.rs:54-124 | behind a byte order mark the two can agree, the event hidden being made good by one flushed at the end |
| IdempotencyStates.IdempotencyState.BeginRequest | crates/runtime/src/idempotency.rs:68-121 | one request: cleanup, conflict, cached or pending answer, capacity, leadership; the whole new state |
| IdempotencyStates.IdempotencyState.CompleteRequest | crates/runtime/src/idempotency.rs:288-337 | a completion: stale tokens ignored, room made, the entry charged or turned into a tombstone |
| IdempotencyStates.IdempotencyState.FailRequest | crates/runtime/src/idempotency.rs:129-154 | a failure: an entry of unknown outcome kept, any other removed, its waiters told |
| IdempotencyStates.IdempotencyState.CleanUp | crates/runtime/src/idempotency.rs:245-266 | removing stale entries one by one in any order gives the closed form |
| IdempotencyStates.IdempotencyState.MakeRoom | crates/runtime/src/idempotency.rs:268-286 | a full cache gives up its least recently used finished entry, or refuses |
| IdempotencyStates.IdempotencyState.ReserveCompletedBytes | crates/runtime/src/idempotency.rs:339-363 | the eviction loop ends and computes its specification |
| IdempotencyStates.IdempotencyState.RemoveEntry | crates/runtime/src/idempotency.rs:365-369 | an entry removed with its bytes |
| Idempotency.RemoveKeeps | crates/runtime/src/idempotency.rs:365-369 | the saturating subtraction never clips |
| Idempotency.ReserveKeeps | crates/runtime/src/idempotency.rs:339-363 | eviction leaves the incoming entry, the channels and the slack alone, and its success means room |
| Idempotency.BeginKeeps | crates/runtime/src/idempotency.rs:68-121 | a request keeps the invariant and the slack |
| Idempotency.CompleteKeeps | crates/runtime/src/idempotency.rs:288-337 | a completion keeps the invariant and adds to the slack exactly the bytes its entry still held |
| Idempotency.FailKeeps | crates/runtime/src/idempotency.rs:129-154 | a failure keeps the invariant and the slack |
| IdempotencyRuns.RunAccounting | crates/runtime/src/idempotency.rs:245-369 | on every run retained bytes are at most charged bytes, charged bytes and entries within their bounds, slack never falls, and it stays exactly when no completion hits bytes still held |
| IdempotencyRuns.ExactAccounting | crates/runtime/src/idempotency.rs:288-337 | from an exact cache, as the empty one (`IdempotencyRuns.InitialInvariant`), the charge is exact again exactly on those runs |
| IdempotencyRuns.TokensInTimeNeverRecharge | crates/runtime/src/idempotency.rs:288-337 | it is when every completion finds its entry pending |
| IdempotencyRuns.ReserveMeaning | crates/runtime/src/idempotency.rs:339-363 | an entry is evicted exactly when giving up everything older is not enough: a least recently used prefix, no longer than needed |
| IdempotencyRuns.CompleteFitsIff | crates/runtime/src/idempotency.rs:288-363 | a completion is replayable exactly when it fits beside the bytes that no eviction can free |
| IdempotencyRuns.SlackStarves | crates/runtime/src/idempotency.rs:327-332 | once slack leaves no room, no later completion of that weight on any run is replayable |
| IdempotencyRuns.StaleTokenLeaks | crates/runtime/src/idempotency.rs:245-337 | a leader past its entry and its successor both complete, and the first response stays charged |
| IdempotencyRuns.StepReleases | crates/runtime/src/idempotency.rs:68-369 | an entry disappears exactly when it is stale, the least recently used of a full cache, squeezed out for bytes, or failed for good |
| IdempotencyRuns.PendingIsPinned | crates/runtime/src/idempotency.rs:268-363 | a pending entry goes only when its time is up or it fails |
| IdempotencyRuns.LeadsIff | crates/runtime/src/idempotency.rs:68-121 | a request leads exactly when no live entry has its key and there is or can be made a place |
| IdempotencyRuns.LeadershipIsSole | crates/runtime/src/idempotency.rs:68-154 | from a leader until its entry is released nobody else leads the key, and another request under it is a conflict |
| IdempotencyRuns.Replay | crates/runtime/src/idempotency.rs:85-102 | until its entry is released or settled again a request always gets the same answer |
| IdempotencyRuns.CompletedIsReplayed | crates/runtime/src/idempotency.rs:85-102 | a response that fits answers every repetition of its request |
| IdempotencyWindows.AnsweredIff | crates/runtime/src/idempotency.rs:68-369 | after any call that grants a request its answer, over every run in which its entry is neither settled again nor given up for another while live: the same request is told the same exactly when it, and every request before it, comes within the time to live that the call grants (while times do not go back, exactly when it does: `IdempotencyWindows.InOrder`) |
| IdempotencyWindows.CompletedWindow | crates/runtime/src/idempotency.rs:288-337 | a response that fits is the answer until `completedTtl` after its completion and no longer, by the times of the calls alone |
| IdempotencyWindows.UnreplayableWindow | crates/runtime/src/idempotency.rs:302-325 | one that does not fit leaves an error that stands for it, just as long |
| IdempotencyWindows.UncertainWindow | crates/runtime/src/idempotency.rs:129-147 | a failure that may have done the work is the answer, as one not to retry, until `unknownTtl` after it and no longer |
| IdempotencyWindows.WaitingWindow | crates/runtime/src/idempotency.rs:84-121 | until its leader reports, a request is told to wait for it, until `inFlightTtl` after it began and no longer |
| IdempotencyRecency.StepUses | crates/runtime/src/idempotency.rs:84-102 | a call that uses an entry makes it the most recently accessed of all; any other leaves its access alone |
| IdempotencyRecency.UseOrder | crates/runtime/src/idempotency.rs:68-337 | over every run, of two entries the one last used by the later call has the later access |
| IdempotencyRecency.DisplacedIff | crates/runtime/src/idempotency.rs:268-286 | after every run from the empty cache, a new entry takes the place of the replayable one whose last use is longest ago |
| IdempotencyLeaders.SoleLeadersIff | crates/runtime/src/idempotency.rs:68-337 | on every run from standing leaders, as from an idle cache (`IdempotencyLeaders.IdleStands`), at most one leader is at work for each key after every prefix exactly when no request overtakes one: finds room while the leader at work for its own key is late |
| IdempotencyLeaders.StepSoleIff | crates/runtime/src/idempotency.rs:68-337 | one event leaves the leaders sole exactly when it overtakes none, and then a leader in time still has its entry as it was given, and for the key of a late one there is none |
| IdempotencyLeaders.OvertakenInOrder | crates/runtime/src/idempotency.rs:68-121 | while times do not go back, a leader is overtaken exactly when it is late at the request's own time |
| IdempotencyLeaders.OverlapArises | crates/runtime/src/idempotency.rs:129-154 | the witness: a late leader that fails for good takes away its successor's entry, and two leaders are at work for one key, each in time |
| CircuitBreakers.CircuitBreaker.AcquirePermit | crates/runtime/src/circuit_breaker.rs:144-191 | recovery, admission and refusal with the delay, and the permit issued |
| CircuitBreakers.CircuitBreaker.CompletePermit | crates/runtime/src/circuit_breaker.rs:219-296 | a result changes the breaker as its specification says |
| CircuitBreakers.CircuitBreaker.AbandonPermit | crates/runtime/src/circuit_breaker.rs:298-311 | a dropped probe gives its place back |
| CircuitBreakers.CircuitPermit.Finish | crates/runtime/src/circuit_breaker.rs:314-328 | a finished permit is reported once; letting go of it then does nothing |
| BreakerRuns.ReportKeeps | crates/runtime/src/circuit_breaker.rs:219-296 | a result keeps the history invariant |
| BreakerRuns.RunHistory | crates/runtime/src/circuit_breaker.rs:144-311 | every run explains itself: epochs and transitions agree, each past epoch ended for its reason, and the present counts are those of the history |
| BreakerRuns.CurrentPermits | crates/runtime/src/circuit_breaker.rs:144-191 | a permit of the present epoch is of the present phase's kind, and none is of a later epoch |
| BreakerRuns.ReportMatters | crates/runtime/src/circuit_breaker.rs:219-296 | a result changes the breaker exactly in its own epoch and when it has something to change |
| BreakerRuns.ForgetMatters | crates/runtime/src/circuit_breaker.rs:298-311 | a dropped permit gives back a probe's place and nothing else, without clipping |
| BreakerRuns.RefusedIff | crates/runtime/src/circuit_breaker.rs:144-191 | an attempt is refused exactly while recovering or while every probe of the epoch is in use |
| BreakerRuns.RetryAfterMeaning | crates/runtime/src/circuit_breaker.rs:163-181 | the delay given with a refusal is exact: with nobody between, an attempt is let through exactly when it comes no earlier |
| BreakerRuns.HalfOpenAdmits | crates/runtime/src/circuit_breaker.rs:163-181 | a half-open circuit without a probe in use always admits |
| BreakerRuns.OpensIff | crates/runtime/src/circuit_breaker.rs:249-294 | a circuit opens at the failure of the provider's that makes the threshold, at a probe that is not successful, and at nothing else; which errors count is spelled out |
| BreakerRuns.ClosesIff | crates/runtime/src/circuit_breaker.rs:265-282 | a circuit closes at the last healthy probe in use once enough have succeeded, and at nothing else |
| BreakerRuns.SoleProbeKept | crates/runtime/src/circuit_breaker.rs:163-181 | with a limit of one, one probe at most is in use over all epochs |
| BreakerRuns.ProbesOutliveEpochs | crates/runtime/src/circuit_breaker.rs:163-181 | with a greater limit, from every half-open circuit with all its probes in use there is a run to more probes in use than the limit |
| BreakerRuns.ProbeLimitIff | crates/runtime/src/circuit_breaker.rs:144-311 | for every valid enabled configuration, the limit holds over all epochs on every run from the start exactly when it is one |
| ArtifactStores.RecordedFilesAreSafe | crates/artifacts/src/store.rs:236-376 | from a store without records, whatever is started, fails or crashes, every recorded file is gone or has, byte for byte, the content its record's digest is of, and no operation changes a file it found or removes one that was not, by that digest, the artifact or the sidecar of a record |
| ArtifactStores.SidecarIff | crates/artifacts/src/store.rs:733-763 | each state of a sidecar, by what stands under its name: valid exactly when the content has the recorded digest, is an object, and is at most a mebibyte |
| ArtifactStores.PublishKeeps | crates/artifacts/src/store.rs:269-307 | the writes of a publication and its undoing keep the store consistent |
| ArtifactStores.AttachKeeps | crates/artifacts/src/store.rs:343-376 | the writes of an attachment and its undoing keep the store consistent |
| ArtifactStores.RemoveKeeps | crates/artifacts/src/store.rs:663-705 | the writes of removals and repairs keep the store consistent |
| ArtifactStores.RecordsGoLast | crates/artifacts/src/store.rs:663-705 | on every run, whatever fails or crashes, a record is taken away only when nothing of its files is left |
| ArtifactStores.RemovalEndsIff | crates/artifacts/src/store.rs:663-705 | a removal stops at its first write that fails, an orphan's also at a sidecar whose removal cannot be made sure of |
| ArtifactHistories.AttachStartsIff | crates/artifacts/src/store.rs:310-343 | an attachment starts exactly from a whole artifact without a sidecar, a non-empty object of at most a mebibyte, and a free name |
| ArtifactHistories.AttachMeaning | crates/artifacts/src/store.rs:343-376 | its two writes done, the sidecar stands under its name and its record refers to it by digest; nothing else changes |
| ArtifactHistories.AttachUndone | crates/artifacts/src/store.rs:343-376 | when its second write fails and the first is undone, the disk is as it was found |
| ArtifactHistories.RemoveStartsIff | crates/artifacts/src/store.rs:663-672 | a removal starts exactly from an artifact that stands as recorded, with its sidecar if it has one |
| ArtifactHistories.RemoveMeaning | crates/artifacts/src/store.rs:663-672 | its writes done, a removal has taken the sidecar, the artifact and the record, and nothing else |
| ArtifactRepairs.ArtifactStore.RepairOrphans | crates/artifacts/src/store.rs:510-572 | the scan with its counters, limit and modes computes the specified pass, repairs that fail at any of their writes included |
| ArtifactRepairs.ArtifactStore.ClearMissingSidecar | crates/artifacts/src/store.rs:674-685 | the reference is cleared exactly when the record read again is the expected one, its artifact whole and its sidecar missing, as far as the write succeeds |
| ArtifactRepairs.ArtifactStore.RemoveOrphanedRecord | crates/artifacts/src/store.rs:687-705 | a valid sidecar and then the record go exactly when the record read again is the expected one, its artifact missing and its sidecar not damaged, as far as the writes succeed |
| ArtifactRepairs.MendMeaning | crates/artifacts/src/store.rs:539-567 | what one repair leaves of a record and of the files |
| ArtifactRepairs.MendPartMeaning | crates/artifacts/src/store.rs:674-705 | a repair that fails leaves the record as it was found, but for an orphan's sidecar once that is gone |
| ArtifactRepairs.InspectIff | crates/artifacts/src/store.rs:530-568 | each finding of the scan, with the whole condition under which it is made, by the files that stand and their digests |
| ArtifactRepairs.PassSafe | crates/artifacts/src/store.rs:503-572 | on whatever disk, over whatever listing, and however repairs fail, a pass takes only files that are, by digest, the artifact or the sidecar of a record, and a record only when all its files are gone |
| ArtifactRepairs.PassMeaning | crates/artifacts/src/store.rs:510-572 | what a pass leaves, records that do not parse and damaged files included: the same in whatever order records are listed and whatever unreadable entries stand between them |
| ArtifactRepairs.PassKeeps | crates/artifacts/src/store.rs:510-572 | however its repairs fail, a pass leaves a consistent disk |
| ArtifactRepairs.PassCounts | crates/artifacts/src/store.rs:510-572 | every entry scanned is healthy, repaired or skipped, and the limit is reported exactly when it was reached |
| ArtifactRepairs.PassReports | crates/artifacts/src/store.rs:510-572 | every number a complete pass reports, by what stood on the disk before it: healthy, orphaned and missing as found, repaired those due whose repair did not fail, skipped the rest |
| ArtifactRepairs.AuditPredicts | crates/artifacts/src/store.rs:503-572 | an audit changes nothing and finds what a repairing pass over the same listing finds, damaged records and files included, however that one fails |
| ArtifactRepairs.OneRepairIsEnough | crates/artifacts/src/store.rs:510-572 | after one complete pass over any such disk no record is left that a repair would change, and later passes change nothing |
| ArtifactRepairs.Recovery | crates/artifacts/src/store.rs:510-572 | from every disk that any run leaves, crashes and failed passes included, one pass leaves only healthy records and a second repairs nothing and skips just the unreadable entries |
| ArtifactRepairs.PlanMends | crates/artifacts/src/store.rs:674-705 | the single writes of a repair, all done, are the repair |
| ArtifactRepairs.PublishConsistentIff | crates/artifacts/src/store.rs:269-300 | a publication leaves the store consistent exactly when no record spoke of its name |
| ArtifactRepairs.RepairedFreesNames | crates/artifacts/src/store.rs:510-572 | after a repair a name not in use is spoken of by no record |
| ArtifactHistories.RepairSettles | crates/artifacts/src/store.rs:510-572 | so it is on every disk that any run from an empty store leaves, names used again included |
| ArtifactHistories.StraySidecarIff | crates/artifacts/src/store.rs:343-376 | on every run from an empty store, a record without a sidecar has a file under its sidecar's name exactly when an attachment to it stopped after its first write, with neither its second nor its undoing |
| ArtifactHistories.StoppedForever | crates/artifacts/src/store.rs:343-376 | after that, whatever runs, nothing can be attached to that artifact |
| ArtifactHistories.AttachableIff | crates/artifacts/src/store.rs:328-376 | a whole artifact without a sidecar takes one exactly when no attachment to it ever stopped so |
| ArtifactHistories.InterruptionArises | crates/artifacts/src/store.rs:343-376 | a run from the empty store comes to this by a crash, and the artifact is healthy to the repair pass |
| ArtifactHistories.StrandedUntilRemoved | crates/artifacts/src/store.rs:510-572 | over every run, a record whose name was taken by another image is damaged and left as it is exactly while that file stands, and an orphan that repair removes once it is gone, unless its own sidecar is damaged |
| ArtifactHistories.ReuseArises | crates/artifacts/src/store.rs:269-300 | a run from the empty store comes to this, and the newer artifact can then be removed |
| ArtifactRetention.CleanUp | crates/artifacts/src/store.rs:446-501 | scan, sort and deletion compute the specified pass, deletions that fail at any of their writes included |
| ArtifactRetention.RemoveVerified | crates/artifacts/src/store.rs:663-672 | exactly when it still verifies an artifact goes with sidecar and record, one write after another, as far as the writes succeed |
| ArtifactRetention.NewestFirstDescending | crates/artifacts/src/store.rs:481-487 | the order is latest first, greater identifier first among equals |
| ArtifactRetention.RetentionMeaning | crates/artifacts/src/store.rs:446-501 | a complete pass keeps of the verified artifacts exactly those whose time is above zero and, with the maximum age added, still to come, with fewer than the permitted number newer; deletes the others as far as its writes succeed, and touches nothing else; whatever damaged or unreadable records stand beside them, as long as no two verified artifacts share a file, as on every consistent disk (`ArtifactRetention.ConsistentEligible`) |
| ArtifactRetention.RetentionIff | crates/artifacts/src/store.rs:446-501 | when deletions succeed, by ages, digests and files alone: a record goes exactly when its artifact and its sidecar stand as recorded and it is too old or has too many later ones; a file goes exactly with such a record; and what the report counts |
| ArtifactRetention.CleanupSafe | crates/artifacts/src/store.rs:446-501 | on whatever disk, wherever the scan ends, and however deletions fail, a pass takes only files that are, by digest, the artifact or the sidecar of a record, and a record only when all its files are gone |
| ArtifactRetention.CleanupCounts | crates/artifacts/src/store.rs:446-501 | whatever the disk and the failures, scanned is deleted plus skipped plus kept, and the scan ended early exactly when there were more entries than its limit |
| ArtifactRetention.DiscardPartMeaning | crates/artifacts/src/store.rs:663-672 | a deletion that fails has taken nothing, the sidecar, or the sidecar and the artifact, in this order |
| ArtifactNames.PublishNoclobber | crates/artifacts/src/store.rs:862-900 | the first free name is taken and no file overwritten, or every attempt's name is in use |
| ArtifactNames.AttemptsDiffer | crates/artifacts/src/store.rs:902-914 | every attempt tries another name, its number in decimal (`ArtifactNames.DecimalMeaning`) behind the stem |
| ArtifactNames.SafeIff | crates/artifacts/src/store.rs:831-852 | a name is accepted exactly when it is one visible path component of portable characters, at most 160 of them, whose extension, if any, suits the image whatever its case |
| ArtifactNames.CompletionMeaning | crates/artifacts/src/store.rs:854-860 | a name without an extension gets that of its format behind it, any other stays |
| ArtifactNames.ImageIsNoSidecar | crates/artifacts/src/store.rs:831-860 | no image is published under a sidecar's name |
| Negotiation.NegotiateRequest | crates/core/src/negotiation.rs:32-75 | the checks and steps in order, stopping at the first refusal |
| Negotiation.Negotiator.NegotiateSize | crates/core/src/negotiation.rs:279-316 | a supported size is kept; otherwise `auto` or the least fixed size replaces it, or it is refused |
| Negotiation.Negotiator.NegotiateFormat | crates/core/src/negotiation.rs:441-493 | an unsupported format falls back, and then compression without a compressed format is dropped |
| Negotiation.Negotiator.NegotiateNegativePrompt | crates/core/src/negotiation.rs:592-646 | the negative prompt is kept, merged or refused by policy and support |
| Negotiation.ApplySettles | crates/core/src/negotiation.rs:110-646 | each step settles its own field and touches no other part of the request |
| Negotiation.NegotiatedWithin | crates/core/src/negotiation.rs:32-75 | a negotiated request is within capabilities exactly when its size did not fall back to a refused `auto` |
| Negotiation.NothingToDoIff | crates/core/src/negotiation.rs:32-75 | a request negotiates to itself with nothing recorded exactly when it is within capabilities |
| Negotiation.Fixpoint | crates/core/src/negotiation.rs:32-75 | negotiating again, however strictly, changes and records nothing, exactly under that guard |
| Negotiation.RecordEmptyIff | crates/core/src/negotiation.rs:32-75 | nothing is recorded exactly when nothing is changed, but for a refused `auto` replaced by itself |
| Negotiation.AutoReplacedByItself | crates/core/src/negotiation.rs:279-316 | a lenient request for `auto` that is otherwise within capabilities records just that change, and is unchanged |
| Negotiation.NotAlwaysFixed | crates/core/src/negotiation.rs:279-316 | a valid provider and a request where that happens |
| Negotiation.StrictIff | crates/core/src/negotiation.rs:110-646 | a strict request succeeds exactly when the lenient one does with only an automatic action or a merged prompt, and then they agree |
| NegotiationValues.NegotiatedValues | crates/core/src/negotiation.rs:110-645 | every field of a negotiated request, without the steps: the nearest count in range, a replaced size, quality, format, background and moderation, hints kept or dropped, the negative prompt kept or put behind the prompt with the constraint text between them; and the record as what was asked against what is given |
| NegotiationValues.NegotiateOkIff | crates/core/src/negotiation.rs:32-645 | a negotiation succeeds exactly when the request is admissible and something can be settled for every field, and otherwise names the first field for which nothing can |
| NegotiationValues.SizeSupportedIff | crates/core/src/negotiation.rs:318-352 | a size is supported by name, or because each of its edges beside the other and its area are within the bounds |
| Chroma.SoftAlphaMonotone | crates/artifacts/src/chroma.rs:297-307 | the soft alpha is a byte and grows with the distance |
| Chroma.SpillIff | crates/artifacts/src/chroma.rs:263-269 | the key spills into a channel exactly when it is at least 128 there and nowhere more than 16 above it |
| Chroma.DistanceMeaning | crates/artifacts/src/chroma.rs:255-261 | the distance is that of the channel that differs most |
| Chroma.DominanceMeaning | crates/artifacts/src/chroma.rs:271-291 | the dominance is the greatest amount by which every channel of the key's spill exceeds every other channel, none counting as black |
| Chroma.LooksIff | crates/artifacts/src/chroma.rs:293-295 | a color looks like the key exactly when no channel is more than 32 away or its dominance is at least 16 |
| Chroma.SoftAlphaFits | crates/artifacts/src/chroma.rs:297-307 | no intermediate value overflows 64 bits |
| Chroma.SoftAlphaIsSmoothStep | crates/artifacts/src/chroma.rs:297-307 | it is within one level of the smooth step between the thresholds |
| Chroma.DominanceAlphaRange | crates/artifacts/src/chroma.rs:309-327 | the dominance alpha is a byte, so its fallback is never taken |
| Chroma.DominanceAlphaNear | crates/artifacts/src/chroma.rs:309-327 | it is the remaining share rounded to nearest |
| Chroma.BlendBound | crates/artifacts/src/chroma.rs:143-147 | the product fits 16 bits and the blended alpha is at most the source's |
| Chroma.BlendNear | crates/artifacts/src/chroma.rs:143-147 | the blended alpha is the product over 255 rounded to nearest, or nothing when that is within the noise |
| Chroma.RemoveChromaKey | crates/artifacts/src/chroma.rs:128-159 | the pixel loop replaces every pixel by its matte in place |
| Chroma.MatteAlpha | crates/artifacts/src/chroma.rs:128-159 | an output pixel is no more opaque than its source and is empty or above the noise floor |
| Chroma.MatteKeepsSubject | crates/artifacts/src/chroma.rs:128-159 | a pixel unlike the key is untouched unless nearly empty |
| Chroma.CleanupRemovesDominance | crates/artifacts/src/chroma.rs:329-349 | no key dominance is left exactly when the pixel was pulled back or had none, and only spill channels fall |
| Chroma.CleanupMeaning | crates/artifacts/src/chroma.rs:329-349 | a channel of the spill is pulled back to just below the strongest other one, and no further than it must |
| Chroma.MatteDespills | crates/artifacts/src/chroma.rs:152-158 | a despilled pixel with alpha below 252 has no key dominance |
| Chroma.WithinThresholdEmptyIff | crates/artifacts/src/chroma.rs:129-151 | a pixel within the transparent threshold becomes empty exactly when it looks like the key or was nearly empty |
| Chroma.ThresholdNotReached | crates/artifacts/src/chroma.rs:129-151 | a gray within a transparent threshold of 64 that stays opaque |
| Chroma.BeyondThresholdOpaqueIff | crates/artifacts/src/chroma.rs:129-151 | an opaque pixel at or beyond the opaque threshold stays opaque exactly when it does not look like the key or has no key dominance |
| Chroma.ThresholdNotEnough | crates/artifacts/src/chroma.rs:129-151 | a green beyond the default opaque threshold that keeps an alpha of 105 |
| Chroma.SummarizeAlpha | crates/artifacts/src/chroma.rs:351-383 | every pixel is counted once, the three counts sum to the total, and the corners are counted |
| Chroma.NothingKeyedNothingRemoved | crates/artifacts/src/chroma.rs:128-159 | without a pixel like the key only nearly empty pixels become transparent |
| Chroma.UnkeyedRefused | crates/artifacts/src/chroma.rs:385-409 | such an image is refused unless enough of it was nearly empty before |
| Chroma.AcceptableIff | crates/artifacts/src/chroma.rs:385-409 | a matte is kept exactly when what is removed and what is left are each at least a pixel and a thousandth of the image, and two corners are clear where that is asked |
| Rpc.Connection.DispatchResponse | crates/codex-app-server/src/rpc.rs:325-335 | a response resolves the waiting request of its number, or nothing |
| Rpc.Connection.FailConnection | crates/codex-app-server/src/rpc.rs:388-397 | every waiting request is told and the table emptied, then the connection is closed |
| Rpc.StepKeeps | crates/codex-app-server/src/rpc.rs:202-352 | every step keeps the table, the replies and the requests coherent |
| Rpc.RunKeeps | crates/codex-app-server/src/rpc.rs:202-352 | on every interleaving a reply once sent is never replaced and a closed connection stays closed |
| Rpc.Correlation | crates/codex-app-server/src/rpc.rs:202-271 | an answer was written under the request's own number, which no other request has, and no channel is closed without a reply |
| Rpc.NothingLeaks | crates/codex-app-server/src/rpc.rs:219-256 | when every request has ended the table is empty |
| Rpc.BeginsIff | crates/codex-app-server/src/rpc.rs:210-212 | a request goes on exactly when it finds the connection open, and otherwise ends with the error that closed it |
| Rpc.RefusedOnceClosed | crates/codex-app-server/src/rpc.rs:210-212 | on every run from a closed connection, a request that begins is refused and never gets a number |
| Rpc.LateResponseDropped | crates/codex-app-server/src/rpc.rs:325-335 | a response changes nothing exactly when its number is not waiting |
| Rpc.OrphanWaits | crates/codex-app-server/src/rpc.rs:202-352 | after the drain a waiting request ends only by its own interruption or some request's failed write |
| Rpc.ToldIff | crates/codex-app-server/src/rpc.rs:202-352 | on every run from the start, once the reader has drained the table, a request that is sent has its reply exactly when it was put into the table before the last drain |
| Rpc.OrphanArises | crates/codex-app-server/src/rpc.rs:210-219 | a run from the start in which a request passes the closed check before the drain and is left waiting on a closed connection |
| LayeredConfig.RecordLeaves | crates/config/src/loader.rs:354-374 | the recursive loop records exactly the dotted names of the leaves under a path |
| LayeredConfig.MergeValues | crates/config/src/loader.rs:319-352 | the recursive loop merges tables, replaces the rest, and records the layer's leaves by dotted name |
| LayeredConfig.MergeMeaning | crates/config/src/loader.rs:319-352 | a leaf the layer speaks of gets the layer's value, any other is untouched |
| LayeredConfig.SetPathMeaning | crates/config/src/loader.rs:290-317 | a path gets its value, any leaf not below it is untouched |
| LayeredConfig.LastWriterWins | crates/config/src/loader.rs:145-214 | after any layers, whatever the keys, every leaf has the value of the last operation deciding it |
| LayeredConfig.OriginsGoByName | crates/config/src/loader.rs:319-382 | the origin kept for a dotted name is that of the last operation that wrote a leaf of this name, and there is none exactly when none did |
| LayeredConfig.OriginRightIff | crates/config/src/loader.rs:319-382 | whatever the keys, the origin kept for a leaf's name is the leaf's own exactly when no other origin has written a leaf of that name since |
| LayeredConfig.ProvenanceNamesWriter | crates/config/src/loader.rs:145-214 | with plain keys every leaf has the value and the origin of the last operation deciding it |
| LayeredConfig.DottedKeyCollides | crates/config/src/loader.rs:376-382 | a file's key with a dot in it keeps its value and loses its origin to a variable for the path of the same name |
| LayeredConfig.DottedKeyReached | crates/config/src/loader.rs:376-382 | a file and a variable where that happens |
| LayeredConfig.StaleIff | crates/config/src/loader.rs:319-374 | with plain keys an origin is stale exactly when its path once had a leaf and the last operation deciding it took the leaf away |
| LayeredConfig.StaleOrigin | crates/config/src/loader.rs:319-374 | a table replaced by a value leaves the origin of its field behind |
| LayeredConfig.DottedInjective | crates/config/src/loader.rs:376-382 | dotted names tell paths with plain keys apart |
| ConfigLoaders.ResolveWithEnvironment | crates/config/src/loader.rs:145-214 | the loader's steps, one source after another, stop at the first that fails and leave what all of them together say |
| ConfigLoaders.OverrideRules | crates/config/src/loader.rs:189-206 | the last override that reaches a path gives it its value and origin, whatever any other source says |
| ConfigLoaders.VariableRules | crates/config/src/loader.rs:168-188 | where no override does, the variable that reaches the path and comes last by name |
| ConfigLoaders.FileRules | crates/config/src/loader.rs:151-166 | where neither does, the file if it speaks of the path, and else the defaults |
| ConfigLoaders.Deterministic | crates/config/src/loader.rs:168-173 | the same variables in whatever order give the same configuration, or the same failure |
| ConfigLoaders.BeforeIff | crates/config/src/loader.rs:172 | names are ordered by the first place where they differ, and a name stands before those it begins |
| ConfigLoaders.SplitIff | crates/config/src/loader.rs:254-288 | splitting gives exactly the pieces that make the text again, each ending at the first mark behind its start |
| ConfigLoaders.EnvironmentPathIff | crates/config/src/loader.rs:254-270 | a variable names a field exactly when it is the field's keys in capitals with two underscores between them: keys in small letters, digits and underscores, never two in a row, and none at the end but of the last key |
| ConfigLoaders.OverridePathIff | crates/config/src/loader.rs:272-288 | an override names a field exactly when its key is the field's path as provenance writes it, in letters, digits and underscores |
| FanOut.Execute | crates/codex-responses/src/provider.rs:213-295 | collection, abort, sort and assembly compute the specification |
| FanOut.SortedIsOrdered | crates/codex-responses/src/provider.rs:271 | whatever order outputs arrive in, sorting puts each at its index |
| FanOut.OrderIndependent | crates/codex-responses/src/provider.rs:213-295 | with best effort the result depends on the outputs and not on their order of arrival |
| FanOut.FailFastIff | crates/codex-responses/src/provider.rs:242-262 | failing fast aborts in every order or in none, exactly when some output failed, and otherwise gives the same batch |
| FanOut.BestEffortMeaning | crates/codex-responses/src/provider.rs:271-306 | with best effort a batch fails exactly when every output failed, with the first one's error, or no output has the revised prompt that is required; else it holds the images and failures of its outputs, the last revised prompt, and whether any was retried |
| FanOut.FailFastMeaning | crates/codex-responses/src/provider.rs:242-262 | failing fast, the error is that of the output that fails first, no longer to be retried when others are under way or made |
| FanOut.PartsIff | crates/codex-responses/src/provider.rs:271-293 | an image or a failure is in a batch exactly when an output made it, with the index and the time of that output |
| FanOut.Partition | crates/codex-responses/src/provider.rs:271-288 | images and failures ascend and together hold every index exactly once |
| StreamEvents.EventState.ProcessEvent | crates/codex-responses/src/events.rs:91-162 | one event of a call: items recorded and captured, partial images numbered, completion and failure noted |
| StreamEvents.EventState.RecordOutputItem | crates/codex-responses/src/events.rs:164-202 | the kinds of items, statuses and message parts seen are collected |
| StreamEvents.EventState.CaptureImageItem | crates/codex-responses/src/events.rs:204-235 | an image within the bound is kept, the same one again accepted, another refused |
| StreamEvents.ReadMeaning | crates/codex-responses/src/events.rs:91-250 | a stream is read without error exactly when every event is readable and all its images are the same, and what it leaves |
| StreamEvents.OutcomeIff | crates/codex-responses/src/events.rs:23-40 | a call gives an image exactly when all is readable, one same image is given, the response completed and nothing failed, in whatever order |
| StreamEvents.ReasonMeaning | crates/codex-responses/src/events.rs:23-75 | the reason given for a stream without a result: the last reported failure, no completion, a refusal, a failed tool, or no image, the first that applies |
| StreamEvents.NotedAll | crates/codex-responses/src/events.rs:164-202 | a stream that is read leaves exactly the kinds of its items, of their message parts, and of its image calls' statuses |
| StreamEvents.PartialsMeaning | crates/codex-responses/src/events.rs:108-133 | the listener gets every partial image in order, each with the index given for it or else the one after the partial before it, up to 255 |
| FanOut.UsageIsSum | crates/codex-responses/src/events.rs:252-263 | each count is the sum of those given, capped at 64 bits, and absent only when none is given |
| FanOut.CallResilient | crates/codex-responses/src/provider.rs:418-467 | attempts stop at the first that succeeds, may not be retried, or has no time left, and never pass the maximum |
| Admission.StepKeeps | crates/runtime/src/admission.rs:48-121 | every atomic step keeps the counts, and no reservation is dropped from an empty queue |
| Admission.GateBounds | crates/runtime/src/admission.rs:48-121 | under every interleaving queue and permits stay within their bounds, and everything is given back when all have finished |
| Admission.OverloadedIff | crates/runtime/src/admission.rs:89-113 | a caller is refused for a full queue exactly on the value it loaded, and reserves exactly when the exchange succeeds below the bound |
| Admission.StepGrants | crates/runtime/src/admission.rs:48-121 | a free permit of an open gate goes to whoever asks, at once or after waiting; a late caller is turned away |
| Admission.NeverStuck | crates/runtime/src/admission.rs:48-121 | whatever the others do, a caller that has not finished can take a step, and the gate can be closed |
| Admission.RefusalsAreHonest | crates/runtime/src/admission.rs:48-121 | on every run a caller is told of a shutdown only when there is one, and of an overload only before it has a place |
| Admission.ClosedAdmitsNobody | crates/runtime/src/admission.rs:48-121 | once closed, the gate stays closed on every run, and nobody gets a permit who had none |
| Admission.Gate.ReserveQueue | crates/runtime/src/admission.rs:89-113 | the reservation loop, retried after every exchange that meets another value or fails on its own, computes its specification |
| Admission.ReservationTurn | crates/runtime/src/admission.rs:89-113 | a turn of the loop is one step of the system, which ends it or goes on from the value met |
| Admission.ReservationMeaning | crates/runtime/src/admission.rs:89-113 | however the others interfere, a place reserved is within the bound and a refusal saw a full queue |

## Left out

- Image decoding and encoding, SHA-256 and JSON: parameters (`inspect`, `digest`, `isImage`, `isObject`) that may be any function.
- Closures that borrow the caller's variables: the WebP visitor threads its state as a value.
- Saturating 64-bit and 32-bit counters of the replay cache and the circuit breaker, and wrapping request numbers: unbounded numbers.
- Wall-clock time: a number given to each call, which need not even move forward in the proofs.
- The scope check and the fingerprint digest of a replay request: fingerprints are opaque values; waiting on a channel with a deadline is not modelled.
- ArtifactStores.RecordedFilesAreSafe: its publications take names no record speaks of, as generated names are; `ArtifactRepairs.PublishConsistentIff` and `ArtifactHistories.StrandedUntilRemoved` say what other names do.
- Artifact identifiers are random in the program; in the model none is given out twice.
- The repair and retention passes: a record's change fails, if it does, after a given number of its writes; failing to sync after the last write is failing after it.
- SseStandards.StandardIff: streams with a carriage return outside a line end are left to examples, because there the two decodings can agree by coincidence; the replacement of malformed UTF-8 is not modelled, as no run succeeds on it.
- SseStandards.MarkedStandardIff: with a byte order mark at a data line of some event, and something pending at the end, only examples (`SseStandards.MarkCanAgree`), because the pending event can make good the hidden one by coincidence.
- SseStandards.RunStandardIff: as the two before it.
- ArtifactRepairs.PassMeaning: not for a disk on which an orphan's sidecar is another record's file, where the order of the listing matters; no run from an empty store leaves one (`ArtifactHistories.RepairSettles`).
- ArtifactRepairs.AuditPredicts: not for such a disk either.
- ArtifactRetention.RetentionMeaning: not for a disk on which two artifacts that verify share a file, where deleting one takes the other's file away.
- Directories, links and changes by other programs while an operation runs: a path is missing, a regular file, or in the way; identifiers are numbers in the order of their text.
- Markers hold records rather than encoded text: size and field checks of ownership records are left out but for the identifier.
- Text parsing of sizes, ratios and override values (what a value's text stands for is a parameter), validation lists, presets: flat checks.
- LayeredConfig.SetField: the tree is rebuilt along the path instead of changed in place.
- Negotiation: a provider's edge multiple of zero, which makes the program panic, is excluded by type; floating-point ratios are reals.
- Rpc: futures dropped while waiting, which leave their entry in the table; message sizes and notifications.
- Admission.Gate.ReserveQueue: what the others do is the value each exchange meets, a finite number of them; the order of waiters in the semaphore is left out.
- StreamEvents: events are already parsed, with a text field absent when it is not a string; the classification and the details of upstream errors are one opaque error; forwarding partial images to a listener.
- FanOut: the HTTP calls, the decoding of outputs, and the parallel scheduling, which is any order of arrival.
- HTTP, OAuth, process spawning, terminal preview, dashboard, setup, doctor, command line, gateway proxying: plumbing without a hard functional property.
- Remote-fetch address filtering and path permissions: policy.
