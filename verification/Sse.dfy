/** The incremental Server-Sent Events decoder, and the decoding of a whole stream it must agree with. */
module Sse {
  import opened Wrappers
  import opened Bytes

  datatype Error = StreamOverflow | StreamTooLong | LineTooLong | NotUtf8 | EventTooLong | TooManyEvents

  datatype Limits = Limits(maxStreamBytes: nat, maxLineBytes: nat, maxEvents: nat, maxEventBytes: nat)

  const USIZE_MAX := 0xffff_ffff_ffff_ffff
  const LF: Byte := 0x0A
  const CR: Byte := 0x0D
  const COLON: Byte := 0x3A
  const SPACE: Byte := 0x20

  /** `data:` */
  const DATA: seq<Byte> := [0x64, 0x61, 0x74, 0x61, 0x3A]

  function SaturatingAdd(a: nat, b: nat): nat {
    if a + b <= USIZE_MAX then a + b else USIZE_MAX
  }

  // ----- lines

  predicate Continuation(b: Byte) {
    0x80 <= b < 0xC0
  }

  /** The bytes of the character in front, or 0: no overlong form, no surrogate, nothing above U+10FFFF. */
  function Width(s: seq<Byte>): (n: nat)
    ensures n <= |s|
  {
    if s == [] then 0
    else if s[0] < 0x80 then 1
    else if 0xC2 <= s[0] < 0xE0 && |s| >= 2 && Continuation(s[1]) then 2
    else if 0xE0 <= s[0] < 0xF0 && |s| >= 3 && Continuation(s[1]) && Continuation(s[2])
      && (s[0] == 0xE0 ==> s[1] >= 0xA0) && (s[0] == 0xED ==> s[1] < 0xA0)
    then 3
    else if 0xF0 <= s[0] < 0xF5 && |s| >= 4 && Continuation(s[1]) && Continuation(s[2]) && Continuation(s[3])
      && (s[0] == 0xF0 ==> s[1] >= 0x90) && (s[0] == 0xF4 ==> s[1] < 0x90)
    then 4
    else 0
  }

  /** Well-formed UTF-8 is one character after another. */
  predicate ValidUtf8(s: seq<Byte>) {
    s == [] || (Width(s) > 0 && ValidUtf8(s[Width(s)..]))
  }

  function DropOneCr(line: seq<Byte>): seq<Byte> {
    if line != [] && line[|line| - 1] == CR then line[..|line| - 1] else line
  }

  function DropAllCr(line: seq<Byte>): seq<Byte> {
    if line != [] && line[|line| - 1] == CR then DropAllCr(line[..|line| - 1]) else line
  }

  /** A line in the middle of a stream loses one carriage return at most, the last line of all loses each at its end. */
  lemma {:induction false} DropsReturns(line: seq<Byte>)
    ensures var one, all := DropOneCr(line), DropAllCr(line);
      && (line == one || line == one + [CR]) && (line == one ==> line == [] || line[|line| - 1] != CR)
      && all <= line && (forall i :: |all| <= i < |line| ==> line[i] == CR)
      && (all == [] || all[|all| - 1] != CR)
  {
    if line != [] && line[|line| - 1] == CR {
      var shorter := line[..|line| - 1];
      assert line == shorter + [CR];
      DropsReturns(shorter);
    }
  }

  /** The text of a `data:` line without the one space that may follow the colon. */
  function DataValue(line: seq<Byte>): seq<Byte>
    requires DATA <= line
  {
    var value := line[5..];
    if value != [] && value[0] == SPACE then value[1..] else value
  }

  // ----- one line after another

  /** The event being assembled, the number of events so far, and the events of this call. */
  datatype Progress = Progress(data: seq<Byte>, events: nat, output: seq<seq<Byte>>)

  function Flush(p: Progress, limits: Limits): (Progress, Option<Error>) {
    if p.data == [] then (p, None)
    else
      var events := SaturatingAdd(p.events, 1);
      if events > limits.maxEvents then (p.(events := events), Some(TooManyEvents))
      else (Progress([], events, p.output + [p.data]), None)
  }

  function Append(data: seq<Byte>, value: seq<Byte>): seq<Byte> {
    if data == [] then value else data + [LF] + value
  }

  function ProcessLine(p: Progress, line: seq<Byte>, limits: Limits): (Progress, Option<Error>) {
    if line == [] then Flush(p, limits)
    else if line[0] == COLON then (p, None)
    else if DATA <= line then
      var value := DataValue(line);
      if SaturatingAdd(|p.data|, |value| + (if p.data == [] then 0 else 1)) > limits.maxEventBytes
      then (p, Some(EventTooLong))
      else (p.(data := Append(p.data, value)), None)
    else (p, None)
  }

  /** A line as it stands in the buffer, without its newline. */
  function TakeLine(p: Progress, raw: seq<Byte>, limits: Limits): (Progress, Option<Error>) {
    if !ValidUtf8(DropOneCr(raw)) then (p, Some(NotUtf8)) else ProcessLine(p, DropOneCr(raw), limits)
  }

  function IndexOfLf(s: seq<Byte>): (r: nat)
    ensures r <= |s| && (r < |s| <==> LF in s) && (r < |s| ==> s[r] == LF) && LF !in s[..r]
  {
    if s == [] then 0 else if s[0] == LF then 0 else
      var r := IndexOfLf(s[1..]);
      assert s[..r + 1] == [s[0]] + s[1..][..r];
      r + 1
  }

  /** Lines are taken off the front of the buffer until it holds no newline or one of them fails. */
  function Drain(p: Progress, buffer: seq<Byte>, limits: Limits): (r: (Progress, seq<Byte>, Option<Error>))
    ensures r.2.None? ==> LF !in r.1
    decreases |buffer|
  {
    var at := IndexOfLf(buffer);
    if at == |buffer| then (p, buffer, None)
    else
      var (next, fault) := TakeLine(p, buffer[..at], limits);
      if fault.Some? then (next, buffer[at + 1..], fault) else Drain(next, buffer[at + 1..], limits)
  }

  // ----- the decoder

  datatype State = State(buffer: seq<Byte>, data: seq<Byte>, events: nat, streamBytes: nat)

  const INITIAL := State([], [], 0, 0)

  function Push(s: State, chunk: seq<Byte>, limits: Limits): (State, Result<seq<seq<Byte>>, Error>) {
    if s.streamBytes + |chunk| > USIZE_MAX then (s, Err(StreamOverflow))
    else
      var counted := s.(streamBytes := s.streamBytes + |chunk|);
      if counted.streamBytes > limits.maxStreamBytes then (counted, Err(StreamTooLong))
      else if SaturatingAdd(|s.buffer|, |chunk|) > limits.maxLineBytes then (counted, Err(LineTooLong))
      else
        var (p, rest, fault) := Drain(Progress(s.data, s.events, []), s.buffer + chunk, limits);
        (State(rest, p.data, p.events, counted.streamBytes),
         if fault.Some? then Err(fault.value) else Ok(p.output))
  }

  /** What is left at the end of the stream: an unterminated line, then an unterminated event. */
  function FinishFrom(p: Progress, buffer: seq<Byte>, limits: Limits): Result<seq<seq<Byte>>, Error> {
    var (line, fault) :=
      if buffer == [] then (p, None)
      else if !ValidUtf8(buffer) then (p, Some(NotUtf8))
      else ProcessLine(p, DropAllCr(buffer), limits);
    if fault.Some? then Err(fault.value)
    else
      var (last, overflow) := Flush(line, limits);
      if overflow.Some? then Err(overflow.value) else Ok(last.output)
  }

  function Finish(s: State, limits: Limits): Result<seq<seq<Byte>>, Error> {
    FinishFrom(Progress(s.data, s.events, []), s.buffer, limits)
  }

  class SseDecoder {
    var buffer: seq<Byte>
    var data: seq<Byte>
    var events: nat
    var streamBytes: nat
    const limits: Limits

    ghost function Current(): State
      reads this
    {
      State(buffer, data, events, streamBytes)
    }

    constructor (limits: Limits)
      ensures this.limits == limits && Current() == INITIAL
    {
      this.limits := limits;
      buffer, data, events, streamBytes := [], [], 0, 0;
    }

    method PushChunk(chunk: seq<Byte>) returns (r: Result<seq<seq<Byte>>, Error>)
      modifies this
      ensures (Current(), r) == Push(old(Current()), chunk, limits)
    {
      hide TakeLine, IndexOfLf;
      if streamBytes + |chunk| > USIZE_MAX {
        return Err(StreamOverflow);
      }
      streamBytes := streamBytes + |chunk|;
      if streamBytes > limits.maxStreamBytes {
        return Err(StreamTooLong);
      }
      if SaturatingAdd(|buffer|, |chunk|) > limits.maxLineBytes {
        return Err(LineTooLong);
      }
      buffer := buffer + chunk;
      ghost var whole := Drain(Progress(data, events, []), buffer, limits);
      var output: seq<seq<Byte>> := [];
      var position := IndexOfLf(buffer);
      while position < |buffer|
        invariant streamBytes == old(streamBytes) + |chunk|
        invariant position == IndexOfLf(buffer)
        invariant whole == Drain(Progress(data, events, output), buffer, limits)
        decreases |buffer|
      {
        var line := buffer[..position];
        buffer := buffer[position + 1..];
        ghost var taken := TakeLine(Progress(data, events, output), line, limits);
        var fault := Take(line, output);
        output := fault.0;
        if fault.1.Some? {
          return Err(fault.1.value);
        }
        position := IndexOfLf(buffer);
      }
      return Ok(output);
    }

    /** Strips one carriage return, checks the encoding and hands the line on. */
    method Take(raw: seq<Byte>, output: seq<seq<Byte>>) returns (r: (seq<seq<Byte>>, Option<Error>))
      modifies this`data, this`events
      ensures (Progress(data, events, r.0), r.1) == TakeLine(Progress(old(data), old(events), output), raw, limits)
    {
      hide ValidUtf8;
      var line := raw;
      if line != [] && line[|line| - 1] == CR {
        line := line[..|line| - 1];
      }
      if !ValidUtf8(line) {
        return (output, Some(NotUtf8));
      }
      r := Process(line, output);
    }

    method Process(line: seq<Byte>, output: seq<seq<Byte>>) returns (r: (seq<seq<Byte>>, Option<Error>))
      modifies this`data, this`events
      ensures (Progress(data, events, r.0), r.1) == ProcessLine(Progress(old(data), old(events), output), line, limits)
    {
      if line == [] {
        r := FlushEvent(output);
        return;
      }
      if line[0] != COLON && DATA <= line {
        var value := DataValue(line);
        var additional := |value| + (if data == [] then 0 else 1);
        if SaturatingAdd(|data|, additional) > limits.maxEventBytes {
          return (output, Some(EventTooLong));
        }
        if data != [] {
          data := data + [LF];
        }
        assert [] + value == value;
        data := data + value;
      }
      return (output, None);
    }

    method FlushEvent(output: seq<seq<Byte>>) returns (r: (seq<seq<Byte>>, Option<Error>))
      modifies this`data, this`events
      ensures (Progress(data, events, r.0), r.1) == Flush(Progress(old(data), old(events), output), limits)
    {
      if data == [] {
        return (output, None);
      }
      events := SaturatingAdd(events, 1);
      if events > limits.maxEvents {
        return (output, Some(TooManyEvents));
      }
      r := (output + [data], None);
      data := [];
    }

    method FinishStream() returns (r: Result<seq<seq<Byte>>, Error>)
      modifies this
      ensures r == Finish(old(Current()), limits)
    {
      var output: seq<seq<Byte>> := [];
      if buffer != [] {
        if !ValidUtf8(buffer) {
          return Err(NotUtf8);
        }
        var line := DropAllCr(buffer);
        buffer := [];
        var processed := Process(line, output);
        if processed.1.Some? {
          return Err(processed.1.value);
        }
        output := processed.0;
      }
      var flushed := FlushEvent(output);
      if flushed.1.Some? {
        return Err(flushed.1.value);
      }
      return Ok(flushed.0);
    }
  }

  // ----- independence from the chunk boundaries

  lemma {:induction false} IndexOfLfAppend(s: seq<Byte>, more: seq<Byte>)
    ensures IndexOfLf(s) < |s| ==> IndexOfLf(s + more) == IndexOfLf(s)
  {
    if s != [] {
      assert (s + more)[1..] == s[1..] + more;
      IndexOfLfAppend(s[1..], more);
    }
  }

  function Prepend(output: seq<seq<Byte>>, p: Progress): Progress {
    p.(output := output + p.output)
  }

  lemma TakeLineOutput(output: seq<seq<Byte>>, p: Progress, raw: seq<Byte>, limits: Limits)
    ensures TakeLine(Prepend(output, p), raw, limits)
      == (Prepend(output, TakeLine(p, raw, limits).0), TakeLine(p, raw, limits).1)
  {
    hide ValidUtf8;
    assert output + (p.output + [p.data]) == output + p.output + [p.data];
  }

  /** Earlier events only stand in front of later ones. */
  lemma {:induction false} DrainOutput(output: seq<seq<Byte>>, p: Progress, buffer: seq<Byte>, limits: Limits)
    ensures var r := Drain(p, buffer, limits);
      Drain(Prepend(output, p), buffer, limits) == (Prepend(output, r.0), r.1, r.2)
    decreases |buffer|
  {
    hide TakeLine, IndexOfLf;
    var at := IndexOfLf(buffer);
    if at < |buffer| {
      TakeLineOutput(output, p, buffer[..at], limits);
      DrainOutput(output, TakeLine(p, buffer[..at], limits).0, buffer[at + 1..], limits);
    }
  }

  /** Draining in one go is draining the front, then what is left of it with the rest. */
  lemma {:induction false} DrainSplit(p: Progress, front: seq<Byte>, back: seq<Byte>, limits: Limits)
    ensures var (next, rest, fault) := Drain(p, front, limits);
      Drain(p, front + back, limits) ==
        if fault.Some? then (next, rest + back, fault) else Drain(next, rest + back, limits)
    decreases |front|
  {
    hide TakeLine, IndexOfLf;
    var at := IndexOfLf(front);
    if at < |front| {
      IndexOfLfAppend(front, back);
      assert (front + back)[..at] == front[..at] && (front + back)[at + 1..] == front[at + 1..] + back;
      DrainSplit(TakeLine(p, front[..at], limits).0, front[at + 1..], back, limits);
    }
  }

  /** No sum exceeds a limit that is the greatest number of the machine. */
  predicate Within(n: nat, limit: nat) {
    n <= limit || limit >= USIZE_MAX
  }

  predicate Fits(buffered: nat, chunk: nat, limits: Limits) {
    Within(buffered + chunk, limits.maxLineBytes)
  }

  /**
   * Pushing a chunk in two pieces gives the same events and the same state. The two pushes succeed
   * and the whole fits the line bound exactly when the single push succeeds.
   */
  lemma PushSplit(s: State, a: seq<Byte>, b: seq<Byte>, limits: Limits)
    ensures var (whole, all) := Push(s, a + b, limits);
      var (middle, first) := Push(s, a, limits);
      var (last, second) := Push(middle, b, limits);
      && (all.Ok? <==> first.Ok? && second.Ok? && Fits(|s.buffer|, |a + b|, limits))
      && (all.Ok? ==> last == whole && first.value + second.value == all.value)
  {
    hide Drain;
    var start := Progress(s.data, s.events, []);
    var (p, rest, fault) := Drain(start, s.buffer + a, limits);
    DrainSplit(start, s.buffer + a, b, limits);
    assert s.buffer + (a + b) == s.buffer + a + b;
    DrainShrinks(start, s.buffer + a, limits);
    DrainOutput(p.output, Progress(p.data, p.events, []), rest + b, limits);
    assert Prepend(p.output, Progress(p.data, p.events, [])) == p;
  }

  lemma {:induction false} DrainShrinks(p: Progress, buffer: seq<Byte>, limits: Limits)
    ensures |Drain(p, buffer, limits).1| <= |buffer|
    decreases |buffer|
  {
    hide TakeLine, IndexOfLf;
    var at := IndexOfLf(buffer);
    if at < |buffer| {
      DrainShrinks(TakeLine(p, buffer[..at], limits).0, buffer[at + 1..], limits);
    }
  }

  // ----- what every successful push keeps

  predicate Invariant(s: State, limits: Limits) {
    && LF !in s.buffer
    && |s.buffer| <= limits.maxLineBytes
    && |s.data| <= limits.maxEventBytes
    && s.events <= limits.maxEvents
    && |s.buffer| + |s.data| <= s.streamBytes <= limits.maxStreamBytes
    && s.streamBytes <= USIZE_MAX
  }

  lemma {:induction false} DrainBounds(p: Progress, buffer: seq<Byte>, limits: Limits)
    requires |p.data| <= limits.maxEventBytes && p.events <= limits.maxEvents && |p.data| + |buffer| <= USIZE_MAX
    requires Drain(p, buffer, limits).2.None?
    ensures var (next, rest, _) := Drain(p, buffer, limits);
      && |next.data| <= limits.maxEventBytes && next.events <= limits.maxEvents
      && |next.data| + |rest| <= |p.data| + |buffer| && |rest| <= |buffer|
    decreases |buffer|
  {
    hide ValidUtf8, DropOneCr, IndexOfLf;
    var at := IndexOfLf(buffer);
    if at < |buffer| {
      DropOneCrShortens(buffer[..at]);
      DrainBounds(TakeLine(p, buffer[..at], limits).0, buffer[at + 1..], limits);
    }
  }

  lemma DropOneCrShortens(line: seq<Byte>)
    ensures |DropOneCr(line)| <= |line|
  {
  }

  lemma PushKeepsInvariant(s: State, chunk: seq<Byte>, limits: Limits)
    requires Invariant(s, limits) && Push(s, chunk, limits).1.Ok?
    ensures Invariant(Push(s, chunk, limits).0, limits)
  {
    hide Drain;
    DrainBounds(Progress(s.data, s.events, []), s.buffer + chunk, limits);
  }

  // ----- the whole stream

  function Concat(chunks: seq<seq<Byte>>): seq<Byte> {
    if chunks == [] then [] else chunks[0] + Concat(chunks[1..])
  }

  /** The raw lines of a stream, and what follows the last newline. */
  function Lines(stream: seq<Byte>): (seq<seq<Byte>>, seq<Byte>)
    decreases |stream|
  {
    var at := IndexOfLf(stream);
    if at == |stream| then ([], stream)
    else
      var (lines, rest) := Lines(stream[at + 1..]);
      ([stream[..at]] + lines, rest)
  }

  function Unlines(lines: seq<seq<Byte>>): seq<Byte> {
    if lines == [] then [] else lines[0] + [LF] + Unlines(lines[1..])
  }

  lemma {:induction false} LinesMeaning(stream: seq<Byte>)
    ensures var (lines, rest) := Lines(stream);
      && Unlines(lines) + rest == stream
      && LF !in rest && forall line :: line in lines ==> LF !in line
    decreases |stream|
  {
    hide IndexOfLf, Unlines;
    NoLines();
    var at := IndexOfLf(stream);
    if at < |stream| {
      LinesMeaning(stream[at + 1..]);
      var (tail, rest) := Lines(stream[at + 1..]);
      var line := stream[..at];
      AtNewline(stream, at);
      UnlinesCons(line, tail, rest);
    }
  }

  lemma NoLines()
    ensures Unlines([]) == []
  {
  }

  lemma AtNewline(stream: seq<Byte>, at: nat)
    requires at < |stream| && stream[at] == LF
    ensures stream == stream[..at] + [LF] + stream[at + 1..]
  {
  }

  lemma UnlinesCons(line: seq<Byte>, tail: seq<seq<Byte>>, rest: seq<Byte>)
    ensures Unlines([line] + tail) + rest == line + [LF] + (Unlines(tail) + rest)
  {
    assert ([line] + tail)[1..] == tail;
  }

  function DropLeadingEmpty(values: seq<seq<Byte>>): seq<seq<Byte>> {
    if values != [] && values[0] == [] then DropLeadingEmpty(values[1..]) else values
  }

  function JoinLines(values: seq<seq<Byte>>): seq<Byte> {
    if values == [] then [] else if |values| == 1 then values[0] else values[0] + [LF] + JoinLines(values[1..])
  }

  /** The text of an event: its values one per line, the empty ones in front lost. */
  function Payload(values: seq<seq<Byte>>): seq<Byte> {
    JoinLines(DropLeadingEmpty(values))
  }

  function Emit(values: seq<seq<Byte>>): seq<seq<Byte>> {
    if Payload(values) == [] then [] else [Payload(values)]
  }

  /** The values waiting for a blank line after `lines`. */
  function Waiting(lines: seq<seq<Byte>>, values: seq<seq<Byte>>): seq<seq<Byte>>
    decreases |lines|
  {
    if lines == [] then values
    else if lines[0] == [] then Waiting(lines[1..], [])
    else if lines[0][0] != COLON && DATA <= lines[0] then Waiting(lines[1..], values + [DataValue(lines[0])])
    else Waiting(lines[1..], values)
  }

  /** The events that blank lines end. */
  function Ended(lines: seq<seq<Byte>>, values: seq<seq<Byte>>): seq<seq<Byte>>
    decreases |lines|
  {
    if lines == [] then []
    else if lines[0] == [] then Emit(values) + Ended(lines[1..], [])
    else if lines[0][0] != COLON && DATA <= lines[0] then Ended(lines[1..], values + [DataValue(lines[0])])
    else Ended(lines[1..], values)
  }

  function Cleaned(lines: seq<seq<Byte>>): seq<seq<Byte>> {
    if lines == [] then [] else [DropOneCr(lines[0])] + Cleaned(lines[1..])
  }

  /** The events of a complete stream, with no limit and no buffer. */
  function Reference(stream: seq<Byte>): seq<seq<Byte>> {
    var (lines, rest) := Lines(stream);
    var all := Cleaned(lines) + (if rest == [] then [] else [DropAllCr(rest)]);
    Ended(all, []) + Emit(Waiting(all, []))
  }

  lemma {:induction false} JoinLinesSnoc(values: seq<seq<Byte>>, value: seq<Byte>)
    requires values != []
    ensures JoinLines(values + [value]) == JoinLines(values) + [LF] + value
  {
    var more := values + [value];
    assert more[1..] == values[1..] + [value];
    if |values| == 1 {
      assert more[1..] == [value];
    } else {
      JoinLinesSnoc(values[1..], value);
    }
  }

  /** Appending to the text of an event is appending to its values. */
  lemma {:induction false} PayloadSnoc(values: seq<seq<Byte>>, value: seq<Byte>)
    ensures Payload(values + [value]) == Append(Payload(values), value)
  {
    if values == [] {
      assert values + [value] == [value];
    } else if values[0] == [] {
      assert (values + [value])[1..] == values[1..] + [value];
      PayloadSnoc(values[1..], value);
    } else {
      JoinLinesSnoc(values, value);
    }
  }

  lemma LineMeaning(p: Progress, line: seq<Byte>, values: seq<seq<Byte>>, limits: Limits)
    requires p.data == Payload(values) && ProcessLine(p, line, limits).1.None?
    ensures var next := ProcessLine(p, line, limits).0;
      next.data == Payload(Waiting([line], values)) && next.output == p.output + Ended([line], values)
  {
    hide Payload;
    assert [line][1..] == [] && Payload([]) == [] by {
      NoPayload();
    }
    if line != [] && line[0] != COLON && DATA <= line {
      PayloadSnoc(values, DataValue(line));
    }
  }

  lemma NoPayload()
    ensures Payload([]) == []
  {
  }

  lemma {:induction false} MeaningConcat(left: seq<seq<Byte>>, right: seq<seq<Byte>>, values: seq<seq<Byte>>)
    ensures Waiting(left + right, values) == Waiting(right, Waiting(left, values))
    ensures Ended(left + right, values) == Ended(left, values) + Ended(right, Waiting(left, values))
    decreases |left|
  {
    hide Emit, DataValue;
    if left == [] {
      assert left + right == right;
    } else {
      var line := left[0];
      assert (left + right)[1..] == left[1..] + right;
      MeaningConcat(left[1..], right, []);
      MeaningConcat(left[1..], right, values);
      if line != [] && DATA <= line {
        MeaningConcat(left[1..], right, values + [DataValue(line)]);
      }
    }
  }

  lemma NoEvents(values: seq<seq<Byte>>)
    ensures Waiting([], values) == values && Ended([], values) == []
  {
  }

  lemma CleanedCons(line: seq<Byte>, tail: seq<seq<Byte>>)
    ensures Cleaned([line] + tail) == [DropOneCr(line)] + Cleaned(tail)
  {
    assert ([line] + tail)[1..] == tail;
  }

  /** Draining without a fault yields the events of the lines. */
  lemma {:induction false} DrainMeaning(p: Progress, buffer: seq<Byte>, values: seq<seq<Byte>>, limits: Limits)
    requires p.data == Payload(values) && Drain(p, buffer, limits).2.None?
    ensures var (next, rest, _) := Drain(p, buffer, limits);
      var lines := Cleaned(Lines(buffer).0);
      && rest == Lines(buffer).1
      && next.data == Payload(Waiting(lines, values))
      && next.output == p.output + Ended(lines, values)
    decreases |buffer|
  {
    hide Payload, ProcessLine, DropOneCr, ValidUtf8, IndexOfLf, Emit, Waiting, Ended;
    NoEvents(values);
    var at := IndexOfLf(buffer);
    if at < |buffer| {
      var line := DropOneCr(buffer[..at]);
      var next := ProcessLine(p, line, limits).0;
      var tail := Lines(buffer[at + 1..]).0;
      LineMeaning(p, line, values, limits);
      DrainMeaning(next, buffer[at + 1..], Waiting([line], values), limits);
      CleanedCons(buffer[..at], tail);
      MeaningConcat([line], Cleaned(tail), values);
      assert p.output + Ended([line], values) + Ended(Cleaned(tail), Waiting([line], values))
        == p.output + Ended([line] + Cleaned(tail), values);
    }
  }

  /** Pushes until one fails. */
  function PushAll(s: State, chunks: seq<seq<Byte>>, limits: Limits): (State, Result<seq<seq<Byte>>, Error>)
    decreases |chunks|
  {
    if chunks == [] then (s, Ok([]))
    else
      var (next, first) := Push(s, chunks[0], limits);
      if first.Err? then (next, first)
      else
        var (last, rest) := PushAll(next, chunks[1..], limits);
        (last, if rest.Err? then rest else Ok(first.value + rest.value))
  }

  /** Whether every chunk fits beside the unfinished line it meets; read off the input alone. */
  predicate AllFit(buffer: seq<Byte>, chunks: seq<seq<Byte>>, limits: Limits)
    decreases |chunks|
  {
    chunks == [] || (Fits(|buffer|, |chunks[0]|, limits) && AllFit(Lines(buffer + chunks[0]).1, chunks[1..], limits))
  }

  /** A run of pushes is one drain of everything, and succeeds exactly when that and the bounds do. */
  lemma {:induction false} PushAllIsDrain(s: State, chunks: seq<seq<Byte>>, values: seq<seq<Byte>>, limits: Limits)
    requires LF !in s.buffer && s.data == Payload(values)
    ensures var (last, all) := PushAll(s, chunks, limits);
      var (p, rest, fault) := Drain(Progress(s.data, s.events, []), s.buffer + Concat(chunks), limits);
      var total := s.streamBytes + |Concat(chunks)|;
      && (chunks != [] ==>
        (all.Ok? <==>
          fault.None? && total <= USIZE_MAX && total <= limits.maxStreamBytes && AllFit(s.buffer, chunks, limits)))
      && (all.Ok? ==> fault.None? && last == State(rest, p.data, p.events, total) && all.value == p.output)
    decreases |chunks|
  {
    hide Drain, Payload, Lines;
    var start := Progress(s.data, s.events, []);
    if chunks == [] {
      assert s.buffer + Concat(chunks) == s.buffer;
      DrainNothing(start, s.buffer, limits);
    } else {
      var chunk, more := chunks[0], Concat(chunks[1..]);
      assert s.buffer + Concat(chunks) == s.buffer + chunk + more;
      DrainSplit(start, s.buffer + chunk, more, limits);
      var (p, rest, fault) := Drain(start, s.buffer + chunk, limits);
      if fault.None? {
        DrainMeaning(start, s.buffer + chunk, values, limits);
        var middle := State(rest, p.data, p.events, s.streamBytes + |chunk|);
        DrainRest(start, s.buffer + chunk, limits);
        PushAllIsDrain(middle, chunks[1..], Waiting(Cleaned(Lines(s.buffer + chunk).0), values), limits);
        DrainOutput(p.output, Progress(p.data, p.events, []), rest + more, limits);
        assert Prepend(p.output, Progress(p.data, p.events, [])) == p;
        if chunks[1..] == [] {
          assert rest + more == rest;
          DrainNothing(p, rest, limits);
        }
      }
    }
  }

  lemma DrainNothing(p: Progress, buffer: seq<Byte>, limits: Limits)
    requires LF !in buffer
    ensures Drain(p, buffer, limits) == (p, buffer, None)
  {
  }

  lemma DrainRest(p: Progress, buffer: seq<Byte>, limits: Limits)
    requires Drain(p, buffer, limits).2.None?
    ensures LF !in Drain(p, buffer, limits).1
  {
  }

  /** However the stream is cut, a run that succeeds yields exactly the events of the stream. */
  lemma RunMeaning(chunks: seq<seq<Byte>>, limits: Limits)
    requires var (s, all) := PushAll(INITIAL, chunks, limits); all.Ok? && Finish(s, limits).Ok?
    ensures var (s, all) := PushAll(INITIAL, chunks, limits);
      all.value + Finish(s, limits).value == Reference(Concat(chunks))
  {
    hide Payload, ProcessLine, Lines, PushAll, Drain, ValidUtf8;
    var (s, all) := PushAll(INITIAL, chunks, limits);
    NoPayload();
    var start, stream := Progress([], 0, []), Concat(chunks);
    PushAllIsDrain(INITIAL, chunks, [], limits);
    assert INITIAL.buffer + stream == stream;
    DrainMeaning(start, stream, [], limits);
    var lines := Cleaned(Lines(stream).0);
    var values := Waiting(lines, []);
    var end := Progress(s.data, s.events, []);
    if s.buffer == [] {
      FlushMeaning(end, values, limits);
      assert lines + [] == lines;
    } else {
      var line := DropAllCr(s.buffer);
      LineMeaning(end, line, values, limits);
      FlushMeaning(ProcessLine(end, line, limits).0, Waiting([line], values), limits);
      MeaningConcat(lines, [line], []);
    }
  }

  lemma FlushMeaning(p: Progress, values: seq<seq<Byte>>, limits: Limits)
    requires p.data == Payload(values) && Flush(p, limits).1.None?
    ensures Flush(p, limits).0.output == p.output + Emit(values)
  {
  }
}
