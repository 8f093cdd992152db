/** Exactly which streams the decoder accepts, within which limits. */
module SseLimits {
  import opened Wrappers
  import opened Bytes
  import opened Sse
  import opened SseStandards

  // ----- the encoding of text

  /** A Unicode scalar value: a code point that is no surrogate. */
  predicate Scalar(c: int) {
    0 <= c < 0x11_0000 && !(0xD800 <= c < 0xE000)
  }

  /** The shortest of the four forms that holds the scalar value (RFC 3629, section 3). */
  function EncodePoint(c: int): (s: seq<Byte>)
    requires Scalar(c)
    ensures 1 <= |s| <= 4
  {
    if c < 0x80 then [c]
    else if c < 0x800 then [0xC0 + c / 0x40, 0x80 + c % 0x40]
    else if c < 0x1_0000 then [0xE0 + c / 0x1000, 0x80 + c / 0x40 % 0x40, 0x80 + c % 0x40]
    else [0xF0 + c / 0x4_0000, 0x80 + c / 0x1000 % 0x40, 0x80 + c / 0x40 % 0x40, 0x80 + c % 0x40]
  }

  function EncodeText(text: seq<int>): seq<Byte>
    requires forall c :: c in text ==> Scalar(c)
  {
    if text == [] then [] else EncodePoint(text[0]) + EncodeText(text[1..])
  }

  lemma WidthOfPoint(c: int, rest: seq<Byte>)
    requires Scalar(c)
    ensures Width(EncodePoint(c) + rest) == |EncodePoint(c)|
  {
    var s := EncodePoint(c) + rest;
    if c >= 0x80 {
      assert s[1] == EncodePoint(c)[1];
    }
    if c >= 0x800 {
      assert s[2] == EncodePoint(c)[2];
      ThreeBytes(c);
    }
  }

  lemma ThreeBytes(c: int)
    requires Scalar(c) && c >= 0x800
    ensures c < 0x1_0000 ==>
      && (c / 0x1000 == 0 ==> c / 0x40 % 0x40 >= 0x20) && (c / 0x1000 == 0xD ==> c / 0x40 % 0x40 < 0x20)
    ensures c >= 0x1_0000 ==>
      && (c / 0x4_0000 == 0 ==> c / 0x1000 % 0x40 >= 0x10) && (c / 0x4_0000 == 4 ==> c / 0x1000 % 0x40 < 0x10)
  {
  }

  /** The scalar value in front of well-formed bytes. */
  function PointOf(s: seq<Byte>): int
    requires Width(s) > 0
  {
    var a: int := s[0];
    if Width(s) == 1 then a
    else
      var b: int := s[1];
      if Width(s) == 2 then (a - 0xC0) * 0x40 + (b - 0x80)
      else
        var c: int := s[2];
        if Width(s) == 3 then (a - 0xE0) * 0x1000 + (b - 0x80) * 0x40 + (c - 0x80)
        else
          var d: int := s[3];
          (a - 0xF0) * 0x4_0000 + (b - 0x80) * 0x1000 + (c - 0x80) * 0x40 + (d - 0x80)
  }

  lemma Digits(x: nat, y: nat, z: nat)
    requires y < 0x40 && z < 0x40
    ensures (x * 0x40 + z) / 0x40 == x && (x * 0x40 + z) % 0x40 == z
    ensures var c := x * 0x1000 + y * 0x40 + z; c / 0x1000 == x && c / 0x40 % 0x40 == y && c % 0x40 == z
  {
    assert x * 0x1000 + y * 0x40 + z == (x * 0x40 + y) * 0x40 + z;
    assert (x * 0x1000 + y * 0x40 + z) / 0x40 == x * 0x40 + y;
  }

  lemma MoreDigits(w: nat, x: nat, y: nat, z: nat)
    requires x < 0x40 && y < 0x40 && z < 0x40
    ensures var c := w * 0x4_0000 + x * 0x1000 + y * 0x40 + z;
      c / 0x4_0000 == w && c / 0x1000 % 0x40 == x && c / 0x40 % 0x40 == y && c % 0x40 == z
  {
    var high := w * 0x40 + x;
    Digits(high, y, z);
    Digits(w, 0, x);
    assert w * 0x4_0000 + x * 0x1000 + y * 0x40 + z == high * 0x1000 + y * 0x40 + z;
    assert high * 0x1000 + y * 0x40 + z < (w + 1) * 0x4_0000;
  }

  lemma PointEncoded(s: seq<Byte>)
    requires Width(s) > 0
    ensures Scalar(PointOf(s)) && EncodePoint(PointOf(s)) == s[..Width(s)]
  {
    if Width(s) == 1 {
      assert s[..1] == [s[0]];
    } else if Width(s) == 2 {
      var a: int, b: int := s[0], s[1];
      Digits(a - 0xC0, 0, b - 0x80);
      assert s[..2] == [s[0], s[1]];
    } else if Width(s) == 3 {
      PointEncoded3(s);
    } else {
      PointEncoded4(s);
    }
  }

  lemma PointEncoded3(s: seq<Byte>)
    requires Width(s) == 3
    ensures Scalar(PointOf(s)) && EncodePoint(PointOf(s)) == s[..3]
  {
    var a: int, b: int, c: int := s[0], s[1], s[2];
    Digits(a - 0xE0, b - 0x80, c - 0x80);
    assert s[..3] == [s[0], s[1], s[2]];
  }

  lemma PointEncoded4(s: seq<Byte>)
    requires Width(s) == 4
    ensures Scalar(PointOf(s)) && EncodePoint(PointOf(s)) == s[..4]
  {
    var a: int, b: int, c: int, d: int := s[0], s[1], s[2], s[3];
    MoreDigits(a - 0xF0, b - 0x80, c - 0x80, d - 0x80);
    assert s[..4] == [s[0], s[1], s[2], s[3]];
  }

  lemma {:induction false} TextIsUtf8(text: seq<int>)
    requires forall c :: c in text ==> Scalar(c)
    ensures ValidUtf8(EncodeText(text))
  {
    hide Width;
    if text != [] {
      var first, rest := EncodePoint(text[0]), EncodeText(text[1..]);
      WidthOfPoint(text[0], rest);
      TextIsUtf8(text[1..]);
      assert (first + rest)[|first|..] == rest;
    }
  }

  lemma {:induction false} Utf8IsText(s: seq<Byte>) returns (text: seq<int>)
    requires ValidUtf8(s)
    ensures (forall c :: c in text ==> Scalar(c)) && EncodeText(text) == s
    decreases |s|
  {
    hide Width, PointOf, EncodePoint;
    if s == [] {
      text := [];
    } else {
      var rest := Utf8IsText(s[Width(s)..]);
      PointEncoded(s);
      text := [PointOf(s)] + rest;
      assert text[1..] == rest && s == s[..Width(s)] + s[Width(s)..];
    }
  }

  ghost predicate IsText(s: seq<Byte>) {
    exists text: seq<int> :: (forall c :: c in text ==> Scalar(c)) && EncodeText(text) == s
  }

  /** The check accepts exactly the encodings of texts. */
  lemma Utf8Iff(s: seq<Byte>)
    ensures ValidUtf8(s) <==> IsText(s)
  {
    if ValidUtf8(s) {
      var text := Utf8IsText(s);
    }
    if IsText(s) {
      var text: seq<int> :| (forall c :: c in text ==> Scalar(c)) && EncodeText(text) == s;
      TextIsUtf8(text);
    }
  }

  // ----- lines of a text

  /** A byte below 0x80 is a character of its own, so a text can be cut there. */
  lemma {:induction false} Utf8Cut(a: seq<Byte>, b: Byte, rest: seq<Byte>)
    requires b < 0x80 && ValidUtf8(a + [b] + rest)
    ensures ValidUtf8(a) && ValidUtf8(rest)
    decreases |a|
  {
    hide Width;
    var s := a + [b] + rest;
    if a == [] {
      assert s == [b] + rest;
      PlainWidth(s);
      assert s[1..] == rest;
    } else {
      WidthBefore(a, b, rest);
      var n := Width(s);
      assert s[n..] == a[n..] + [b] + rest;
      Utf8Cut(a[n..], b, rest);
    }
  }

  lemma PlainWidth(s: seq<Byte>)
    requires s != [] && s[0] < 0x80
    ensures Width(s) == 1
  {
  }

  lemma WidthBefore(a: seq<Byte>, b: Byte, rest: seq<Byte>)
    requires a != [] && b < 0x80 && Width(a + [b] + rest) > 0
    ensures Width(a + [b] + rest) <= |a| && Width(a) == Width(a + [b] + rest)
  {
    var s := a + [b] + rest;
    assert forall i :: 0 <= i < |a| ==> s[i] == a[i];
    assert s[|a|] == b;
  }

  /** Every line is well-formed, as it is checked: without the carriage return before its end. */
  predicate LinesValid(lines: seq<seq<Byte>>) {
    forall line :: line in lines ==> ValidUtf8(line)
  }

  lemma CutReturn(line: seq<Byte>)
    requires ValidUtf8(line)
    ensures ValidUtf8(DropOneCr(line))
  {
    hide ValidUtf8;
    var cut := DropOneCr(line);
    if cut != line {
      assert line == cut + [CR] + [];
      Utf8Cut(cut, CR, []);
    }
  }

  lemma {:induction false} TextLines(s: seq<Byte>)
    requires ValidUtf8(s)
    ensures LinesValid(Cleaned(Lines(s).0)) && ValidUtf8(Lines(s).1)
    decreases |s|
  {
    hide IndexOfLf, ValidUtf8, DropOneCr;
    var at := IndexOfLf(s);
    if at < |s| {
      assert s == s[..at] + [LF] + s[at + 1..];
      Utf8Cut(s[..at], LF, s[at + 1..]);
      CutReturn(s[..at]);
      TextLines(s[at + 1..]);
      CleanedCons(s[..at], Lines(s[at + 1..]).0);
      ValidCons(DropOneCr(s[..at]), Cleaned(Lines(s[at + 1..]).0));
    }
  }

  lemma ValidCons(line: seq<Byte>, lines: seq<seq<Byte>>)
    ensures LinesValid([line] + lines) <==> ValidUtf8(line) && LinesValid(lines)
  {
    assert forall l :: l in [line] + lines <==> l == line || l in lines;
  }

  // ----- the limits on events

  /** The events of these lines, and what waits for the end of the next, are within the limits. */
  predicate EventsFit(lines: seq<seq<Byte>>, values: seq<seq<Byte>>, events: nat, limits: Limits) {
    && AllWithin(Ended(lines, values), limits.maxEventBytes)
    && Within(|Payload(Waiting(lines, values))|, limits.maxEventBytes)
    && Within(events + |Ended(lines, values)|, limits.maxEvents)
  }

  lemma AddWithin(a: nat, b: nat, limit: nat)
    ensures SaturatingAdd(a, b) <= limit <==> Within(a + b, limit)
  {
  }

  lemma PayloadGrows(values: seq<seq<Byte>>, value: seq<Byte>)
    ensures |Payload(values)| <= |Payload(values + [value])|
    ensures Payload(values) == [] ==> |Payload(values + [value])| == |value|
    ensures Payload(values) != [] ==> |Payload(values + [value])| == |Payload(values)| + 1 + |value|
  {
    hide Payload;
    PayloadSnoc(values, value);
  }

  /** What waits already is part of what follows. */
  lemma {:induction false} WaitingFits(lines: seq<seq<Byte>>, values: seq<seq<Byte>>, events: nat, limits: Limits)
    requires EventsFit(lines, values, events, limits)
    ensures Within(|Payload(values)|, limits.maxEventBytes) && Within(events, limits.maxEvents)
    decreases |lines|
  {
    hide DropLeadingEmpty, JoinLines, DataValue, Payload;
    if lines != [] {
      var line, rest := lines[0], lines[1..];
      if line == [] {
        if Payload(values) != [] {
          assert Ended(lines, values)[0] == Payload(values) && Payload(values) in Ended(lines, values);
        } else {
          assert Within(0, limits.maxEventBytes);
        }
      } else if line[0] != COLON && DATA <= line {
        WaitingFits(rest, values + [DataValue(line)], events, limits);
        PayloadGrows(values, DataValue(line));
      } else {
        WaitingFits(rest, values, events, limits);
      }
    }
  }

  lemma FitConcat(left: seq<seq<Byte>>, right: seq<seq<Byte>>, values: seq<seq<Byte>>, events: nat, limits: Limits)
    ensures EventsFit(left + right, values, events, limits) <==>
      && EventsFit(left, values, events, limits)
      && EventsFit(right, Waiting(left, values), events + |Ended(left, values)|, limits)
  {
    hide Ended, Waiting, Payload, Within;
    MeaningConcat(left, right, values);
    var first, later := Ended(left, values), Ended(right, Waiting(left, values));
    BothWithin(first, later, limits.maxEventBytes);
    var waiting, count := Waiting(left, values), events + |first|;
    if EventsFit(right, waiting, count, limits) {
      WaitingFits(right, waiting, count, limits);
    }
    assert count + |later| == events + |first + later|;
  }

  predicate AllWithin(events: seq<seq<Byte>>, limit: nat) {
    forall event :: event in events ==> Within(|event|, limit)
  }

  lemma BothWithin(first: seq<seq<Byte>>, later: seq<seq<Byte>>, limit: nat)
    ensures AllWithin(first + later, limit) <==> AllWithin(first, limit) && AllWithin(later, limit)
  {
    assert forall event :: event in first + later <==> event in first || event in later;
  }

  /** One line is taken exactly when what it ends, or what waits behind it, is within the limits. */
  lemma LineOkIff(p: Progress, line: seq<Byte>, values: seq<seq<Byte>>, limits: Limits)
    requires p.data == Payload(values) && EventsFit([], values, p.events, limits)
    ensures ProcessLine(p, line, limits).1.None? <==> EventsFit([line], values, p.events, limits)
  {
    hide Payload;
    NoEvents(values);
    NoPayload();
    OneLine(line, values);
    if line == [] {
      AddWithin(p.events, 1, limits.maxEvents);
    } else if line[0] != COLON && DATA <= line {
      var value := DataValue(line);
      PayloadGrows(values, value);
      AddWithin(|p.data|, |value| + (if p.data == [] then 0 else 1), limits.maxEventBytes);
    }
  }

  lemma OneLine(line: seq<Byte>, values: seq<seq<Byte>>)
    ensures line == [] ==> Ended([line], values) == Emit(values) && Waiting([line], values) == []
    ensures line != [] && line[0] != COLON && DATA <= line ==>
      Ended([line], values) == [] && Waiting([line], values) == values + [DataValue(line)]
    ensures line != [] && !(line[0] != COLON && DATA <= line) ==>
      Ended([line], values) == [] && Waiting([line], values) == values
  {
    assert [line][1..] == [] && Emit(values) + [] == Emit(values);
  }

  /** The count may stand still at the greatest number of the machine, where no limit is below it. */
  predicate Counted(counted: nat, events: nat, limits: Limits) {
    counted == events || limits.maxEvents >= USIZE_MAX
  }

  lemma CountedFit(lines: seq<seq<Byte>>, values: seq<seq<Byte>>, counted: nat, events: nat, limits: Limits)
    requires Counted(counted, events, limits)
    ensures EventsFit(lines, values, counted, limits) <==> EventsFit(lines, values, events, limits)
  {
  }

  lemma LineCounts(p: Progress, line: seq<Byte>, values: seq<seq<Byte>>, limits: Limits)
    requires p.data == Payload(values) && ProcessLine(p, line, limits).1.None?
    ensures Counted(ProcessLine(p, line, limits).0.events, p.events + |Ended([line], values)|, limits)
  {
    hide Payload;
    OneLine(line, values);
  }

  lemma {:induction false} DrainOkIff(p: Progress, buffer: seq<Byte>, values: seq<seq<Byte>>, limits: Limits)
    requires p.data == Payload(values) && EventsFit([], values, p.events, limits)
    ensures var lines := Cleaned(Lines(buffer).0); var (next, _, fault) := Drain(p, buffer, limits);
      && (fault.None? <==> LinesValid(lines) && EventsFit(lines, values, p.events, limits))
      && (fault.None? ==> Counted(next.events, p.events + |Ended(lines, values)|, limits))
    decreases |buffer|
  {
    hide ValidUtf8, ProcessLine, EventsFit, DropOneCr, IndexOfLf, Payload, Ended, Waiting, Counted, LinesValid;
    var at := IndexOfLf(buffer);
    if at == |buffer| {
      NothingDrained(p, values, limits);
    } else {
      var line, rest := DropOneCr(buffer[..at]), buffer[at + 1..];
      var lines := Cleaned(Lines(rest).0);
      CleanedCons(buffer[..at], Lines(rest).0);
      ValidCons(line, lines);
      LineOkIff(p, line, values, limits);
      FitConcat([line], lines, values, p.events, limits);
      var next := ProcessLine(p, line, limits).0;
      if ValidUtf8(line) && ProcessLine(p, line, limits).1.None? {
        LineMeaning(p, line, values, limits);
        LineCounts(p, line, values, limits);
        var events, later := p.events + |Ended([line], values)|, Waiting([line], values);
        FitsSoFar(line, values, p.events, limits);
        CountedFit([], later, next.events, events, limits);
        CountedFit(lines, later, next.events, events, limits);
        DrainOkIff(next, rest, later, limits);
        MeaningConcat([line], lines, values);
        if Drain(next, rest, limits).2.None? {
          CountsAdd(next.events, events, |Ended(lines, later)|, Drain(next, rest, limits).0.events, limits);
        }
      }
    }
  }

  lemma NothingDrained(p: Progress, values: seq<seq<Byte>>, limits: Limits)
    ensures LinesValid([]) && Counted(p.events, p.events + |Ended([], values)|, limits)
  {
  }

  lemma FitsSoFar(line: seq<Byte>, values: seq<seq<Byte>>, events: nat, limits: Limits)
    requires EventsFit([line], values, events, limits)
    ensures EventsFit([], Waiting([line], values), events + |Ended([line], values)|, limits)
  {
  }

  lemma CountedItself(events: nat, limits: Limits)
    ensures Counted(events, events, limits)
  {
  }

  lemma CountsAdd(counted: nat, events: nat, more: nat, last: nat, limits: Limits)
    requires Counted(counted, events, limits) && Counted(last, counted + more, limits)
    ensures Counted(last, events + more, limits)
  {
  }

  // ----- the whole run

  /** What a stream is decoded to is within the limits, each event and all of them. */
  predicate Decodable(stream: seq<Byte>, limits: Limits) {
    && ValidUtf8(stream)
    && AllWithin(Reference(stream), limits.maxEventBytes)
    && Within(|Reference(stream)|, limits.maxEvents)
  }

  /** The end of the stream succeeds exactly when the rest of it is well-formed and the last event fits. */
  lemma FinishOkIff(p: Progress, rest: seq<Byte>, values: seq<seq<Byte>>, limits: Limits)
    requires p.data == Payload(values) && EventsFit([], values, p.events, limits)
    ensures var last := if rest == [] then [] else [DropAllCr(rest)];
      FinishFrom(p, rest, limits).Ok? <==>
        && ValidUtf8(rest) && EventsFit(last, values, p.events, limits)
        && Within(p.events + |Ended(last, values)| + |Emit(Waiting(last, values))|, limits.maxEvents)
  {
    hide ValidUtf8, ProcessLine, EventsFit, DropAllCr, Payload, Ended, Waiting, Counted;
    if rest == [] {
      NothingDrained(p, values, limits);
      NoEvents(values);
      WaitingFits([], values, p.events, limits);
      CountedItself(p.events, limits);
      FlushOkIff(p, values, p.events, limits);
      assert ValidUtf8([]) by {
        EmptyUtf8();
      }
    } else {
      var line := DropAllCr(rest);
      LineOkIff(p, line, values, limits);
      if ProcessLine(p, line, limits).1.None? {
        LineMeaning(p, line, values, limits);
        LineCounts(p, line, values, limits);
        var events, later := p.events + |Ended([line], values)|, Waiting([line], values);
        FitsSoFar(line, values, p.events, limits);
        WaitingFits([], later, events, limits);
        FlushOkIff(ProcessLine(p, line, limits).0, later, events, limits);
      }
    }
  }

  lemma EmptyUtf8()
    ensures ValidUtf8([])
  {
  }

  lemma FlushOkIff(p: Progress, values: seq<seq<Byte>>, events: nat, limits: Limits)
    requires p.data == Payload(values) && Counted(p.events, events, limits)
    requires Within(events, limits.maxEvents)
    ensures Flush(p, limits).1.None? <==> Within(events + |Emit(values)|, limits.maxEvents)
  {
    AddWithin(p.events, 1, limits.maxEvents);
  }

  /** The lines of a stream as they are processed, with what no line feed ends as the last. */
  function LinesOf(stream: seq<Byte>): seq<seq<Byte>> {
    Cleaned(Lines(stream).0) + LastOf(stream)
  }

  function LastOf(stream: seq<Byte>): seq<seq<Byte>> {
    if Lines(stream).1 == [] then [] else [DropAllCr(Lines(stream).1)]
  }

  lemma DecodableIff(stream: seq<Byte>, limits: Limits)
    ensures var lines := LinesOf(stream);
      Decodable(stream, limits) <==>
        && ValidUtf8(stream) && EventsFit(lines, [], 0, limits)
        && Within(|Ended(lines, [])| + |Emit(Waiting(lines, []))|, limits.maxEvents)
  {
    hide ValidUtf8, Ended, Waiting, Lines, Cleaned, DropAllCr, Payload;
    var lines := LinesOf(stream);
    var ended, last := Ended(lines, []), Emit(Waiting(lines, []));
    assert Reference(stream) == ended + last;
    BothWithin(ended, last, limits.maxEventBytes);
    var waiting := Payload(Waiting(lines, []));
    if waiting != [] {
      assert last == [waiting] && waiting in last;
    }
  }

  lemma StartFits(limits: Limits)
    ensures EventsFit([], [], 0, limits)
  {
  }

  /** The drain and the end together, by the lines. */
  lemma DecodesOkIff(stream: seq<Byte>, limits: Limits)
    ensures var (p, rest, fault) := Drain(Progress([], 0, []), stream, limits);
      Decodable(stream, limits) <==> fault.None? && FinishFrom(Progress(p.data, p.events, []), rest, limits).Ok?
  {
    hide Drain, FinishFrom, Payload, ValidUtf8, Lines, Cleaned, EventsFit, Decodable, Waiting, Ended, Emit, Within,
      DropAllCr, Counted, LinesValid;
    NoPayload();
    StartFits(limits);
    var start := Progress([], 0, []);
    var lines, last := Cleaned(Lines(stream).0), LastOf(stream);
    DrainOkIff(start, stream, [], limits);
    DecodableIff(stream, limits);
    FitConcat(lines, last, [], 0, limits);
    MeaningConcat(lines, last, []);
    if ValidUtf8(stream) {
      TextLines(stream);
    }
    var (p, rest, fault) := Drain(start, stream, limits);
    if fault.None? {
      DrainMeaning(start, stream, [], limits);
      if ValidUtf8(rest) {
        DrainUtf8(start, stream, limits);
      }
      FitConcat(lines, [], [], 0, limits);
      assert lines + [] == lines;
      EndOkIff(p, rest, Waiting(lines, []), |Ended(lines, [])|, limits);
    }
  }

  /** The end, with the count as it ought to be. */
  lemma EndOkIff(p: Progress, rest: seq<Byte>, values: seq<seq<Byte>>, events: nat, limits: Limits)
    requires p.data == Payload(values) && Counted(p.events, events, limits) && EventsFit([], values, events, limits)
    ensures var last := if rest == [] then [] else [DropAllCr(rest)];
      FinishFrom(Progress(p.data, p.events, []), rest, limits).Ok? <==>
        && ValidUtf8(rest) && EventsFit(last, values, events, limits)
        && Within(events + |Ended(last, values)| + |Emit(Waiting(last, values))|, limits.maxEvents)
  {
    hide FinishFrom, Payload, ValidUtf8, Waiting, Ended, Emit, DropAllCr;
    CountedFit([], values, p.events, events, limits);
    var last := if rest == [] then [] else [DropAllCr(rest)];
    CountedFit(last, values, p.events, events, limits);
    FinishOkIff(Progress(p.data, p.events, []), rest, values, limits);
  }

  /**
   * A run of pushes and the end succeed exactly when the stream is text, as long as permitted, every chunk fits beside
   * the unfinished line it meets, and the events it decodes to are, each and in number, within the limits.
   */
  lemma RunOkIff(chunks: seq<seq<Byte>>, limits: Limits)
    requires chunks != []
    ensures var (s, all) := PushAll(INITIAL, chunks, limits); var stream := Concat(chunks);
      all.Ok? && Finish(s, limits).Ok? <==>
        && |stream| <= limits.maxStreamBytes && |stream| <= USIZE_MAX && AllFit([], chunks, limits)
        && Decodable(stream, limits)
  {
    hide PushAll, Drain, Concat, FinishFrom, AllFit, Payload, Decodable;
    var stream := Concat(chunks);
    NoPayload();
    PushAllIsDrain(INITIAL, chunks, [], limits);
    assert INITIAL.buffer + stream == stream;
    DecodesOkIff(stream, limits);
  }
}
