/** What the WHATWG HTML standard, section 9.2.6, makes of a stream, and on which streams the decoder agrees with it. */
module SseStandards {
  import opened Wrappers
  import opened Bytes
  import opened Sse

  /** U+FEFF in UTF-8. */
  const BOM: seq<Byte> := [0xEF, 0xBB, 0xBF]

  /** `data` */
  const DATA_FIELD: seq<Byte> := [0x64, 0x61, 0x74, 0x61]

  const BLANK: seq<Byte> := []

  // ----- the standard

  function IndexOfEnd(s: seq<Byte>): (r: nat)
    ensures r <= |s| && (r < |s| ==> s[r] == LF || s[r] == CR) && LF !in s[..r] && CR !in s[..r]
  {
    if s == [] || s[0] == LF || s[0] == CR then 0
    else
      var r := IndexOfEnd(s[1..]);
      assert s[..r + 1] == [s[0]] + s[1..][..r];
      r + 1
  }

  /** Where the line after the end at `at` begins. */
  function NextLine(s: seq<Byte>, at: nat): (next: nat)
    requires at < |s|
    ensures at < next <= |s|
  {
    if s[at] == CR && at + 1 < |s| && s[at + 1] == LF then at + 2 else at + 1
  }

  /** Lines end with a carriage return and a line feed, or with either alone. */
  function StandardLines(s: seq<Byte>): (seq<seq<Byte>>, seq<Byte>)
    decreases |s|
  {
    var at := IndexOfEnd(s);
    if at == |s| then ([], s)
    else
      var (lines, rest) := StandardLines(s[NextLine(s, at)..]);
      ([s[..at]] + lines, rest)
  }

  function IndexOfColon(line: seq<Byte>): (r: nat)
    ensures r <= |line| && (r < |line| ==> line[r] == COLON) && COLON !in line[..r]
  {
    if line == [] || line[0] == COLON then 0
    else
      var r := IndexOfColon(line[1..]);
      assert line[..r + 1] == [line[0]] + line[1..][..r];
      r + 1
  }

  /** What a line adds to the data buffer: a field is named before its first colon, or by the whole line without one. */
  function StandardValue(line: seq<Byte>): Option<seq<Byte>> {
    var at := IndexOfColon(line);
    if line[..at] != DATA_FIELD then None
    else if at == |line| then Some([])
    else if at + 1 < |line| && line[at + 1] == SPACE then Some(line[at + 2..])
    else Some(line[at + 1..])
  }

  /** A blank line dispatches an event if there was any data, empty or not. */
  function Dispatch(values: seq<seq<Byte>>): seq<seq<Byte>> {
    if values == [] then [] else [JoinLines(values)]
  }

  function StandardEvents(lines: seq<seq<Byte>>, values: seq<seq<Byte>>): seq<seq<Byte>>
    decreases |lines|
  {
    if lines == [] then []
    else if lines[0] == [] then Dispatch(values) + StandardEvents(lines[1..], [])
    else match StandardValue(lines[0])
      case None => StandardEvents(lines[1..], values)
      case Some(value) => StandardEvents(lines[1..], values + [value])
  }

  /**
   * The events of a well-formed UTF-8 stream: a byte order mark in front is taken away, and what no blank line ends is
   * discarded.
   */
  function Standard(stream: seq<Byte>): seq<seq<Byte>> {
    StandardEvents(StandardLines(if BOM <= stream then stream[3..] else stream).0, [])
  }

  // ----- lines

  /** Carriage returns that no line feed follows. */
  function LoneReturns(s: seq<Byte>): nat {
    if s == [] then 0
    else LoneReturns(s[1..]) + (if s[0] == CR && (|s| == 1 || s[1] != LF) then 1 else 0)
  }

  function LineFeeds(s: seq<Byte>): nat {
    if s == [] then 0 else LineFeeds(s[1..]) + (if s[0] == LF then 1 else 0)
  }

  lemma {:induction false} CountsAfter(s: seq<Byte>, at: nat)
    requires at <= |s| && CR !in s[..at]
    ensures LoneReturns(s) == LoneReturns(s[at..])
    ensures LF !in s[..at] ==> LineFeeds(s) == LineFeeds(s[at..])
  {
    if at == 0 {
      assert s[0..] == s;
    } else {
      assert s[..at] == [s[0]] + s[1..][..at - 1] && s[1..][at - 1..] == s[at..];
      CountsAfter(s[1..], at - 1);
    }
  }

  lemma {:induction false} StandardLinesCount(s: seq<Byte>)
    ensures |StandardLines(s).0| == LineFeeds(s) + LoneReturns(s)
    decreases |s|
  {
    var at := IndexOfEnd(s);
    CountsAfter(s, at);
    if at < |s| {
      var t := s[at..];
      assert t[1..] == s[at + 1..];
      if s[at] == CR && at + 1 < |s| && s[at + 1] == LF {
        assert t[1..][1..] == s[at + 2..];
        StandardLinesCount(s[at + 2..]);
      } else {
        StandardLinesCount(s[at + 1..]);
      }
    }
  }

  lemma {:induction false} LineFeedsAfter(s: seq<Byte>, at: nat)
    requires at <= |s| && LF !in s[..at]
    ensures LineFeeds(s) == LineFeeds(s[at..])
  {
    if at == 0 {
      assert s[0..] == s;
    } else {
      assert s[..at] == [s[0]] + s[1..][..at - 1] && s[1..][at - 1..] == s[at..];
      LineFeedsAfter(s[1..], at - 1);
    }
  }

  lemma {:induction false} LinesCount(s: seq<Byte>)
    ensures |Lines(s).0| == LineFeeds(s)
    decreases |s|
  {
    var at := IndexOfLf(s);
    LineFeedsAfter(s, at);
    if at < |s| {
      assert s[at..][1..] == s[at + 1..];
      LinesCount(s[at + 1..]);
    }
  }

  /** Without a lone return, one is only found before a line feed. */
  lemma {:induction false} NoLoneReturns(s: seq<Byte>, i: nat)
    requires i < |s| && LoneReturns(s) == 0
    ensures s[i] == CR ==> i + 1 < |s| && s[i + 1] == LF
    ensures LoneReturns(s[i + 1..]) == 0
  {
    if i > 0 {
      assert s[1..][i..] == s[i + 1..];
      NoLoneReturns(s[1..], i - 1);
    }
  }

  lemma EndAt(s: seq<Byte>, at: nat)
    requires at < |s| && LF !in s[..at] && CR !in s[..at] && (s[at] == LF || s[at] == CR)
    ensures IndexOfEnd(s) == at
  {
    var r := IndexOfEnd(s);
    assert forall i :: 0 <= i < at ==> s[..at][i] == s[i];
    assert forall i :: 0 <= i < r ==> s[..r][i] == s[i];
  }

  lemma NoEnd(s: seq<Byte>)
    requires LF !in s && CR !in s
    ensures StandardLines(s) == ([], s)
  {
  }

  /** The first line of the standard is the code's, when no return stands alone. */
  lemma FirstLine(s: seq<Byte>)
    requires LoneReturns(s) == 0 && LF in s
    ensures var at := IndexOfLf(s);
      StandardLines(s) == ([DropOneCr(s[..at])] + StandardLines(s[at + 1..]).0, StandardLines(s[at + 1..]).1)
  {
    hide IndexOfLf, IndexOfEnd, LoneReturns;
    var at := IndexOfLf(s);
    assert forall i :: 0 <= i < at ==> s[..at][i] == s[i];
    forall i | 0 <= i < at && s[i] == CR ensures i == at - 1 {
      NoLoneReturns(s, i);
    }
    if at > 0 && s[at - 1] == CR {
      assert s[..at - 1] == s[..at][..at - 1];
      EndAt(s, at - 1);
    } else {
      EndAt(s, at);
    }
  }

  lemma {:induction false} LinesAgree(s: seq<Byte>)
    requires LoneReturns(s) == 0
    ensures StandardLines(s) == (Cleaned(Lines(s).0), Lines(s).1)
    decreases |s|
  {
    hide StandardLines, LoneReturns, DropOneCr;
    var at := IndexOfLf(s);
    if at < |s| {
      FirstLine(s);
      NoLoneReturns(s, at);
      LinesAgree(s[at + 1..]);
      CleanedCons(s[..at], Lines(s[at + 1..]).0);
    } else {
      forall i | 0 <= i < |s| ensures s[i] != CR {
        NoLoneReturns(s, i);
      }
      NoEnd(s);
    }
  }

  lemma {:induction false} CleanedCount(lines: seq<seq<Byte>>)
    ensures |Cleaned(lines)| == |lines|
  {
    if lines != [] {
      CleanedCount(lines[1..]);
    }
  }

  /**
   * The code splits a stream into the lines of the standard exactly when every carriage return is before a line feed.
   */
  lemma LinesAgreeIff(s: seq<Byte>)
    ensures StandardLines(s) == (Cleaned(Lines(s).0), Lines(s).1) <==> LoneReturns(s) == 0
  {
    hide StandardLines, Lines, Cleaned, LoneReturns;
    StandardLinesCount(s);
    LinesCount(s);
    CleanedCount(Lines(s).0);
    if LoneReturns(s) == 0 {
      LinesAgree(s);
    }
  }

  // ----- events

  predicate IsData(line: seq<Byte>) {
    line != [] && line[0] != COLON && DATA <= line
  }

  /** The two readings of a line differ only on `data` without a colon. */
  lemma ValueMeaning(line: seq<Byte>)
    ensures IsData(line) ==> StandardValue(line) == Some(DataValue(line))
    ensures line == DATA_FIELD ==> StandardValue(line) == Some([]) && !IsData(line)
    ensures !IsData(line) && line != DATA_FIELD ==> StandardValue(line) == None
  {
    var at := IndexOfColon(line);
    assert line[..at] == DATA_FIELD && at < |line| ==> DATA <= line;
    if IsData(line) {
      ColonAt(line, 4);
      assert line[..4] == DATA[..4];
    } else if line == DATA_FIELD {
      assert forall i :: 0 <= i < |line| ==> line[i] != COLON;
    }
  }

  lemma ColonAt(line: seq<Byte>, at: nat)
    requires at < |line| && line[at] == COLON && COLON !in line[..at]
    ensures IndexOfColon(line) == at
  {
    var r := IndexOfColon(line);
    assert forall i :: 0 <= i < at ==> line[..at][i] == line[i];
    assert forall i :: 0 <= i < r ==> line[..r][i] == line[i];
  }

  /**
   * What a caller can check on the lines: in every event that a blank line ends, the first data line has a value, and
   * no line is `data` without a colon. `values` and `bare` are those of the event so far.
   */
  predicate Faithful(lines: seq<seq<Byte>>, values: seq<seq<Byte>>, bare: bool)
    decreases |lines|
  {
    if lines == [] then true
    else if lines[0] == [] then !bare && (values == [] || values[0] != []) && Faithful(lines[1..], [], false)
    else if IsData(lines[0]) then Faithful(lines[1..], values + [DataValue(lines[0])], bare)
    else Faithful(lines[1..], values, bare || lines[0] == DATA_FIELD)
  }

  predicate NoLf(values: seq<seq<Byte>>) {
    forall value :: value in values ==> LF !in value
  }

  predicate AllEmpty(values: seq<seq<Byte>>) {
    forall value :: value in values ==> value == []
  }

  lemma AllEmptySnoc(values: seq<seq<Byte>>, value: seq<Byte>)
    ensures AllEmpty(values + [value]) <==> AllEmpty(values) && value == []
  {
    var more := values + [value];
    if AllEmpty(more) {
      assert more[|values|] == value && more[|values|] in more;
      forall v | v in values ensures v == [] {
        assert v in more;
      }
    }
    if AllEmpty(values) && value == [] {
      forall v | v in more ensures v == [] {
        assert v in values || v == value;
      }
    }
  }

  /** How the standard's values of an unfinished event stand to the code's. */
  predicate Alongside(standard: seq<seq<Byte>>, values: seq<seq<Byte>>, bare: bool) {
    && NoLf(standard) && NoLf(values)
    && (if bare
        then |standard| > |values| && (AllEmpty(values) ==> AllEmpty(standard))
        else standard == values)
  }

  /** An event as the code emits them. */
  predicate Emittable(event: seq<Byte>) {
    event != [] && event[0] != LF
  }

  lemma {:induction false} JoinedFeeds(values: seq<seq<Byte>>)
    requires values != [] && NoLf(values)
    ensures LineFeeds(JoinLines(values)) == |values| - 1
  {
    var v := values[0];
    assert v[..|v|] == v && v[|v|..] == [];
    LineFeedsAfter(v, |v|);
    if |values| > 1 {
      var rest := JoinLines(values[1..]);
      JoinedFeeds(values[1..]);
      var whole := v + [LF] + rest;
      assert whole[..|v|] == v && whole[|v|..] == [LF] + rest;
      LineFeedsAfter(whole, |v|);
      assert ([LF] + rest)[1..] == rest;
    }
  }

  lemma {:induction false} DropLeadingEmptyMeaning(values: seq<seq<Byte>>)
    requires NoLf(values)
    ensures var kept := DropLeadingEmpty(values);
      && NoLf(kept) && |kept| <= |values| && (kept != [] ==> kept[0] != [])
      && (kept == [] <==> AllEmpty(values))
      && (kept == values <==> values == [] || values[0] != [])
      && (kept != values ==> |kept| < |values|)
  {
    if values != [] && values[0] == [] {
      assert forall v :: v in values <==> v == values[0] || v in values[1..];
      DropLeadingEmptyMeaning(values[1..]);
    } else if values != [] {
      assert values[0] in values;
    }
  }

  lemma {:induction false} JoinEmpty(values: seq<seq<Byte>>)
    requires AllEmpty(values)
    ensures JoinLines(values) == [] || JoinLines(values)[0] == LF
  {
    assert values != [] ==> values[0] in values;
  }

  lemma JoinFirst(values: seq<seq<Byte>>)
    requires values != [] && values[0] != []
    ensures JoinLines(values) != [] && JoinLines(values)[0] == values[0][0]
  {
  }

  /** What the code emits for an event, if anything, has text and starts with it. */
  lemma EmitMeaning(values: seq<seq<Byte>>)
    requires NoLf(values)
    ensures Emit(values) == [] <==> AllEmpty(values)
    ensures Emit(values) != [] ==>
      && Emit(values) == [JoinLines(DropLeadingEmpty(values))] && Emittable(Emit(values)[0])
      && LineFeeds(Emit(values)[0]) == |DropLeadingEmpty(values)| - 1
  {
    DropLeadingEmptyMeaning(values);
    var kept := DropLeadingEmpty(values);
    if kept != [] {
      JoinFirst(kept);
      JoinedFeeds(kept);
      assert kept[0] in kept;
    }
  }

  /**
   * One event: both emit the same exactly on the checked condition; otherwise the standard's event is none of the
   * code's.
   */
  lemma OneEvent(standard: seq<seq<Byte>>, values: seq<seq<Byte>>, bare: bool)
    requires Alongside(standard, values, bare)
    ensures !bare && (values == [] || values[0] != []) ==> Dispatch(standard) == Emit(values)
    ensures bare || (values != [] && values[0] == []) ==>
      && |Dispatch(standard)| == 1
      && (Emit(values) != [] ==> Dispatch(standard)[0] != Emit(values)[0])
      && (Emit(values) == [] ==> !Emittable(Dispatch(standard)[0]))
  {
    hide JoinLines, DropLeadingEmpty, LineFeeds;
    DropLeadingEmptyMeaning(values);
    EmitMeaning(values);
    if standard != [] {
      JoinedFeeds(standard);
      if Emit(values) == [] && standard != [] && AllEmpty(standard) {
        JoinEmpty(standard);
      }
    }
  }

  /**
   * Over the same lines: the standard's events are the code's, followed by `tail`, exactly when no event loses an empty
   * first value or a bare field and `tail` is empty.
   */
  lemma {:induction false} EventsAgreeIff(lines: seq<seq<Byte>>, standard: seq<seq<Byte>>, values: seq<seq<Byte>>,
    bare: bool, tail: seq<seq<Byte>>)
    requires Alongside(standard, values, bare) && NoLf(lines) && (forall event :: event in tail ==> Emittable(event))
    ensures StandardEvents(lines, standard) == Ended(lines, values) + tail <==>
      Faithful(lines, values, bare) && tail == []
    ensures forall event :: event in Ended(lines, values) ==> Emittable(event)
    decreases |lines|
  {
    hide Emit, Dispatch, DataValue, StandardValue, DATA_FIELD, DATA, Alongside, Emittable;
    if lines != [] {
      var line, rest := lines[0], lines[1..];
      assert line in lines && forall l :: l in rest ==> l in lines;
      if line == [] {
        OneEvent(standard, values, bare);
        EmitMeaningOf(standard, values, bare);
        StartAlongside();
        EventsAgreeIff(rest, [], [], false, tail);
        BlankStep(Dispatch(standard), Emit(values), StandardEvents(rest, []), Ended(rest, []), tail);
      } else {
        ValueMeaning(line);
        AlongsideNext(standard, values, bare, line);
        if IsData(line) {
          EventsAgreeIff(rest, standard + [DataValue(line)], values + [DataValue(line)], bare, tail);
        } else if line == DATA_FIELD {
          EventsAgreeIff(rest, standard + [[]], values, true, tail);
        } else {
          EventsAgreeIff(rest, standard, values, bare, tail);
        }
      }
    }
  }

  lemma StartAlongside()
    ensures Alongside([], [], false)
  {
  }

  lemma AlongsideNext(standard: seq<seq<Byte>>, values: seq<seq<Byte>>, bare: bool, line: seq<Byte>)
    requires Alongside(standard, values, bare) && LF !in line
    ensures IsData(line) ==> Alongside(standard + [DataValue(line)], values + [DataValue(line)], bare)
    ensures Alongside(standard + [[]], values, true)
  {
    if IsData(line) {
      assert NoLf([DataValue(line)]);
      AllEmptySnoc(values, DataValue(line));
      AllEmptySnoc(standard, DataValue(line));
    }
    AllEmptySnoc(standard, []);
  }

  lemma EmitMeaningOf(standard: seq<seq<Byte>>, values: seq<seq<Byte>>, bare: bool)
    requires Alongside(standard, values, bare)
    ensures |Emit(values)| <= 1 && forall event :: event in Emit(values) ==> Emittable(event)
  {
    EmitMeaning(values);
  }

  lemma BlankStep(dispatched: seq<seq<Byte>>, emitted: seq<seq<Byte>>, standard: seq<seq<Byte>>, ended: seq<seq<Byte>>,
    tail: seq<seq<Byte>>)
    requires forall event :: event in emitted + ended + tail ==> Emittable(event)
    requires |emitted| <= 1
    ensures dispatched == emitted ==>
      (dispatched + standard == emitted + ended + tail <==> standard == ended + tail)
    ensures (
        && |dispatched| == 1 && (emitted != [] ==> dispatched[0] != emitted[0])
        && (emitted == [] ==> !Emittable(dispatched[0]))
      ) ==> dispatched + standard != emitted + ended + tail
  {
    var left, right := dispatched + standard, emitted + ended + tail;
    assert left[|dispatched|..] == standard && right[|emitted|..] == ended + tail;
    if |dispatched| == 1 && left == right {
      assert right[0] == dispatched[0] && right[0] in right;
    }
  }

  // ----- streams

  /** The events a decoder that stops here would still give. */
  function Pending(lines: seq<seq<Byte>>, rest: seq<Byte>): seq<seq<Byte>> {
    Emit(Waiting(lines + (if rest == [] then [] else [rest]), []))
  }

  /**
   * On a stream without a byte order mark whose carriage returns all stand before line feeds, the decoder gives the
   * standard's events exactly when every event keeps its first value, no field is bare, and nothing is pending at the
   * end.
   */
  lemma StandardIff(stream: seq<Byte>)
    requires !(BOM <= stream) && LoneReturns(stream) == 0
    ensures var (lines, rest) := StandardLines(stream);
      Reference(stream) == Standard(stream) <==> Faithful(lines, [], false) && Pending(lines, rest) == []
  {
    hide Emit, Waiting, Ended, StandardEvents, Faithful, Lines, StandardLines, LoneReturns, Cleaned, Emittable;
    LinesAgree(stream);
    LinesMeaning(stream);
    StandardLinesMeaning(stream);
    var (lines, rest) := StandardLines(stream);
    RestHasNoReturn(stream);
    var last := if rest == [] then [] else [rest];
    MeaningConcat(lines, last, []);
    var tail := Pending(lines, rest);
    PendingEmittable(lines, rest);
    StartAlongside();
    EventsAgreeIff(lines, [], [], false, tail);
    LastLine(last, Waiting(lines, []));
    assert Ended(lines, []) + [] == Ended(lines, []);
  }

  lemma LastLine(last: seq<seq<Byte>>, values: seq<seq<Byte>>)
    requires |last| <= 1 && [] !in last
    ensures Ended(last, values) == []
  {
  }

  lemma {:induction false} StandardLinesMeaning(s: seq<Byte>)
    ensures NoLf(StandardLines(s).0) && LF !in StandardLines(s).1 && CR !in StandardLines(s).1
    decreases |s|
  {
    var at := IndexOfEnd(s);
    if at < |s| {
      StandardLinesMeaning(s[NextLine(s, at)..]);
    }
  }

  lemma RestHasNoReturn(stream: seq<Byte>)
    requires LoneReturns(stream) == 0
    ensures DropAllCr(StandardLines(stream).1) == StandardLines(stream).1
  {
    StandardLinesMeaning(stream);
  }

  lemma {:induction false} WaitingNoLf(lines: seq<seq<Byte>>, values: seq<seq<Byte>>)
    requires NoLf(lines) && NoLf(values)
    ensures NoLf(Waiting(lines, values))
    decreases |lines|
  {
    if lines != [] {
      var line := lines[0];
      assert line in lines;
      if line == [] {
        WaitingNoLf(lines[1..], []);
      } else if IsData(line) {
        WaitingNoLf(lines[1..], values + [DataValue(line)]);
      } else {
        WaitingNoLf(lines[1..], values);
      }
    }
  }

  lemma PendingEmittable(lines: seq<seq<Byte>>, rest: seq<Byte>)
    requires NoLf(lines) && LF !in rest
    ensures forall event :: event in Pending(lines, rest) ==> Emittable(event)
  {
    var values := Waiting(lines + (if rest == [] then [] else [rest]), []);
    WaitingNoLf(lines + (if rest == [] then [] else [rest]), []);
    EmitMeaning(values);
  }

  // ----- behind a byte order mark

  lemma MarkedEnd(stream: seq<Byte>)
    requires BOM <= stream
    ensures IndexOfEnd(stream) == 3 + IndexOfEnd(stream[3..])
  {
    var at := IndexOfEnd(stream[3..]);
    assert stream[..3 + at] == BOM + stream[3..][..at];
    assert forall b :: b in BOM ==> b != LF && b != CR;
    if at < |stream| - 3 {
      EndAt(stream, 3 + at);
    } else {
      assert stream == stream[..3 + at];
    }
  }

  lemma FirstSplit(s: seq<Byte>, at: nat)
    requires IndexOfEnd(s) == at
    ensures at == |s| ==> StandardLines(s) == ([], s)
    ensures at < |s| ==>
      var (lines, rest) := StandardLines(s[NextLine(s, at)..]);
      StandardLines(s) == ([s[..at]] + lines, rest)
  {
  }

  /** The mark is part of the first line if a line end follows it, and else of the rest. */
  lemma MarkedSplit(stream: seq<Byte>)
    requires BOM <= stream
    ensures var (lines, rest) := StandardLines(stream[3..]);
      StandardLines(stream) ==
        if lines == [] then ([], stream) else ([BOM + lines[0]] + lines[1..], rest)
  {
    hide IndexOfEnd, StandardLines;
    MarkedEnd(stream);
    var s := stream[3..];
    var at := IndexOfEnd(s);
    FirstSplit(s, at);
    FirstSplit(stream, 3 + at);
    if at < |s| {
      assert s[NextLine(s, at)..] == stream[NextLine(stream, 3 + at)..];
      assert stream[..3 + at] == BOM + s[..at];
    }
  }

  lemma MarkedLine(line: seq<Byte>)
    requires BOM <= line
    ensures line != [] && !IsData(line)
  {
    assert line[0] == BOM[0];
  }

  /**
   * Behind a byte order mark, as long as no carriage return stands alone: the decoder gives the events of the lines
   * with the first one hidden, and what is pending at the end; the standard those of all the lines.
   */
  lemma MarkedReference(stream: seq<Byte>)
    requires BOM <= stream && LoneReturns(stream) == 0
    ensures var (lines, rest) := StandardLines(stream[3..]);
      && Reference(stream) == (if lines == [] then [] else Ended(lines[1..], []) + Pending(lines[1..], rest))
      && Standard(stream) == StandardEvents(lines, [])
  {
    hide Emit, Ended, Waiting, StandardEvents, StandardLines, Lines, LoneReturns, Cleaned, DropAllCr, IsData;
    LinesAgree(stream);
    MarkedSplit(stream);
    RestHasNoReturn(stream);
    var (lines, rest) := StandardLines(stream[3..]);
    EmitNothing();
    ReadNone([]);
    if lines == [] {
      MarkedLine(stream);
      ReadFirst(stream, [], []);
      assert [stream] + [] == [stream] && [] + [stream] == [stream];
    } else {
      var last := if rest == [] then [] else [rest];
      var first := BOM + lines[0];
      MarkedLine(first);
      assert [first] + lines[1..] + last == [first] + (lines[1..] + last);
      ReadFirst(first, lines[1..] + last, []);
      MeaningConcat(lines[1..], last, []);
      LastLine(last, Waiting(lines[1..], []));
      assert Ended(lines[1..], []) + [] == Ended(lines[1..], []);
    }
  }

  /** The standard has at least as many events. */
  lemma {:induction false} NoFewerEvents(lines: seq<seq<Byte>>, standard: seq<seq<Byte>>, values: seq<seq<Byte>>)
    requires values != [] ==> standard != []
    ensures |StandardEvents(lines, standard)| >= |Ended(lines, values)|
    decreases |lines|
  {
    hide DataValue, StandardValue, DATA_FIELD, DATA, JoinLines;
    if lines != [] {
      var line, rest := lines[0], lines[1..];
      ValueMeaning(line);
      if line == [] {
        EmitNothing();
        NoFewerEvents(rest, [], []);
      } else if IsData(line) {
        NoFewerEvents(rest, standard + [DataValue(line)], values + [DataValue(line)]);
      } else {
        NoFewerEvents(rest,
          if StandardValue(line).Some? then standard + [StandardValue(line).value] else standard, values);
      }
    }
  }

  lemma FirstTells(event: seq<Byte>, standard: seq<seq<Byte>>, emitted: seq<seq<Byte>>, ended: seq<seq<Byte>>)
    requires emitted == [] || (|emitted| == 1 && emitted[0] != event)
    requires |standard| >= |ended|
    ensures [event] + standard != emitted + ended
  {
    if emitted != [] {
      assert ([event] + standard)[0] == event && (emitted + ended)[0] == emitted[0];
    } else {
      assert emitted + ended == ended;
    }
  }

  /** A line more in one event, and they differ. */
  lemma {:induction false} HiddenLineTells(lines: seq<seq<Byte>>, standard: seq<seq<Byte>>, values: seq<seq<Byte>>)
    requires BLANK in lines && |standard| > |values| && NoLf(standard) && NoLf(values) && NoLf(lines)
    ensures StandardEvents(lines, standard) != Ended(lines, values)
    decreases |lines|
  {
    hide DataValue, StandardValue, DATA_FIELD, Emit, DropLeadingEmpty, JoinLines;
    var line, rest := lines[0], lines[1..];
    assert line in lines && forall l :: l in rest ==> l in lines;
    ValueMeaning(line);
    if line == [] {
      EmitMeaning(values);
      DropLeadingEmptyMeaning(values);
      JoinedFeeds(standard);
      NoFewerEvents(rest, [], []);
      FirstTells(JoinLines(standard), StandardEvents(rest, []), Emit(values), Ended(rest, []));
    } else {
      assert BLANK in rest;
      ValueNoLf(line);
      if IsData(line) {
        HiddenLineTells(rest, standard + [DataValue(line)], values + [DataValue(line)]);
      } else {
        HiddenLineTells(rest,
          if StandardValue(line).Some? then standard + [StandardValue(line).value] else standard, values);
      }
    }
  }

  lemma ValueNoLf(line: seq<Byte>)
    requires LF !in line
    ensures StandardValue(line).Some? ==> LF !in StandardValue(line).value
    ensures IsData(line) ==> LF !in DataValue(line)
  {
  }

  lemma {:induction false} NoBlankNoEvents(lines: seq<seq<Byte>>, standard: seq<seq<Byte>>, values: seq<seq<Byte>>)
    requires BLANK !in lines
    ensures StandardEvents(lines, standard) == [] && Ended(lines, values) == []
    decreases |lines|
  {
    hide DataValue, StandardValue, DATA_FIELD, DATA;
    if lines != [] {
      var line, rest := lines[0], lines[1..];
      assert line in lines && forall l :: l in rest ==> l in lines;
      ValueMeaning(line);
      if IsData(line) {
        NoBlankNoEvents(rest, standard + [DataValue(line)], values + [DataValue(line)]);
      } else {
        NoBlankNoEvents(rest,
          if StandardValue(line).Some? then standard + [StandardValue(line).value] else standard, values);
      }
    }
  }

  /** A caller's check behind a byte order mark: the line at the mark is no data line, or in no event. */
  predicate MarkHarmless(lines: seq<seq<Byte>>) {
    lines == [] || BLANK !in lines[1..] || (StandardValue(lines[0]).None? && Faithful(lines[1..], [], false))
  }

  /**
   * On a stream with a byte order mark whose carriage returns all stand before line feeds: if nothing is pending at the
   * end, the decoder gives the standard's events exactly when the mark is harmless; if something is, then only if the
   * line at the mark is a data line of some event.
   */
  lemma MarkedStandardIff(stream: seq<Byte>)
    requires BOM <= stream && LoneReturns(stream) == 0
    ensures var (lines, rest) := StandardLines(stream[3..]);
      var pending := if lines == [] then [] else Pending(lines[1..], rest);
      && (pending == [] ==> (Reference(stream) == Standard(stream) <==> MarkHarmless(lines)))
      && (pending != [] && Reference(stream) == Standard(stream) ==>
          BLANK in lines[1..] && StandardValue(lines[0]).Some?)
  {
    hide Emit, Waiting, Ended, StandardEvents, StandardLines, LoneReturns, Reference, Standard, StandardValue, Pending,
      Faithful;
    MarkedReference(stream);
    StandardLinesMeaning(stream[3..]);
    var (lines, rest) := StandardLines(stream[3..]);
    ReadNone([]);
    if lines != [] {
      var first, more := lines[0], lines[1..];
      MarkedAgree(first, more, rest);
      assert lines == [first] + more;
    }
  }

  lemma MarkedAgree(first: seq<Byte>, more: seq<seq<Byte>>, rest: seq<Byte>)
    requires LF !in first && NoLf(more) && LF !in rest
    ensures var pending := Pending(more, rest);
      var agree := Ended(more, []) + pending == StandardEvents([first] + more, []);
      && (StandardValue(first).None? ==> (agree <==> Faithful(more, [], false) && pending == []))
      && (BLANK !in more ==> (agree <==> pending == []))
      && (StandardValue(first).Some? && BLANK in more && pending == [] ==> !agree)
  {
    hide Emit, Waiting, Ended, StandardEvents, StandardValue, Pending, Faithful, Emittable;
    ReadFirst(first, more, []);
    PendingEmittable(more, rest);
    StartAlongside();
    EventsAgreeIff(more, [], [], false, Pending(more, rest));
    assert Dispatch([]) == [] && [] + StandardEvents(more, []) == StandardEvents(more, []);
    assert Ended(more, []) + [] == Ended(more, []);
    BlankValue();
    if StandardValue(first).Some? {
      var v := StandardValue(first).value;
      ValueNoLf(first);
      assert [] + [v] == [v];
      if BLANK in more {
        HiddenLineTells(more, [v], []);
      } else {
        NoBlankNoEvents(more, [v], []);
      }
    } else if BLANK !in more {
      NoBlankNoEvents(more, [], []);
    }
  }

  lemma BlankValue()
    ensures StandardValue([]).None?
  {
  }

  lemma {:induction false} Utf8Concat(a: seq<Byte>, b: seq<Byte>)
    requires ValidUtf8(a) && ValidUtf8(b)
    ensures ValidUtf8(a + b)
    decreases |a|
  {
    hide Width;
    if a == [] {
      assert a + b == b;
    } else {
      WidthAppend(a, b);
      Utf8Concat(a[Width(a)..], b);
      assert (a + b)[Width(a)..] == a[Width(a)..] + b;
    }
  }

  lemma WidthAppend(a: seq<Byte>, b: seq<Byte>)
    requires Width(a) > 0
    ensures Width(a + b) == Width(a)
  {
  }

  /** What the drained lines and the rest are in UTF-8, the whole is. */
  lemma {:induction false} DrainUtf8(p: Progress, buffer: seq<Byte>, limits: Limits)
    requires Drain(p, buffer, limits).2.None? && ValidUtf8(Drain(p, buffer, limits).1)
    ensures ValidUtf8(buffer)
    decreases |buffer|
  {
    hide ProcessLine, IndexOfLf, ValidUtf8, DropOneCr;
    var at := IndexOfLf(buffer);
    if at < |buffer| {
      var line, rest := buffer[..at], buffer[at + 1..];
      DrainUtf8(TakeLine(p, line, limits).0, rest, limits);
      LineUtf8(line, rest);
      assert buffer == line + [LF] + rest;
    }
  }

  lemma LineUtf8(line: seq<Byte>, rest: seq<Byte>)
    requires ValidUtf8(DropOneCr(line)) && ValidUtf8(rest)
    ensures ValidUtf8(line + [LF] + rest)
  {
    hide ValidUtf8;
    OneByte(LF);
    OneByte(CR);
    var cut := DropOneCr(line);
    if cut != line {
      Utf8Concat(cut, [CR]);
      assert line == cut + [CR];
    }
    Utf8Concat(line, [LF]);
    Utf8Concat(line + [LF], rest);
  }

  lemma OneByte(b: Byte)
    requires b < 0x80
    ensures ValidUtf8([b])
  {
    assert [b][1..] == [];
  }

  /**
   * A run that succeeds gives the standard's events exactly when the stream passes the checks; and it only succeeds on
   * well-formed UTF-8, where the standard would put replacement characters for what is malformed.
   */
  lemma RunStandardIff(chunks: seq<seq<Byte>>, limits: Limits)
    requires var (s, all) := PushAll(INITIAL, chunks, limits); all.Ok? && Finish(s, limits).Ok?
    ensures ValidUtf8(Concat(chunks))
    ensures var (s, all) := PushAll(INITIAL, chunks, limits); var stream := Concat(chunks);
      var (lines, rest) := StandardLines(stream);
      !(BOM <= stream) && LoneReturns(stream) == 0 ==>
        ((all.value + Finish(s, limits).value == Standard(stream)) <==>
          Faithful(lines, [], false) && Pending(lines, rest) == [])
    ensures var (s, all) := PushAll(INITIAL, chunks, limits); var stream := Concat(chunks);
      BOM <= stream && LoneReturns(stream) == 0 ==>
        var (lines, rest) := StandardLines(stream[3..]);
        (lines == [] || Pending(lines[1..], rest) == []) ==>
          ((all.value + Finish(s, limits).value == Standard(stream)) <==> MarkHarmless(lines))
  {
    hide PushAll, Drain, Concat, Finish, Reference, Standard, Faithful, Pending, StandardLines, LoneReturns, Payload,
      ValidUtf8, MarkHarmless;
    RunMeaning(chunks, limits);
    RunIsUtf8(chunks, limits);
    var stream := Concat(chunks);
    if LoneReturns(stream) == 0 {
      if BOM <= stream {
        MarkedStandardIff(stream);
      } else {
        StandardIff(stream);
      }
    }
  }

  lemma RunIsUtf8(chunks: seq<seq<Byte>>, limits: Limits)
    requires var (s, all) := PushAll(INITIAL, chunks, limits); all.Ok? && Finish(s, limits).Ok?
    ensures ValidUtf8(Concat(chunks))
  {
    hide Payload, ProcessLine, Flush, PushAll, Drain;
    var s := PushAll(INITIAL, chunks, limits).0;
    NoPayload();
    PushAllIsDrain(INITIAL, chunks, [], limits);
    assert INITIAL.buffer + Concat(chunks) == Concat(chunks);
    DrainUtf8(Progress([], 0, []), Concat(chunks), limits);
  }

  // ----- streams on which they differ

  predicate Text(v: seq<Byte>) {
    v != [] && v[0] != SPACE && LF !in v && CR !in v
  }

  predicate Unbroken(lines: seq<seq<Byte>>) {
    forall line :: line in lines ==> LF !in line && CR !in line
  }

  lemma {:induction false} UnlinesLines(lines: seq<seq<Byte>>)
    requires Unbroken(lines)
    ensures StandardLines(Unlines(lines)) == (lines, []) && Lines(Unlines(lines)) == (lines, [])
    ensures Cleaned(lines) == lines
  {
    if lines != [] {
      var line, rest := lines[0], Unlines(lines[1..]);
      assert line in lines && lines == [line] + lines[1..];
      UnlinesLines(lines[1..]);
      var s := line + [LF] + rest;
      assert s[..|line|] == line && s[|line| + 1..] == rest;
      EndAt(s, |line|);
      FeedAt(s, |line|);
    }
  }

  lemma FeedAt(s: seq<Byte>, at: nat)
    requires at < |s| && LF !in s[..at] && s[at] == LF
    ensures IndexOfLf(s) == at
  {
    var r := IndexOfLf(s);
    assert forall i :: 0 <= i < at ==> s[..at][i] == s[i];
    assert forall i :: 0 <= i < r ==> s[..r][i] == s[i];
  }

  /** Both readings of unbroken lines. */
  lemma ReadLines(lines: seq<seq<Byte>>)
    requires Unbroken(lines) && !(BOM <= Unlines(lines))
    ensures Reference(Unlines(lines)) == Ended(lines, []) + Emit(Waiting(lines, []))
    ensures Standard(Unlines(lines)) == StandardEvents(lines, [])
  {
    hide Lines, StandardLines, Cleaned, Unlines, Emit, Ended, Waiting;
    UnlinesLines(lines);
    assert lines + [] == lines;
  }

  lemma DataLine(v: seq<Byte>)
    requires v != [] && v[0] != SPACE
    ensures IsData(DATA + v) && DataValue(DATA + v) == v
    ensures StandardValue(DATA + v) == Some(v)
    ensures Text(v) ==> Unbroken([DATA + v])
    ensures DATA + v != DATA_FIELD
  {
    assert (DATA + v)[5..] == v;
    ValueMeaning(DATA + v);
  }

  lemma EmptyDataLine()
    ensures IsData(DATA) && DataValue(DATA) == [] && StandardValue(DATA) == Some([])
    ensures !IsData(DATA_FIELD) && StandardValue(DATA_FIELD) == Some([]) && DATA_FIELD != []
    ensures Unbroken([DATA]) && Unbroken([DATA_FIELD]) && Unbroken([BLANK])
  {
    ValueMeaning(DATA);
    ValueMeaning(DATA_FIELD);
  }

  /** One line and then others, read by both. */
  lemma ReadFirst(line: seq<Byte>, rest: seq<seq<Byte>>, values: seq<seq<Byte>>)
    ensures line == [] ==>
      && Ended([line] + rest, values) == Emit(values) + Ended(rest, [])
      && Waiting([line] + rest, values) == Waiting(rest, [])
      && StandardEvents([line] + rest, values) == Dispatch(values) + StandardEvents(rest, [])
    ensures IsData(line) ==>
      && Ended([line] + rest, values) == Ended(rest, values + [DataValue(line)])
      && Waiting([line] + rest, values) == Waiting(rest, values + [DataValue(line)])
    ensures line != [] && !IsData(line) ==>
      && Ended([line] + rest, values) == Ended(rest, values) && Waiting([line] + rest, values) == Waiting(rest, values)
    ensures line != [] ==>
      StandardEvents([line] + rest, values) ==
        StandardEvents(rest, if StandardValue(line).Some? then values + [StandardValue(line).value] else values)
  {
    assert ([line] + rest)[1..] == rest;
  }

  lemma ReadNone(values: seq<seq<Byte>>)
    ensures Ended([], values) == [] && Waiting([], values) == values && StandardEvents([], values) == []
  {
  }

  /** At the end of the stream the code gives the event that no blank line ended. */
  lemma EndFlushes(v: seq<Byte>)
    requires Text(v)
    ensures Reference(Unlines([DATA + v])) == [v] && Standard(Unlines([DATA + v])) == []
  {
    hide Ended, Waiting, StandardEvents, Standard, Reference, DataValue, StandardValue;
    DataLine(v);
    NoMark(DATA + v, []);
    ReadLines([DATA + v]);
    ReadFirst(DATA + v, [], []);
    assert [DATA + v] + [] == [DATA + v];
    ReadNone([v]);
    ReadNone([]);
    assert [] + [v] == [v];
  }

  lemma NoMark(line: seq<Byte>, rest: seq<seq<Byte>>)
    requires DATA <= line
    ensures !(BOM <= Unlines([line] + rest)) && !(BOM <= Unlines([line]))
  {
    assert Unlines([line] + rest)[0] == line[0];
  }

  /** A blank line and the end. */
  lemma ReadBlank(values: seq<seq<Byte>>)
    ensures Ended([BLANK], values) == Emit(values) && Waiting([BLANK], values) == [] && Emit([]) == []
    ensures StandardEvents([BLANK], values) == Dispatch(values)
  {
    hide Emit, Dispatch;
    ReadFirst([], [], values);
    assert [BLANK] + [] == [BLANK];
    ReadNone([]);
    assert Emit(values) + [] == Emit(values) && Dispatch(values) + [] == Dispatch(values);
    EmitNothing();
  }

  lemma EmitNothing()
    ensures Emit([]) == []
  {
  }

  /** An event whose data is empty is dispatched by the standard, with empty data, and lost by the code. */
  lemma EmptyEventLost()
    ensures Reference(Unlines([DATA] + [BLANK])) == [] && Standard(Unlines([DATA] + [BLANK])) == [BLANK]
  {
    hide Ended, Waiting, StandardEvents, Standard, Reference, DataValue, StandardValue;
    var lines := [DATA] + [BLANK];
    EmptyDataLine();
    NoMark(DATA, [BLANK]);
    ReadLines(lines);
    ReadFirst(DATA, [BLANK], []);
    assert [] + [BLANK] == [BLANK];
    ReadBlank([BLANK]);
    EmptyValues();
  }

  lemma EmptyValues()
    ensures Emit([BLANK]) == [] && Dispatch([BLANK]) == [BLANK]
  {
    assert [BLANK][1..] == [];
    assert DropLeadingEmpty([BLANK][1..]) == [];
  }

  /** An empty first data line is a line of the standard's event, and lost by the code. */
  lemma LeadingEmptyLost(v: seq<Byte>)
    requires Text(v)
    ensures var stream := Unlines([DATA] + ([DATA + v] + [BLANK]));
      Reference(stream) == [v] && Standard(stream) == [[LF] + v]
  {
    hide Ended, Waiting, StandardEvents, Standard, Reference, DataValue, StandardValue;
    EmptyDataLine();
    DataLine(v);
    NoMark(DATA, [DATA + v] + [BLANK]);
    ReadLines([DATA] + ([DATA + v] + [BLANK]));
    ReadFirst(DATA, [DATA + v] + [BLANK], []);
    assert [] + [BLANK] == [BLANK];
    ReadFirst(DATA + v, [BLANK], [BLANK]);
    ReadBlank([BLANK] + [v]);
    TwoValues(v);
  }

  lemma TwoValues(v: seq<Byte>)
    requires v != []
    ensures Emit([BLANK] + [v]) == [v] && Dispatch([BLANK] + [v]) == [[LF] + v]
    ensures Emit([v]) == [v] && Dispatch([v] + [BLANK]) == [v + [LF]] && Dispatch([v]) == [v]
  {
    assert ([BLANK] + [v])[1..] == [v] && ([v] + [BLANK])[1..] == [BLANK];
    assert DropLeadingEmpty([v]) == [v];
    assert DropLeadingEmpty([BLANK] + [v]) == [v];
    assert [] + [LF] + v == [LF] + v && v + [LF] + BLANK == v + [LF];
    assert JoinLines([BLANK]) == BLANK && JoinLines([v]) == v;
  }

  /** A line `data` without a colon is a data line of the standard, and ignored by the code. */
  lemma BareFieldIgnored(v: seq<Byte>)
    requires Text(v)
    ensures var stream := Unlines([DATA + v] + ([DATA_FIELD] + [BLANK]));
      Reference(stream) == [v] && Standard(stream) == [v + [LF]]
  {
    hide Ended, Waiting, StandardEvents, Standard, Reference, DataValue, StandardValue;
    EmptyDataLine();
    DataLine(v);
    NoMark(DATA + v, [DATA_FIELD] + [BLANK]);
    ReadLines([DATA + v] + ([DATA_FIELD] + [BLANK]));
    ReadFirst(DATA + v, [DATA_FIELD] + [BLANK], []);
    assert [] + [v] == [v];
    ReadFirst(DATA_FIELD, [BLANK], [v]);
    ReadBlank([v]);
    ReadBlank([v] + [BLANK]);
    TwoValues(v);
  }

  /** A byte order mark hides the first data line from the code. */
  lemma MarkHidesEvent(v: seq<Byte>)
    requires Text(v)
    ensures var stream := Unlines([BOM + (DATA + v)] + [BLANK]); Reference(stream) == [] && Standard(stream) == [v]
  {
    hide Ended, Waiting, StandardEvents, DataValue, StandardValue, Lines, StandardLines, Cleaned, Emit, Unlines,
      Dispatch;
    var line := DATA + v;
    var marked := BOM + line;
    EmptyDataLine();
    DataLine(v);
    assert Unbroken([marked] + [BLANK]) by {
      assert forall l :: l in [marked] + [BLANK] <==> l == marked || l == [];
    }
    MarkedLines(line, [BLANK]);
    UnlinesLines([marked] + [BLANK]);
    UnlinesLines([line] + [BLANK]);
    ReadFirst(marked, [BLANK], []);
    ReadFirst(line, [BLANK], []);
    assert [] + [v] == [v];
    ReadBlank([]);
    ReadBlank([v]);
    TwoValues(v);
    assert !IsData(marked) && marked != [] by {
      assert marked[0] == BOM[0];
    }
    assert [marked] + [BLANK] + [] == [marked] + [BLANK];
  }

  /**
   * Behind a byte order mark the two can still agree, the event hidden being made good by another flushed at the end.
   */
  lemma MarkCanAgree(v: seq<Byte>)
    requires Text(v)
    ensures var stream := Unlines([BOM + (DATA + v)] + ([BLANK] + [DATA + v]));
      Reference(stream) == [v] && Standard(stream) == [v]
  {
    hide Ended, Waiting, StandardEvents, DataValue, StandardValue, Lines, StandardLines, Cleaned, Emit, Unlines,
      Dispatch;
    var line := DATA + v;
    var marked := BOM + line;
    var rest := [BLANK] + [line];
    EmptyDataLine();
    DataLine(v);
    assert forall l :: l in [marked] + rest <==> l == marked || l == BLANK || l == line;
    MarkedLines(line, rest);
    UnlinesLines([marked] + rest);
    assert forall l :: l in [line] + rest <==> l == BLANK || l == line;
    UnlinesLines([line] + rest);
    ReadFirst(marked, rest, []);
    ReadFirst(line, rest, []);
    ReadFirst(BLANK, [line], []);
    ReadFirst(BLANK, [line], [v]);
    ReadFirst(line, [], []);
    assert [line] + [] == [line] && [] + [v] == [v];
    ReadNone([v]);
    ReadBlank([]);
    TwoValues(v);
    assert !IsData(marked) && marked != [] by {
      assert marked[0] == BOM[0];
    }
    assert [marked] + rest + [] == [marked] + rest && [] + [v] == [v];
    EmptyDispatch(v);
  }

  lemma EmptyDispatch(v: seq<Byte>)
    ensures Dispatch([]) == [] && [v] + [] == [v]
  {
  }

  lemma MarkedLines(line: seq<Byte>, rest: seq<seq<Byte>>)
    ensures var s := Unlines([BOM + line] + rest); BOM <= s && s[3..] == Unlines([line] + rest)
  {
    assert ([BOM + line] + rest)[1..] == rest && ([line] + rest)[1..] == rest;
    assert BOM + line + [LF] + Unlines(rest) == BOM + (line + [LF] + Unlines(rest));
  }

  lemma ReturnFirst(line: seq<Byte>, tail: seq<seq<Byte>>)
    requires Unbroken([line]) && Unbroken(tail) && tail != [] && tail[0] != []
    ensures StandardLines(line + [CR] + Unlines(tail)) == ([line] + tail, [])
  {
    assert line in [line] && tail[0] in tail;
    UnlinesLines(tail);
    var rest := Unlines(tail);
    assert rest[0] == tail[0][0];
    var s := line + [CR] + rest;
    assert s[..|line|] == line && s[|line| + 1..] == rest;
    EndAt(s, |line|);
  }

  lemma CodeFirst(line: seq<Byte>, rest: seq<seq<Byte>>)
    requires LF !in line && DropOneCr(line) == line && Unbroken(rest)
    ensures var s := line + [LF] + Unlines(rest);
      Lines(s) == ([line] + rest, []) && Cleaned([line] + rest) == [line] + rest
  {
    UnlinesLines(rest);
    var s := line + [LF] + Unlines(rest);
    assert s[..|line|] == line && s[|line| + 1..] == Unlines(rest);
    FeedAt(s, |line|);
    CleanedCons(line, rest);
  }

  lemma SameStream(v: seq<Byte>)
    requires Text(v)
    ensures var line := DATA + v; var odd := DATA + (v + [CR] + line); var tail := [line] + [BLANK];
      var stream := DATA + v + [CR] + Unlines(tail);
      && stream == odd + [LF] + Unlines([BLANK]) && Unbroken(tail) && !(BOM <= stream)
      && LF !in odd && DropOneCr(odd) == odd
  {
    var line := DATA + v;
    var tail := [line] + [BLANK];
    assert (DATA + v + [CR] + Unlines(tail))[0] == DATA[0];
    assert tail[1..] == [BLANK];
    assert Unlines(tail) == line + [LF] + Unlines([BLANK]);
    assert forall l :: l in tail <==> l == line || l == [];
  }

  lemma ReturnInCode(v: seq<Byte>)
    requires Text(v)
    ensures Reference(DATA + v + [CR] + Unlines([DATA + v] + [BLANK])) == [v + [CR] + (DATA + v)]
  {
    hide Ended, Waiting, DataValue, StandardValue, StandardEvents, Lines, Cleaned, Emit, Unlines, DropOneCr, Dispatch;
    var w := v + [CR] + (DATA + v);
    DataLine(w);
    EmptyDataLine();
    SameStream(v);
    CodeFirst(DATA + w, [BLANK]);
    ReadFirst(DATA + w, [BLANK], []);
    assert [] + [w] == [w];
    ReadBlank([w]);
    TwoValues(w);
    assert [DATA + w] + [BLANK] + [] == [DATA + w] + [BLANK];
  }

  lemma ReturnInStandard(v: seq<Byte>)
    requires Text(v)
    ensures Standard(DATA + v + [CR] + Unlines([DATA + v] + [BLANK])) == [v + [LF] + v]
  {
    hide Ended, Waiting, DataValue, StandardValue, StandardEvents, StandardLines, Emit, Unlines, DropOneCr;
    var line := DATA + v;
    DataLine(v);
    EmptyDataLine();
    SameStream(v);
    ReturnFirst(line, [line] + [BLANK]);
    ReadFirst(line, [line] + [BLANK], []);
    ReadFirst(line, [BLANK], [v]);
    assert [] + [v] == [v];
    ReadBlank([v] + [v]);
    assert JoinLines([v] + [v]) == v + [LF] + v by {
      assert ([v] + [v])[1..] == [v] && JoinLines([v]) == v;
    }
  }

  /** A carriage return ends a line of the standard, and not of the code. */
  lemma ReturnIsNoEnd(v: seq<Byte>)
    requires Text(v)
    ensures var stream := DATA + v + [CR] + Unlines([DATA + v] + [BLANK]);
      Reference(stream) == [v + [CR] + (DATA + v)] && Standard(stream) == [v + [LF] + v]
  {
    hide *;
    ReturnInCode(v);
    ReturnInStandard(v);
  }

  /** A lone return does not always matter: within a comment both read nothing. */
  lemma ReturnInComment(v: seq<Byte>)
    requires Text(v)
    ensures var line := [COLON] + v; var stream := line + [CR] + Unlines([line]);
      LoneReturns(stream) == 1 && Reference(stream) == [] && Standard(stream) == []
  {
    hide Ended, Waiting, StandardEvents, StandardLines, Lines, Unlines, LoneReturns, LineFeeds, Cleaned, DropOneCr;
    var line := [COLON] + v;
    var stream := line + [CR] + Unlines([line]);
    CommentStream(v);
    ReturnFirst(line, [line]);
    CodeFirst(line + [CR] + line, []);
    StandardLinesCount(stream);
    LinesCount(stream);
    var odd := line + [CR] + line;
    CommentIgnored(odd, []);
    CommentIgnored(line, [line]);
    CommentIgnored(line, []);
    assert [line] + [] == [line] && [odd] + [] == [odd];
  }

  lemma CommentStream(v: seq<Byte>)
    requires Text(v)
    ensures var line := [COLON] + v; var odd := line + [CR] + line; var stream := line + [CR] + Unlines([line]);
      && stream == odd + [LF] + Unlines([]) && Unbroken([line]) && !(BOM <= stream)
      && LF !in odd && DropOneCr(odd) == odd
  {
    var line := [COLON] + v;
    var one := [line];
    assert one[1..] == [];
    assert Unlines([line]) == line + [LF] + Unlines([]);
    assert (line + [CR] + Unlines([line]))[0] == COLON;
  }

  lemma CommentIgnored(line: seq<Byte>, rest: seq<seq<Byte>>)
    requires line != [] && line[0] == COLON
    ensures Ended([line] + rest, []) == Ended(rest, []) && Waiting([line] + rest, []) == Waiting(rest, [])
    ensures StandardEvents([line] + rest, []) == StandardEvents(rest, [])
    ensures Ended([], []) == [] && StandardEvents([], []) == [] && Emit(Waiting([], [])) == []
  {
    assert IndexOfColon(line) == 0;
    ReadFirst(line, rest, []);
    ReadNone([]);
    EmitNothing();
  }
}
