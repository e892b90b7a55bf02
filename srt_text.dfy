// Reading an SRT file (subs.py:152-170): blank-line separated blocks of a
// number line, a "start --> end" line and the text, turned into a script
// with one default style.

module SrtText {

  import opened Common
  import opened PyStr
  import opened Decimal
  import opened AssTime
  import opened AssLines
  import opened ScriptText

  /** The script info a converted SRT file gets. */
  const SrtInfo: seq<string> := ["Script converted by Prass"]

  /** The one style a converted SRT file gets. */
  const SrtStyle := AssStyle("Default", "Arial,20,&H00FFFFFF,&H000000FF,&H00000000,&H00000000,0,0,0,0,100,100,0,0,1,2,2,2,10,10,10,1")

  /** parse_time: an SRT time has a comma where ASS has the decimal point. */
  function SrtTime(text: string, readers: NumberReaders): (r: Result<real>)
    ensures r.Err? ==> r.error == ValueError
  {
    ParseAssTime(Replace(text, ",", "."), readers)
  }

  /** The start and end of a "start --> end" line. The start is read
      before the end is looked for, so a bad start time is reported before
      a missing arrow. */
  function SrtTimes(line: string, readers: NumberReaders): (r: Result<(real, real)>)
    ensures r.Err? ==> r.error == IndexError || r.error == ValueError
  {
    var times := Split(line, "-->");
    var start :- SrtTime(RStrip(times[0]), readers);
    if |times| < 2 then Err(IndexError)
    else
      var end :- SrtTime(LStrip(times[1]), readers);
      Ok((start, end))
  }

  /** One block: split at the first two line feeds, the times at "-->".
      The arguments are evaluated left to right, so bad times are reported
      before a missing text. Line feeds in the text become ASS hard breaks. */
  function SrtEvent(block: string, readers: NumberReaders): (r: Result<AssEvent>)
    ensures r.Err? ==> r.error == IndexError || r.error == ValueError
    ensures r.Ok? ==> r.value.kind == "Dialogue" && r.value.style == "Default" && '\n' !in r.value.text
  {
    var lines := SplitN(block, "\n", 2);
    if |lines| < 2 then Err(IndexError)
    else
      var times :- SrtTimes(lines[1], readers);
      if |lines| < 3 then Err(IndexError)
      else
        ReplaceRemovesChar(lines[2], '\n', "\\N");
        Ok(NewEvent(times.0, times.1, Replace(lines[2], "\n", "\\N")))
  }

  /** The blocks of the file once Windows line ends are made plain. */
  function SrtBlocks(text: string): seq<string> {
    Split(Replace(text, "\r\n", "\n"), "\n\n")
  }

  /** The events of the blocks in order, each block read by read; empty
      blocks are skipped and the first bad block ends the reading. */
  function ReadBlocks(blocks: seq<string>, read: string -> Result<AssEvent>): Result<seq<AssEvent>>
    decreases |blocks|
  {
    if blocks == [] then Ok([])
    else if blocks[0] == [] then ReadBlocks(blocks[1..], read)
    else
      var e :- read(blocks[0]);
      var rest :- ReadBlocks(blocks[1..], read);
      Ok([e] + rest)
  }

  /** The events of the SRT blocks. */
  function SrtEvents(blocks: seq<string>, readers: NumberReaders): Result<seq<AssEvent>> {
    ReadBlocks(blocks, b => SrtEvent(b, readers))
  }

  /** from_srt_stream on the text of the file. */
  function ParseSrt(text: string, readers: NumberReaders): (r: Result<ScriptDoc>)
    ensures r.Ok? ==> r.value.scriptInfo == SrtInfo && r.value.styles == [SrtStyle]
  {
    var events :- SrtEvents(SrtBlocks(text), readers);
    Ok(ScriptDoc(SrtInfo, [SrtStyle], events))
  }

  /** Events already read in front of what the remaining blocks give. */
  function After(events: seq<AssEvent>, rest: Result<seq<AssEvent>>): Result<seq<AssEvent>> {
    if rest.Ok? then Ok(events + rest.value) else rest
  }

  /** One step of the reading: an empty block is skipped, a bad one ends
      the reading with its error, a good one goes in front of the rest. */
  lemma SrtEventsStep(blocks: seq<string>, readers: NumberReaders)
    requires blocks != []
    ensures blocks[0] == [] ==> SrtEvents(blocks, readers) == SrtEvents(blocks[1..], readers)
    ensures blocks[0] != [] && SrtEvent(blocks[0], readers).Err? ==>
      SrtEvents(blocks, readers) == Err(SrtEvent(blocks[0], readers).error)
    ensures blocks[0] != [] && SrtEvent(blocks[0], readers).Ok? ==>
      SrtEvents(blocks, readers) == After([SrtEvent(blocks[0], readers).value], SrtEvents(blocks[1..], readers))
  {
  }

  /** Reading more events after some already read. */
  lemma AfterAfter(events: seq<AssEvent>, e: AssEvent, rest: Result<seq<AssEvent>>)
    ensures After(events, After([e], rest)) == After(events + [e], rest)
  {
    if rest.Ok? {
      assert events + ([e] + rest.value) == events + [e] + rest.value;
    }
  }

  /** from_srt_stream (subs.py:152-170): the loop over the blocks. */
  method ReadSrtText(text: string, readers: NumberReaders) returns (r: Result<ScriptDoc>)
    ensures r == ParseSrt(text, readers)
  {
    var blocks := Split(Replace(text, "\r\n", "\n"), "\n\n");
    var events: seq<AssEvent> := [];
    var i := 0;
    assert blocks[0..] == blocks;
    assert SrtEvents(blocks, readers).Ok? ==> [] + SrtEvents(blocks, readers).value == SrtEvents(blocks, readers).value;
    while i < |blocks|
      invariant 0 <= i <= |blocks|
      invariant SrtEvents(blocks, readers) == After(events, SrtEvents(blocks[i..], readers))
    {
      var block := blocks[i];
      assert blocks[i..][0] == block && blocks[i..][1..] == blocks[i + 1..];
      SrtEventsStep(blocks[i..], readers);
      if block != [] {
        var e := SrtEvent(block, readers);
        if e.Err? {
          return Err(e.error);
        }
        AfterAfter(events, e.value, SrtEvents(blocks[i + 1..], readers));
        events := events + [e.value];
      }
      i := i + 1;
    }
    assert events + [] == events;
    return Ok(ScriptDoc(SrtInfo, [SrtStyle], events));
  }

  // ---------------------------------------------------------------------
  // What the reading yields
  // ---------------------------------------------------------------------

  /** The blocks that are not empty. */
  function NonEmpty(blocks: seq<string>): (r: seq<string>)
    decreases |blocks|
  {
    if blocks == [] then []
    else (if blocks[0] == [] then [] else [blocks[0]]) + NonEmpty(blocks[1..])
  }

  /** A successful reading yields the events of the non-empty blocks, in order. */
  lemma {:induction false} ReadBlocksValues(blocks: seq<string>, read: string -> Result<AssEvent>)
    requires ReadBlocks(blocks, read).Ok?
    ensures var events := ReadBlocks(blocks, read).value;
      |events| == |NonEmpty(blocks)| &&
      forall k :: 0 <= k < |events| ==> read(NonEmpty(blocks)[k]) == Ok(events[k])
    decreases |blocks|
  {
    if blocks != [] {
      var all := NonEmpty(blocks);
      var tail := NonEmpty(blocks[1..]);
      var events := ReadBlocks(blocks, read).value;
      ReadBlocksValues(blocks[1..], read);
      if blocks[0] == [] {
        assert all == tail;
      } else {
        assert all == [blocks[0]] + tail;
        var rest := ReadBlocks(blocks[1..], read).value;
        assert events == [read(blocks[0]).value] + rest;
        forall k | 0 <= k < |events|
          ensures read(all[k]) == Ok(events[k])
        {
          if k > 0 {
            assert all[k] == tail[k - 1] && events[k] == rest[k - 1];
          }
        }
      }
    }
  }

  /** Reading the blocks succeeds exactly when every non-empty block reads,
      and then yields one event per non-empty block, in order. */
  lemma ReadBlocksSpec(blocks: seq<string>, read: string -> Result<AssEvent>)
    ensures ReadBlocks(blocks, read).Ok? <==>
      forall k :: 0 <= k < |NonEmpty(blocks)| ==> read(NonEmpty(blocks)[k]).Ok?
    ensures ReadBlocks(blocks, read).Ok? ==>
      var events := ReadBlocks(blocks, read).value;
      |events| == |NonEmpty(blocks)| &&
      forall k :: 0 <= k < |events| ==> events[k] == read(NonEmpty(blocks)[k]).value
  {
    if ReadBlocks(blocks, read).Ok? {
      ReadBlocksValues(blocks, read);
    } else {
      ReadBlocksFirstError(blocks, read);
      var k :| FirstFailure(NonEmpty(blocks), k, read, ReadBlocks(blocks, read).error);
      assert read(NonEmpty(blocks)[k]).Err?;
    }
  }

  /** Reading the first k blocks of a list succeeds, and the k-th fails
      with this error. */
  predicate FirstFailure(all: seq<string>, k: int, read: string -> Result<AssEvent>, error: Error) {
    && 0 <= k < |all|
    && read(all[k]) == Err(error)
    && forall j :: 0 <= j < k ==> read(all[j]).Ok?
  }

  /** When reading fails, the error is that of the first non-empty block
      that does not read. */
  lemma {:induction false} ReadBlocksFirstError(blocks: seq<string>, read: string -> Result<AssEvent>)
    requires ReadBlocks(blocks, read).Err?
    ensures exists k :: FirstFailure(NonEmpty(blocks), k, read, ReadBlocks(blocks, read).error)
    decreases |blocks|
  {
    var all := NonEmpty(blocks);
    var tail := NonEmpty(blocks[1..]);
    var error := ReadBlocks(blocks, read).error;
    if blocks[0] == [] {
      assert all == tail;
      ReadBlocksFirstError(blocks[1..], read);
    } else if read(blocks[0]).Err? {
      assert all[0] == blocks[0];
      assert FirstFailure(all, 0, read, error);
    } else {
      ReadBlocksFirstError(blocks[1..], read);
      assert all == [blocks[0]] + tail;
      var k :| FirstFailure(tail, k, read, error);
      assert all[k + 1] == tail[k];
      forall j | 0 <= j < k + 1
        ensures read(all[j]).Ok?
      {
        if j > 0 {
          assert all[j] == tail[j - 1];
        }
      }
      assert FirstFailure(all, k + 1, read, error);
    }
  }

  // ---------------------------------------------------------------------
  // Reading back a written block
  // ---------------------------------------------------------------------

  /** With no comma of its own, a time written with a decimal comma reads
      as the same time written with a point. */
  lemma SrtTimeComma(t: string, readers: NumberReaders)
    requires ',' !in t
    ensures SrtTime(Replace(t, ".", ","), readers) == ParseAssTime(t, readers)
  {
    ReplaceCharBack(t, '.', ',');
  }

  /** An SRT time for a non-negative whole number of centiseconds:
      format_time's text with a decimal comma. */
  function SrtTimeText(cs: nat): string {
    Replace(FormatCentiseconds(cs), ".", ",")
  }

  /** The characters of a non-negative formatted time. */
  lemma FormatCentisecondsChars(cs: nat)
    ensures var t := FormatCentiseconds(cs);
      t != [] && forall i :: 0 <= i < |t| ==> IsDigit(t[i]) || t[i] == ':' || t[i] == '.'
  {
    var c := SplitCentiseconds(cs);
    var h := NatDigits(c.hours);
    var t := FormatCentiseconds(cs);
    assert t == h + ":" + Pad2(c.minutes) + ":" + Pad2(c.seconds) + "." + Pad2(c.centiseconds);
  }

  /** A time text that sits in a time line without confusing the split:
      not empty, no outer spaces, no dash and no line feed. */
  predicate TimeShape(t: string) {
    t != [] && Stripped(t) && '-' !in t && '\n' !in t
  }

  /** A written SRT time is digits, colons and a comma. */
  lemma SrtTimeTextShape(cs: nat)
    ensures TimeShape(SrtTimeText(cs))
  {
    var f := FormatCentiseconds(cs);
    FormatCentisecondsChars(cs);
    ReplaceCharMap(f, '.', ',');
    var t := SrtTimeText(cs);
    assert forall i :: 0 <= i < |t| ==> IsDigit(t[i]) || t[i] == ':' || t[i] == ',';
  }

  /** A written SRT time reads back as that many hundredths of a second. */
  lemma SrtTimeRoundTrip(cs: nat)
    ensures SrtTime(SrtTimeText(cs), PlainReaders) == Ok(GridTime(cs))
  {
    var f := FormatCentiseconds(cs);
    assert ',' !in f by {
      FormatCentisecondsChars(cs);
    }
    assert SrtTime(SrtTimeText(cs), PlainReaders) == ParseAssTime(f, PlainReaders) by {
      SrtTimeComma(f, PlainReaders);
    }
    FormatCentisecondsRoundTrip(cs);
  }

  /** The text of one SRT block: its number, its time line and its text. */
  function SrtBlock(number: string, startText: string, endText: string, body: string): string {
    number + "\n" + startText + " --> " + endText + "\n" + body
  }

  /** The time line of a block splits into the two times. */
  lemma TimeLineSplits(a: string, b: string)
    requires TimeShape(a) && TimeShape(b)
    ensures var times := Split(a + " --> " + b, "-->");
      |times| == 2 && RStrip(times[0]) == a && LStrip(times[1]) == b
  {
    assert a + " --> " + b == (a + " ") + "-->" + (" " + b);
    assert (a + " ")[..|a|] == a;
    assert (" " + b)[1..] == b;
    SplitAround(a + " ", "-->", " " + b);
    assert LStrip(" " + b) == LStrip(b);
    StripStripped(b);
  }

  /** The time line of a block reads as its two times. */
  lemma TimeLineReads(a: string, b: string, start: real, end: real, readers: NumberReaders)
    requires TimeShape(a) && TimeShape(b)
    requires SrtTime(a, readers) == Ok(start) && SrtTime(b, readers) == Ok(end)
    ensures SrtTimes(a + " --> " + b, readers) == Ok((start, end))
  {
    TimeLineSplits(a, b);
  }

  /** A block whose lines and times are known reads as the event they give. */
  lemma SrtEventOfParts(block: string, number: string, timeLine: string, body: string,
                        start: real, end: real, readers: NumberReaders)
    requires SplitN(block, "\n", 2) == [number, timeLine, body]
    requires SrtTimes(timeLine, readers) == Ok((start, end))
    ensures SrtEvent(block, readers) == Ok(NewEvent(start, end, Replace(body, "\n", "\\N")))
  {
  }

  /** The three lines of a block. */
  lemma BlockLines(number: string, a: string, b: string, body: string)
    requires '\n' !in number && TimeShape(a) && TimeShape(b)
    ensures SplitN(SrtBlock(number, a, b, body), "\n", 2) == [number, a + " --> " + b, body]
  {
    var timeLine := a + " --> " + b;
    var block := SrtBlock(number, a, b, body);
    var parts := [number, timeLine, body];
    assert Join(parts, "\n") == block by {
      assert parts[1..][1..] == [body];
      assert Join(parts[1..], "\n") == timeLine + "\n" + body;
      assert block == number + "\n" + (timeLine + "\n" + body);
    }
    assert '\n' !in timeLine;
    JoinSplitN(parts, '\n', 2);
  }

  /** A block of a number line without line feeds, a time line of two
      readable times and any text reads as a dialogue event at those times
      whose text has the line feeds turned into hard breaks. */
  lemma SrtBlockRoundTrip(number: string, a: string, b: string, body: string,
                          start: real, end: real, readers: NumberReaders)
    requires '\n' !in number && TimeShape(a) && TimeShape(b)
    requires SrtTime(a, readers) == Ok(start) && SrtTime(b, readers) == Ok(end)
    ensures SrtEvent(SrtBlock(number, a, b, body), readers) == Ok(NewEvent(start, end, Replace(body, "\n", "\\N")))
  {
    BlockLines(number, a, b, body);
    TimeLineReads(a, b, start, end, readers);
    SrtEventOfParts(SrtBlock(number, a, b, body), number, a + " --> " + b, body, start, end, readers);
  }
}
