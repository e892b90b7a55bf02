// The text forms of a script (subs.py:109-190): reading an ASS script line
// by line, reading an SRT file, and the lines to_ass_stream writes.

module ScriptText {

  import opened Common
  import opened PyStr
  import opened Decimal
  import opened AssTime
  import opened AssLines
  import opened StyleDict

  /** What an AssScript is built from: script-info lines, styles in
      dictionary order, events in file order. */
  datatype ScriptDoc = ScriptDoc(scriptInfo: seq<string>, styles: seq<AssStyle>, events: seq<AssEvent>)

  const EmptyDoc := ScriptDoc([], [], [])

  // ---------------------------------------------------------------------
  // Reading an ASS script (subs.py:110-142)
  // ---------------------------------------------------------------------

  /** Which parse_function is current. */
  datatype Section = NoSection | InfoSection | StylesSection | EventsSection

  /** The reader's state between two lines. */
  datatype Reader = Reader(section: Section, doc: ScriptDoc)

  const InfoHeader := "[Script Info]"
  const StylesHeader := "[V4+ Styles]"
  const EventsHeader := "[Events]"

  /** A stripped, lower-cased line that switches the section. */
  predicate IsHeader(low: string) {
    low == "[script info]" || low == "[v4+ styles]" || low == "[events]"
  }

  /** What parse_function does with a stripped line that is neither a
      header nor a Format line. A line in no section, and a style or event
      line the line parsers refuse, are an invalid script. */
  function AddLine(st: Reader, line: string, readers: NumberReaders): (r: Result<Reader>)
    ensures r.Err? ==> r.error == Prass(InvalidAssScript)
    ensures r.Ok? ==> r.value.section == st.section
  {
    match st.section
    case NoSection => Err(Prass(InvalidAssScript))
    case InfoSection => Ok(st.(doc := st.doc.(scriptInfo := st.doc.scriptInfo + [line])))
    case StylesSection =>
      (match StyleFromString(line)
       case Err(_) => Err(Prass(InvalidAssScript))
       case Ok(style) => Ok(st.(doc := st.doc.(styles := Put(st.doc.styles, style)))))
    case EventsSection =>
      (match EventFromText(line, readers)
       case Err(_) => Err(Prass(InvalidAssScript))
       case Ok(e) => Ok(st.(doc := st.doc.(events := st.doc.events + [e]))))
  }

  /** The body of the reading loop for one line: blank lines and Format
      lines are skipped, a header switches the section. */
  function ReadLine(st: Reader, raw: string, readers: NumberReaders): (r: Result<Reader>)
    ensures r.Err? ==> r.error == Prass(InvalidAssScript)
  {
    var line := Strip(raw);
    if line == [] then Ok(st)
    else
      var low := Lower(line);
      if low == "[script info]" then Ok(st.(section := InfoSection))
      else if low == "[v4+ styles]" then Ok(st.(section := StylesSection))
      else if low == "[events]" then Ok(st.(section := EventsSection))
      else if StartsWith(low, "format:") then Ok(st)
      else AddLine(st, line, readers)
  }

  /** Reading a line keeps the style names unique, as dictionary keys are. */
  lemma ReadLineUnique(st: Reader, raw: string, readers: NumberReaders)
    requires UniqueNames(st.doc.styles)
    ensures ReadLine(st, raw, readers).Ok? ==> UniqueNames(ReadLine(st, raw, readers).value.doc.styles)
  {
    ReadLineStyles(st, raw, readers);
    var style := StyleFromString(Strip(raw));
    if style.Ok? {
      PutSpec(st.doc.styles, style.value);
    }
  }

  /** A line leaves the styles alone, or stores the style it reads. */
  lemma ReadLineStyles(st: Reader, raw: string, readers: NumberReaders)
    ensures var r := ReadLine(st, raw, readers);
      r.Ok? ==> (r.value.doc.styles == st.doc.styles ||
        (StyleFromString(Strip(raw)).Ok? && r.value.doc.styles == Put(st.doc.styles, StyleFromString(Strip(raw)).value)))
  {
    var line := Strip(raw);
    if line != [] {
      var low := Lower(line);
      if !(low == "[script info]" || low == "[v4+ styles]" || low == "[events]" || StartsWith(low, "format:")) {
        assert ReadLine(st, raw, readers) == AddLine(st, line, readers);
        AddLineStyles(st, line, readers);
      }
    }
  }

  lemma AddLineStyles(st: Reader, line: string, readers: NumberReaders)
    ensures var r := AddLine(st, line, readers);
      r.Ok? ==> (r.value.doc.styles == st.doc.styles ||
        (StyleFromString(line).Ok? && r.value.doc.styles == Put(st.doc.styles, StyleFromString(line).value)))
  {
    if st.section == EventsSection {
      var e := EventFromText(line, readers);
      assert e.Ok? ==> AddLine(st, line, readers) == Ok(st.(doc := st.doc.(events := st.doc.events + [e.value])));
    }
  }

  /** The reading loop over all lines; the first error ends it. */
  function Run(st: Reader, lines: seq<string>, readers: NumberReaders): (r: Result<Reader>)
    ensures r.Err? ==> r.error == Prass(InvalidAssScript)
    decreases |lines|
  {
    if lines == [] then Ok(st)
    else
      var next :- ReadLine(st, lines[0], readers);
      Run(next, lines[1..], readers)
  }

  lemma {:induction false} RunUnique(st: Reader, lines: seq<string>, readers: NumberReaders)
    requires UniqueNames(st.doc.styles)
    ensures Run(st, lines, readers).Ok? ==> UniqueNames(Run(st, lines, readers).value.doc.styles)
    decreases |lines|
  {
    if lines != [] {
      ReadLineUnique(st, lines[0], readers);
      var next := ReadLine(st, lines[0], readers);
      if next.Ok? {
        RunUnique(next.value, lines[1..], readers);
      }
    }
  }

  /** from_ass_stream on the lines of the file. */
  function ParseAss(lines: seq<string>, readers: NumberReaders): (r: Result<ScriptDoc>)
    ensures r.Err? ==> r.error == Prass(InvalidAssScript)
    ensures r.Ok? ==> UniqueNames(r.value.styles)
  {
    RunUnique(Reader(NoSection, EmptyDoc), lines, readers);
    var st :- Run(Reader(NoSection, EmptyDoc), lines, readers);
    Ok(st.doc)
  }

  /** from_ass_stream (subs.py:110-142): the loop, with the current section
      standing for parse_function. */
  method ReadAssLines(lines: seq<string>, readers: NumberReaders) returns (r: Result<ScriptDoc>)
    ensures r == ParseAss(lines, readers)
  {
    var section := NoSection;
    var scriptInfo: seq<string> := [];
    var styles: seq<AssStyle> := [];
    var events: seq<AssEvent> := [];
    var i := 0;
    while i < |lines|
      invariant 0 <= i <= |lines|
      invariant Run(Reader(NoSection, EmptyDoc), lines, readers)
             == Run(Reader(section, ScriptDoc(scriptInfo, styles, events)), lines[i..], readers)
    {
      ghost var st := Reader(section, ScriptDoc(scriptInfo, styles, events));
      ghost var step := ReadLine(st, lines[i], readers);
      assert lines[i..][1..] == lines[i + 1..];
      var line := Strip(lines[i]);
      i := i + 1;
      if line == [] {
        continue;
      }
      var low := Lower(line);
      if low == "[script info]" {
        section := InfoSection;
      } else if low == "[v4+ styles]" {
        section := StylesSection;
      } else if low == "[events]" {
        section := EventsSection;
      } else if StartsWith(low, "format:") {
        continue;
      } else if section == NoSection {
        return Err(Prass(InvalidAssScript));
      } else if section == InfoSection {
        scriptInfo := scriptInfo + [line];
      } else if section == StylesSection {
        var style := StyleFromString(line);
        if style.Err? {
          return Err(Prass(InvalidAssScript));
        }
        styles := Put(styles, style.value);
      } else {
        var e := EventFromText(line, readers);
        if e.Err? {
          return Err(Prass(InvalidAssScript));
        }
        events := events + [e.value];
      }
      assert step == Ok(Reader(section, ScriptDoc(scriptInfo, styles, events)));
    }
    return Ok(ScriptDoc(scriptInfo, styles, events));
  }

  // ---------------------------------------------------------------------
  // Writing an ASS script (subs.py:172-190)
  // ---------------------------------------------------------------------

  const FormatPrefix := "Format:"
  const StylesColumns := " Name, Fontname, Fontsize, PrimaryColour, SecondaryColour, OutlineColour, BackColour, Bold, Italic, Underline, StrikeOut, ScaleX, ScaleY, Spacing, Angle, BorderStyle, Outline, Shadow, Alignment, MarginL, MarginR, MarginV, Encoding"
  const EventsColumns := " Layer, Start, End, Style, Name, MarginL, MarginR, MarginV, Effect, Text"
  const StylesFormat := FormatPrefix + StylesColumns
  const EventsFormat := FormatPrefix + EventsColumns

  /** One "Style:" line per style, in dictionary order. */
  function StyleLines(styles: seq<AssStyle>): seq<string>
    decreases |styles|
  {
    if styles == [] then [] else [StyleLine(styles[0])] + StyleLines(styles[1..])
  }

  /** One line per event, in list order. */
  function EventLines(events: seq<AssEvent>): seq<string>
    decreases |events|
  {
    if events == [] then [] else [EventText(events[0])] + EventLines(events[1..])
  }

  /** The lines to_ass_stream joins with the line separator: each non-empty
      part under its header, the styles and events after their Format
      lines, a blank line after the script info and after the styles, and
      one blank line at the end. */
  function AssLinesOf(doc: ScriptDoc): seq<string> {
    InfoPart(doc) + StylesPart(doc) + EventsPart(doc) + [""]
  }

  function InfoPart(doc: ScriptDoc): seq<string> {
    if doc.scriptInfo != [] then [InfoHeader] + (doc.scriptInfo + [""]) else []
  }

  function StylesPart(doc: ScriptDoc): seq<string> {
    if doc.styles != [] then [StylesHeader, StylesFormat] + (StyleLines(doc.styles) + [""]) else []
  }

  function EventsPart(doc: ScriptDoc): seq<string> {
    if doc.events != [] then [EventsHeader, EventsFormat] + EventLines(doc.events) else []
  }

  // ---------------------------------------------------------------------
  // Reading back what was written
  // ---------------------------------------------------------------------

  /** A script-info line that reads back as itself: not blank, no outer
      spaces, and neither a header nor a Format line. */
  predicate InfoLine(line: string) {
    line != [] && Stripped(line) && !IsHeader(Lower(line)) && !StartsWith(Lower(line), "format:")
  }

  /** A style whose line reads back as itself. */
  predicate WritableStyle(style: AssStyle) {
    ',' !in style.name && Stripped(style.name) && Stripped(style.definition)
  }

  /** A time that format_time writes without rounding. */
  predicate OnGrid(t: real) {
    (t * 100.0).Floor as real == t * 100.0
  }

  /** A time on the grid is a whole number of centiseconds. */
  lemma OnGridCentiseconds(t: real)
    requires OnGrid(t)
    ensures t == GridTime((t * 100.0).Floor)
  {
  }

  /** An event whose line reads back as itself: a kind with no colon, no
      leading space and not "format" in any case, times on the centisecond
      grid, and text fields without outer spaces (nor, but for the text,
      commas). */
  predicate WritableEvent(e: AssEvent) {
    && ':' !in e.kind && Lower(e.kind) != "format" && (e.kind == [] || !IsSpace(e.kind[0]))
    && OnGrid(e.start) && OnGrid(e.end)
    && (forall k :: 3 <= k < 9 ==> ',' !in EventFields(e)[k])
    && (forall k :: 3 <= k < 10 ==> Stripped(EventFields(e)[k]))
  }

  predicate Writable(doc: ScriptDoc) {
    && (forall i :: 0 <= i < |doc.scriptInfo| ==> InfoLine(doc.scriptInfo[i]))
    && UniqueNames(doc.styles)
    && (forall i :: 0 <= i < |doc.styles| ==> WritableStyle(doc.styles[i]))
    && (forall i :: 0 <= i < |doc.events| ==> WritableEvent(doc.events[i]))
  }

  /** One turn of the reading loop. */
  lemma RunCons(st: Reader, x: string, rest: seq<string>, readers: NumberReaders)
    ensures var step := ReadLine(st, x, readers);
      Run(st, [x] + rest, readers) == if step.Ok? then Run(step.value, rest, readers) else Err(step.error)
  {
    assert ([x] + rest)[0] == x;
    assert ([x] + rest)[1..] == rest;
  }

  /** A line that reads to `next`, followed by lines that read on from
      `next` to `final`. */
  lemma RunStep(st: Reader, x: string, rest: seq<string>, next: Reader, final: Result<Reader>, readers: NumberReaders)
    requires ReadLine(st, x, readers) == Ok(next)
    requires Run(next, rest, readers) == final
    ensures Run(st, [x] + rest, readers) == final
  {
    RunCons(st, x, rest, readers);
  }

  /** The same, for the first line of a non-empty list. */
  lemma RunFirst(st: Reader, lines: seq<string>, next: Reader, final: Result<Reader>, readers: NumberReaders)
    requires lines != [] && ReadLine(st, lines[0], readers) == Ok(next)
    requires Run(next, lines[1..], readers) == final
    ensures Run(st, lines, readers) == final
  {
  }

  /** Moving the head of a list onto the end of what comes before. */
  lemma ConsAppend<T>(a: seq<T>, s: seq<T>)
    requires s != []
    ensures a + [s[0]] + s[1..] == a + s
  {
    assert s == [s[0]] + s[1..];
  }

  lemma {:induction false} RunAppend(st: Reader, a: seq<string>, b: seq<string>, readers: NumberReaders)
    ensures var first := Run(st, a, readers);
      Run(st, a + b, readers) == if first.Ok? then Run(first.value, b, readers) else Err(first.error)
    decreases |a|
  {
    if a != [] {
      assert (a + b)[0] == a[0] && (a + b)[1..] == a[1..] + b;
      var next := ReadLine(st, a[0], readers);
      if next.Ok? {
        RunAppend(next.value, a[1..], b, readers);
      }
    } else {
      assert a + b == b;
    }
  }

  /** Lines that read to `mid`, followed by lines that read on from `mid`. */
  lemma RunThen(st: Reader, a: seq<string>, b: seq<string>, mid: Reader, final: Result<Reader>, readers: NumberReaders)
    requires Run(st, a, readers) == Ok(mid) && Run(mid, b, readers) == final
    ensures Run(st, a + b, readers) == final
  {
    RunAppend(st, a, b, readers);
  }

  /** A line with a colon at position i is not a header. */
  lemma ColonIsNoHeader(line: string, i: nat)
    requires i < |line| && line[i] == ':'
    ensures !IsHeader(Lower(line))
  {
    assert Lower(line)[i] == ':';
  }

  lemma LowerPrefix(s: string, n: nat)
    requires n <= |s|
    ensures Lower(s)[..n] == Lower(s[..n])
  {
  }

  /** A line that is not blank, not a header and not a Format line goes to
      the current section. */
  lemma ReadLineAdds(st: Reader, raw: string, readers: NumberReaders)
    requires Strip(raw) != [] && !IsHeader(Lower(Strip(raw))) && !StartsWith(Lower(Strip(raw)), "format:")
    ensures ReadLine(st, raw, readers) == AddLine(st, Strip(raw), readers)
  {
  }

  /** The same, for a line that needs no stripping. */
  lemma ReadLineAddsStripped(st: Reader, line: string, readers: NumberReaders)
    requires line != [] && Stripped(line) && !IsHeader(Lower(line)) && !StartsWith(Lower(line), "format:")
    ensures ReadLine(st, line, readers) == AddLine(st, line, readers)
  {
    StripStripped(line);
  }

  /** A line that needs no stripping and starts with "Format:" is skipped. */
  lemma FormatLineSkipped(st: Reader, line: string, readers: NumberReaders)
    requires Stripped(line) && |line| >= 7 && line[..7] == FormatPrefix
    ensures ReadLine(st, line, readers) == Ok(st)
  {
    var low := Lower(line);
    assert StartsWith(low, "format:") by {
      LowerFormatPrefix();
      LowerPrefix(line, 7);
    }
    assert !IsHeader(low) by {
      assert line[6] == FormatPrefix[6] == ':';
      ColonIsNoHeader(line, 6);
    }
    StripStripped(line);
  }

  lemma LowerFormatPrefix()
    ensures Lower(FormatPrefix) == "format:"
  {
    var low := Lower(FormatPrefix);
    assert |low| == 7;
    assert low[0] == 'f' && low[1] == 'o' && low[2] == 'r' && low[3] == 'm';
    assert low[4] == 'a' && low[5] == 't' && low[6] == ':';
  }

  /** A section header only switches the section. */
  lemma HeaderRead(st: Reader, header: string, section: Section, readers: NumberReaders)
    requires header == InfoHeader || header == StylesHeader || header == EventsHeader
    requires section == (if header == InfoHeader then InfoSection
                         else if header == StylesHeader then StylesSection else EventsSection)
    ensures ReadLine(st, header, readers) == Ok(st.(section := section))
  {
    if header == InfoHeader {
      InfoHeaderRead(st, readers);
    } else if header == StylesHeader {
      StylesHeaderRead(st, readers);
    } else {
      EventsHeaderRead(st, readers);
    }
  }

  lemma InfoHeaderRead(st: Reader, readers: NumberReaders)
    ensures ReadLine(st, InfoHeader, readers) == Ok(st.(section := InfoSection))
  {
    assert Lower(InfoHeader) == "[script info]" by {
      LowerInfoHeader();
    }
    assert Strip(InfoHeader) == InfoHeader by {
      StripStripped(InfoHeader);
    }
  }

  lemma StylesHeaderRead(st: Reader, readers: NumberReaders)
    ensures ReadLine(st, StylesHeader, readers) == Ok(st.(section := StylesSection))
  {
    assert Lower(StylesHeader) == "[v4+ styles]" by {
      LowerStylesHeader();
    }
    assert Strip(StylesHeader) == StylesHeader by {
      StripStripped(StylesHeader);
    }
  }

  lemma EventsHeaderRead(st: Reader, readers: NumberReaders)
    ensures ReadLine(st, EventsHeader, readers) == Ok(st.(section := EventsSection))
  {
    assert Lower(EventsHeader) == "[events]" by {
      LowerEventsHeader();
    }
    assert Strip(EventsHeader) == EventsHeader by {
      StripStripped(EventsHeader);
    }
  }

  lemma LowerInfoHeader()
    ensures Lower(InfoHeader) == "[script info]"
  {
  }

  lemma LowerStylesHeader()
    ensures Lower(StylesHeader) == "[v4+ styles]"
  {
  }

  lemma LowerEventsHeader()
    ensures Lower(EventsHeader) == "[events]"
  {
  }

  lemma BlankRead(st: Reader, readers: NumberReaders)
    ensures ReadLine(st, "", readers) == Ok(st)
  {
  }

  /** A Format line with its column list after the prefix is skipped. */
  lemma ColumnsSkipped(st: Reader, columns: string, readers: NumberReaders)
    requires columns != [] && !IsSpace(columns[|columns| - 1])
    ensures ReadLine(st, FormatPrefix + columns, readers) == Ok(st)
  {
    var line := FormatPrefix + columns;
    assert line[..7] == FormatPrefix;
    assert line[0] == 'F' && line[|line| - 1] == columns[|columns| - 1];
    FormatLineSkipped(st, line, readers);
  }

  lemma FormatLinesRead(st: Reader, readers: NumberReaders)
    ensures ReadLine(st, StylesFormat, readers) == Ok(st)
    ensures ReadLine(st, EventsFormat, readers) == Ok(st)
  {
    assert StylesColumns[|StylesColumns| - 1] == 'g';
    ColumnsSkipped(st, StylesColumns, readers);
    assert EventsColumns[|EventsColumns| - 1] == 't';
    ColumnsSkipped(st, EventsColumns, readers);
  }

  /** A script-info line is kept as it is. */
  lemma InfoLineReads(st: Reader, x: string)
    requires st.section == InfoSection && InfoLine(x)
    ensures ReadLine(st, x, PlainReaders) == Ok(st.(doc := st.doc.(scriptInfo := st.doc.scriptInfo + [x])))
  {
    ReadLineAddsStripped(st, x, PlainReaders);
  }

  lemma {:induction false} RunInfo(st: Reader, info: seq<string>)
    requires st.section == InfoSection
    requires forall i :: 0 <= i < |info| ==> InfoLine(info[i])
    ensures Run(st, info, PlainReaders) == Ok(st.(doc := st.doc.(scriptInfo := st.doc.scriptInfo + info)))
    decreases |info|
  {
    if info == [] {
      assert st.doc.scriptInfo + info == st.doc.scriptInfo;
    } else {
      var x, rest := info[0], info[1..];
      var next := st.(doc := st.doc.(scriptInfo := st.doc.scriptInfo + [x]));
      var final := Ok(next.(doc := next.doc.(scriptInfo := next.doc.scriptInfo + rest)));
      InfoLineReads(st, x);
      RunInfo(next, rest);
      RunFirst(st, info, next, final, PlainReaders);
      assert next.doc.scriptInfo + rest == st.doc.scriptInfo + info by {
        ConsAppend(st.doc.scriptInfo, info);
      }
    }
  }

  /** Storing under a name not yet in the dictionary appends. */
  lemma {:induction false} PutFresh(styles: seq<AssStyle>, style: AssStyle)
    requires forall i :: 0 <= i < |styles| ==> styles[i].name != style.name
    ensures Put(styles, style) == styles + [style]
    decreases |styles|
  {
    if styles != [] {
      PutFresh(styles[1..], style);
      assert styles == [styles[0]] + styles[1..];
    }
  }

  lemma StyleLineReads(st: Reader, style: AssStyle)
    requires st.section == StylesSection && WritableStyle(style)
    ensures ReadLine(st, StyleLine(style), PlainReaders) == Ok(st.(doc := st.doc.(styles := Put(st.doc.styles, style))))
  {
    var line := StyleLine(style);
    assert line == "Style: " + style.name + "," + style.definition;
    assert Stripped(line) by {
      if style.definition != [] {
        assert line[|line| - 1] == style.definition[|style.definition| - 1];
      } else {
        assert line[|line| - 1] == ',';
      }
    }
    assert !IsHeader(Lower(line)) by {
      ColonIsNoHeader(line, 5);
    }
    assert !StartsWith(Lower(line), "format:") by {
      assert Lower(line)[0] == 's';
    }
    ReadLineAddsStripped(st, line, PlainReaders);
    StyleRoundTrip(style);
  }

  lemma {:induction false} RunStyles(st: Reader, styles: seq<AssStyle>)
    requires st.section == StylesSection
    requires forall i :: 0 <= i < |styles| ==> WritableStyle(styles[i])
    requires UniqueNames(st.doc.styles + styles)
    ensures Run(st, StyleLines(styles), PlainReaders) == Ok(st.(doc := st.doc.(styles := st.doc.styles + styles)))
    decreases |styles|
  {
    var acc := st.doc.styles;
    if styles == [] {
      assert acc + styles == acc;
    } else {
      var all := acc + styles;
      assert acc + [styles[0]] + styles[1..] == all;
      assert Put(acc, styles[0]) == acc + [styles[0]] by {
        forall i | 0 <= i < |acc|
          ensures acc[i].name != styles[0].name
        {
          assert all[i] == acc[i] && all[|acc|] == styles[0];
        }
        PutFresh(acc, styles[0]);
      }
      var next := st.(doc := st.doc.(styles := acc + [styles[0]]));
      assert ReadLine(st, StyleLine(styles[0]), PlainReaders) == Ok(next) by {
        StyleLineReads(st, styles[0]);
      }
      var final := Ok(st.(doc := st.doc.(styles := all)));
      assert Run(next, StyleLines(styles[1..]), PlainReaders) == final by {
        RunStyles(next, styles[1..]);
      }
      RunStep(st, StyleLine(styles[0]), StyleLines(styles[1..]), next, final, PlainReaders);
    }
  }

  /** An event line is not a Format line unless its kind is "format". */
  lemma EventIsNoFormat(kind: string, rest: string)
    requires ':' !in kind && Lower(kind) != "format"
    ensures !StartsWith(Lower(kind + ": " + rest), "format:")
  {
    var line := kind + ": " + rest;
    var low := Lower(line);
    var f := "format:";
    if |low| >= 7 {
      if |kind| < 6 {
        assert low[|kind|] == ':' && f[|kind|] != ':';
        assert low[..7][|kind|] != f[|kind|];
      } else if |kind| > 6 {
        assert line[6] == kind[6];
        assert low[6] != ':';
        assert low[..7][6] != f[6];
      } else {
        assert line[..6] == kind;
        LowerPrefix(line, 6);
        assert low[..6] != f[..6];
        assert low[..7][..6] == low[..6];
      }
    }
  }

  /** A line made of a kind, a colon and fields ends where its last field
      does. */
  lemma KindLineStripped(kind: string, f: seq<string>)
    requires |f| == 10 && Stripped(f[9]) && (kind == [] || !IsSpace(kind[0]))
    ensures Stripped(kind + ": " + Join(f, ","))
  {
    var body := Join(f, ",");
    var line := kind + ": " + body;
    JoinLast(f, ",");
    assert f[..9] + [f[9]] == f;
    assert body[|body| - 1] == (if f[9] == [] then ',' else f[9][|f[9]| - 1]);
    assert line[|line| - 1] == body[|body| - 1];
    assert line[0] == (if kind == [] then ':' else kind[0]);
  }

  /** An event line of a writable event is none of the lines the reading
      loop treats specially. */
  lemma EventLineShape(e: AssEvent)
    requires WritableEvent(e)
    ensures var line := EventText(e);
      line != [] && Stripped(line) && !IsHeader(Lower(line)) && !StartsWith(Lower(line), "format:")
  {
    var f := EventFields(e);
    var body := Join(f, ",");
    var line := EventText(e);
    assert line == e.kind + ": " + body;
    assert Stripped(line) by {
      assert Stripped(f[9]);
      KindLineStripped(e.kind, f);
    }
    assert !IsHeader(Lower(line)) by {
      ColonIsNoHeader(line, |e.kind|);
    }
    assert !StartsWith(Lower(line), "format:") by {
      EventIsNoFormat(e.kind, body);
    }
  }

  /** A writable event's text reads back as the event. */
  lemma WritableEventReads(e: AssEvent)
    requires WritableEvent(e)
    ensures EventFromText(EventText(e), PlainReaders) == Ok(e)
  {
    OnGridCentiseconds(e.start);
    OnGridCentiseconds(e.end);
    EventRoundTrip(e, (e.start * 100.0).Floor, (e.end * 100.0).Floor);
  }

  lemma EventLineReads(st: Reader, e: AssEvent)
    requires st.section == EventsSection && WritableEvent(e)
    ensures ReadLine(st, EventText(e), PlainReaders) == Ok(st.(doc := st.doc.(events := st.doc.events + [e])))
  {
    WritableEventReads(e);
    EventLineShape(e);
    ReadLineAddsStripped(st, EventText(e), PlainReaders);
  }

  lemma {:induction false} RunEvents(st: Reader, events: seq<AssEvent>)
    requires st.section == EventsSection
    requires forall i :: 0 <= i < |events| ==> WritableEvent(events[i])
    ensures Run(st, EventLines(events), PlainReaders) == Ok(st.(doc := st.doc.(events := st.doc.events + events)))
    decreases |events|
  {
    if events == [] {
      assert st.doc.events + events == st.doc.events;
    } else {
      assert st.doc.events + [events[0]] + events[1..] == st.doc.events + events;
      var next := st.(doc := st.doc.(events := st.doc.events + [events[0]]));
      assert ReadLine(st, EventText(events[0]), PlainReaders) == Ok(next) by {
        EventLineReads(st, events[0]);
      }
      var final := Ok(st.(doc := st.doc.(events := st.doc.events + events)));
      assert Run(next, EventLines(events[1..]), PlainReaders) == final by {
        RunEvents(next, events[1..]);
      }
      RunStep(st, EventText(events[0]), EventLines(events[1..]), next, final, PlainReaders);
    }
  }

  /** Two lines read one after the other. */
  lemma RunTwo(st: Reader, x: string, y: string, mid: Reader, last: Reader, readers: NumberReaders)
    requires ReadLine(st, x, readers) == Ok(mid) && ReadLine(mid, y, readers) == Ok(last)
    ensures Run(st, [x, y], readers) == Ok(last)
  {
    RunCons(mid, y, [], readers);
    assert [y] + [] == [y];
    RunCons(st, x, [y], readers);
    assert [x] + [y] == [x, y];
  }

  /** Lines read in three parts, the last leaving the reader as it is. */
  lemma RunFramed(st: Reader, pre: seq<string>, body: seq<string>, post: seq<string>,
                  s: Reader, s1: Reader, readers: NumberReaders)
    requires Run(st, pre, readers) == Ok(s) && Run(s, body, readers) == Ok(s1)
    requires Run(s1, post, readers) == Ok(s1)
    ensures Run(st, pre + (body + post), readers) == Ok(s1)
  {
    RunThen(s, body, post, s1, Ok(s1), readers);
    RunThen(st, pre, body + post, s, Ok(s1), readers);
  }

  /** A single line read on its own. */
  lemma RunSingle(st: Reader, x: string, next: Reader, readers: NumberReaders)
    requires ReadLine(st, x, readers) == Ok(next)
    ensures Run(st, [x], readers) == Ok(next)
  {
    RunStep(st, x, [], next, Ok(next), readers);
    assert [x] + [] == [x];
  }

  lemma InfoPartRead(st: Reader, doc: ScriptDoc)
    requires st.doc == ScriptDoc([], [], []) && Writable(doc)
    ensures Run(st, InfoPart(doc), PlainReaders)
         == Ok(if doc.scriptInfo != [] then Reader(InfoSection, ScriptDoc(doc.scriptInfo, [], [])) else st)
  {
    if doc.scriptInfo != [] {
      var r := PlainReaders;
      var s := st.(section := InfoSection);
      var s1 := Reader(InfoSection, ScriptDoc(doc.scriptInfo, [], []));
      assert Run(st, [InfoHeader], r) == Ok(s) by {
        HeaderRead(st, InfoHeader, InfoSection, r);
        RunSingle(st, InfoHeader, s, r);
      }
      assert Run(s, doc.scriptInfo, r) == Ok(s1) by {
        RunInfo(s, doc.scriptInfo);
        assert [] + doc.scriptInfo == doc.scriptInfo;
      }
      RunBlank(s1, r);
      RunFramed(st, [InfoHeader], doc.scriptInfo, [""], s, s1, r);
    }
  }

  lemma StylesPartRead(st: Reader, doc: ScriptDoc)
    requires st.doc == ScriptDoc(doc.scriptInfo, [], []) && Writable(doc)
    ensures Run(st, StylesPart(doc), PlainReaders)
         == Ok(if doc.styles != [] then Reader(StylesSection, ScriptDoc(doc.scriptInfo, doc.styles, []))
               else st)
  {
    if doc.styles != [] {
      var r := PlainReaders;
      var s := st.(section := StylesSection);
      var s2 := Reader(StylesSection, ScriptDoc(doc.scriptInfo, doc.styles, []));
      assert Run(st, [StylesHeader, StylesFormat], r) == Ok(s) by {
        HeaderRead(st, StylesHeader, StylesSection, r);
        FormatLinesRead(s, r);
        RunTwo(st, StylesHeader, StylesFormat, s, s, r);
      }
      assert Run(s, StyleLines(doc.styles), r) == Ok(s2) by {
        RunStyles(s, doc.styles);
        assert [] + doc.styles == doc.styles;
      }
      RunBlank(s2, r);
      RunFramed(st, [StylesHeader, StylesFormat], StyleLines(doc.styles), [""], s, s2, r);
    }
  }

  lemma EventsPartRead(st: Reader, doc: ScriptDoc)
    requires st.doc == ScriptDoc(doc.scriptInfo, doc.styles, []) && Writable(doc)
    ensures Run(st, EventsPart(doc), PlainReaders)
         == Ok(if doc.events != [] then Reader(EventsSection, doc) else st)
  {
    if doc.events != [] {
      var r := PlainReaders;
      var s := st.(section := EventsSection);
      assert [] + doc.events == doc.events;
      assert Run(s, EventLines(doc.events), r) == Ok(Reader(EventsSection, doc)) by {
        RunEvents(s, doc.events);
      }
      assert Run(st, [EventsHeader, EventsFormat], r) == Ok(s) by {
        HeaderRead(st, EventsHeader, EventsSection, r);
        FormatLinesRead(s, r);
        RunTwo(st, EventsHeader, EventsFormat, s, s, r);
      }
      RunAppend(st, [EventsHeader, EventsFormat], EventLines(doc.events), r);
    }
  }

  /** Lines read in three parts and a closing blank line. */
  lemma RunParts(st0: Reader, a: seq<string>, b: seq<string>, c: seq<string>,
                 st1: Reader, st2: Reader, st3: Reader, readers: NumberReaders)
    requires Run(st0, a, readers) == Ok(st1) && Run(st1, b, readers) == Ok(st2)
    requires Run(st2, c, readers) == Ok(st3) && Run(st3, [""], readers) == Ok(st3)
    ensures Run(st0, a + (b + (c + [""])), readers) == Ok(st3)
  {
    RunThen(st2, c, [""], st3, Ok(st3), readers);
    RunThen(st1, b, c + [""], st2, Ok(st3), readers);
    RunThen(st0, a, b + (c + [""]), st1, Ok(st3), readers);
  }

  /** A blank line read on its own changes nothing. */
  lemma RunBlank(st: Reader, readers: NumberReaders)
    ensures Run(st, [""], readers) == Ok(st)
  {
    BlankRead(st, readers);
    RunStep(st, "", [], st, Ok(st), readers);
    assert [""] + [] == [""];
  }

  /** The written lines, part by part. */
  lemma AssLinesParts(doc: ScriptDoc)
    ensures AssLinesOf(doc) == InfoPart(doc) + (StylesPart(doc) + (EventsPart(doc) + [""]))
  {
    var x, y, z := InfoPart(doc), StylesPart(doc), EventsPart(doc);
    assert x + y + z + [""] == x + (y + (z + [""]));
  }

  /** A run from the empty script that ends in `st` parses to its document. */
  lemma ParseAssRun(lines: seq<string>, st: Reader, readers: NumberReaders)
    requires Run(Reader(NoSection, EmptyDoc), lines, readers) == Ok(st)
    ensures ParseAss(lines, readers) == Ok(st.doc)
  {
  }

  /** A script whose lines are all writable reads back from the lines
      to_ass_stream writes for it. */
  lemma AssRoundTrip(doc: ScriptDoc)
    requires Writable(doc)
    ensures ParseAss(AssLinesOf(doc), PlainReaders) == Ok(doc)
  {
    var r := PlainReaders;
    var st0 := Reader(NoSection, EmptyDoc);
    var st1 := if doc.scriptInfo != [] then Reader(InfoSection, ScriptDoc(doc.scriptInfo, [], [])) else st0;
    var st2 := if doc.styles != [] then Reader(StylesSection, ScriptDoc(doc.scriptInfo, doc.styles, [])) else st1;
    var st3 := if doc.events != [] then Reader(EventsSection, doc) else st2;
    InfoPartRead(st0, doc);
    StylesPartRead(st1, doc);
    EventsPartRead(st2, doc);
    RunBlank(st3, r);
    RunParts(st0, InfoPart(doc), StylesPart(doc), EventsPart(doc), st1, st2, st3, r);
    AssLinesParts(doc);
    ParseAssRun(AssLinesOf(doc), st3, r);
  }
}
