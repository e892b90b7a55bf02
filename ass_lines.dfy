// The two kinds of ASS script lines the tools read and write (subs.py:23-99):
// style lines "Style: name,definition" and event lines
// "Kind: layer,start,end,style,actor,marginL,marginR,marginV,effect,text".

module AssLines {

  import opened Common
  import opened PyStr
  import opened Decimal
  import opened AssTime

  /** A style: its name and the rest of its line, kept as text. */
  datatype AssStyle = AssStyle(name: string, definition: string)

  /** AssStyle.from_string(text) (subs.py:29-31): the name runs from the
      first ':' to the next ',', the definition is everything after it. */
  function StyleFromString(text: string): (r: Result<AssStyle>)
    ensures r.Err? ==> r.error == IndexError
    ensures r.Ok? ==> Stripped(r.value.name) && Stripped(r.value.definition)
  {
    var afterColon := SplitN(text, ":", 1);
    if |afterColon| < 2 then Err(IndexError)
    else
      var split := SplitN(afterColon[1], ",", 1);
      if |split| < 2 then Err(IndexError)
      else
        StripIsStripped(split[0]);
        StripIsStripped(split[1]);
        Ok(AssStyle(Strip(split[0]), Strip(split[1])))
  }

  /** The line to_ass_stream writes for a style (subs.py:182). */
  function StyleLine(style: AssStyle): string {
    "Style: " + style.name + "," + style.definition
  }

  lemma StripIsStripped(s: string)
    ensures Stripped(Strip(s))
  {
  }

  /** A style whose name has no comma and whose fields carry no outer spaces
      reads back from the line written for it. */
  lemma StyleRoundTrip(style: AssStyle)
    requires ',' !in style.name && Stripped(style.name) && Stripped(style.definition)
    ensures StyleFromString(StyleLine(style)) == Ok(style)
  {
    var rest := " " + style.name + "," + style.definition;
    assert StyleLine(style) == "Style" + [':'] + rest;
    SplitOnceAt("Style", ':', rest);
    assert rest == " " + style.name + [','] + style.definition;
    assert ',' !in " " + style.name;
    SplitOnceAt(" " + style.name, ',', style.definition);
    StripAfterSpace(style.name);
    StripStripped(style.definition);
  }

  /** An event line. Margins stay text, as from_text leaves them; the
      constructor's integer 0 defaults are the text "0". */
  datatype AssEvent = AssEvent(
    kind: string,
    layer: int,
    start: real,
    end: real,
    style: string,
    actor: string,
    marginLeft: string,
    marginRight: string,
    marginVertical: string,
    effect: string,
    text: string)

  /** AssEvent(start, end, text) with the defaults of subs.py:49-50. */
  function NewEvent(start: real, end: real, text: string): (e: AssEvent)
    ensures e.start == start && e.end == end && e.text == text
    ensures e.kind == "Dialogue" && e.layer == 0 && e.style == "Default"
    ensures e.actor == "" && e.effect == ""
  {
    AssEvent("Dialogue", 0, start, end, "Default", "", "0", "0", "0", "", text)
  }

  function StripAll(parts: seq<string>): (r: seq<string>)
    ensures |r| == |parts|
    ensures forall i :: 0 <= i < |parts| ==> r[i] == Strip(parts[i]) && Stripped(r[i])
  {
    seq(|parts|, i requires 0 <= i < |parts| => StripIsStripped(parts[i]); Strip(parts[i]))
  }

  /** AssEvent.from_text(text) (subs.py:63-81): the kind is everything before
      the first ':', the rest is cut at the first nine commas and stripped.
      Fields are evaluated left to right, so a bad layer or time is reported
      before a missing later field. */
  function EventFromText(line: string, readers: NumberReaders): (r: Result<AssEvent>)
    ensures r.Err? ==> r.error == IndexError || r.error == ValueError
    ensures r.Ok? ==> ':' !in r.value.kind && StartsWith(line, r.value.kind + ":")
    ensures r.Ok? ==> var e := r.value;
      && Stripped(e.style) && Stripped(e.actor) && Stripped(e.marginLeft) && Stripped(e.marginRight)
      && Stripped(e.marginVertical) && Stripped(e.effect) && Stripped(e.text)
  {
    var split := SplitN(line, ":", 1);
    if |split| < 2 then Err(IndexError)
    else
      var fields := StripAll(SplitN(split[1], ",", 9));
      var layer :- if readers.readInt(fields[0]).Some? then Ok(readers.readInt(fields[0]).value) else Err(ValueError);
      var start :- if |fields| < 2 then Err(IndexError) else ParseAssTime(fields[1], readers);
      var end :- if |fields| < 3 then Err(IndexError) else ParseAssTime(fields[2], readers);
      if |fields| < 10 then Err(IndexError)
      else
        KindBeforeColon(line);
        Ok(AssEvent(split[0], layer, start, end, fields[3], fields[4], fields[5], fields[6], fields[7], fields[8], fields[9]))
  }

  /** What split(':', 1) puts first is the text before the first colon. */
  lemma KindBeforeColon(line: string)
    requires |SplitN(line, ":", 1)| >= 2
    ensures ':' !in SplitN(line, ":", 1)[0]
    ensures StartsWith(line, SplitN(line, ":", 1)[0] + ":")
  {
    var f := Find(line, ":");
    var i := f.value;
    assert SplitN(line, ":", 1)[0] == line[..i];
    forall j | 0 <= j < i
      ensures line[j] != ':'
    {
      assert !Occurs(line, ":", j);
      assert line[j..j + 1] == [line[j]];
    }
    assert line[..i + 1] == line[..i] + line[i..i + 1];
  }

  /** The ten comma-separated fields __unicode__ writes after the kind. */
  function EventFields(e: AssEvent): seq<string> {
    [IntToDecimal(e.layer), FormatTime(e.start), FormatTime(e.end), e.style, e.actor,
     e.marginLeft, e.marginRight, e.marginVertical, e.effect, e.text]
  }

  /** AssEvent.__unicode__ (subs.py:83-90) */
  function EventText(e: AssEvent): string {
    e.kind + ": " + Join(EventFields(e), ",")
  }

  /** is_comment (subs.py:92-94) */
  predicate IsComment(e: AssEvent) {
    Lower(e.kind) == "comment"
  }

  /** collides_with (subs.py:96-99) */
  predicate CollidesWith(a: AssEvent, b: AssEvent) {
    if a.start < b.start then a.end > b.start else a.start < b.end
  }

  /** For events that last, colliding is overlapping as half-open intervals,
      and so it does not depend on the order of the two. */
  lemma CollidesIsOverlap(a: AssEvent, b: AssEvent)
    requires a.start < a.end && b.start < b.end
    ensures CollidesWith(a, b) <==> a.start < b.end && b.start < a.end
    ensures CollidesWith(a, b) <==> CollidesWith(b, a)
  {
  }

  /** A zero-length event at the start of another collides with it, but not
      the other way round. */
  lemma CollidesAsymmetricAtZeroLength()
    ensures var a := NewEvent(1.0, 1.0, ""); var b := NewEvent(1.0, 2.0, "");
      CollidesWith(a, b) && !CollidesWith(b, a)
  {
  }

  lemma FormatTimeShape(cs: int)
    ensures Stripped(FormatCentiseconds(cs)) && ',' !in FormatCentiseconds(cs)
  {
    var c := SplitCentiseconds(cs);
    var h := IntToDecimal(c.hours);
    DecimalShape(c.hours);
    var s := FormatCentiseconds(cs);
    var last := Pad2(c.centiseconds);
    assert s[|s| - 1] == last[1];
    assert s[0] == h[0];
    assert forall j :: 0 <= j < |s| ==> s[j] == ':' || s[j] == '.' || s[j] == '-' || IsDigit(s[j]);
  }

  lemma DecimalShape(n: int)
    ensures var s := IntToDecimal(n);
      && s != [] && Stripped(s) && ',' !in s
      && forall j :: 0 <= j < |s| ==> s[j] == '-' || IsDigit(s[j])
  {
    var d := NatDigits(if n < 0 then -n else n);
    assert IsDigit(d[|d| - 1]);
  }

  /** Ten fields written after ": " split back at the first nine commas,
      with the space in front of the first. */
  lemma FieldsSplit(f: seq<string>)
    requires |f| == 10
    requires forall k :: 0 <= k < 9 ==> ',' !in f[k]
    ensures SplitN(" " + Join(f, ","), ",", 9) == [" " + f[0]] + f[1..]
  {
    var parts := [" " + f[0]] + f[1..];
    JoinPrefixFirst(" ", f, [',']);
    forall k | 0 <= k < |parts| - 1
      ensures ',' !in parts[k]
    {
      if k > 0 {
        assert parts[k] == f[k];
      }
    }
    JoinSplitN(parts, ',', 9);
  }

  /** Stripping the split fields takes off only that space. */
  lemma FieldsStrip(f: seq<string>)
    requires |f| == 10 && f[0] != []
    requires forall k :: 0 <= k < 10 ==> Stripped(f[k])
    ensures StripAll([" " + f[0]] + f[1..]) == f
  {
    var fields := StripAll([" " + f[0]] + f[1..]);
    StripAfterSpace(f[0]);
    forall k | 1 <= k < 10
      ensures fields[k] == f[k]
    {
      StripStripped(f[k]);
    }
  }

  /** A time on the centisecond grid is written without commas or outer spaces. */
  lemma TimeFieldShape(t: real, cs: int)
    requires t == GridTime(cs)
    ensures FormatTime(t) == FormatCentiseconds(cs)
    ensures Stripped(FormatTime(t)) && ',' !in FormatTime(t)
  {
    FormatTimeOnGrid(cs);
    FormatTimeShape(cs);
  }

  /** Ten fields that survive the comma split and the strip: no commas
      but in the last, no outer spaces, and a non-empty first. */
  predicate LineFields(f: seq<string>) {
    && |f| == 10 && f[0] != []
    && (forall k :: 0 <= k < 9 ==> ',' !in f[k])
    && (forall k :: 0 <= k < 10 ==> Stripped(f[k]))
  }

  /** A line "kind: f0,...,f9" reads back field by field. */
  lemma ReadWrittenLine(kind: string, f: seq<string>, layer: int, start: real, end: real)
    requires ':' !in kind
    requires LineFields(f)
    requires PlainInt(f[0]) == Some(layer)
    requires ParseAssTime(f[1], PlainReaders) == Ok(start) && ParseAssTime(f[2], PlainReaders) == Ok(end)
    ensures EventFromText(kind + ": " + Join(f, ","), PlainReaders)
         == Ok(AssEvent(kind, layer, start, end, f[3], f[4], f[5], f[6], f[7], f[8], f[9]))
  {
    var rest := " " + Join(f, ",");
    var line := kind + ": " + Join(f, ",");
    assert line == kind + [':'] + rest;
    SplitOnceAt(kind, ':', rest);
    FieldsSplit(f);
    FieldsStrip(f);
  }

  /** A time on the centisecond grid reads back from what format_time wrote. */
  lemma TimeReadsBack(t: real, cs: int)
    requires t == GridTime(cs)
    ensures ParseAssTime(FormatTime(t), PlainReaders) == Ok(t)
  {
    assert FormatTime(t) == FormatCentiseconds(cs) by {
      FormatTimeOnGrid(cs);
    }
    FormatCentisecondsRoundTrip(cs);
  }

  /** Three leading fields without commas or outer spaces, and a non-empty
      first, ahead of seven that pass, make fields that survive the split. */
  lemma LeadingFields(a: string, b: string, c: string, rest: seq<string>)
    requires a != [] && Stripped(a) && Stripped(b) && Stripped(c)
    requires ',' !in a && ',' !in b && ',' !in c
    requires |rest| == 7
    requires forall k :: 0 <= k < 6 ==> ',' !in rest[k]
    requires forall k :: 0 <= k < 7 ==> Stripped(rest[k])
    ensures LineFields([a, b, c] + rest)
  {
    var f := [a, b, c] + rest;
    forall k | 3 <= k < 10
      ensures f[k] == rest[k - 3]
    {
    }
  }

  /** The written fields of such an event meet what ReadWrittenLine asks. */
  lemma WrittenFields(e: AssEvent, startCs: int, endCs: int)
    requires e.start == GridTime(startCs) && e.end == GridTime(endCs)
    requires forall k :: 3 <= k < 9 ==> ',' !in EventFields(e)[k]
    requires forall k :: 3 <= k < 10 ==> Stripped(EventFields(e)[k])
    ensures LineFields(EventFields(e))
  {
    var f := EventFields(e);
    var a, b, c, rest := IntToDecimal(e.layer), FormatTime(e.start), FormatTime(e.end), f[3..];
    assert f == [a, b, c] + rest;
    assert a != [] && Stripped(a) && ',' !in a by {
      DecimalShape(e.layer);
    }
    assert Stripped(b) && ',' !in b by {
      TimeFieldShape(e.start, startCs);
    }
    assert Stripped(c) && ',' !in c by {
      TimeFieldShape(e.end, endCs);
    }
    forall k | 0 <= k < 7
      ensures Stripped(rest[k]) && (k < 6 ==> ',' !in rest[k])
    {
      assert rest[k] == f[k + 3];
    }
    LeadingFields(a, b, c, rest);
  }

  /** The written fields of such an event read back as its layer and times. */
  lemma WrittenFieldsRead(e: AssEvent, startCs: int, endCs: int)
    requires e.start == GridTime(startCs) && e.end == GridTime(endCs)
    ensures var f := EventFields(e);
      && PlainInt(f[0]) == Some(e.layer)
      && ParseAssTime(f[1], PlainReaders) == Ok(e.start)
      && ParseAssTime(f[2], PlainReaders) == Ok(e.end)
  {
    var f := EventFields(e);
    assert f[0] == IntToDecimal(e.layer) && f[1] == FormatTime(e.start) && f[2] == FormatTime(e.end);
    IntToDecimalRoundTrip(e.layer);
    TimeReadsBack(e.start, startCs);
    TimeReadsBack(e.end, endCs);
  }

  /** An event whose kind has no colon, whose times lie on the centisecond
      grid and whose text fields carry no outer spaces (and, but for the
      last, no commas) reads back from the line written for it. */
  lemma EventRoundTrip(e: AssEvent, startCs: int, endCs: int)
    requires ':' !in e.kind
    requires e.start == GridTime(startCs) && e.end == GridTime(endCs)
    requires forall k :: 3 <= k < 9 ==> ',' !in EventFields(e)[k]
    requires forall k :: 3 <= k < 10 ==> Stripped(EventFields(e)[k])
    ensures EventFromText(EventText(e), PlainReaders) == Ok(e)
  {
    var f := EventFields(e);
    WrittenFields(e, startCs, endCs);
    WrittenFieldsRead(e, startCs, endCs);
    ReadWrittenLine(e.kind, f, e.layer, e.start, e.end);
    assert EventText(e) == e.kind + ": " + Join(f, ",");
  }
}
