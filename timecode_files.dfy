// Reading timecode files (tools.py:58-88): the v2 format lists one frame
// time in milliseconds per line; the v1 format gives a default frame rate
// and "start,end,fps" ranges that `_convert_v1_to_v2` expands into a v2 table.

module TimecodeParse {

  import opened Common
  import opened PyStr
  import opened Timecodes
  import opened Decimal

  /** One "start,end,fps" line of a v1 file: frames start..end inclusive run at fps. */
  datatype Override = Override(start: int, end: int, fps: real)

  /** [x] * n */
  function Repeat<T>(x: T, n: int): (r: seq<T>)
    ensures |r| == if n > 0 then n else 0
    ensures forall i :: 0 <= i < |r| ==> r[i] == x
    decreases n
  {
    if n <= 0 then [] else [x] + Repeat(x, n - 1)
  }

  /** How Python resolves a slice bound against a list of length len. */
  function SliceBound(i: int, len: nat): (k: nat)
    ensures k <= len
    ensures 0 <= i <= len ==> k == i
  {
    if i < 0 then (if i + len < 0 then 0 else i + len)
    else if i > len then len
    else i
  }

  /** a[lo:hi] = b */
  function SliceAssign<T>(a: seq<T>, lo: int, hi: int, b: seq<T>): seq<T> {
    var l := SliceBound(lo, |a|);
    var h := SliceBound(hi, |a|);
    a[..l] + b + a[if h < l then l else h..]
  }

  /** fps[o.start:o.end + 1] = [o.fps] * (o.end - o.start + 1) */
  function OverrideOnce(fps: seq<real>, o: Override): seq<real> {
    SliceAssign(fps, o.start, o.end + 1, Repeat(o.fps, o.end - o.start + 1))
  }

  /** The overrides applied in order. */
  function ApplyOverrides(fps: seq<real>, overrides: seq<Override>): seq<real>
    decreases |overrides|
  {
    if overrides == [] then fps
    else OverrideOnce(ApplyOverrides(fps, overrides[..|overrides| - 1]), overrides[|overrides| - 1])
  }

  predicate Covers(o: Override, i: int) {
    o.start <= i <= o.end
  }

  /** The rate of frame i: that of the last override covering it, else the default. */
  function RateOf(defaultFps: real, overrides: seq<Override>, i: int): real
    decreases |overrides|
  {
    if overrides == [] then defaultFps
    else if Covers(overrides[|overrides| - 1], i) then overrides[|overrides| - 1].fps
    else RateOf(defaultFps, overrides[..|overrides| - 1], i)
  }

  function LastEnd(overrides: seq<Override>): int
    requires overrides != []
  {
    overrides[|overrides| - 1].end
  }

  /** Ranges of non-negative frames, none ending after the last one. */
  predicate WellFormed(overrides: seq<Override>) {
    && overrides != []
    && forall k :: 0 <= k < |overrides| ==> 0 <= overrides[k].start && 0 <= overrides[k].end <= LastEnd(overrides)
  }

  predicate NoZero(fps: seq<real>) {
    forall i :: 0 <= i < |fps| ==> fps[i] != 0.0
  }

  /** [0] followed by the running sums of 1/fps. */
  function Cumulative(fps: seq<real>): (v: seq<real>)
    requires NoZero(fps)
    ensures |v| == |fps| + 1
    decreases |fps|
  {
    if fps == [] then [0.0]
    else
      var v := Cumulative(fps[..|fps| - 1]);
      v + [v[|v| - 1] + 1.0 / fps[|fps| - 1]]
  }

  /** The table _convert_v1_to_v2 returns, or the error it raises. */
  function V1ToV2(defaultFps: real, overrides: seq<Override>): Result<seq<real>> {
    if overrides == [] then Ok([])
    else
      var fps := ApplyOverrides(Repeat(defaultFps, LastEnd(overrides) + 1), overrides);
      if NoZero(fps) then Ok(Cumulative(fps)) else Err(ZeroDivisionError)
  }

  /** _convert_v1_to_v2 (tools.py:59-72) on overrides already read as numbers:
      the rate list is overwritten range by range, then summed up frame by frame. */
  method ConvertV1ToV2(defaultFps: real, overrides: seq<Override>) returns (r: Result<seq<real>>)
    ensures r == V1ToV2(defaultFps, overrides)
  {
    if overrides == [] {
      return Ok([]);
    }
    var init := Repeat(defaultFps, overrides[|overrides| - 1].end + 1);
    var fps := init;
    var k := 0;
    while k < |overrides|
      invariant 0 <= k <= |overrides|
      invariant fps == ApplyOverrides(init, overrides[..k])
    {
      assert overrides[..k + 1][..k] == overrides[..k];
      fps := OverrideOnce(fps, overrides[k]);
      k := k + 1;
    }
    assert overrides[..k] == overrides;
    var v2 := [0.0];
    var i := 0;
    while i < |fps|
      invariant 0 <= i <= |fps|
      invariant NoZero(fps[..i])
      invariant v2 == Cumulative(fps[..i])
    {
      if fps[i] == 0.0 {
        assert !NoZero(fps);
        return Err(ZeroDivisionError);
      }
      CumulativeSnoc(fps, i);
      v2 := v2 + [v2[|v2| - 1] + 1.0 / fps[i]];
      i := i + 1;
    }
    assert fps[..i] == fps;
    return Ok(v2);
  }

  lemma CumulativeSnoc(fps: seq<real>, i: nat)
    requires i < |fps| && NoZero(fps[..i]) && fps[i] != 0.0
    ensures NoZero(fps[..i + 1])
    ensures Cumulative(fps[..i + 1]) == Cumulative(fps[..i]) + [Cumulative(fps[..i])[i] + 1.0 / fps[i]]
  {
    assert fps[..i + 1][..i] == fps[..i];
  }

  /** One in-range override rewrites exactly the frames it covers. */
  lemma OverrideOnceAt(fps: seq<real>, o: Override)
    requires 0 <= o.start && 0 <= o.end < |fps|
    ensures |OverrideOnce(fps, o)| == |fps|
    ensures forall i :: 0 <= i < |fps| ==> OverrideOnce(fps, o)[i] == if Covers(o, i) then o.fps else fps[i]
  {
    var b := Repeat(o.fps, o.end - o.start + 1);
    var r := OverrideOnce(fps, o);
    if o.start <= o.end {
      assert r == fps[..o.start] + b + fps[o.end + 1..];
    } else {
      var l := SliceBound(o.start, |fps|);
      assert r == fps[..l] + fps[l..];
      assert r == fps;
    }
  }

  /** In-range overrides keep the length and give each frame the rate of the
      last override covering it. */
  lemma {:induction false} ApplyOverridesAt(init: seq<real>, defaultFps: real, overrides: seq<Override>)
    requires forall i :: 0 <= i < |init| ==> init[i] == defaultFps
    requires forall k :: 0 <= k < |overrides| ==> 0 <= overrides[k].start && 0 <= overrides[k].end < |init|
    ensures |ApplyOverrides(init, overrides)| == |init|
    ensures forall i :: 0 <= i < |init| ==> ApplyOverrides(init, overrides)[i] == RateOf(defaultFps, overrides, i)
    decreases |overrides|
  {
    if overrides != [] {
      var front := overrides[..|overrides| - 1];
      ApplyOverridesAt(init, defaultFps, front);
      OverrideOnceAt(ApplyOverrides(init, front), overrides[|overrides| - 1]);
    }
  }

  /** The running sums start at 0 and grow by 1/fps of each frame. */
  lemma {:induction false} CumulativeSteps(fps: seq<real>)
    requires NoZero(fps)
    ensures Cumulative(fps)[0] == 0.0
    ensures forall i :: 0 <= i < |fps| ==> Cumulative(fps)[i + 1] == Cumulative(fps)[i] + 1.0 / fps[i]
    decreases |fps|
  {
    if fps != [] {
      var front := fps[..|fps| - 1];
      CumulativeSteps(front);
      forall i | 0 <= i < |fps|
        ensures Cumulative(fps)[i + 1] == Cumulative(fps)[i] + 1.0 / fps[i]
      {
        if i < |fps| - 1 {
          assert fps[i] == front[i];
        }
      }
    }
  }

  /** With positive rates the running sums strictly increase. */
  lemma CumulativeIncreasing(fps: seq<real>)
    requires forall i :: 0 <= i < |fps| ==> fps[i] > 0.0
    ensures StrictlyIncreasing(Cumulative(fps))
  {
    var v := Cumulative(fps);
    CumulativeSteps(fps);
    forall i, j | 0 <= i < j < |v|
      ensures v[i] < v[j]
    {
      CumulativeGrows(fps, i, j);
    }
  }

  lemma {:induction false} CumulativeGrows(fps: seq<real>, i: nat, j: nat)
    requires forall k :: 0 <= k < |fps| ==> fps[k] > 0.0
    requires i < j <= |fps|
    ensures Cumulative(fps)[i] < Cumulative(fps)[j]
    decreases j - i
  {
    var v := Cumulative(fps);
    CumulativeSteps(fps);
    assert v[j] == v[j - 1] + 1.0 / fps[j - 1];
    assert 1.0 / fps[j - 1] > 0.0;
    if j > i + 1 {
      CumulativeGrows(fps, i, j - 1);
    }
  }

  /** The v2 table of well-formed overrides: one more entry than rates, from
      0, each step 1/fps of the last override covering that frame, else of
      the default; it fails exactly when one of those rates is zero. */
  lemma V1ToV2Table(defaultFps: real, overrides: seq<Override>)
    requires WellFormed(overrides)
    ensures V1ToV2(defaultFps, overrides).Err? <==>
      exists i :: 0 <= i <= LastEnd(overrides) && RateOf(defaultFps, overrides, i) == 0.0
    ensures V1ToV2(defaultFps, overrides).Ok? ==>
      var v := V1ToV2(defaultFps, overrides).value;
      && |v| == LastEnd(overrides) + 2
      && v[0] == 0.0
      && forall i :: 0 <= i <= LastEnd(overrides) ==> v[i + 1] - v[i] == 1.0 / RateOf(defaultFps, overrides, i)
  {
    var init := Repeat(defaultFps, LastEnd(overrides) + 1);
    ApplyOverridesAt(init, defaultFps, overrides);
    var fps := ApplyOverrides(init, overrides);
    if NoZero(fps) {
      CumulativeSteps(fps);
    } else {
      var i :| 0 <= i < |fps| && fps[i] == 0.0;
      assert RateOf(defaultFps, overrides, i) == 0.0;
    }
  }

  /** Positive rates everywhere give a strictly increasing table. */
  lemma V1ToV2Increasing(defaultFps: real, overrides: seq<Override>)
    requires WellFormed(overrides) && defaultFps > 0.0
    requires forall k :: 0 <= k < |overrides| ==> overrides[k].fps > 0.0
    ensures V1ToV2(defaultFps, overrides).Ok?
    ensures StrictlyIncreasing(V1ToV2(defaultFps, overrides).value)
  {
    var init := Repeat(defaultFps, LastEnd(overrides) + 1);
    ApplyOverridesAt(init, defaultFps, overrides);
    var fps := ApplyOverrides(init, overrides);
    forall i | 0 <= i < |fps|
      ensures fps[i] > 0.0
    {
      RatePositive(defaultFps, overrides, i);
    }
    CumulativeIncreasing(fps);
  }

  lemma {:induction false} RatePositive(defaultFps: real, overrides: seq<Override>, i: int)
    requires defaultFps > 0.0
    requires forall k :: 0 <= k < |overrides| ==> overrides[k].fps > 0.0
    ensures RateOf(defaultFps, overrides, i) > 0.0
    decreases |overrides|
  {
    if overrides != [] {
      RatePositive(defaultFps, overrides[..|overrides| - 1], i);
    }
  }

  /** What Timecodes.parse returns: [] for a file without lines, else a table. */
  datatype ParsedTimecodes = EmptyList | Parsed(tc: Timecodes)

  const V2Header := "# timecode format v2"
  const V1Header := "# timecode format v1"

  /** The first line as the format dispatch sees it: lower-cased and
      left-stripped as a byte string. */
  function HeaderKey(line: string): string {
    ByteLStrip(ByteLower(line))
  }

  /** Only ASCII white space is stripped: a first line that starts with a
      control character such as U+001C names neither format. */
  lemma HeaderKeyKeepsControl(line: string)
    requires line != [] && '\U{1C}' <= line[0] <= '\U{1F}'
    ensures !StartsWith(HeaderKey(line), V2Header) && !StartsWith(HeaderKey(line), V1Header)
  {
    var low := ByteLower(line);
    assert low[0] == line[0];
    assert HeaderKey(line) == low;
  }

  /** [float(x) / 1000.0 for x in lines] */
  function ReadV2Times(lines: seq<string>, readers: NumberReaders): (r: Result<seq<real>>)
    ensures r.Ok? ==> |r.value| == |lines|
    ensures r.Ok? <==> forall k :: 0 <= k < |lines| ==> readers.readFloat(lines[k]).Some?
    ensures r.Ok? ==> forall k :: 0 <= k < |lines| ==> r.value[k] == readers.readFloat(lines[k]).value / 1000.0
    ensures r.Err? ==> r.error == ValueError
    decreases |lines|
  {
    if lines == [] then Ok([])
    else match readers.readFloat(lines[0])
      case None => Err(ValueError)
      case Some(x) =>
        var rest :- ReadV2Times(lines[1..], readers);
        Ok([x / 1000.0] + rest)
  }

  /** (int(x[0]), int(x[1]), float(x[2])) for x = line.split(','), left to right. */
  function ReadOverride(line: string, readers: NumberReaders): Result<Override> {
    var x := Split(line, ",");
    var start :- if readers.readInt(x[0]).Some? then Ok(readers.readInt(x[0]).value) else Err(ValueError);
    var end :- if |x| < 2 then Err(IndexError)
               else if readers.readInt(x[1]).Some? then Ok(readers.readInt(x[1]).value) else Err(ValueError);
    var fps :- if |x| < 3 then Err(IndexError)
               else if readers.readFloat(x[2]).Some? then Ok(readers.readFloat(x[2]).value) else Err(ValueError);
    Ok(Override(start, end, fps))
  }

  function ReadOverrides(lines: seq<string>, readers: NumberReaders): (r: Result<seq<Override>>)
    ensures r.Ok? ==> |r.value| == |lines|
    ensures r.Ok? <==> forall k :: 0 <= k < |lines| ==> ReadOverride(lines[k], readers).Ok?
    ensures r.Ok? ==> forall k :: 0 <= k < |lines| ==> r.value[k] == ReadOverride(lines[k], readers).value
    decreases |lines|
  {
    if lines == [] then Ok([])
    else
      var o :- ReadOverride(lines[0], readers);
      var rest :- ReadOverrides(lines[1..], readers);
      Ok([o] + rest)
  }

  /** Timecodes.parse(text) (tools.py:75-88): dispatch on the lower-cased,
      left-stripped first line. */
  function Parse(text: string, readers: NumberReaders): (r: Result<ParsedTimecodes>)
    ensures r == Ok(EmptyList) <==> SplitLines(text) == []
    ensures SplitLines(text) != [] && !StartsWith(HeaderKey(SplitLines(text)[0]), V2Header)
            && !StartsWith(HeaderKey(SplitLines(text)[0]), V1Header)
            ==> r == Err(Prass(UnsupportedTimecodes))
    ensures r.Ok? && r.value.Parsed? ==> r.value.tc.Vfr?
    ensures r.Ok? && r.value.Parsed? && StartsWith(HeaderKey(SplitLines(text)[0]), V2Header) ==>
      |r.value.tc.times| == |SplitLines(text)| - 1 && r.value.tc.defaultFrameDuration.None?
  {
    var lines := SplitLines(text);
    if lines == [] then Ok(EmptyList)
    else
      var first := HeaderKey(lines[0]);
      if StartsWith(first, V2Header) then
        var tcs :- ReadV2Times(lines[1..], readers);
        Ok(Parsed(FromTable(tcs, None)))
      else if StartsWith(first, V1Header) then
        if |lines| < 2 then Err(IndexError)
        else
          var line := Replace(ByteLower(lines[1]), "assume ", "");
          var default :- if readers.readFloat(line).Some? then Ok(readers.readFloat(line).value) else Err(ValueError);
          var overrides :- ReadOverrides(lines[2..], readers);
          var table :- V1ToV2(default, overrides);
          Ok(Parsed(FromTable(table, Some(default))))
      else Err(Prass(UnsupportedTimecodes))
  }

  /** Whole milliseconds as the lines of a v2 file. */
  function MsLines(ms: seq<int>): (lines: seq<string>)
    ensures |lines| == |ms|
    ensures forall k :: 0 <= k < |ms| ==> lines[k] == IntToDecimal(ms[k])
  {
    if ms == [] then [] else [IntToDecimal(ms[0])] + MsLines(ms[1..])
  }

  /** Whole milliseconds in seconds. */
  function MsTimes(ms: seq<int>): (times: seq<real>)
    ensures |times| == |ms|
    ensures forall k :: 0 <= k < |ms| ==> times[k] == ms[k] as real / 1000.0
  {
    if ms == [] then [] else [ms[0] as real / 1000.0] + MsTimes(ms[1..])
  }

  /** A v2 file written in whole milliseconds. */
  function V2Text(ms: seq<int>): string {
    Join([V2Header] + MsLines(ms), "\n")
  }

  lemma LowerHeader()
    ensures HeaderKey(V2Header) == V2Header
  {
    LowerV2Header();
    assert V2Header[0] == '#';
  }

  lemma LowerV2Header()
    ensures ByteLower(V2Header) == V2Header
  {
  }

  lemma V2HeaderUnbroken()
    ensures forall j :: 0 <= j < |V2Header| ==> !IsLineBreak(V2Header[j])
  {
  }

  /** The lines of a v2 file hold no line breaks, and the last is not empty. */
  lemma V2LinesUnbroken(ms: seq<int>, lines: seq<string>)
    requires lines == [V2Header] + MsLines(ms)
    ensures forall k, j :: 0 <= k < |lines| && 0 <= j < |lines[k]| ==> !IsLineBreak(lines[k][j])
    ensures lines[|lines| - 1] != []
  {
    forall k, j | 0 <= k < |lines| && 0 <= j < |lines[k]|
      ensures !IsLineBreak(lines[k][j])
    {
      if k > 0 {
        DecimalHasNoBreak(ms[k - 1]);
      } else {
        V2HeaderUnbroken();
      }
    }
    if ms != [] {
      DecimalHasNoBreak(ms[|ms| - 1]);
    }
  }

  lemma V2TextLines(ms: seq<int>)
    ensures SplitLines(V2Text(ms)) == [V2Header] + MsLines(ms)
  {
    V2LinesUnbroken(ms, [V2Header] + MsLines(ms));
    SplitLinesJoin([V2Header] + MsLines(ms));
  }

  lemma ReadMsLines(ms: seq<int>)
    ensures ReadV2Times(MsLines(ms), PlainReaders) == Ok(MsTimes(ms))
  {
    var lines := MsLines(ms);
    forall k | 0 <= k < |ms|
      ensures PlainDecimal(lines[k]) == Some(ms[k] as real)
    {
      IntToDecimalRoundTrip(ms[k]);
    }
    assert ReadV2Times(lines, PlainReaders).value == MsTimes(ms);
  }

  /** Parsing a v2 file gives its millisecond values in seconds, with no default rate. */
  lemma V2RoundTrip(ms: seq<int>)
    ensures Parse(V2Text(ms), PlainReaders) == Ok(Parsed(Vfr(MsTimes(ms), None)))
  {
    V2TextLines(ms);
    ParseMsLines(V2Text(ms), ms);
  }

  /** Any text whose lines are the v2 header and whole milliseconds parses to
      those times. */
  lemma ParseMsLines(text: string, ms: seq<int>)
    requires SplitLines(text) == [V2Header] + MsLines(ms)
    ensures Parse(text, PlainReaders) == Ok(Parsed(Vfr(MsTimes(ms), None)))
  {
    var lines := SplitLines(text);
    assert StartsWith(HeaderKey(lines[0]), V2Header) by {
      LowerHeader();
    }
    assert lines[1..] == MsLines(ms);
    ReadMsLines(ms);
    ParseV2(text, PlainReaders);
  }

  /** A file whose first line is the v2 header reads the rest as milliseconds. */
  lemma ParseV2(text: string, readers: NumberReaders)
    requires SplitLines(text) != [] && StartsWith(HeaderKey(SplitLines(text)[0]), V2Header)
    ensures var times := ReadV2Times(SplitLines(text)[1..], readers);
      times.Ok? ==> Parse(text, readers) == Ok(Parsed(Vfr(times.value, None)))
  {
  }

  /** A file whose first line is the v1 header needs a second line, read as
      the default rate after dropping "assume ", and builds the table from the
      overrides that follow; each step's error is the one returned. */
  lemma ParseV1(text: string, readers: NumberReaders)
    requires SplitLines(text) != [] && StartsWith(HeaderKey(SplitLines(text)[0]), V1Header)
    ensures var lines := SplitLines(text);
      |lines| < 2 ==> Parse(text, readers) == Err(IndexError)
    ensures var lines := SplitLines(text);
      |lines| >= 2 && readers.readFloat(Replace(ByteLower(lines[1]), "assume ", "")).None? ==>
        Parse(text, readers) == Err(ValueError)
    ensures var lines := SplitLines(text);
      |lines| >= 2 ==>
        var f := readers.readFloat(Replace(ByteLower(lines[1]), "assume ", ""));
        var os := ReadOverrides(lines[2..], readers);
        f.Some? && os.Err? ==> Parse(text, readers) == Err(os.error)
    ensures var lines := SplitLines(text);
      |lines| >= 2 ==>
        var f := readers.readFloat(Replace(ByteLower(lines[1]), "assume ", ""));
        var os := ReadOverrides(lines[2..], readers);
        f.Some? && os.Ok? ==>
          var t := V1ToV2(f.value, os.value);
          Parse(text, readers) == if t.Ok? then Ok(Parsed(FromTable(t.value, Some(f.value)))) else Err(t.error)
  {
    var first := HeaderKey(SplitLines(text)[0]);
    assert !StartsWith(first, V2Header) by {
      assert first[..|V1Header|] == V1Header;
      assert V1Header[19] != V2Header[19];
    }
  }

  /** A v1 file made of the header line alone fails with IndexError. */
  lemma V1HeaderOnly(readers: NumberReaders)
    ensures Parse(V1Header, readers) == Err(IndexError)
  {
    V1HeaderUnbroken();
    OneLine(V1Header);
    V1HeaderKey();
    ParseV1(V1Header, readers);
  }

  lemma V1HeaderUnbroken()
    ensures forall j :: 0 <= j < |V1Header| ==> !IsLineBreak(V1Header[j])
  {
  }

  lemma V1HeaderKey()
    ensures HeaderKey(V1Header) == V1Header
  {
    assert forall i :: 0 <= i < |V1Header| ==> !('A' <= V1Header[i] <= 'Z');
    ByteLowerNoCapitals(V1Header);
    assert V1Header[0] == '#';
  }

  /** Text without a line break is one line. */
  lemma OneLine(line: string)
    requires line != [] && forall j :: 0 <= j < |line| ==> !IsLineBreak(line[j])
    ensures SplitLines(line) == [line]
  {
    assert LineEnd(line) == |line|;
    assert line[..|line|] == line;
    assert line[|line|..] == [];
  }

  lemma DecimalHasNoBreak(n: int)
    ensures IntToDecimal(n) != []
    ensures forall j :: 0 <= j < |IntToDecimal(n)| ==> !IsLineBreak(IntToDecimal(n)[j])
  {
    var s := NatDigits(if n < 0 then -n else n);
    assert forall j :: 0 <= j < |s| ==> IsDigit(s[j]);
  }
}
