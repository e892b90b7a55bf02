// ASS timestamps "H:MM:SS.CC" (subs.py:9-20): parse_ass_time and format_time.

module AssTime {

  import opened Common
  import opened PyStr
  import opened Decimal

  /** Python 2 round() to an integer: the nearest one, halves away from zero. */
  function Round(x: real): (r: int)
    ensures x >= 0.0 ==> r as real - 0.5 <= x < r as real + 0.5
    ensures x < 0.0 ==> r as real - 0.5 < x <= r as real + 0.5
  {
    if x >= 0.0 then (x + 0.5).Floor else -((-x + 0.5).Floor)
  }

  /** The four fields format_time prints. */
  datatype Clock = Clock(hours: int, minutes: nat, seconds: nat, centiseconds: nat)

  /** cs // 360000, (cs // 6000) % 60, (cs // 100) % 60 and cs % 100 with
      Python's floor division; for a negative count only the hours are negative. */
  function SplitCentiseconds(cs: int): (c: Clock)
    ensures c.minutes < 60 && c.seconds < 60 && c.centiseconds < 100
    ensures c.hours * 360000 + c.minutes * 6000 + c.seconds * 100 + c.centiseconds == cs
    ensures cs >= 0 ==> c.hours >= 0
  {
    var c := Clock(cs / 360000, (cs / 6000) % 60, (cs / 100) % 60, cs % 100);
    DivisionChain(cs);
    c
  }

  lemma DivisionChain(cs: int)
    ensures (cs / 6000) % 60 * 6000 + cs / 360000 * 360000 == cs / 6000 * 6000
    ensures (cs / 100) % 60 * 100 + cs / 6000 * 6000 == cs / 100 * 100
    ensures cs % 100 + cs / 100 * 100 == cs
  {
    var q := cs / 100;
    assert q / 60 == cs / 6000;
    var p := cs / 6000;
    assert p / 60 == cs / 360000;
  }

  /** The text of a whole number of centiseconds. */
  function FormatCentiseconds(cs: int): string {
    var c := SplitCentiseconds(cs);
    IntToDecimal(c.hours) + ":" + Pad2(c.minutes) + ":" + Pad2(c.seconds) + "." + Pad2(c.centiseconds)
  }

  /** The time of a whole number of centiseconds, in seconds. */
  function GridTime(cs: int): real {
    cs as real / 100.0
  }

  /** format_time(seconds) (subs.py:14-20) */
  function FormatTime(seconds: real): string {
    FormatCentiseconds(Round(seconds * 100.0))
  }

  /** map(float, parts) */
  function ReadAll(parts: seq<string>, readers: NumberReaders): (r: Result<seq<real>>)
    ensures r.Ok? <==> forall k :: 0 <= k < |parts| ==> readers.readFloat(parts[k]).Some?
    ensures r.Ok? ==> |r.value| == |parts| && forall k :: 0 <= k < |parts| ==> r.value[k] == readers.readFloat(parts[k]).value
    ensures r.Err? ==> r.error == ValueError
    decreases |parts|
  {
    if parts == [] then Ok([])
    else match readers.readFloat(parts[0])
      case None => Err(ValueError)
      case Some(x) =>
        var rest :- ReadAll(parts[1..], readers);
        Ok([x] + rest)
  }

  /** Hours, minutes and seconds counted in seconds. */
  function HmsSeconds(v: seq<real>): real
    requires |v| == 3
  {
    v[0] * 3600.0 + v[1] * 60.0 + v[2]
  }

  /** parse_ass_time(string) (subs.py:9-11): three colon-separated numbers,
      anything else is a ValueError. */
  function ParseAssTime(text: string, readers: NumberReaders): (r: Result<real>)
    ensures r.Ok? <==> |Split(text, ":")| == 3 && ReadAll(Split(text, ":"), readers).Ok?
    ensures r.Err? ==> r.error == ValueError
    ensures r.Ok? ==> var v := ReadAll(Split(text, ":"), readers).value;
      r.value == v[0] * 3600.0 + v[1] * 60.0 + v[2]
  {
    var values :- ReadAll(Split(text, ":"), readers);
    if |values| != 3 then Err(ValueError)
    else Ok(HmsSeconds(values))
  }

  lemma DecimalHasNoColon(n: int)
    ensures ':' !in IntToDecimal(n)
  {
    var s := NatDigits(if n < 0 then -n else n);
    assert forall j :: 0 <= j < |s| ==> IsDigit(s[j]);
  }

  /** The three colon-separated fields of a formatted time. */
  function Fields(c: Clock): seq<string>
    requires c.minutes < 60 && c.seconds < 60 && c.centiseconds < 100
  {
    [IntToDecimal(c.hours), Pad2(c.minutes), Pad2(c.seconds) + "." + Pad2(c.centiseconds)]
  }

  lemma FormatSplits(cs: int)
    ensures Split(FormatCentiseconds(cs), ":") == Fields(SplitCentiseconds(cs))
  {
    var c := SplitCentiseconds(cs);
    var h := IntToDecimal(c.hours);
    var sec := Pad2(c.seconds) + "." + Pad2(c.centiseconds);
    var parts := Fields(c);
    DecimalHasNoColon(c.hours);
    assert ':' !in Pad2(c.minutes) && ':' !in sec by {
      assert forall j :: 0 <= j < |sec| ==> sec[j] != ':' by {
        assert sec[2] == '.';
      }
    }
    assert Join(parts, [':']) == FormatCentiseconds(cs) by {
      assert parts[1..][1..] == [sec];
      assert Join(parts[1..], [':']) == Pad2(c.minutes) + [':'] + sec;
      assert Join(parts, [':']) == h + [':'] + (Pad2(c.minutes) + [':'] + sec);
    }
    JoinSplitN(parts, ':', -1);
  }

  lemma ReadFields(c: Clock)
    requires c.minutes < 60 && c.seconds < 60 && c.centiseconds < 100
    ensures ReadAll(Fields(c), PlainReaders)
         == Ok([c.hours as real, c.minutes as real, c.seconds as real + c.centiseconds as real / 100.0])
  {
    var f := Fields(c);
    var v0, v1, v2 := c.hours as real, c.minutes as real, c.seconds as real + c.centiseconds as real / 100.0;
    IntToDecimalRoundTrip(c.hours);
    Pad2Decimal(c.minutes);
    SecondsRoundTrip(c.seconds, c.centiseconds);
    assert PlainReaders.readFloat(f[0]) == Some(v0);
    assert PlainReaders.readFloat(f[1]) == Some(v1);
    assert PlainReaders.readFloat(f[2]) == Some(v2);
    var r := ReadAll(f, PlainReaders);
    assert r.Ok?;
    assert r.value[0] == v0 && r.value[1] == v1 && r.value[2] == v2;
    assert r.value == [v0, v1, v2];
  }

  /** Reading back what format_time wrote for a whole number of
      centiseconds gives that many hundredths of a second. */
  lemma FormatCentisecondsRoundTrip(cs: int)
    ensures ParseAssTime(FormatCentiseconds(cs), PlainReaders) == Ok(GridTime(cs))
  {
    var text := FormatCentiseconds(cs);
    var c := SplitCentiseconds(cs);
    var h, m, s, cc := c.hours as real, c.minutes as real, c.seconds as real, c.centiseconds as real;
    var v := [h, m, s + cc / 100.0];
    assert ReadAll(Split(text, ":"), PlainReaders) == Ok(v) by {
      FormatSplits(cs);
      ReadFields(c);
    }
    assert ParseAssTime(text, PlainReaders) == Ok(HmsSeconds(v));
    assert HmsSeconds(v) == GridTime(cs) by {
      assert h * 360000.0 + m * 6000.0 + s * 100.0 + cc == cs as real;
    }
  }

  /** A two-digit field reads back as its value. */
  lemma Pad2Decimal(n: nat)
    requires n < 100
    ensures PlainDecimal(Pad2(n)) == Some(n as real)
  {
    var s := Pad2(n);
    DotAtDigits(s);
    Pad2Value(n);
    assert s[..|s|] == s;
    assert s[0] != '-' by {
      assert IsDigit(s[0]);
    }
  }

  /** A time on the centisecond grid survives format_time and parse_ass_time. */
  lemma FormatTimeRoundTrip(cs: int)
    ensures ParseAssTime(FormatTime(GridTime(cs)), PlainReaders) == Ok(GridTime(cs))
  {
    FormatTimeOnGrid(cs);
    FormatCentisecondsRoundTrip(cs);
  }

  lemma FormatTimeOnGrid(cs: int)
    ensures FormatTime(GridTime(cs)) == FormatCentiseconds(cs)
  {
    assert GridTime(cs) * 100.0 == cs as real;
    RoundInt(cs);
  }

  lemma RoundInt(n: int)
    ensures Round(n as real) == n
  {
  }
}
