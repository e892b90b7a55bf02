// Frame/time mapping of tools.py: the variable-rate `Timecodes` object
// (tools.py:21-56) and the constant-rate object that `Timecodes.cfr` builds
// (tools.py:96-110). Times are exact real seconds.

module Timecodes {

  import opened Common

  type NonZeroReal = r: real | r != 0.0 witness 1.0

  /** A frame-timing source. `Vfr` is a table of per-frame start times with an
      optional duration for frames past its end; `Cfr` is a fixed frame
      duration. A default duration is never zero: it is 1/fps, and a zero fps
      means no default at all (tools.py:25). */
  datatype Timecodes =
    | Vfr(times: seq<real>, defaultFrameDuration: Option<NonZeroReal>)
    | Cfr(frameDuration: NonZeroReal)

  /** Timecodes(times, default_fps): a default duration only for a truthy fps. */
  function FromTable(times: seq<real>, defaultFps: Option<real>): (tc: Timecodes)
    ensures tc.Vfr? && tc.times == times
    ensures tc.defaultFrameDuration.Some? <==> defaultFps.Some? && defaultFps.value != 0.0
    ensures tc.defaultFrameDuration.Some? ==> tc.defaultFrameDuration.value * defaultFps.value == 1.0
  {
    Vfr(times, if defaultFps.Some? && defaultFps.value != 0.0 then Some(1.0 / defaultFps.value) else None)
  }

  /** Timecodes.cfr(fps): 1.0 / fps raises for a zero fps. */
  function FromFps(fps: real): (r: Result<Timecodes>)
    ensures r.Err? <==> fps == 0.0
    ensures r.Ok? ==> r.value.Cfr? && r.value.frameDuration * fps == 1.0
  {
    if fps == 0.0 then Err(ZeroDivisionError) else Ok(Cfr(1.0 / fps))
  }

  /** A table index Python accepts, negative ones counting from the end. */
  predicate InTable(times: seq<real>, n: int) {
    -|times| <= n < |times|
  }

  function At(times: seq<real>, n: int): real
    requires InTable(times, n)
  {
    if n < 0 then times[n + |times|] else times[n]
  }

  function Last(times: seq<real>): real
    requires times != []
  {
    times[|times| - 1]
  }

  /** k frame durations d. */
  function Frames(k: int, d: real): real {
    k as real * d
  }

  /** get_frame_time(number) (tools.py:27-36, tools.py:101-102). Past the
      table without a default it retries at the last index, which for an
      empty table never ends. */
  function GetFrameTime(tc: Timecodes, number: int): (r: Result<real>)
    ensures r.Err? <==> tc.Vfr? && tc.times == [] && tc.defaultFrameDuration.None?
    ensures r.Err? ==> r.error == RecursionError
    decreases if tc.Vfr? && InTable(tc.times, number) then 0 else 1
  {
    match tc
    case Cfr(d) => Ok(Frames(number, d))
    case Vfr(times, default) =>
      if InTable(times, number) then Ok(At(times, number))
      else if default.None? then
        if times == [] then Err(RecursionError) else GetFrameTime(tc, |times| - 1)
      else if times != [] then Ok(Last(times) + Frames(number - |times| + 1, default.value))
      else Ok(Frames(number, default.value))
  }

  /** The four regimes of get_frame_time for a non-negative frame number. */
  lemma FrameTimeCases(times: seq<real>, default: Option<NonZeroReal>, n: nat)
    ensures n < |times| ==> GetFrameTime(Vfr(times, default), n) == Ok(times[n])
    ensures n >= |times| && times != [] && default.Some? ==>
      GetFrameTime(Vfr(times, default), n) == Ok(Last(times) + Frames(n - |times| + 1, default.value))
    ensures times == [] && default.Some? ==> GetFrameTime(Vfr(times, default), n) == Ok(Frames(n, default.value))
    ensures n >= |times| && times != [] && default.None? ==> GetFrameTime(Vfr(times, default), n) == Ok(Last(times))
  {
    var tc := Vfr(times, default);
    if n < |times| {
      assert InTable(times, n) && At(times, n) == times[n];
    } else if default.None? {
      if times != [] {
        // the retry at the last index lands in the table
        assert InTable(times, |times| - 1) && At(times, |times| - 1) == Last(times);
        assert GetFrameTime(tc, |times| - 1) == Ok(Last(times));
      }
    } else {
      assert !InTable(times, n);
      assert tc.times == times && tc.defaultFrameDuration == default;
      var d := default.value;
      if times != [] {
        assert GetFrameTime(tc, n) == Ok(Last(times) + Frames(n - |times| + 1, d));
      } else {
        assert GetFrameTime(tc, n) == Ok(Frames(n, d));
      }
    }
  }

  /** Python's int() on a float: truncation toward zero. */
  function Trunc(x: real): (r: int)
    ensures x >= 0.0 ==> 0 <= r && r as real <= x < r as real + 1.0
    ensures x < 0.0 ==> r <= 0 && r as real - 1.0 < x <= r as real
  {
    if x >= 0.0 then x.Floor else -((-x).Floor)
  }

  lemma TruncInt(n: int)
    ensures Trunc(n as real) == n
  {
  }

  /** sum(times) */
  function Sum(s: seq<real>): real
    decreases |s|
  {
    if s == [] then 0.0 else Sum(s[..|s| - 1]) + s[|s| - 1]
  }

  /** The binary search of bisect.bisect_left on a[lo:hi]: every step keeps
      the elements left of lo below x and those from hi on at least x. */
  function BisectLeftIn(a: seq<real>, x: real, lo: nat, hi: nat): (r: nat)
    requires lo <= hi <= |a|
    ensures lo <= r <= hi
    ensures r > lo ==> a[r - 1] < x
    ensures r < hi ==> a[r] >= x
    decreases hi - lo
  {
    if lo < hi then
      var mid := (lo + hi) / 2;
      if a[mid] < x then BisectLeftIn(a, x, mid + 1, hi) else BisectLeftIn(a, x, lo, mid)
    else lo
  }

  /** bisect.bisect_left(a, x): on any table the element just before the
      result is below x and the one at it is at least x; the whole partition
      holds only on a sorted table (BisectLeftSorted). */
  function BisectLeft(a: seq<real>, x: real): (r: nat)
    ensures r <= |a|
    ensures r > 0 ==> a[r - 1] < x
    ensures r < |a| ==> a[r] >= x
  {
    BisectLeftIn(a, x, 0, |a|)
  }

  predicate NonDecreasing(a: seq<real>) {
    forall i, j :: 0 <= i <= j < |a| ==> a[i] <= a[j]
  }

  predicate StrictlyIncreasing(a: seq<real>) {
    forall i, j :: 0 <= i < j < |a| ==> a[i] < a[j]
  }

  /** On a sorted table bisect_left is the least index whose time is at least x. */
  lemma BisectLeftSorted(a: seq<real>, x: real)
    requires NonDecreasing(a)
    ensures forall i :: 0 <= i < BisectLeft(a, x) ==> a[i] < x
    ensures forall i :: BisectLeft(a, x) <= i < |a| ==> a[i] >= x
  {
    var r := BisectLeft(a, x);
    forall i | 0 <= i < r
      ensures a[i] < x
    {
      assert a[i] <= a[r - 1];
    }
    forall i | r <= i < |a|
      ensures a[i] >= x
    {
      assert a[r] <= a[i];
    }
  }

  /** get_frame_number(timestamp) (tools.py:38-41, tools.py:107-108). Past the
      table, with a default duration, it counts from sum(times). */
  function GetFrameNumber(tc: Timecodes, t: real): int {
    match tc
    case Cfr(d) => Trunc(t / d)
    case Vfr(times, default) =>
      if (times == [] || Last(times) < t) && default.Some? then Trunc((t - Sum(times)) / default.value)
      else BisectLeft(times, t)
  }

  /** In the table, or without a default, the frame number is the first frame
      that starts at or after t; otherwise it is the extrapolation from sum(times). */
  lemma FrameNumberCases(times: seq<real>, default: Option<NonZeroReal>, t: real)
    requires NonDecreasing(times)
    ensures (times == [] || Last(times) < t) && default.Some? ==>
      GetFrameNumber(Vfr(times, default), t) == Trunc((t - Sum(times)) / default.value)
    ensures !((times == [] || Last(times) < t) && default.Some?) ==>
      var i := GetFrameNumber(Vfr(times, default), t);
      && 0 <= i <= |times|
      && (forall j :: 0 <= j < i ==> times[j] < t)
      && (forall j :: i <= j < |times| ==> times[j] >= t)
  {
    if !((times == [] || Last(times) < t) && default.Some?) {
      BisectLeftSorted(times, t);
    }
  }

  /** get_frame_size(timestamp) (tools.py:43-56, tools.py:104-105): the
      distance from the frame found by bisect to its successor, or to its
      predecessor for the frame past the table. */
  function GetFrameSize(tc: Timecodes, t: real): (r: Result<real>)
    ensures r.Err? <==> tc.Vfr? && tc.times == [] && tc.defaultFrameDuration.None?
    ensures r.Err? ==> r.error == RecursionError
  {
    match tc
    case Cfr(d) => Ok(d)
    case Vfr(times, _) =>
      var number := BisectLeft(times, t);
      var c :- GetFrameTime(tc, number);
      // once get_frame_time succeeds for this table it succeeds for every number
      if number == |times| then Ok(c - GetFrameTime(tc, number - 1).value)
      else Ok(GetFrameTime(tc, number + 1).value - c)
  }

  /** The frame size is the table's own step inside it, and at its end the
      default duration, or zero without one. */
  lemma FrameSizeCases(times: seq<real>, default: Option<NonZeroReal>, t: real)
    requires times != [] || default.Some?
    ensures var i := BisectLeft(times, t);
      && (i + 1 < |times| ==> GetFrameSize(Vfr(times, default), t) == Ok(times[i + 1] - times[i]))
      && (i + 1 >= |times| && default.Some? ==> GetFrameSize(Vfr(times, default), t) == Ok(default.value))
      && (i + 1 >= |times| && default.None? ==> GetFrameSize(Vfr(times, default), t) == Ok(0.0))
  {
    var tc := Vfr(times, default);
    var i := BisectLeft(times, t);
    FrameTimeCases(times, default, i);
    if i < |times| {
      FrameTimeCases(times, default, i + 1);
    } else if times != [] {
      FrameTimeCases(times, default, i - 1);
    }
  }

  /** The constant-rate mapping: frame n starts at n * d, every frame lasts
      d, and numbering inverts timing; frame 0 starts at 0. */
  lemma CfrRoundTrip(d: NonZeroReal, n: int)
    ensures GetFrameTime(Cfr(d), n).Ok?
    ensures GetFrameNumber(Cfr(d), GetFrameTime(Cfr(d), n).value) == n
    ensures GetFrameTime(Cfr(d), 0) == Ok(0.0)
    ensures forall t :: GetFrameSize(Cfr(d), t) == Ok(d)
  {
    var t := GetFrameTime(Cfr(d), n).value;
    ScaleBack(d, n);
    assert t / d == n as real;
    TruncInt(n);
  }

  lemma ScaleBack(d: NonZeroReal, k: int)
    ensures k as real * d / d == k as real
    ensures d * k as real / d == k as real
  {
  }

  /** In a strictly increasing table, numbering inverts timing for every frame of the table. */
  lemma VfrRoundTrip(times: seq<real>, default: Option<NonZeroReal>, n: nat)
    requires StrictlyIncreasing(times) && n < |times|
    ensures GetFrameNumber(Vfr(times, default), times[n]) == n
  {
    BisectFindsEntry(times, n);
  }

  lemma BisectFindsEntry(times: seq<real>, n: nat)
    requires StrictlyIncreasing(times) && n < |times|
    ensures BisectLeft(times, times[n]) == n
    ensures !(Last(times) < times[n])
  {
    BisectLeftSorted(times, times[n]);
    assert n == |times| - 1 || times[n] < Last(times);
  }

  /** A non-decreasing table with a positive default gives non-decreasing frame times. */
  lemma FrameTimeMonotone(tc: Timecodes, m: nat, n: nat)
    requires m <= n
    requires tc.Cfr? ==> tc.frameDuration > 0.0
    requires tc.Vfr? ==> NonDecreasing(tc.times) && (tc.times != [] || tc.defaultFrameDuration.Some?)
    requires tc.Vfr? && tc.defaultFrameDuration.Some? ==> tc.defaultFrameDuration.value > 0.0
    ensures GetFrameTime(tc, m).Ok? && GetFrameTime(tc, n).Ok?
    ensures GetFrameTime(tc, m).value <= GetFrameTime(tc, n).value
  {
    if tc.Cfr? {
      MulMonotone(tc.frameDuration, m, n);
    } else if tc.times == [] {
      FrameTimeCases(tc.times, tc.defaultFrameDuration, m);
      FrameTimeCases(tc.times, tc.defaultFrameDuration, n);
      MulMonotone(tc.defaultFrameDuration.value, m, n);
    } else {
      VfrTimeMonotone(tc.times, tc.defaultFrameDuration, m, n);
    }
  }

  lemma VfrTimeMonotone(times: seq<real>, default: Option<NonZeroReal>, m: nat, n: nat)
    requires m <= n && times != [] && NonDecreasing(times)
    requires default.Some? ==> default.value > 0.0
    ensures GetFrameTime(Vfr(times, default), m).value <= GetFrameTime(Vfr(times, default), n).value
  {
    FrameTimeCases(times, default, m);
    FrameTimeCases(times, default, n);
    var len := |times|;
    if n < len {
      assert times[m] <= times[n];
    } else if m < len {
      assert times[m] <= Last(times);
      if default.Some? {
        MulMonotone(default.value, 0, n - len + 1);
      }
    } else if default.Some? {
      MulMonotone(default.value, m - len + 1, n - len + 1);
    }
  }

  lemma MulMonotone(d: real, a: int, b: int)
    requires d > 0.0 && a <= b
    ensures a as real * d <= b as real * d
    ensures d * a as real <= d * b as real
    ensures Frames(a, d) <= Frames(b, d)
  {
  }

  // Past the table, get_frame_number subtracts sum(times) where the last
  // entry and an offset of len(times) - 1 frames were evidently meant:
  // get_frame_time extrapolates from the last entry, so the two agree only
  // when sum(times) happens to equal last - d * (len(times) - 1), which
  // fails for most tables of two or more entries.

  /** Two frames at 0 s and 1 s with 1 s frames after them: frame 3 starts at
      3 s, yet get_frame_number(3.0) answers 2. */
  lemma FrameNumberFromSumMisses()
    ensures GetFrameTime(Vfr([0.0, 1.0], Some(1.0)), 3) == Ok(3.0)
    ensures GetFrameNumber(Vfr([0.0, 1.0], Some(1.0)), 3.0) == 2
  {
    var times := [0.0, 1.0];
    assert Sum(times) == 1.0 by {
      assert times[..1] == [0.0];
      assert [0.0][..0] == [];
    }
    assert Last(times) == 1.0;
  }

  /** get_frame_number with the extrapolation counted from the last table entry. */
  function GetFrameNumberCorrected(tc: Timecodes, t: real): int {
    match tc
    case Cfr(d) => Trunc(t / d)
    case Vfr(times, default) =>
      if (times == [] || Last(times) < t) && default.Some? then
        if times == [] then Trunc(t / default.value)
        else |times| - 1 + Trunc((t - Last(times)) / default.value)
      else BisectLeft(times, t)
  }

  /** The corrected numbering inverts get_frame_time for every frame, in and
      past a strictly increasing table with a positive default duration. */
  lemma FrameNumberCorrectedRoundTrip(times: seq<real>, d: NonZeroReal, n: nat)
    requires StrictlyIncreasing(times) && d > 0.0
    ensures GetFrameTime(Vfr(times, Some(d)), n).Ok?
    ensures GetFrameNumberCorrected(Vfr(times, Some(d)), GetFrameTime(Vfr(times, Some(d)), n).value) == n
  {
    FrameTimeCases(times, Some(d), n);
    if n < |times| {
      BisectFindsEntry(times, n);
    } else if times == [] {
      assert GetFrameTime(Vfr(times, Some(d)), n).value == n as real * d;
      ScaleBack(d, n);
      TruncInt(n);
      assert GetFrameNumberCorrected(Vfr(times, Some(d)), n as real * d) == Trunc(n as real * d / d);
    } else {
      var k := n - |times| + 1;
      var t := Last(times) + d * k as real;
      assert GetFrameTime(Vfr(times, Some(d)), n).value == t;
      MulMonotone(d, 0, k);
      ScaleBack(d, k);
      assert (t - Last(times)) / d == k as real;
      TruncInt(k);
      assert GetFrameNumberCorrected(Vfr(times, Some(d)), t) == |times| - 1 + k;
    }
  }
}
