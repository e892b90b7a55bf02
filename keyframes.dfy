// Keyframe lists (tools.py:5-18): the frame numbers of an XviD two-pass
// statistics log, as SCXvid writes them.

module Keyframes {

  import opened Common
  import opened PyStr

  const XvidHeader := "# XviD 2pass stat file"

  /** A log line that marks an intra (key) frame. */
  predicate IsKeyLine(line: string) {
    line != [] && line[0] == 'i'
  }

  /** [i - 3 for i, line in enumerate(lines) if line and line[0] == 'i']:
      the log's first frame is on its fourth line. */
  function KeyframesOfLines(lines: seq<string>): (r: seq<int>)
    ensures forall k :: 0 <= k < |r| ==> -3 <= r[k] < |lines| - 3
    decreases |lines|
  {
    if lines == [] then []
    else
      var n := |lines| - 1;
      KeyframesOfLines(lines[..n]) + (if IsKeyLine(lines[n]) then [n - 3] else [])
  }

  /** parse_scxvid_keyframes(text) */
  function ParseScxvidKeyframes(text: string): seq<int> {
    KeyframesOfLines(SplitLines(text))
  }

  predicate StrictlyAscending(s: seq<int>) {
    forall i, j :: 0 <= i < j < |s| ==> s[i] < s[j]
  }

  /** Exactly the key lines are listed, each as its index minus 3, in ascending order. */
  lemma {:induction false} KeyframesOfLinesSpec(lines: seq<string>)
    ensures StrictlyAscending(KeyframesOfLines(lines))
    ensures forall x :: x in KeyframesOfLines(lines) <==> 0 <= x + 3 < |lines| && IsKeyLine(lines[x + 3])
    decreases |lines|
  {
    if lines != [] {
      var n := |lines| - 1;
      var front := lines[..n];
      KeyframesOfLinesSpec(front);
      forall x
        ensures x in KeyframesOfLines(lines) <==> 0 <= x + 3 < |lines| && IsKeyLine(lines[x + 3])
      {
        if 0 <= x + 3 < n {
          assert lines[x + 3] == front[x + 3];
        }
      }
    }
  }

  lemma ParsedAscending(text: string)
    ensures StrictlyAscending(ParseScxvidKeyframes(text))
  {
    KeyframesOfLinesSpec(SplitLines(text));
  }

  /** Putting frame 0 in front of non-negative frames keeps them ascending. */
  lemma PrependZero(found: seq<int>)
    requires StrictlyAscending(found) && 0 !in found
    ensures (forall x :: x in found ==> x >= 0) ==> StrictlyAscending([0] + found)
  {
    var frames := [0] + found;
    if forall x :: x in found ==> x >= 0 {
      forall i, j | 0 <= i < j < |frames|
        ensures frames[i] < frames[j]
      {
        assert frames[j] == found[j - 1] && found[j - 1] in found;
        if i > 0 {
          assert frames[i] == found[i - 1];
        }
      }
    }
  }

  /** 0 is the smallest frame possible, so ascending non-negative frames
      that hold it start with it. */
  lemma ZeroFirst(frames: seq<int>)
    requires StrictlyAscending(frames) && 0 in frames
    ensures (forall x :: x in frames ==> x >= 0) ==> frames[0] == 0
  {
    if forall x :: x in frames ==> x >= 0 {
      var k :| 0 <= k < |frames| && frames[k] == 0;
      assert frames[0] in frames;
      assert frames[0] <= frames[k];
    }
  }

  /** parse_keyframes(path) on the file's text (tools.py:9-18): only XviD
      logs are accepted, and frame 0 is put in front when it is missing. */
  method ParseKeyframes(text: string) returns (r: Result<seq<int>>)
    ensures r.Err? <==> !Contains(text, XvidHeader)
    ensures r.Err? ==> r.error == Prass(UnsupportedKeyframes)
    ensures r.Ok? ==> 0 in r.value
    ensures r.Ok? ==> forall x :: x in r.value <==> x == 0 || x in ParseScxvidKeyframes(text)
    ensures r.Ok? && 0 !in ParseScxvidKeyframes(text) ==> r.value == [0] + ParseScxvidKeyframes(text)
    ensures r.Ok? && 0 in ParseScxvidKeyframes(text) ==> r.value == ParseScxvidKeyframes(text)
    ensures r.Ok? && (forall x :: x in ParseScxvidKeyframes(text) ==> x >= 0) ==>
      StrictlyAscending(r.value) && r.value[0] == 0
  {
    if !Contains(text, XvidHeader) {
      return Err(Prass(UnsupportedKeyframes));
    }
    var frames := ParseScxvidKeyframes(text);
    ParsedAscending(text);
    if 0 !in frames {
      PrependZero(frames);
      frames := [0] + frames;
    } else {
      ZeroFirst(frames);
    }
    return Ok(frames);
  }
}
