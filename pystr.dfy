// The Python string methods that subs.py and tools.py rely on, stated on
// `string` (a sequence of code points).

module PyStr {

  import opened Common

  /** unicode.isspace() under the Unicode 5.2 database of Python 2.7: the
      characters strip(), lstrip() and rstrip() remove. */
  predicate IsSpace(c: char) {
    || c == ' ' || ('\t' <= c <= '\r') || ('\U{1C}' <= c <= '\U{1F}')
    || c == '\U{85}' || c == '\U{A0}' || c == '\U{1680}' || c == '\U{180E}' || ('\U{2000}' <= c <= '\U{200A}')
    || c == '\U{2028}' || c == '\U{2029}' || c == '\U{202F}' || c == '\U{205F}' || c == '\U{3000}'
  }

  /** unicode.lower() on one code point: Unicode's simple lower-case mapping
      (as of Unicode 5.2, Python 2.7's database), written out for ASCII and
      the blocks listed in WideLower; other code points stay as they are. */
  function LowerChar(c: char): char {
    if c < 'A' then c
    else if c <= 'Z' then (c as int + 32) as char
    else if c < '\U{C0}' then c
    else WideLower(c)
  }

  /** `c` lies in the block from lo to hi, where capitals and small letters
      alternate and the capitals sit at even (or at odd) code points. */
  predicate PairCapital(c: char, lo: char, hi: char, even: bool) {
    lo <= c <= hi && ((c as int) % 2 == 0) == even
  }

  /** The simple lower-case mapping of Latin-1, Latin Extended-A, Greek
      U+0386-U+03AB, Cyrillic U+0400-U+04FF, Armenian, Latin Extended
      Additional, the Kelvin, Angstrom and Ohm signs and fullwidth Latin. */
  function WideLower(c: char): char {
    if '\U{C0}' <= c <= '\U{DE}' && c != '\U{D7}' then (c as int + 32) as char
    else if PairCapital(c, '\U{100}', '\U{12F}', true) then (c as int + 1) as char
    else if c == '\U{130}' then 'i'
    else if PairCapital(c, '\U{132}', '\U{137}', true) then (c as int + 1) as char
    else if PairCapital(c, '\U{139}', '\U{148}', false) then (c as int + 1) as char
    else if PairCapital(c, '\U{14A}', '\U{177}', true) then (c as int + 1) as char
    else if c == '\U{178}' then '\U{FF}'
    else if PairCapital(c, '\U{179}', '\U{17E}', false) then (c as int + 1) as char
    else if c == '\U{386}' then '\U{3AC}'
    else if '\U{388}' <= c <= '\U{38A}' then (c as int + 37) as char
    else if c == '\U{38C}' then '\U{3CC}'
    else if '\U{38E}' <= c <= '\U{38F}' then (c as int + 63) as char
    else if '\U{391}' <= c <= '\U{3AB}' && c != '\U{3A2}' then (c as int + 32) as char
    else if '\U{400}' <= c <= '\U{40F}' then (c as int + 80) as char
    else if '\U{410}' <= c <= '\U{42F}' then (c as int + 32) as char
    else if PairCapital(c, '\U{460}', '\U{481}', true) then (c as int + 1) as char
    else if PairCapital(c, '\U{48A}', '\U{4BF}', true) then (c as int + 1) as char
    else if c == '\U{4C0}' then '\U{4CF}'
    else if PairCapital(c, '\U{4C1}', '\U{4CE}', false) then (c as int + 1) as char
    else if PairCapital(c, '\U{4D0}', '\U{4FF}', true) then (c as int + 1) as char
    else if '\U{531}' <= c <= '\U{556}' then (c as int + 48) as char
    else if PairCapital(c, '\U{1E00}', '\U{1E95}', true) then (c as int + 1) as char
    else if c == '\U{1E9E}' then '\U{DF}'
    else if PairCapital(c, '\U{1EA0}', '\U{1EFF}', true) then (c as int + 1) as char
    else if c == '\U{2126}' then '\U{3C9}'
    else if c == '\U{212A}' then 'k'
    else if c == '\U{212B}' then '\U{E5}'
    else if '\U{FF21}' <= c <= '\U{FF3A}' then (c as int + 32) as char
    else c
  }

  function Lower(s: string): string {
    seq(|s|, i requires 0 <= i < |s| => LowerChar(s[i]))
  }

  /** str.isspace() on a Python 2 byte string: the ASCII white space of the C library. */
  predicate IsByteSpace(c: char) {
    c == ' ' || ('\t' <= c <= '\r')
  }

  /** str.lower() on a Python 2 byte string: only the ASCII capitals change. */
  function ByteLower(s: string): string {
    seq(|s|, i requires 0 <= i < |s| => if 'A' <= s[i] <= 'Z' then (s[i] as int + 32) as char else s[i])
  }

  /** Text without ASCII capitals is its own byte-string lower(). */
  lemma ByteLowerNoCapitals(s: string)
    requires forall i :: 0 <= i < |s| ==> !('A' <= s[i] <= 'Z')
    ensures ByteLower(s) == s
  {
  }

  /** str.lstrip() on a Python 2 byte string: drops the longest prefix of ASCII white space. */
  function ByteLStrip(s: string): (r: string)
    ensures |r| <= |s| && r == s[|s| - |r|..]
    ensures r != [] ==> !IsByteSpace(r[0])
    ensures forall i :: 0 <= i < |s| - |r| ==> IsByteSpace(s[i])
    decreases |s|
  {
    if s != [] && IsByteSpace(s[0]) then ByteLStrip(s[1..]) else s
  }

  /** lstrip(): drops the longest all-space prefix. */
  function LStrip(s: string): (r: string)
    ensures |r| <= |s| && r == s[|s| - |r|..]
    ensures r != [] ==> !IsSpace(r[0])
    ensures forall i :: 0 <= i < |s| - |r| ==> IsSpace(s[i])
    decreases |s|
  {
    if s != [] && IsSpace(s[0]) then LStrip(s[1..]) else s
  }

  /** rstrip(): drops the longest all-space suffix. */
  function RStrip(s: string): (r: string)
    ensures |r| <= |s| && r == s[..|r|]
    ensures r != [] ==> !IsSpace(r[|r| - 1])
    ensures forall i :: |r| <= i < |s| ==> IsSpace(s[i])
    decreases |s|
  {
    if s != [] && IsSpace(s[|s| - 1]) then RStrip(s[..|s| - 1]) else s
  }

  /** strip() */
  function Strip(s: string): string {
    RStrip(LStrip(s))
  }

  predicate StartsWith(s: string, prefix: string) {
    |prefix| <= |s| && s[..|prefix|] == prefix
  }

  /** `sub` occurs in `s` at position i. */
  predicate Occurs(s: string, sub: string, i: int) {
    0 <= i && i + |sub| <= |s| && s[i..i + |sub|] == sub
  }

  /** Occurrences in `s` past position 0 are the occurrences in its tail. */
  lemma OccursShift(s: string, sub: string)
    requires s != []
    ensures Occurs(s, sub, 0) <==> StartsWith(s, sub)
    ensures forall i :: 1 <= i ==> (Occurs(s, sub, i) <==> Occurs(s[1..], sub, i - 1))
  {
    forall i | 1 <= i
      ensures Occurs(s, sub, i) <==> Occurs(s[1..], sub, i - 1)
    {
      if i + |sub| <= |s| {
        assert s[1..][i - 1..i - 1 + |sub|] == s[i..i + |sub|];
      }
    }
  }

  /** find(): the first position where `sub` occurs, if any. */
  function Find(s: string, sub: string): (r: Option<nat>)
    ensures r.Some? ==> Occurs(s, sub, r.value)
    ensures r.Some? ==> forall i :: 0 <= i < r.value ==> !Occurs(s, sub, i)
    ensures r.None? ==> forall i :: !Occurs(s, sub, i)
    decreases |s|
  {
    if StartsWith(s, sub) then Some(0)
    else if s == [] then None
    else
      OccursShift(s, sub);
      match Find(s[1..], sub)
      case None => None
      case Some(k) => Some(k + 1)
  }

  predicate Contains(s: string, sub: string) {
    Find(s, sub).Some?
  }

  /** split(sep, maxsplit); a negative maxsplit splits at every occurrence. */
  function SplitN(s: string, sep: string, maxsplit: int): (r: seq<string>)
    requires sep != []
    ensures |r| >= 1
    decreases |s|
  {
    if maxsplit == 0 then [s]
    else match Find(s, sep)
      case None => [s]
      case Some(i) => [s[..i]] + SplitN(s[i + |sep|..], sep, if maxsplit < 0 then maxsplit else maxsplit - 1)
  }

  /** split(sep) */
  function Split(s: string, sep: string): seq<string>
    requires sep != []
  {
    SplitN(s, sep, -1)
  }

  /** sep.join(parts) */
  function Join(parts: seq<string>, sep: string): string
    decreases |parts|
  {
    if parts == [] then []
    else if |parts| == 1 then parts[0]
    else parts[0] + sep + Join(parts[1..], sep)
  }

  /** Joining what split() cut returns the original string. */
  lemma {:induction false} SplitNJoin(s: string, sep: string, maxsplit: int)
    requires sep != []
    ensures Join(SplitN(s, sep, maxsplit), sep) == s
    decreases |s|
  {
    var f := Find(s, sep);
    if maxsplit != 0 && f.Some? {
      var i := f.value;
      var m := if maxsplit < 0 then maxsplit else maxsplit - 1;
      var tail := s[i + |sep|..];
      var rest := SplitN(tail, sep, m);
      var pieces := [s[..i]] + rest;
      assert pieces[1..] == rest;
      assert SplitN(s, sep, maxsplit) == pieces;
      assert Join(pieces, sep) == s[..i] + sep + Join(rest, sep);
      SplitNJoin(tail, sep, m);
      assert s[i..i + |sep|] == sep;
      Recombine(s, i, i + |sep|);
    }
  }

  /** Cutting a string in three places and gluing the parts gives it back. */
  lemma Recombine(s: string, i: nat, j: nat)
    requires i <= j <= |s|
    ensures s[..i] + s[i..j] + s[j..] == s
  {
  }

  /** split() with a limit of n yields at most n + 1 pieces. */
  lemma {:induction false} SplitNBound(s: string, sep: string, maxsplit: int)
    requires sep != [] && maxsplit >= 0
    ensures |SplitN(s, sep, maxsplit)| <= maxsplit + 1
    decreases |s|
  {
    var f := Find(s, sep);
    if maxsplit != 0 && f.Some? {
      var i := f.value;
      SplitNBound(s[i + |sep|..], sep, maxsplit - 1);
      assert SplitN(s, sep, maxsplit) == [s[..i]] + SplitN(s[i + |sep|..], sep, maxsplit - 1);
    }
  }

  /** No piece of an unlimited split() contains the separator. */
  lemma {:induction false} SplitPiecesFree(s: string, sep: string)
    requires sep != []
    ensures forall k :: 0 <= k < |Split(s, sep)| ==> !Contains(Split(s, sep)[k], sep)
    decreases |s|
  {
    var f := Find(s, sep);
    if f.Some? {
      var i := f.value;
      assert Occurs(s, sep, i);
      SplitPiecesFree(s[i + |sep|..], sep);
      var rest := Split(s[i + |sep|..], sep);
      assert Split(s, sep) == [s[..i]] + rest;
      forall j ensures !Occurs(s[..i], sep, j) {
        if 0 <= j && j + |sep| <= i {
          assert !Occurs(s, sep, j);
          assert s[..i][j..j + |sep|] == s[j..j + |sep|];
        }
      }
    }
  }

  /** Splitting at a single character that only the last piece may contain
      gives back the pieces that were joined. */
  lemma {:induction false} JoinSplitN(parts: seq<string>, c: char, maxsplit: int)
    requires |parts| >= 1
    requires forall k :: 0 <= k < |parts| - 1 ==> c !in parts[k]
    requires maxsplit == |parts| - 1 || (maxsplit < 0 && c !in parts[|parts| - 1])
    ensures SplitN(Join(parts, [c]), [c], maxsplit) == parts
    decreases |parts|
  {
    var s := Join(parts, [c]);
    if |parts| == 1 {
      if maxsplit != 0 {
        forall i | 0 <= i < |s|
          ensures !Occurs(s, [c], i)
        {
          assert s[i..i + 1] == [s[i]];
        }
      }
    } else {
      var p := parts[0];
      var rest := Join(parts[1..], [c]);
      assert s == p + [c] + rest;
      assert Occurs(s, [c], |p|) by {
        assert s[|p|..|p| + 1] == [c];
      }
      forall i | 0 <= i < |p|
        ensures !Occurs(s, [c], i)
      {
        assert s[i..i + 1] == [p[i]];
      }
      assert Find(s, [c]) == Some(|p|);
      assert s[..|p|] == p;
      assert s[|p| + 1..] == rest;
      JoinSplitN(parts[1..], c, if maxsplit < 0 then maxsplit else maxsplit - 1);
      assert parts == [p] + parts[1..];
    }
  }

  /** replace(target, replacement): left to right, without overlaps. */
  function Replace(s: string, target: string, replacement: string): string
    requires target != []
    decreases |s|
  {
    if StartsWith(s, target) then replacement + Replace(s[|target|..], target, replacement)
    else if s == [] then []
    else [s[0]] + Replace(s[1..], target, replacement)
  }

  /** Replacing a character by text that lacks it leaves none of it behind. */
  lemma {:induction false} ReplaceRemovesChar(s: string, c: char, replacement: string)
    requires c !in replacement
    ensures c !in Replace(s, [c], replacement)
    decreases |s|
  {
    if StartsWith(s, [c]) {
      ReplaceRemovesChar(s[1..], c, replacement);
    } else if s != [] {
      ReplaceRemovesChar(s[1..], c, replacement);
      assert s[0] != c by {
        assert s[..1] == [s[0]];
      }
    }
  }

  /** Replacing text that does not occur changes nothing. */
  lemma {:induction false} ReplaceAbsent(s: string, target: string, replacement: string)
    requires target != [] && !Contains(s, target)
    ensures Replace(s, target, replacement) == s
    decreases |s|
  {
    assert !Occurs(s, target, 0);
    if s != [] {
      OccursShift(s, target);
      forall i | 0 <= i
        ensures !Occurs(s[1..], target, i)
      {
        assert !Occurs(s, target, i + 1);
      }
      ReplaceAbsent(s[1..], target, replacement);
      assert s == [s[0]] + s[1..];
    }
  }

  /** The line boundaries of a Python 2 byte string: carriage return and line feed. */
  predicate IsLineBreak(c: char) {
    c == '\n' || c == '\r'
  }

  /** Position of the first line boundary, or the length. */
  function LineEnd(s: string): (i: nat)
    ensures i <= |s|
    ensures forall k :: 0 <= k < i ==> !IsLineBreak(s[k])
    ensures i < |s| ==> IsLineBreak(s[i])
    decreases |s|
  {
    if s == [] || IsLineBreak(s[0]) then 0 else 1 + LineEnd(s[1..])
  }

  /** splitlines(): "\r\n" is one boundary; no empty line after a final boundary. */
  function SplitLines(s: string): seq<string>
    decreases |s|
  {
    if s == [] then []
    else
      var i := LineEnd(s);
      var next := if i == |s| then |s|
                  else if s[i] == '\r' && i + 1 < |s| && s[i + 1] == '\n' then i + 2
                  else i + 1;
      [s[..i]] + SplitLines(s[next..])
  }

  /** No line that splitlines() returns holds a line boundary. */
  lemma {:induction false} SplitLinesHaveNoBreaks(s: string)
    ensures forall k, j :: 0 <= k < |SplitLines(s)| && 0 <= j < |SplitLines(s)[k]| ==> !IsLineBreak(SplitLines(s)[k][j])
    decreases |s|
  {
    if s != [] {
      var i := LineEnd(s);
      var next := if i == |s| then |s|
                  else if s[i] == '\r' && i + 1 < |s| && s[i + 1] == '\n' then i + 2
                  else i + 1;
      SplitLinesHaveNoBreaks(s[next..]);
      assert SplitLines(s) == [s[..i]] + SplitLines(s[next..]);
    }
  }

  /** splitlines() undoes joining lines with line feeds, as long as no line
      holds a boundary and the last line is not empty. */
  lemma {:induction false} SplitLinesJoin(lines: seq<string>)
    requires forall k, j :: 0 <= k < |lines| && 0 <= j < |lines[k]| ==> !IsLineBreak(lines[k][j])
    requires lines != [] ==> lines[|lines| - 1] != []
    ensures SplitLines(Join(lines, "\n")) == lines
    decreases |lines|
  {
    if lines != [] {
      var s := Join(lines, "\n");
      var p := lines[0];
      if |lines| == 1 {
        assert s == p;
        assert LineEnd(s) == |p|;
        assert s[..|s|] == s && s[|s|..] == [];
        assert SplitLines(s) == [s] + SplitLines([]);
        assert lines == [p];
      } else {
        var rest := Join(lines[1..], "\n");
        assert s == p + "\n" + rest;
        assert LineEnd(s) == |p| by {
          assert forall k :: 0 <= k < |p| ==> s[k] == p[k];
          assert IsLineBreak(s[|p|]);
        }
        assert s[..|p|] == p;
        assert s[|p| + 1..] == rest;
        SplitLinesJoin(lines[1..]);
        assert lines == [p] + lines[1..];
      }
    }
  }

  /** The first occurrence of a character that the prefix lacks is right after the prefix. */
  lemma FindCharAfter(p: string, c: char, q: string)
    requires c !in p
    ensures Find(p + [c] + q, [c]) == Some(|p|)
  {
    var s := p + [c] + q;
    assert Occurs(s, [c], |p|) by {
      assert s[|p|..|p| + 1] == [c];
    }
    forall i | 0 <= i < |p|
      ensures !Occurs(s, [c], i)
    {
      assert s[i..i + 1] == [p[i]];
    }
  }

  /** split(c, 1) on a string whose first c follows the prefix p. */
  lemma SplitOnceAt(p: string, c: char, q: string)
    requires c !in p
    ensures SplitN(p + [c] + q, [c], 1) == [p, q]
  {
    var s := p + [c] + q;
    FindCharAfter(p, c, q);
    assert s[..|p|] == p;
    assert s[|p| + 1..] == q;
  }

  /** lstrip() leaves a string that does not start with a space alone. */
  lemma LStripKeeps(s: string)
    requires s == [] || !IsSpace(s[0])
    ensures LStrip(s) == s
  {
  }

  /** Neither end of the string is a space: strip() leaves it alone. */
  predicate Stripped(s: string) {
    s == [] || (!IsSpace(s[0]) && !IsSpace(s[|s| - 1]))
  }

  lemma StripStripped(s: string)
    requires Stripped(s)
    ensures Strip(s) == s
  {
  }

  /** strip() removes a single space put in front of a stripped string. */
  lemma StripAfterSpace(s: string)
    requires Stripped(s)
    ensures Strip(" " + s) == s
  {
    var t := " " + s;
    assert LStrip(t) == s by {
      assert t != [] && t[0] == ' ' && t[1..] == s;
      LStripKeeps(s);
    }
    assert RStrip(s) == s by {
      RStripKeeps(s);
    }
  }

  /** rstrip() leaves a string that does not end with a space alone. */
  lemma RStripKeeps(s: string)
    requires s == [] || !IsSpace(s[|s| - 1])
    ensures RStrip(s) == s
  {
  }

  /** Text put before the first piece ends up before the whole joined string. */
  lemma JoinPrefixFirst(x: string, parts: seq<string>, sep: string)
    requires parts != []
    ensures Join([x + parts[0]] + parts[1..], sep) == x + Join(parts, sep)
  {
    var q := [x + parts[0]] + parts[1..];
    assert q[1..] == parts[1..];
  }

  /** The last piece of a join follows the last separator. */
  lemma {:induction false} JoinLast(parts: seq<string>, sep: string)
    requires |parts| >= 2
    ensures Join(parts, sep) == Join(parts[..|parts| - 1], sep) + sep + parts[|parts| - 1]
    decreases |parts|
  {
    var n := |parts|;
    if n > 2 {
      JoinLast(parts[1..], sep);
      assert parts[1..][..n - 2] == parts[..n - 1][1..];
    } else {
      assert parts[..n - 1] == [parts[0]];
    }
  }

  /** A separator whose first character the prefix lacks is first found
      right after the prefix. */
  lemma FindAfter(p: string, sep: string, q: string)
    requires sep != [] && sep[0] !in p
    ensures Find(p + sep + q, sep) == Some(|p|)
  {
    var s := p + sep + q;
    assert Occurs(s, sep, |p|) by {
      assert s[|p|..|p| + |sep|] == sep;
    }
    forall i | 0 <= i < |p|
      ensures !Occurs(s, sep, i)
    {
      assert s[i] == p[i];
    }
  }

  /** Text lacking the separator's first character does not contain it. */
  lemma LacksSeparator(q: string, sep: string)
    requires sep != [] && sep[0] !in q
    ensures !Contains(q, sep)
  {
    forall i | 0 <= i && i + |sep| <= |q|
      ensures !Occurs(q, sep, i)
    {
      assert q[i..i + |sep|][0] == q[i];
    }
  }

  /** split(sep) of two pieces around one separator. */
  lemma SplitAround(p: string, sep: string, q: string)
    requires sep != [] && sep[0] !in p && sep[0] !in q
    ensures Split(p + sep + q, sep) == [p, q]
  {
    var s := p + sep + q;
    FindAfter(p, sep, q);
    assert s[..|p|] == p;
    assert s[|p| + |sep|..] == q;
    LacksSeparator(q, sep);
    assert SplitN(q, sep, -1) == [q];
    assert SplitN(s, sep, -1) == [s[..|p|]] + SplitN(s[|p| + |sep|..], sep, -1);
  }

  /** replace() of one character by another, position by position. */
  lemma {:induction false} ReplaceCharMap(s: string, a: char, b: char)
    ensures |Replace(s, [a], [b])| == |s|
    ensures forall i :: 0 <= i < |s| ==> Replace(s, [a], [b])[i] == if s[i] == a then b else s[i]
    decreases |s|
  {
    if s != [] {
      ReplaceCharMap(s[1..], a, b);
      assert StartsWith(s, [a]) <==> s[0] == a by {
        assert s[..1] == [s[0]];
      }
    }
  }

  /** Replacing a by b and then b by a restores a string that had no b. */
  lemma ReplaceCharBack(s: string, a: char, b: char)
    requires b !in s
    ensures Replace(Replace(s, [a], [b]), [b], [a]) == s
  {
    var t := Replace(s, [a], [b]);
    ReplaceCharMap(s, a, b);
    ReplaceCharMap(t, b, a);
  }
}
