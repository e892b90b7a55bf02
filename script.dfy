// The AssScript object (subs.py:102-307): its script-info lines, its styles
// and its events, and the methods that change them in place.

module Script {

  import opened Common
  import opened Sorting
  import opened Timecodes
  import opened AssLines
  import opened StyleDict
  import opened Tpp
  import opened PyStr
  import opened ScriptText

  // ---------------------------------------------------------------------
  // What cleanup and shift compute for one list or one event
  // ---------------------------------------------------------------------

  /** [e for e in events if not e.is_comment] */
  function WithoutComments(evs: seq<AssEvent>): (r: seq<AssEvent>)
    ensures |r| <= |evs|
    decreases |evs|
  {
    if evs == [] then []
    else
      var n := |evs| - 1;
      WithoutComments(evs[..n]) + (if !IsComment(evs[n]) then [evs[n]] else [])
  }

  /** [e for e in events if e.text] */
  function WithText(evs: seq<AssEvent>): (r: seq<AssEvent>)
    ensures |r| <= |evs|
    decreases |evs|
  {
    if evs == [] then []
    else
      var n := |evs| - 1;
      WithText(evs[..n]) + (if evs[n].text != [] then [evs[n]] else [])
  }

  /** The filters keep exactly the events their conditions accept. */
  lemma {:induction false} FiltersKeep(evs: seq<AssEvent>)
    ensures forall e :: e in WithoutComments(evs) <==> e in evs && !IsComment(e)
    ensures forall e :: e in WithText(evs) <==> e in evs && e.text != []
    decreases |evs|
  {
    if evs != [] {
      var n := |evs| - 1;
      FiltersKeep(evs[..n]);
      assert evs == evs[..n] + [evs[n]];
    }
  }

  /** What cleanup's two filters promise: with drop_comments no comment is
      left, with drop_empty_lines no event without text is left, and every
      event left was in the script. */
  lemma CleanupFilters(evs: seq<AssEvent>, dropComments: bool, dropEmptyLines: bool)
    ensures var kept := if dropComments then WithoutComments(evs) else evs;
      var filtered := if dropEmptyLines then WithText(kept) else kept;
      && (forall e :: e in filtered ==> e in evs)
      && (dropComments ==> forall e :: e in filtered ==> !IsComment(e))
      && (dropEmptyLines ==> forall e :: e in filtered ==> e.text != [])
      && (forall e :: e in evs && !(dropComments && IsComment(e)) && !(dropEmptyLines && e.text == []) ==> e in filtered)
  {
    FiltersKeep(evs);
    FiltersKeep(WithoutComments(evs));
  }

  lemma WithoutCommentsAppend(a: seq<AssEvent>, x: AssEvent)
    ensures WithoutComments(a + [x]) == WithoutComments(a) + (if !IsComment(x) then [x] else [])
  {
    assert (a + [x])[..|a|] == a;
  }

  lemma WithTextAppend(a: seq<AssEvent>, x: AssEvent)
    ensures WithText(a + [x]) == WithText(a) + (if x.text != [] then [x] else [])
  {
    assert (a + [x])[..|a|] == a;
  }

  /** Dropping comments and dropping empty lines can be done in either
      order. */
  lemma {:induction false} FiltersCommute(evs: seq<AssEvent>)
    ensures WithText(WithoutComments(evs)) == WithoutComments(WithText(evs))
    decreases |evs|
  {
    if evs != [] {
      var n := |evs| - 1;
      var front, x := evs[..n], evs[n];
      assert evs == front + [x];
      FiltersCommute(front);
      var both := if !IsComment(x) && x.text != [] then [x] else [];
      var wc := WithoutComments(front) + (if !IsComment(x) then [x] else []);
      var wt := WithText(front) + (if x.text != [] then [x] else []);
      WithoutCommentsAppend(front, x);
      WithTextAppend(front, x);
      assert WithText(wc) == WithText(WithoutComments(front)) + both by {
        if !IsComment(x) {
          WithTextAppend(WithoutComments(front), x);
        } else {
          assert wc == WithoutComments(front);
        }
      }
      assert WithoutComments(wt) == WithoutComments(WithText(front)) + both by {
        if x.text != [] {
          WithoutCommentsAppend(WithText(front), x);
        } else {
          assert wt == WithText(front);
        }
      }
    }
  }

  /** A filter that finds nothing to drop returns the list itself; so each
      filter applied twice is applied once. */
  lemma {:induction false} WithoutCommentsKeepsClean(evs: seq<AssEvent>)
    requires forall i :: 0 <= i < |evs| ==> !IsComment(evs[i])
    ensures WithoutComments(evs) == evs
    decreases |evs|
  {
    if evs != [] {
      var n := |evs| - 1;
      WithoutCommentsKeepsClean(evs[..n]);
      assert evs[..n] + [evs[n]] == evs;
    }
  }

  lemma {:induction false} WithTextKeepsClean(evs: seq<AssEvent>)
    requires forall i :: 0 <= i < |evs| ==> evs[i].text != []
    ensures WithText(evs) == evs
    decreases |evs|
  {
    if evs != [] {
      var n := |evs| - 1;
      WithTextKeepsClean(evs[..n]);
      assert evs[..n] + [evs[n]] == evs;
    }
  }

  /** set(e.style for e in events) */
  function UsedStyles(evs: seq<AssEvent>): (r: set<string>)
    ensures forall name :: name in r <==> exists i :: 0 <= i < |evs| && evs[i].style == name
  {
    set i | 0 <= i < |evs| :: evs[i].style
  }

  /** self._styles.keys(): the names in insertion order. */
  function Keys(styles: seq<AssStyle>): (r: seq<string>)
    ensures |r| == |styles|
    ensures forall i :: 0 <= i < |r| ==> r[i] == styles[i].name
  {
    seq(|styles|, i requires 0 <= i < |styles| => styles[i].name)
  }

  /** The elements of a sequence, as a set. */
  function SetOf(names: seq<string>): set<string> {
    set x | x in names
  }

  lemma SetOfSnoc(names: seq<string>, x: string)
    ensures SetOf(names + [x]) == SetOf(names) + {x}
  {
  }

  /** One iteration of the deletion loop over a snapshot of the names. */
  lemma DropStep(styles: seq<AssStyle>, used: set<string>, names: seq<string>, i: nat)
    requires i < |names|
    ensures KeepStyles(styles, used, SetOf(names[..i + 1])) ==
      if names[i] in used then KeepStyles(styles, used, SetOf(names[..i]))
      else Delete(KeepStyles(styles, used, SetOf(names[..i])), names[i])
  {
    var done := SetOf(names[..i]);
    assert names[..i + 1] == names[..i] + [names[i]];
    SetOfSnoc(names[..i], names[i]);
    if names[i] !in used {
      DeleteKept(styles, used, done, names[i]);
    } else {
      KeepUsedName(styles, used, done, names[i]);
    }
  }

  /** The styles after the deletion loop has looked at the first i names:
      each unused name is deleted in turn. */
  function DropUpTo(styles: seq<AssStyle>, used: set<string>, names: seq<string>, i: nat): seq<AssStyle>
    requires i <= |names|
    decreases i
  {
    if i == 0 then styles
    else
      var prev := DropUpTo(styles, used, names, i - 1);
      if names[i - 1] in used then prev else Delete(prev, names[i - 1])
  }

  /** Deleting the unused names one by one keeps exactly the styles that are
      used or whose names were not looked at yet. */
  lemma {:induction false} DropUpToKeeps(styles: seq<AssStyle>, used: set<string>, names: seq<string>, i: nat)
    requires i <= |names|
    ensures DropUpTo(styles, used, names, i) == KeepStyles(styles, used, SetOf(names[..i]))
    decreases i
  {
    if i == 0 {
      KeepNothingDeleted(styles, used);
      assert SetOf(names[..0]) == {};
    } else {
      DropUpToKeeps(styles, used, names, i - 1);
      DropStep(styles, used, names, i - 1);
    }
  }

  /** Running the deletion loop over all the keys keeps the used styles. */
  lemma DropAllKeys(styles: seq<AssStyle>, used: set<string>)
    ensures DropUpTo(styles, used, Keys(styles), |styles|) == KeepStyles(styles, used, Names(styles))
  {
    var names := Keys(styles);
    DropUpToKeeps(styles, used, names, |names|);
    assert names[..|names|] == names;
    KeysAreNames(styles);
  }

  /** The loop over a snapshot of the names: every name no event uses is
      deleted in turn. */
  method DropUnused(styles: seq<AssStyle>, used: set<string>) returns (kept: seq<AssStyle>)
    ensures kept == KeepStyles(styles, used, Names(styles))
  {
    var names := Keys(styles);
    kept := styles;
    var i := 0;
    while i < |names|
      invariant 0 <= i <= |names|
      invariant kept == DropUpTo(styles, used, names, i)
    {
      if names[i] !in used {
        kept := Delete(kept, names[i]);
      }
      i := i + 1;
    }
    DropAllKeys(styles, used);
  }

  /** When every name is considered, the survivors are exactly the styles
      some event uses, in their old order. */
  lemma {:induction false} KeepUsedOnly(styles: seq<AssStyle>, used: set<string>)
    ensures forall s :: s in KeepStyles(styles, used, Names(styles)) <==> s in styles && s.name in used
  {
    KeepMembers(styles, used, Names(styles));
  }

  lemma KeysAreNames(styles: seq<AssStyle>)
    ensures SetOf(Keys(styles)) == Names(styles)
  {
    var keys := Keys(styles);
    forall s | s in styles
      ensures s.name in SetOf(keys)
    {
      var k :| 0 <= k < |styles| && styles[k] == s;
      assert keys[k] == s.name;
    }
  }

  /** max(t + shift, 0) */
  function ShiftTime(t: real, shift: real): real {
    if t + shift >= 0.0 then t + shift else 0.0
  }

  /** A shifted time is never negative, and is the plain sum unless that
      would be negative. */
  lemma ShiftTimeBounds(t: real, shift: real)
    ensures ShiftTime(t, shift) >= 0.0
    ensures ShiftTime(t, shift) >= t + shift
    ensures t + shift >= 0.0 <==> ShiftTime(t, shift) == t + shift
  {
  }

  /** Two shifts in the same direction are one shift by their sum. */
  lemma ShiftTimeCompose(t: real, a: real, b: real)
    requires t >= 0.0
    requires (a >= 0.0 && b >= 0.0) || (a <= 0.0 && b <= 0.0)
    ensures ShiftTime(ShiftTime(t, a), b) == ShiftTime(t, a + b)
  {
  }

  /** Shifting back undoes a shift exactly when the first shift did not
      clamp at zero. */
  lemma ShiftTimeUndo(t: real, shift: real)
    requires t >= 0.0
    ensures ShiftTime(ShiftTime(t, shift), -shift) == t <==> t + shift >= 0.0
  {
  }

  /** Shifting keeps the order of two times. */
  lemma ShiftTimeMonotone(a: real, b: real, shift: real)
    requires a <= b
    ensures ShiftTime(a, shift) <= ShiftTime(b, shift)
  {
  }

  /** One iteration of shift's loop. */
  function ShiftEvent(e: AssEvent, shift: real, shiftStart: bool, shiftEnd: bool): (r: AssEvent)
    ensures r == e.(start := r.start, end := r.end)
    ensures r.start == (if shiftStart then ShiftTime(e.start, shift) else e.start)
    ensures r.end == (if shiftEnd then ShiftTime(e.end, shift) else e.end)
  {
    e.(start := if shiftStart then ShiftTime(e.start, shift) else e.start,
       end := if shiftEnd then ShiftTime(e.end, shift) else e.end)
  }

  /** Shifting both ends of an event keeps a non-negative duration
      non-negative. */
  lemma ShiftKeepsDuration(e: AssEvent, shift: real)
    requires e.start <= e.end
    ensures var r := ShiftEvent(e, shift, true, true); r.start <= r.end
  {
    ShiftTimeMonotone(e.start, e.end, shift);
  }

  /** Appending two items and then two pieces. */
  lemma AppendPair<T>(a: seq<T>, x: T, y: T, m: seq<T>, z: seq<T>)
    ensures a + [x] + [y] + m + z == a + ([x, y] + (m + z))
  {
  }

  /** Appending three pieces one after the other. */
  lemma AppendFramed<T>(a: seq<T>, x: seq<T>, m: seq<T>, y: seq<T>)
    ensures a + x + m + y == a + (x + (m + y))
  {
  }

  // ---------------------------------------------------------------------
  // The script object
  // ---------------------------------------------------------------------

  class AssScript {
    var scriptInfo: seq<string>
    var styles: seq<AssStyle>
    var events: seq<AssEvent>

    /** AssScript(script_info, styles, events) */
    constructor(scriptInfo: seq<string>, styles: seq<AssStyle>, events: seq<AssEvent>)
      ensures this.scriptInfo == scriptInfo && this.styles == styles && this.events == events
    {
      this.scriptInfo := scriptInfo;
      this.styles := styles;
      this.events := events;
    }

    /** The script as the document the text forms are made of. */
    function Doc(): ScriptDoc
      reads this
    {
      ScriptDoc(scriptInfo, styles, events)
    }

    /** to_ass_stream (subs.py:172-190): the parts that are not empty, each
        under its header, joined with the platform's line separator. */
    method ToAssText(lineSep: string) returns (text: string)
      ensures text == Join(AssLinesOf(Doc()), lineSep)
    {
      ghost var doc := Doc();
      var lines: seq<string> := [];
      if scriptInfo != [] {
        lines := lines + [InfoHeader];
        lines := lines + scriptInfo;
        lines := lines + [""];
        AppendFramed([], [InfoHeader], scriptInfo, [""]);
      }
      assert lines == [] + InfoPart(doc);
      ghost var afterInfo := lines;
      if styles != [] {
        lines := lines + [StylesHeader];
        lines := lines + [StylesFormat];
        lines := lines + StyleLines(styles);
        lines := lines + [""];
        AppendPair(afterInfo, StylesHeader, StylesFormat, StyleLines(styles), [""]);
      }
      assert lines == afterInfo + StylesPart(doc);
      ghost var afterStyles := lines;
      if events != [] {
        lines := lines + [EventsHeader];
        lines := lines + [EventsFormat];
        lines := lines + EventLines(events);
        assert lines == lines + [] && EventLines(events) + [] == EventLines(events);
        AppendPair(afterStyles, EventsHeader, EventsFormat, EventLines(events), []);
      }
      assert lines == afterStyles + EventsPart(doc);
      lines := lines + [""];
      assert lines == AssLinesOf(doc) by {
        assert [] + InfoPart(doc) == InfoPart(doc);
      }
      text := Join(lines, lineSep);
    }

    /** append_styles(other, clean) (subs.py:196-200): store every style of
        `other` in turn, into an emptied dictionary when `clean` is set. */
    method AppendStyles(other: seq<AssStyle>, clean: bool)
      modifies this
      ensures styles == PutAll(if clean then [] else old(styles), other)
      ensures scriptInfo == old(scriptInfo) && events == old(events)
    {
      if clean {
        styles := [];
      }
      ghost var start := styles;
      var i := 0;
      while i < |other|
        invariant 0 <= i <= |other|
        invariant PutAll(styles, other[i..]) == PutAll(start, other)
        invariant scriptInfo == old(scriptInfo) && events == old(events)
      {
        assert other[i..][1..] == other[i + 1..];
        styles := Put(styles, other[i]);
        i := i + 1;
      }
    }

    /** sort_events(key, descending) (subs.py:202-203): a stable sort. */
    method SortEvents(key: AssEvent -> KeyValue, descending: bool)
      modifies this
      ensures events == SortBy(old(events), key, descending)
      ensures scriptInfo == old(scriptInfo) && styles == old(styles)
    {
      events := SortBy(events, key, descending);
    }

    // -------------------------------------------------------------------
    // tpp (subs.py:205-279), one loop per stage
    // -------------------------------------------------------------------

    /** The lead-in's outer loop over sorted_by_end, with its inner backward
        walk (subs.py:232-240). */
    method LeadInLoop(order: seq<nat>, leadIn: real)
      requires InRange(order, |events|)
      modifies this
      ensures events == LeadInUpTo(old(events), order, leadIn, |order|)
      ensures scriptInfo == old(scriptInfo) && styles == old(styles)
    {
      ghost var orig := events;
      var idx := 0;
      while idx < |order|
        invariant 0 <= idx <= |order| && |events| == |orig|
        invariant events == LeadInUpTo(orig, order, leadIn, idx)
        invariant scriptInfo == old(scriptInfo) && styles == old(styles)
      {
        var ev := order[idx];
        var initial := events[ev].start - leadIn;
        var j := idx;
        while j > 0
          invariant 0 <= j <= idx
          invariant LeadInScan(events, order, ev, j, initial) == LeadInScan(events, order, ev, idx, events[ev].start - leadIn)
        {
          var other := events[order[j - 1]];
          if other.end <= initial {
            break;
          }
          if !CollidesWith(events[ev], other) {
            initial := Max(initial, other.end);
          }
          j := j - 1;
        }
        events := events[ev := events[ev].(start := initial)];
        idx := idx + 1;
      }
    }

    /** The lead-out's loop over events_list, each event looking at itself
        and the events after it (subs.py:244-251). */
    method LeadOutLoop(view: seq<nat>, leadOut: real)
      requires InRange(view, |events|)
      modifies this
      ensures events == LeadOutUpTo(old(events), view, leadOut, |view|)
      ensures scriptInfo == old(scriptInfo) && styles == old(styles)
    {
      ghost var orig := events;
      var idx := 0;
      while idx < |view|
        invariant 0 <= idx <= |view| && |events| == |orig|
        invariant events == LeadOutUpTo(orig, view, leadOut, idx)
        invariant scriptInfo == old(scriptInfo) && styles == old(styles)
      {
        var ev := view[idx];
        var initial := events[ev].end + leadOut;
        var j := idx;
        while j < |view|
          invariant idx <= j <= |view|
          invariant LeadOutScan(events, view, ev, j, initial) == LeadOutScan(events, view, ev, idx, events[ev].end + leadOut)
        {
          var other := events[view[j]];
          if other.start > initial {
            break;
          }
          if !CollidesWith(events[ev], other) {
            initial := Min(initial, other.start);
          }
          j := j + 1;
        }
        events := events[ev := events[ev].(end := initial)];
        idx := idx + 1;
      }
    }

    /** The loop over consecutive pairs that joins small gaps and overlaps
        (subs.py:258-263). */
    method AdjacentLoop(view: seq<nat>, bias: real, maxOverlap: real, maxGap: real)
      requires InRange(view, |events|)
      modifies this
      ensures events == AdjacentUpTo(old(events), view, bias, maxOverlap, maxGap, Pairs(view))
      ensures scriptInfo == old(scriptInfo) && styles == old(styles)
    {
      ghost var orig := events;
      var k := 0;
      while k < Pairs(view)
        invariant 0 <= k <= Pairs(view) && |events| == |orig|
        invariant events == AdjacentUpTo(orig, view, bias, maxOverlap, maxGap, k)
        invariant scriptInfo == old(scriptInfo) && styles == old(styles)
      {
        var previous, current := view[k], view[k + 1];
        var distance := events[current].start - events[previous].end;
        if Closes(distance, maxOverlap, maxGap) {
          var newTime := JoinTime(events[previous].end, distance, bias);
          events := events[current := events[current].(start := newTime)];
          events := events[previous := events[previous].(end := newTime)];
        }
        k := k + 1;
      }
    }

    /** The snapping loop (subs.py:272-279), with `snap` the snapping of
        one event; an error ends it and leaves the events snapped so far. */
    method SnapLoop(view: seq<nat>, snap: AssEvent -> Result<AssEvent>) returns (outcome: Outcome)
      requires InRange(view, |events|)
      modifies this
      ensures TppRun(outcome, events) == SnapUpTo(old(events), view, snap, |view|)
      ensures scriptInfo == old(scriptInfo) && styles == old(styles)
    {
      ghost var orig := events;
      var k := 0;
      while k < |view|
        invariant 0 <= k <= |view| && |events| == |orig|
        invariant TppRun(Pass, events) == SnapUpTo(orig, view, snap, k)
        invariant scriptInfo == old(scriptInfo) && styles == old(styles)
      {
        var ev := view[k];
        var snapped := snap(events[ev]);
        SnapStep(orig, view, snap, k, events, snapped);
        if snapped.Err? {
          SnapFailStays(orig, view, snap, k + 1, |view|);
          return Fail(snapped.error);
        }
        events := events[ev := snapped.value];
        k := k + 1;
      }
      return Pass;
    }

    /** `if lead_in:` the lead-in loop over the view sorted by end time
        (subs.py:230-240). */
    method LeadInIfAsked(view: seq<nat>, p: TppParams)
      requires InRange(view, |events|) && Distinct(view)
      modifies this
      ensures events == LeadInIfSet(old(events), view, p)
      ensures scriptInfo == old(scriptInfo) && styles == old(styles)
    {
      if p.leadIn != 0.0 {
        var sortedByEnd := SortBy(view, EndKey(events), false);
        SortedIndices(view, EndKey(events), |events|);
        LeadInLoop(sortedByEnd, p.leadIn / 1000.0);
      }
    }

    /** The lead-in, lead-out and joining stages, each when its parameter
        is set (subs.py:230-263). */
    method Retime(view: seq<nat>, p: TppParams)
      requires InRange(view, |events|) && Distinct(view)
      modifies this
      ensures events == Retimed(old(events), view, p)
      ensures scriptInfo == old(scriptInfo) && styles == old(styles)
    {
      LeadInIfAsked(view, p);
      ghost var afterIn := events;
      if p.leadOut != 0.0 {
        LeadOutLoop(view, p.leadOut / 1000.0);
      }
      ghost var afterOut := events;
      assert afterOut == LeadOutIfSet(afterIn, view, p);
      if p.maxOverlap != 0.0 || p.maxGap != 0.0 {
        AdjacentLoop(view, p.adjacentBias / 100.0, p.maxOverlap / 1000.0, p.maxGap / 1000.0);
      }
      assert events == AdjacentIfSet(afterOut, view, p);
    }

    /** tpp(...) (subs.py:205-279): validate the selected events, then run
        each stage whose parameter is set, in place. */
    method Tpp(p: TppParams) returns (outcome: Outcome)
      modifies this
      ensures TppRun(outcome, events) == TppSpec(old(events), p)
      ensures scriptInfo == old(scriptInfo) && styles == old(styles)
    {
      var view := View(events, p.styles);
      ViewIndices(events, p.styles);
      var broken := FirstBroken(events, view);
      if broken.Some? {
        return Fail(Prass(NegativeDuration(broken.value)));
      }
      ghost var orig := events;
      Retime(view, p);
      if !SnapsKeyframes(p) {
        return Pass;
      }
      var keytimes := Keytimes(p.keyframes, p.timecodes);
      if keytimes.Err? {
        return Fail(keytimes.error);
      }
      outcome := SnapLoop(view, Snapper(keytimes.value, p.timecodes, WindowsOf(p)));
    }

    // -------------------------------------------------------------------
    // cleanup and shift (subs.py:281-307)
    // -------------------------------------------------------------------

    /** for event in self._events: event.actor = '' */
    method ClearActors()
      modifies this
      ensures |events| == |old(events)|
      ensures forall i :: 0 <= i < |events| ==> events[i] == old(events)[i].(actor := [])
      ensures scriptInfo == old(scriptInfo) && styles == old(styles)
    {
      var i := 0;
      while i < |events|
        invariant 0 <= i <= |events| && |events| == |old(events)|
        invariant forall k :: 0 <= k < i ==> events[k] == old(events)[k].(actor := [])
        invariant forall k :: i <= k < |events| ==> events[k] == old(events)[k]
        invariant scriptInfo == old(scriptInfo) && styles == old(styles)
      {
        events := events[i := events[i].(actor := [])];
        i := i + 1;
      }
    }

    /** for event in self._events: event.effect = '' */
    method ClearEffects()
      modifies this
      ensures |events| == |old(events)|
      ensures forall i :: 0 <= i < |events| ==> events[i] == old(events)[i].(effect := [])
      ensures scriptInfo == old(scriptInfo) && styles == old(styles)
    {
      var i := 0;
      while i < |events|
        invariant 0 <= i <= |events| && |events| == |old(events)|
        invariant forall k :: 0 <= k < i ==> events[k] == old(events)[k].(effect := [])
        invariant forall k :: i <= k < |events| ==> events[k] == old(events)[k]
        invariant scriptInfo == old(scriptInfo) && styles == old(styles)
      {
        events := events[i := events[i].(effect := [])];
        i := i + 1;
      }
    }

    /** The loop over a snapshot of the style names that deletes every one
        no event uses (subs.py:289-292). */
    method DropUnusedStyles()
      modifies this
      ensures styles == KeepStyles(old(styles), UsedStyles(events), Names(old(styles)))
      ensures scriptInfo == old(scriptInfo) && events == old(events)
    {
      styles := DropUnused(styles, UsedStyles(events));
    }

    /** cleanup(...) (subs.py:281-300): the two filters, then the style,
        actor and effect clean-ups, each only when asked for. */
    method Cleanup(dropComments: bool, dropEmptyLines: bool, dropUnusedStyles: bool, dropActors: bool,
                   dropEffects: bool)
      modifies this
      ensures var kept := if dropComments then WithoutComments(old(events)) else old(events);
        var filtered := if dropEmptyLines then WithText(kept) else kept;
        && |events| == |filtered|
        && (forall i :: 0 <= i < |events| ==>
              events[i] == filtered[i].(actor := if dropActors then [] else filtered[i].actor,
                                        effect := if dropEffects then [] else filtered[i].effect))
        && styles == (if dropUnusedStyles then KeepStyles(old(styles), UsedStyles(filtered), Names(old(styles)))
                      else old(styles))
      ensures scriptInfo == old(scriptInfo)
    {
      if dropComments {
        events := WithoutComments(events);
      }
      if dropEmptyLines {
        events := WithText(events);
      }
      ghost var filtered := events;
      if dropUnusedStyles {
        DropUnusedStyles();
      }
      if dropActors {
        ClearActors();
      }
      if dropEffects {
        ClearEffects();
      }
    }

    /** shift(shift, shift_start, shift_end) (subs.py:302-307) */
    method Shift(shift: real, shiftStart: bool, shiftEnd: bool)
      modifies this
      ensures |events| == |old(events)|
      ensures forall i :: 0 <= i < |events| ==> events[i] == ShiftEvent(old(events)[i], shift, shiftStart, shiftEnd)
      ensures scriptInfo == old(scriptInfo) && styles == old(styles)
    {
      var i := 0;
      while i < |events|
        invariant 0 <= i <= |events| && |events| == |old(events)|
        invariant forall k :: 0 <= k < i ==> events[k] == ShiftEvent(old(events)[k], shift, shiftStart, shiftEnd)
        invariant forall k :: i <= k < |events| ==> events[k] == old(events)[k]
        invariant scriptInfo == old(scriptInfo) && styles == old(styles)
      {
        var e := events[i];
        if shiftStart {
          e := e.(start := ShiftTime(e.start, shift));
        }
        if shiftEnd {
          e := e.(end := ShiftTime(e.end, shift));
        }
        events := events[i := e];
        i := i + 1;
      }
    }
  }
}
