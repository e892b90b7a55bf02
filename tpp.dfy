// The timing post-processor of AssScript.tpp (subs.py:205-279), stated as
// functions over the script's event list and the index view the stages walk.
// Each stage is a left fold over the view that follows the source's loops
// iteration by iteration; the class method in the Script module runs the
// loops themselves and is proved equal to these folds.

module Tpp {

  import opened Common
  import opened PyStr
  import opened Sorting
  import opened Timecodes
  import opened AssLines

  /** The arguments of tpp; times are in milliseconds and the bias in percent,
      as the caller passes them. */
  datatype TppParams = TppParams(
    styles: seq<string>,
    leadIn: real,
    leadOut: real,
    maxOverlap: real,
    maxGap: real,
    adjacentBias: real,
    keyframes: Option<seq<int>>,
    timecodes: Option<Timecodes>,
    kfBeforeStart: real,
    kfAfterStart: real,
    kfBeforeEnd: real,
    kfAfterEnd: real)

  /** How a run of tpp ends, and the event list it leaves behind. */
  datatype TppRun = TppRun(outcome: Outcome, events: seq<AssEvent>)

  function Max(a: real, b: real): real {
    if a >= b then a else b
  }

  function Min(a: real, b: real): real {
    if a <= b then a else b
  }

  function Abs(x: real): real {
    if x < 0.0 then -x else x
  }

  // ---------------------------------------------------------------------
  // Which events take part, and in which order (subs.py:219-227)
  // ---------------------------------------------------------------------

  function LowerAll(names: seq<string>): seq<string> {
    seq(|names|, i requires 0 <= i < |names| => Lower(names[i]))
  }

  /** Not a comment, and of a listed style (compared lower-cased) unless no
      style is listed. */
  predicate Selected(e: AssEvent, styles: seq<string>) {
    !IsComment(e) && (styles == [] || Lower(e.style) in LowerAll(styles))
  }

  /** The indices of the selected events, in script order. */
  function SelectedIndices(evs: seq<AssEvent>, styles: seq<string>): (r: seq<nat>)
    ensures forall k :: 0 <= k < |r| ==> r[k] < |evs| && Selected(evs[r[k]], styles)
    ensures forall i, j :: 0 <= i < j < |r| ==> r[i] < r[j]
    ensures forall i :: 0 <= i < |evs| && Selected(evs[i], styles) ==> i in r
    decreases |evs|
  {
    if evs == [] then []
    else
      var n := |evs| - 1;
      SelectedIndices(evs[..n], styles) + (if Selected(evs[n], styles) then [n] else [])
  }

  /** The style filter folds case beyond ASCII: the filter "ПОДПИСИ" selects a
      dialogue line of style "Подписи". */
  lemma SelectedFoldsCyrillic(e: AssEvent)
    requires e.kind == "Dialogue"
    requires e.style == "\U{41F}\U{43E}\U{434}\U{43F}\U{438}\U{441}\U{438}"
    ensures Selected(e, ["\U{41F}\U{41E}\U{414}\U{41F}\U{418}\U{421}\U{418}"])
  {
    assert Lower(e.kind) != "comment" by {
      assert Lower(e.kind)[0] == 'd';
    }
    var filter := "\U{41F}\U{41E}\U{414}\U{41F}\U{418}\U{421}\U{418}";
    var small := "\U{43F}\U{43E}\U{434}\U{43F}\U{438}\U{441}\U{438}";
    assert Lower(e.style) == small;
    assert Lower(filter) == small;
    assert LowerAll([filter])[0] == small;
  }

  function StartKey(evs: seq<AssEvent>): nat -> KeyValue {
    (p: nat) => if p < |evs| then Num(evs[p].start) else Num(0.0)
  }

  function EndKey(evs: seq<AssEvent>): nat -> KeyValue {
    (p: nat) => if p < |evs| then Num(evs[p].end) else Num(0.0)
  }

  /** events_list: the selected events sorted (stably) by start. */
  function View(evs: seq<AssEvent>, styles: seq<string>): seq<nat> {
    SortBy(SelectedIndices(evs, styles), StartKey(evs), false)
  }

  /** Every entry names an event of the list. */
  predicate InRange(order: seq<nat>, n: nat) {
    forall k :: 0 <= k < |order| ==> order[k] < n
  }

  /** No event is named twice, so the stages never see one event as two. */
  predicate Distinct(order: seq<nat>) {
    forall i, j :: 0 <= i < j < |order| ==> order[i] != order[j]
  }

  lemma RepeatCountsTwice(s: seq<nat>, i: nat, j: nat)
    requires i < j < |s| && s[i] == s[j]
    ensures multiset(s)[s[i]] >= 2
  {
    assert s == s[..i] + [s[i]] + s[i + 1..j] + [s[j]] + s[j + 1..];
  }

  lemma {:induction false} DistinctCountsOnce(s: seq<nat>, x: nat)
    requires Distinct(s)
    ensures multiset(s)[x] <= 1
    decreases |s|
  {
    if s != [] {
      var n := |s| - 1;
      DistinctCountsOnce(s[..n], x);
      assert s == s[..n] + [s[n]];
      if x == s[n] {
        assert x !in s[..n];
      }
    }
  }

  /** A stable sort of distinct indices keeps exactly those indices, once each. */
  lemma SortedIndices(s: seq<nat>, key: nat -> KeyValue, n: nat)
    requires InRange(s, n) && Distinct(s)
    ensures var order := SortBy(s, key, false);
      && InRange(order, n) && Distinct(order)
      && forall x :: x in order <==> x in s
  {
    var order := SortBy(s, key, false);
    SortByPermutation(s, key, false);
    forall x
      ensures x in order <==> x in s
    {
      assert x in order <==> x in multiset(s);
    }
    forall k | 0 <= k < |order|
      ensures order[k] < n
    {
      assert order[k] in s;
    }
    forall i, j | 0 <= i < j < |order|
      ensures order[i] != order[j]
    {
      if order[i] == order[j] {
        RepeatCountsTwice(order, i, j);
        DistinctCountsOnce(s, order[i]);
        assert false;
      }
    }
  }

  /** The view holds exactly the selected events, once each. */
  lemma ViewIndices(evs: seq<AssEvent>, styles: seq<string>)
    ensures var view := View(evs, styles);
      && InRange(view, |evs|) && Distinct(view)
      && (forall k :: 0 <= k < |view| ==> Selected(evs[view[k]], styles))
      && (forall i :: 0 <= i < |evs| ==> (i in view <==> Selected(evs[i], styles)))
  {
    var sel := SelectedIndices(evs, styles);
    var view := View(evs, styles);
    SortedIndices(sel, StartKey(evs), |evs|);
    forall k | 0 <= k < |view|
      ensures Selected(evs[view[k]], styles)
    {
      assert view[k] in sel;
    }
  }

  /** next(e for e in events_list if e.start > e.end): the first event of the
      view that ends before it starts, by its index in the script. */
  function FirstBroken(evs: seq<AssEvent>, view: seq<nat>): (r: Option<nat>)
    requires InRange(view, |evs|)
    ensures r.None? <==> forall k :: 0 <= k < |view| ==> evs[view[k]].start <= evs[view[k]].end
    ensures r.Some? ==> r.value in view && evs[r.value].start > evs[r.value].end
    decreases |view|
  {
    if view == [] then None
    else if evs[view[0]].start > evs[view[0]].end then Some(view[0])
    else
      var rest := FirstBroken(evs, view[1..]);
      assert forall k :: 1 <= k < |view| ==> view[k] == view[1..][k - 1];
      rest
  }

  // ---------------------------------------------------------------------
  // Only the times of the view's events change
  // ---------------------------------------------------------------------

  /** `b` is `a` with at most the start and end of the events in `view` changed. */
  predicate TimesOnlyIn(a: seq<AssEvent>, b: seq<AssEvent>, view: seq<nat>) {
    && |a| == |b|
    && (forall i :: 0 <= i < |a| && i !in view ==> b[i] == a[i])
    && (forall i :: 0 <= i < |a| ==> b[i] == a[i].(start := b[i].start, end := b[i].end))
  }

  /** Changing the times of one event of the view keeps the frame. */
  lemma TimesOnlyInStep(a: seq<AssEvent>, b: seq<AssEvent>, view: seq<nat>, ev: nat, e: AssEvent)
    requires TimesOnlyIn(a, b, view) && ev < |b| && ev in view
    requires e == b[ev].(start := e.start, end := e.end)
    ensures TimesOnlyIn(a, b[ev := e], view)
  {
  }

  lemma TimesOnlyInReflexive(a: seq<AssEvent>, view: seq<nat>)
    ensures TimesOnlyIn(a, a, view)
  {
    forall i | 0 <= i < |a|
      ensures a[i] == a[i].(start := a[i].start, end := a[i].end)
    {
    }
  }

  lemma TimesOnlyInTransitive(a: seq<AssEvent>, b: seq<AssEvent>, c: seq<AssEvent>, view: seq<nat>)
    requires TimesOnlyIn(a, b, view) && TimesOnlyIn(b, c, view)
    ensures TimesOnlyIn(a, c, view)
  {
    forall i | 0 <= i < |a|
      ensures c[i] == a[i].(start := c[i].start, end := c[i].end)
    {
      assert b[i] == a[i].(start := b[i].start, end := b[i].end);
    }
  }

  // ---------------------------------------------------------------------
  // Lead-in (subs.py:230-240)
  // ---------------------------------------------------------------------

  /** The inner loop of the lead-in: from the candidate `initial`, walk
      order[j-1], order[j-2], ..., order[0] (the events ending no later than
      event `ev`, latest end first), stop at the first one that ends by the
      candidate, and raise the candidate to the end of each one that does not
      collide with `ev`. */
  function LeadInScan(evs: seq<AssEvent>, order: seq<nat>, ev: nat, j: nat, initial: real): real
    requires ev < |evs| && j <= |order| && InRange(order, |evs|)
    decreases j
  {
    if j == 0 then initial
    else
      var other := evs[order[j - 1]];
      if other.end <= initial then initial
      else
        LeadInScan(evs, order, ev, j - 1,
          if !CollidesWith(evs[ev], other) then Max(initial, other.end) else initial)
  }

  /** The events after the first k iterations of the lead-in's outer loop:
      each new start is written before the next event is looked at. */
  function LeadInUpTo(evs: seq<AssEvent>, order: seq<nat>, leadIn: real, k: nat): (r: seq<AssEvent>)
    requires k <= |order| && InRange(order, |evs|)
    ensures |r| == |evs|
    decreases k
  {
    if k == 0 then evs
    else
      var prev := LeadInUpTo(evs, order, leadIn, k - 1);
      var ev := order[k - 1];
      prev[ev := prev[ev].(start := LeadInScan(prev, order, ev, k - 1, prev[ev].start - leadIn))]
  }

  /** The scan only raises the candidate, and it ends on the candidate or on
      the end of one of the events it walked; if none of those ends after the
      candidate, the candidate stands. */
  lemma {:induction false} LeadInScanBounds(evs: seq<AssEvent>, order: seq<nat>, ev: nat, j: nat, initial: real)
    requires ev < |evs| && j <= |order| && InRange(order, |evs|)
    ensures LeadInScan(evs, order, ev, j, initial) >= initial
    ensures var r := LeadInScan(evs, order, ev, j, initial);
      r == initial || exists k :: 0 <= k < j && r == evs[order[k]].end
    ensures (forall k :: 0 <= k < j ==> evs[order[k]].end <= initial) ==>
      LeadInScan(evs, order, ev, j, initial) == initial
    decreases j
  {
    if j > 0 {
      var other := evs[order[j - 1]];
      if other.end > initial {
        var next := if !CollidesWith(evs[ev], other) then Max(initial, other.end) else initial;
        LeadInScanBounds(evs, order, ev, j - 1, next);
      }
    }
  }

  /** After k iterations only the starts of order[..k] have moved. */
  lemma {:induction false} LeadInFrame(evs: seq<AssEvent>, order: seq<nat>, leadIn: real, k: nat)
    requires k <= |order| && InRange(order, |evs|) && Distinct(order)
    ensures var r := LeadInUpTo(evs, order, leadIn, k);
      && (forall i :: 0 <= i < |evs| ==> r[i] == evs[i].(start := r[i].start))
      && (forall i :: 0 <= i < |evs| && i !in order[..k] ==> r[i] == evs[i])
    decreases k
  {
    if k > 0 {
      LeadInFrame(evs, order, leadIn, k - 1);
      var r := LeadInUpTo(evs, order, leadIn, k);
      forall i | 0 <= i < |evs| && i !in order[..k]
        ensures r[i] == evs[i]
      {
        assert i != order[k - 1];
        assert i !in order[..k - 1];
      }
    }
  }

  /** The event at order[k-1] is still untouched when its turn comes. */
  lemma LeadInTurn(evs: seq<AssEvent>, order: seq<nat>, leadIn: real, k: nat)
    requires 0 < k <= |order| && InRange(order, |evs|) && Distinct(order)
    ensures LeadInUpTo(evs, order, leadIn, k - 1)[order[k - 1]] == evs[order[k - 1]]
  {
    LeadInFrame(evs, order, leadIn, k - 1);
    assert order[k - 1] !in order[..k - 1];
  }

  /** The new start of the k-th event in `order`, as its turn leaves it,
      and no later turn changes it. */
  lemma LeadInKeeps(evs: seq<AssEvent>, order: seq<nat>, leadIn: real, m: nat, k: nat)
    requires m < k <= |order| && InRange(order, |evs|) && Distinct(order)
    ensures LeadInUpTo(evs, order, leadIn, k)[order[m]] == LeadInUpTo(evs, order, leadIn, m + 1)[order[m]]
    decreases k
  {
    if k > m + 1 {
      LeadInKeeps(evs, order, leadIn, m, k - 1);
      assert order[k - 1] != order[m];
    }
  }

  /** The same bounds for the new start as its own turn leaves it. */
  lemma LeadInTurnBounds(evs: seq<AssEvent>, order: seq<nat>, leadIn: real, m: nat)
    requires m < |order| && InRange(order, |evs|) && Distinct(order)
    ensures var r := LeadInUpTo(evs, order, leadIn, m + 1);
      && r[order[m]].start >= evs[order[m]].start - leadIn
      && ((forall j :: 0 <= j < m ==> evs[order[j]].end <= evs[order[m]].start - leadIn) ==>
            r[order[m]].start == evs[order[m]].start - leadIn)
  {
    var prev := LeadInUpTo(evs, order, leadIn, m);
    var ev := order[m];
    LeadInTurn(evs, order, leadIn, m + 1);
    LeadInFrame(evs, order, leadIn, m);
    assert forall j :: 0 <= j < m ==> prev[order[j]].end == evs[order[j]].end;
    LeadInScanBounds(prev, order, ev, m, prev[ev].start - leadIn);
  }

  /** Each processed event's new start is at least its old start minus the
      lead-in; an event that no earlier-ending event outlasts past that
      candidate gets exactly the candidate, which is not clamped at zero. */
  lemma LeadInBounds(evs: seq<AssEvent>, order: seq<nat>, leadIn: real, m: nat)
    requires m < |order| && InRange(order, |evs|) && Distinct(order)
    ensures var r := LeadInUpTo(evs, order, leadIn, |order|);
      && r[order[m]].start >= evs[order[m]].start - leadIn
      && ((forall j :: 0 <= j < m ==> evs[order[j]].end <= evs[order[m]].start - leadIn) ==>
            r[order[m]].start == evs[order[m]].start - leadIn)
  {
    LeadInTurnBounds(evs, order, leadIn, m);
    LeadInKeeps(evs, order, leadIn, m, |order|);
  }

  /** The lead-in stage: sorted_by_end, then the outer loop over all of it. */
  function LeadInStage(evs: seq<AssEvent>, view: seq<nat>, leadIn: real): (r: seq<AssEvent>)
    requires InRange(view, |evs|) && Distinct(view)
    ensures |r| == |evs|
  {
    var order := SortBy(view, EndKey(evs), false);
    SortedIndices(view, EndKey(evs), |evs|);
    LeadInUpTo(evs, order, leadIn, |order|)
  }

  /** The lead-in moves nothing but the starts of the view's events. */
  lemma LeadInStageFrame(evs: seq<AssEvent>, view: seq<nat>, leadIn: real)
    requires InRange(view, |evs|) && Distinct(view)
    ensures var r := LeadInStage(evs, view, leadIn);
      && TimesOnlyIn(evs, r, view)
      && forall i :: 0 <= i < |evs| ==> r[i].end == evs[i].end
  {
    var order := SortBy(view, EndKey(evs), false);
    SortedIndices(view, EndKey(evs), |evs|);
    LeadInFrame(evs, order, leadIn, |order|);
    assert order[..|order|] == order;
  }

  // ---------------------------------------------------------------------
  // Lead-out (subs.py:242-251)
  // ---------------------------------------------------------------------

  /** The inner loop of the lead-out: from the candidate `initial`, walk
      view[j], view[j+1], ... (the event `ev` itself first, then the ones
      after it in start order), stop at the first one that starts after the
      candidate, and lower the candidate to the start of each one that does
      not collide with `ev`. */
  function LeadOutScan(evs: seq<AssEvent>, view: seq<nat>, ev: nat, j: nat, initial: real): real
    requires ev < |evs| && j <= |view| && InRange(view, |evs|)
    decreases |view| - j
  {
    if j == |view| then initial
    else
      var other := evs[view[j]];
      if other.start > initial then initial
      else
        LeadOutScan(evs, view, ev, j + 1,
          if !CollidesWith(evs[ev], other) then Min(initial, other.start) else initial)
  }

  /** The events after the first k iterations of the lead-out's outer loop. */
  function LeadOutUpTo(evs: seq<AssEvent>, view: seq<nat>, leadOut: real, k: nat): (r: seq<AssEvent>)
    requires k <= |view| && InRange(view, |evs|)
    ensures |r| == |evs|
    decreases k
  {
    if k == 0 then evs
    else
      var prev := LeadOutUpTo(evs, view, leadOut, k - 1);
      var ev := view[k - 1];
      prev[ev := prev[ev].(end := LeadOutScan(prev, view, ev, k - 1, prev[ev].end + leadOut))]
  }

  /** The scan only lowers the candidate, and it ends on the candidate or on
      the start of one of the events it walked. */
  lemma {:induction false} LeadOutScanBounds(evs: seq<AssEvent>, view: seq<nat>, ev: nat, j: nat, initial: real)
    requires ev < |evs| && j <= |view| && InRange(view, |evs|)
    ensures LeadOutScan(evs, view, ev, j, initial) <= initial
    ensures var r := LeadOutScan(evs, view, ev, j, initial);
      r == initial || exists k :: j <= k < |view| && r == evs[view[k]].start
    decreases |view| - j
  {
    if j < |view| {
      var other := evs[view[j]];
      if other.start <= initial {
        var next := if !CollidesWith(evs[ev], other) then Min(initial, other.start) else initial;
        LeadOutScanBounds(evs, view, ev, j + 1, next);
      }
    }
  }

  /** After k iterations only the ends of view[..k] have moved. */
  lemma {:induction false} LeadOutFrame(evs: seq<AssEvent>, view: seq<nat>, leadOut: real, k: nat)
    requires k <= |view| && InRange(view, |evs|) && Distinct(view)
    ensures var r := LeadOutUpTo(evs, view, leadOut, k);
      && (forall i :: 0 <= i < |evs| ==> r[i] == evs[i].(end := r[i].end))
      && (forall i :: 0 <= i < |evs| && i !in view[..k] ==> r[i] == evs[i])
    decreases k
  {
    if k > 0 {
      LeadOutFrame(evs, view, leadOut, k - 1);
      var r := LeadOutUpTo(evs, view, leadOut, k);
      forall i | 0 <= i < |evs| && i !in view[..k]
        ensures r[i] == evs[i]
      {
        assert i != view[k - 1];
        assert i !in view[..k - 1];
      }
    }
  }

  lemma LeadOutKeeps(evs: seq<AssEvent>, view: seq<nat>, leadOut: real, m: nat, k: nat)
    requires m < k <= |view| && InRange(view, |evs|) && Distinct(view)
    ensures LeadOutUpTo(evs, view, leadOut, k)[view[m]] == LeadOutUpTo(evs, view, leadOut, m + 1)[view[m]]
    decreases k
  {
    if k > m + 1 {
      LeadOutKeeps(evs, view, leadOut, m, k - 1);
      assert view[k - 1] != view[m];
    }
  }

  /** Each new end is at most the old end plus the lead-out, and it is either
      exactly that or the start of the event itself or of one after it in
      start order. */
  lemma LeadOutBounds(evs: seq<AssEvent>, view: seq<nat>, leadOut: real, m: nat)
    requires m < |view| && InRange(view, |evs|) && Distinct(view)
    ensures var r := LeadOutUpTo(evs, view, leadOut, |view|);
      && r[view[m]].end <= evs[view[m]].end + leadOut
      && (r[view[m]].end == evs[view[m]].end + leadOut
          || exists j :: m <= j < |view| && r[view[m]].end == evs[view[j]].start)
  {
    var prev := LeadOutUpTo(evs, view, leadOut, m);
    var ev := view[m];
    LeadOutFrame(evs, view, leadOut, m);
    assert ev !in view[..m];
    assert prev[ev] == evs[ev];
    assert forall j :: 0 <= j < |view| ==> prev[view[j]].start == evs[view[j]].start;
    LeadOutScanBounds(prev, view, ev, m, prev[ev].end + leadOut);
    LeadOutKeeps(evs, view, leadOut, m, |view|);
  }

  /** The lead-out stage: the outer loop over the whole view. */
  function LeadOutStage(evs: seq<AssEvent>, view: seq<nat>, leadOut: real): (r: seq<AssEvent>)
    requires InRange(view, |evs|)
    ensures |r| == |evs|
  {
    LeadOutUpTo(evs, view, leadOut, |view|)
  }

  lemma LeadOutStageFrame(evs: seq<AssEvent>, view: seq<nat>, leadOut: real)
    requires InRange(view, |evs|) && Distinct(view)
    ensures TimesOnlyIn(evs, LeadOutStage(evs, view, leadOut), view)
  {
    LeadOutFrame(evs, view, leadOut, |view|);
    assert view[..|view|] == view;
  }

  // ---------------------------------------------------------------------
  // Closing small gaps and overlaps (subs.py:253-263)
  // ---------------------------------------------------------------------

  /** A pair is joined when it overlaps by at most max_overlap or is apart by
      at most max_gap; pairs that touch exactly are left alone. */
  predicate Closes(distance: real, maxOverlap: real, maxGap: real) {
    (distance < 0.0 && -distance <= maxOverlap) || (distance > 0.0 && distance <= maxGap)
  }

  /** The number of consecutive pairs izip(events_list, events_list[1:]) yields. */
  function Pairs(view: seq<nat>): nat {
    if view == [] then 0 else |view| - 1
  }

  /** Where a joined pair meets: previous.end + distance * bias. */
  function JoinTime(previousEnd: real, distance: real, bias: real): real {
    previousEnd + distance * bias
  }

  /** The events after the first k pairs: the pair (view[k-1], view[k]) is
      joined at previous.end + distance * bias. */
  function AdjacentUpTo(evs: seq<AssEvent>, view: seq<nat>, bias: real, maxOverlap: real, maxGap: real, k: nat)
    : (r: seq<AssEvent>)
    requires k <= Pairs(view) && InRange(view, |evs|)
    ensures |r| == |evs|
    decreases k
  {
    if k == 0 then evs
    else
      var prev := AdjacentUpTo(evs, view, bias, maxOverlap, maxGap, k - 1);
      var previous, current := view[k - 1], view[k];
      var distance := prev[current].start - prev[previous].end;
      if Closes(distance, maxOverlap, maxGap) then
        var newTime := JoinTime(prev[previous].end, distance, bias);
        var moved := prev[current := prev[current].(start := newTime)];
        moved[previous := moved[previous].(end := newTime)]
      else prev
  }

  /** After k pairs only the starts of view[1..k+1] and the ends of view[..k]
      may have moved. */
  lemma {:induction false} AdjacentFrame(evs: seq<AssEvent>, view: seq<nat>, bias: real, maxOverlap: real, maxGap: real, k: nat)
    requires k <= Pairs(view) && InRange(view, |evs|) && Distinct(view)
    ensures var r := AdjacentUpTo(evs, view, bias, maxOverlap, maxGap, k);
      && TimesOnlyIn(evs, r, view)
      && (forall j :: k < j < |view| ==> r[view[j]].start == evs[view[j]].start)
      && (forall j :: k <= j < |view| ==> r[view[j]].end == evs[view[j]].end)
    decreases k
  {
    if k > 0 {
      AdjacentFrame(evs, view, bias, maxOverlap, maxGap, k - 1);
      var prev := AdjacentUpTo(evs, view, bias, maxOverlap, maxGap, k - 1);
      var r := AdjacentUpTo(evs, view, bias, maxOverlap, maxGap, k);
      forall j | k < j < |view|
        ensures r[view[j]].start == evs[view[j]].start
      {
        assert view[j] != view[k];
      }
      forall j | k <= j < |view|
        ensures r[view[j]].end == evs[view[j]].end
      {
        assert view[j] != view[k - 1];
      }
      forall i | 0 <= i < |evs| && i !in view
        ensures r[i] == evs[i]
      {
        assert i != view[k] && i != view[k - 1];
      }
    }
  }

  /** Once the pair (view[i], view[i+1]) is done, later pairs leave its two
      joined times alone. */
  lemma AdjacentKeeps(evs: seq<AssEvent>, view: seq<nat>, bias: real, maxOverlap: real, maxGap: real, i: nat, k: nat)
    requires i < k <= Pairs(view) && InRange(view, |evs|) && Distinct(view)
    ensures var r := AdjacentUpTo(evs, view, bias, maxOverlap, maxGap, k);
      var q := AdjacentUpTo(evs, view, bias, maxOverlap, maxGap, i + 1);
      r[view[i]].end == q[view[i]].end && r[view[i + 1]].start == q[view[i + 1]].start
    decreases k
  {
    if k > i + 1 {
      AdjacentKeeps(evs, view, bias, maxOverlap, maxGap, i, k - 1);
      assert view[k] != view[i] && view[k] != view[i + 1];
      assert view[k - 1] != view[i];
    }
  }

  /** Each consecutive pair that overlaps or is apart within the limits ends
      up meeting at previous.end + distance * bias, with distance measured
      before the stage; every other pair keeps its times. */
  lemma AdjacentPair(evs: seq<AssEvent>, view: seq<nat>, bias: real, maxOverlap: real, maxGap: real, i: nat)
    requires i + 1 < |view| && InRange(view, |evs|) && Distinct(view)
    ensures var r := AdjacentUpTo(evs, view, bias, maxOverlap, maxGap, Pairs(view));
      var distance := evs[view[i + 1]].start - evs[view[i]].end;
      && (Closes(distance, maxOverlap, maxGap) ==>
            r[view[i]].end == r[view[i + 1]].start == JoinTime(evs[view[i]].end, distance, bias))
      && (!Closes(distance, maxOverlap, maxGap) ==>
            r[view[i]].end == evs[view[i]].end && r[view[i + 1]].start == evs[view[i + 1]].start)
  {
    AdjacentFrame(evs, view, bias, maxOverlap, maxGap, i);
    assert view[i] != view[i + 1];
    AdjacentKeeps(evs, view, bias, maxOverlap, maxGap, i, Pairs(view));
  }

  /** The joining stage: every consecutive pair of the view. */
  function AdjacentStage(evs: seq<AssEvent>, view: seq<nat>, bias: real, maxOverlap: real, maxGap: real)
    : (r: seq<AssEvent>)
    requires InRange(view, |evs|)
    ensures |r| == |evs|
  {
    AdjacentUpTo(evs, view, bias, maxOverlap, maxGap, Pairs(view))
  }

  lemma AdjacentStageFrame(evs: seq<AssEvent>, view: seq<nat>, bias: real, maxOverlap: real, maxGap: real)
    requires InRange(view, |evs|) && Distinct(view)
    ensures TimesOnlyIn(evs, AdjacentStage(evs, view, bias, maxOverlap, maxGap), view)
  {
    AdjacentFrame(evs, view, bias, maxOverlap, maxGap, Pairs(view));
  }

  // ---------------------------------------------------------------------
  // Keyframe snapping (subs.py:207-217, 265-279)
  // ---------------------------------------------------------------------

  /** get_distance_to_closest_kf(timestamp, keytimes): the signed distance to
      the keytime bisect_left picks, or to the nearer of its two neighbours,
      the earlier one unless the later one is strictly nearer. An empty list
      fails on keytimes[0]. */
  function ClosestKeytimeDistance(keytimes: seq<real>, t: real): (r: Result<real>)
    ensures r.Err? <==> keytimes == []
    ensures r.Err? ==> r.error == IndexError
    ensures r.Ok? ==> t + r.value in keytimes
  {
    var idx := BisectLeft(keytimes, t);
    if idx == 0 then
      if keytimes == [] then Err(IndexError) else Ok(keytimes[0] - t)
    else if idx == |keytimes| then Ok(keytimes[|keytimes| - 1] - t)
    else
      var before, after := keytimes[idx - 1], keytimes[idx];
      Ok((if after - t < t - before then after else before) - t)
  }

  /** On sorted keytimes the distance is to a nearest keytime, and of two
      equally near ones to the earlier. */
  lemma ClosestIsNearest(keytimes: seq<real>, t: real)
    requires NonDecreasing(keytimes) && keytimes != []
    ensures var r := ClosestKeytimeDistance(keytimes, t).value;
      && (forall k :: 0 <= k < |keytimes| ==> Abs(r) <= Abs(keytimes[k] - t))
      && (forall k :: 0 <= k < |keytimes| && Abs(keytimes[k] - t) == Abs(r) ==> r <= keytimes[k] - t)
  {
    var idx := BisectLeft(keytimes, t);
    BisectLeftSorted(keytimes, t);
    var r := ClosestKeytimeDistance(keytimes, t).value;
    if idx == 0 {
      assert r == keytimes[0] - t;
    } else if idx == |keytimes| {
      assert r == keytimes[|keytimes| - 1] - t;
    } else {
      var before, after := keytimes[idx - 1], keytimes[idx];
      forall k | 0 <= k < |keytimes|
        ensures Abs(r) <= Abs(keytimes[k] - t)
        ensures Abs(keytimes[k] - t) == Abs(r) ==> r <= keytimes[k] - t
      {
        if k < idx {
          assert keytimes[k] <= before;
        } else {
          assert keytimes[k] >= after;
        }
      }
    }
  }

  /** [timecodes.get_frame_time(x) for x in keyframes_list], left to right. */
  function FrameTimes(tc: Timecodes, frames: seq<int>): (r: Result<seq<real>>)
    ensures r.Err? <==> frames != [] && GetFrameTime(tc, frames[0]).Err?
    ensures r.Err? ==> r.error == RecursionError
    ensures r.Ok? ==> |r.value| == |frames|
    ensures r.Ok? ==> forall k :: 0 <= k < |frames| ==> GetFrameTime(tc, frames[k]) == Ok(r.value[k])
    decreases |frames|
  {
    if frames == [] then Ok([])
    else
      var first :- GetFrameTime(tc, frames[0]);
      var rest := FrameTimes(tc, frames[1..]).value;
      Ok([first] + rest)
  }

  /** The keytimes, failing as iterating a missing keyframe list does, or as
      looking up a frame time on missing timecodes does. */
  function Keytimes(keyframes: Option<seq<int>>, timecodes: Option<Timecodes>): Result<seq<real>> {
    match keyframes
    case None => Err(TypeError)
    case Some(frames) =>
      if frames == [] then Ok([])
      else if timecodes.None? then Err(AttributeError)
      else FrameTimes(timecodes.value, frames)
  }

  /** Ascending frames on forward-running timecodes give sorted keytimes. */
  lemma KeytimesSorted(frames: seq<int>, tc: Timecodes)
    requires forall i :: 0 <= i < |frames| ==> frames[i] >= 0
    requires forall i, j :: 0 <= i < j < |frames| ==> frames[i] < frames[j]
    requires tc.Cfr? ==> tc.frameDuration > 0.0
    requires tc.Vfr? ==> NonDecreasing(tc.times) && (tc.times != [] || tc.defaultFrameDuration.Some?)
    requires tc.Vfr? && tc.defaultFrameDuration.Some? ==> tc.defaultFrameDuration.value > 0.0
    ensures Keytimes(Some(frames), Some(tc)).Ok?
    ensures NonDecreasing(Keytimes(Some(frames), Some(tc)).value)
  {
    if frames != [] {
      FrameTimeMonotone(tc, frames[0], frames[0]);
      var kt := FrameTimes(tc, frames).value;
      forall i, j | 0 <= i <= j < |kt|
        ensures kt[i] <= kt[j]
      {
        FrameTimeMonotone(tc, frames[i], frames[j]);
      }
    }
  }

  /** The four snapping tolerances, in seconds. */
  datatype Windows = Windows(beforeStart: real, afterStart: real, beforeEnd: real, afterEnd: real)

  /** A distance is taken when it is non-zero and strictly inside the
      tolerance on its side. */
  predicate InWindow(distance: real, before: real, after: real) {
    (distance < 0.0 && -distance < before) || (distance > 0.0 && distance < after)
  }

  /** One iteration of the snapping loop: the start snaps to its closest
      keytime; the end is probed one frame later but the distance found is
      added to the end itself. */
  function SnapEvent(e: AssEvent, keytimes: seq<real>, timecodes: Option<Timecodes>, w: Windows)
    : (r: Result<AssEvent>)
    ensures r.Err? ==> r.error == IndexError || r.error == AttributeError || r.error == RecursionError
    ensures r.Ok? ==> r.value == e.(start := r.value.start, end := r.value.end)
  {
    var startDistance :- ClosestKeytimeDistance(keytimes, e.start);
    var size :- if timecodes.None? then Err(AttributeError) else GetFrameSize(timecodes.value, e.end);
    // keytimes is not empty here, so this lookup cannot fail
    var endDistance := ClosestKeytimeDistance(keytimes, e.end + size).value;
    var start := if InWindow(startDistance, w.beforeStart, w.afterStart) then e.start + startDistance else e.start;
    var end := if InWindow(endDistance, w.beforeEnd, w.afterEnd) then e.end + endDistance else e.end;
    Ok(e.(start := start, end := end))
  }

  /** A start moves exactly when its distance to the closest keytime is in
      its window, and then lands on that keytime; an end moves exactly when
      the distance from one frame past it is in its window, and then lands
      one frame size before a keytime. */
  lemma SnapRules(e: AssEvent, keytimes: seq<real>, tc: Timecodes, w: Windows)
    requires SnapEvent(e, keytimes, Some(tc), w).Ok?
    ensures var r := SnapEvent(e, keytimes, Some(tc), w).value;
      var size := GetFrameSize(tc, e.end).value;
      var sd := ClosestKeytimeDistance(keytimes, e.start).value;
      var ed := ClosestKeytimeDistance(keytimes, e.end + size).value;
      && (r.start != e.start <==> InWindow(sd, w.beforeStart, w.afterStart))
      && (r.start != e.start ==> r.start in keytimes)
      && (r.end != e.end <==> InWindow(ed, w.beforeEnd, w.afterEnd))
      && (r.end != e.end ==> r.end + size in keytimes)
  {
    var size := GetFrameSize(tc, e.end).value;
    var sd := ClosestKeytimeDistance(keytimes, e.start).value;
    var ed := ClosestKeytimeDistance(keytimes, e.end + size).value;
    assert e.end + ed + size == e.end + size + ed;
  }

  /** The snapping of one event, as the loop applies it to each. */
  function Snapper(keytimes: seq<real>, timecodes: Option<Timecodes>, w: Windows): AssEvent -> Result<AssEvent> {
    e => SnapEvent(e, keytimes, timecodes, w)
  }

  /** The step changes at most the times of this event, and fails only the
      ways a snap does. */
  predicate SnapsOne(snap: AssEvent -> Result<AssEvent>, e: AssEvent) {
    && (snap(e).Ok? ==> snap(e).value == e.(start := snap(e).value.start, end := snap(e).value.end))
    && (snap(e).Err? ==> snap(e).error in {IndexError, AttributeError, RecursionError})
  }

  /** ... and so for every event. */
  ghost predicate SnapsTimesOnly(snap: AssEvent -> Result<AssEvent>) {
    forall e :: SnapsOne(snap, e)
  }

  lemma SnapperTimesOnly(keytimes: seq<real>, timecodes: Option<Timecodes>, w: Windows)
    ensures SnapsTimesOnly(Snapper(keytimes, timecodes, w))
  {
    var snap := Snapper(keytimes, timecodes, w);
    forall e
      ensures SnapsOne(snap, e)
    {
      assert snap(e) == SnapEvent(e, keytimes, timecodes, w);
    }
  }

  /** The snapping loop after its first k events; the first failure stops it. */
  function SnapUpTo(evs: seq<AssEvent>, view: seq<nat>, snap: AssEvent -> Result<AssEvent>, k: nat): (r: TppRun)
    requires k <= |view| && InRange(view, |evs|)
    ensures |r.events| == |evs|
    decreases k
  {
    if k == 0 then TppRun(Pass, evs)
    else
      var prev := SnapUpTo(evs, view, snap, k - 1);
      if prev.outcome.Fail? then prev
      else
        var ev := view[k - 1];
        match snap(prev.events[ev])
        case Err(error) => TppRun(Fail(error), prev.events)
        case Ok(snapped) => TppRun(Pass, prev.events[ev := snapped])
  }

  /** Snapping moves nothing but the times of the view's events, and fails
      only the ways a single snap does. */
  lemma {:induction false} SnapFrame(evs: seq<AssEvent>, view: seq<nat>, snap: AssEvent -> Result<AssEvent>, k: nat)
    requires k <= |view| && InRange(view, |evs|) && SnapsTimesOnly(snap)
    ensures var r := SnapUpTo(evs, view, snap, k);
      && TimesOnlyIn(evs, r.events, view)
      && (r.outcome.Fail? ==> r.outcome.error in {IndexError, AttributeError, RecursionError})
    decreases k
  {
    if k > 0 {
      SnapFrame(evs, view, snap, k - 1);
      var prev := SnapUpTo(evs, view, snap, k - 1);
      if prev.outcome.Pass? {
        var ev := view[k - 1];
        var s := snap(prev.events[ev]);
        assert SnapsOne(snap, prev.events[ev]);
        if s.Ok? {
          TimesOnlyInStep(evs, prev.events, view, ev, s.value);
        }
      }
    }
  }

  /** One more iteration of the snapping loop after k passing ones. */
  lemma SnapStep(evs: seq<AssEvent>, view: seq<nat>, snap: AssEvent -> Result<AssEvent>, k: nat,
                 cur: seq<AssEvent>, snapped: Result<AssEvent>)
    requires k < |view| && InRange(view, |evs|)
    requires SnapUpTo(evs, view, snap, k) == TppRun(Pass, cur)
    requires snapped == snap(cur[view[k]])
    ensures snapped.Err? ==> SnapUpTo(evs, view, snap, k + 1) == TppRun(Fail(snapped.error), cur)
    ensures snapped.Ok? ==> SnapUpTo(evs, view, snap, k + 1) == TppRun(Pass, cur[view[k] := snapped.value])
  {
  }

  /** Once a snap has failed, the later iterations never run: the events
      and the error stay as they were. */
  lemma {:induction false} SnapFailStays(evs: seq<AssEvent>, view: seq<nat>, snap: AssEvent -> Result<AssEvent>,
                                         k: nat, n: nat)
    requires k <= n <= |view| && InRange(view, |evs|)
    requires SnapUpTo(evs, view, snap, k).outcome.Fail?
    ensures SnapUpTo(evs, view, snap, n) == SnapUpTo(evs, view, snap, k)
    decreases n - k
  {
    if k < n {
      SnapFailStays(evs, view, snap, k, n - 1);
    }
  }

  // ---------------------------------------------------------------------
  // The whole of tpp (subs.py:205-279)
  // ---------------------------------------------------------------------

  /** Whether any of the four keyframe tolerances is set. */
  predicate SnapsKeyframes(p: TppParams) {
    p.kfBeforeStart != 0.0 || p.kfAfterStart != 0.0 || p.kfBeforeEnd != 0.0 || p.kfAfterEnd != 0.0
  }

  function WindowsOf(p: TppParams): Windows {
    Windows(p.kfBeforeStart / 1000.0, p.kfAfterStart / 1000.0, p.kfBeforeEnd / 1000.0, p.kfAfterEnd / 1000.0)
  }

  /** `if lead_in:` the lead-in stage, with the lead-in in seconds. */
  function LeadInIfSet(evs: seq<AssEvent>, view: seq<nat>, p: TppParams): (r: seq<AssEvent>)
    requires InRange(view, |evs|) && Distinct(view)
    ensures |r| == |evs|
  {
    if p.leadIn != 0.0 then LeadInStage(evs, view, p.leadIn / 1000.0) else evs
  }

  /** `if lead_out:` the lead-out stage, with the lead-out in seconds. */
  function LeadOutIfSet(evs: seq<AssEvent>, view: seq<nat>, p: TppParams): (r: seq<AssEvent>)
    requires InRange(view, |evs|)
    ensures |r| == |evs|
  {
    if p.leadOut != 0.0 then LeadOutStage(evs, view, p.leadOut / 1000.0) else evs
  }

  /** `if max_overlap or max_gap:` the joining stage, with the bias as a
      fraction and the limits in seconds. */
  function AdjacentIfSet(evs: seq<AssEvent>, view: seq<nat>, p: TppParams): (r: seq<AssEvent>)
    requires InRange(view, |evs|)
    ensures |r| == |evs|
  {
    if p.maxOverlap != 0.0 || p.maxGap != 0.0 then
      AdjacentStage(evs, view, p.adjacentBias / 100.0, p.maxOverlap / 1000.0, p.maxGap / 1000.0)
    else evs
  }

  /** The lead-in, lead-out and joining stages, in that order. */
  function Retimed(evs: seq<AssEvent>, view: seq<nat>, p: TppParams): (r: seq<AssEvent>)
    requires InRange(view, |evs|) && Distinct(view)
    ensures |r| == |evs|
  {
    AdjacentIfSet(LeadOutIfSet(LeadInIfSet(evs, view, p), view, p), view, p)
  }

  /** The stages after validation; keyframe snapping last. */
  function Stages(evs: seq<AssEvent>, view: seq<nat>, p: TppParams): (r: TppRun)
    requires InRange(view, |evs|) && Distinct(view)
  {
    var retimed := Retimed(evs, view, p);
    if !SnapsKeyframes(p) then TppRun(Pass, retimed)
    else
      match Keytimes(p.keyframes, p.timecodes)
      case Err(error) => TppRun(Fail(error), retimed)
      case Ok(keytimes) => SnapUpTo(retimed, view, Snapper(keytimes, p.timecodes, WindowsOf(p)), |view|)
  }

  /** tpp on the script's events: validate the selected events, then run
      the stages over them in start order. */
  function TppSpec(evs: seq<AssEvent>, p: TppParams): TppRun {
    var view := View(evs, p.styles);
    ViewIndices(evs, p.styles);
    match FirstBroken(evs, view)
    case Some(i) => TppRun(Fail(Prass(NegativeDuration(i))), evs)
    case None => Stages(evs, view, p)
  }

  lemma LeadInIfSetFrame(evs: seq<AssEvent>, view: seq<nat>, p: TppParams)
    requires InRange(view, |evs|) && Distinct(view)
    ensures TimesOnlyIn(evs, LeadInIfSet(evs, view, p), view)
  {
    if p.leadIn != 0.0 {
      LeadInStageFrame(evs, view, p.leadIn / 1000.0);
    } else {
      TimesOnlyInReflexive(evs, view);
    }
  }

  lemma LeadOutIfSetFrame(evs: seq<AssEvent>, view: seq<nat>, p: TppParams)
    requires InRange(view, |evs|) && Distinct(view)
    ensures TimesOnlyIn(evs, LeadOutIfSet(evs, view, p), view)
  {
    if p.leadOut != 0.0 {
      LeadOutStageFrame(evs, view, p.leadOut / 1000.0);
    } else {
      TimesOnlyInReflexive(evs, view);
    }
  }

  lemma AdjacentIfSetFrame(evs: seq<AssEvent>, view: seq<nat>, p: TppParams)
    requires InRange(view, |evs|) && Distinct(view)
    ensures TimesOnlyIn(evs, AdjacentIfSet(evs, view, p), view)
  {
    if p.maxOverlap != 0.0 || p.maxGap != 0.0 {
      AdjacentStageFrame(evs, view, p.adjacentBias / 100.0, p.maxOverlap / 1000.0, p.maxGap / 1000.0);
    } else {
      TimesOnlyInReflexive(evs, view);
    }
  }

  lemma RetimedFrame(evs: seq<AssEvent>, view: seq<nat>, p: TppParams)
    requires InRange(view, |evs|) && Distinct(view)
    ensures TimesOnlyIn(evs, Retimed(evs, view, p), view)
  {
    var afterIn := LeadInIfSet(evs, view, p);
    var afterOut := LeadOutIfSet(afterIn, view, p);
    LeadInIfSetFrame(evs, view, p);
    LeadOutIfSetFrame(afterIn, view, p);
    AdjacentIfSetFrame(afterOut, view, p);
    TimesOnlyInTransitive(evs, afterIn, afterOut, view);
    TimesOnlyInTransitive(evs, afterOut, AdjacentIfSet(afterOut, view, p), view);
  }

  /** The stages change nothing but the times of the view's events, and never
      fail with a negative-duration error. */
  lemma StagesFrame(evs: seq<AssEvent>, view: seq<nat>, p: TppParams)
    requires InRange(view, |evs|) && Distinct(view)
    ensures var r := Stages(evs, view, p);
      && TimesOnlyIn(evs, r.events, view)
      && (r.outcome.Fail? ==> r.outcome.error in {IndexError, AttributeError, RecursionError, TypeError})
  {
    var retimed := Retimed(evs, view, p);
    RetimedFrame(evs, view, p);
    if SnapsKeyframes(p) {
      var kt := Keytimes(p.keyframes, p.timecodes);
      if kt.Ok? {
        SnapperTimesOnly(kt.value, p.timecodes, WindowsOf(p));
        SnapFrame(retimed, view, Snapper(kt.value, p.timecodes, WindowsOf(p)), |view|);
        TimesOnlyInTransitive(evs, retimed, Stages(evs, view, p).events, view);
      }
    }
  }

  /** tpp rejects a selected event that ends before it starts, before any
      stage runs, and that is the only way it reports a negative duration. */
  lemma TppRejectsBroken(evs: seq<AssEvent>, p: TppParams)
    ensures var r := TppSpec(evs, p);
      (exists i :: 0 <= i < |evs| && Selected(evs[i], p.styles) && evs[i].start > evs[i].end)
      <==> (r.outcome.Fail? && r.outcome.error.Prass? && r.outcome.error.reason.NegativeDuration?)
    ensures var r := TppSpec(evs, p);
      r.outcome.Fail? && r.outcome.error.Prass? ==> r.events == evs
  {
    var view := View(evs, p.styles);
    ViewIndices(evs, p.styles);
    var broken := FirstBroken(evs, view);
    if broken.None? {
      StagesFrame(evs, view, p);
      forall i | 0 <= i < |evs| && Selected(evs[i], p.styles)
        ensures evs[i].start <= evs[i].end
      {
        var k :| 0 <= k < |view| && view[k] == i;
      }
    } else {
      assert Selected(evs[broken.value], p.styles);
    }
  }

  /** tpp changes only the start and end of selected events: comments and
      events of other styles come out as they went in. */
  lemma TppOnlySelectedTimes(evs: seq<AssEvent>, p: TppParams)
    ensures var r := TppSpec(evs, p);
      && |r.events| == |evs|
      && (forall i :: 0 <= i < |evs| ==> r.events[i] == evs[i].(start := r.events[i].start, end := r.events[i].end))
      && (forall i :: 0 <= i < |evs| && !Selected(evs[i], p.styles) ==> r.events[i] == evs[i])
  {
    var view := View(evs, p.styles);
    ViewIndices(evs, p.styles);
    if FirstBroken(evs, view).None? {
      StagesFrame(evs, view, p);
    }
  }

  /** With every time parameter zero, tpp only validates. */
  lemma TppZeroIsIdentity(evs: seq<AssEvent>, p: TppParams)
    requires p.leadIn == 0.0 && p.leadOut == 0.0 && p.maxOverlap == 0.0 && p.maxGap == 0.0
    requires !SnapsKeyframes(p)
    requires forall i :: 0 <= i < |evs| && Selected(evs[i], p.styles) ==> evs[i].start <= evs[i].end
    ensures TppSpec(evs, p) == TppRun(Pass, evs)
  {
    var view := View(evs, p.styles);
    ViewIndices(evs, p.styles);
  }
}
