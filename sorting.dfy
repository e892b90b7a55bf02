// Python's stable `sorted(..., key=..., reverse=...)` and `list.sort`, over
// the keys the subtitle tools sort by: numbers (times, layers) and text
// (styles, actors, effects).

module Sorting {

  /** A sort key: Python 2 orders every number before every string. */
  datatype KeyValue = Num(x: real) | Text(s: string)

  /** Code-point lexicographic order on strings. */
  predicate LexLess(a: string, b: string)
    decreases |a|
  {
    && b != []
    && (a == [] || a[0] < b[0] || (a[0] == b[0] && LexLess(a[1..], b[1..])))
  }

  predicate KeyLess(a: KeyValue, b: KeyValue) {
    match (a, b)
    case (Num(x), Num(y)) => x < y
    case (Num(_), Text(_)) => true
    case (Text(_), Num(_)) => false
    case (Text(s), Text(t)) => LexLess(s, t)
  }

  /** `a` must come before `b`; with reverse=True the order is flipped. */
  predicate Before(a: KeyValue, b: KeyValue, descending: bool) {
    if descending then KeyLess(b, a) else KeyLess(a, b)
  }

  lemma {:induction false} LexLessIrreflexive(a: string)
    ensures !LexLess(a, a)
    decreases |a|
  {
    if a != [] {
      LexLessIrreflexive(a[1..]);
    }
  }

  lemma {:induction false} LexLessTransitive(a: string, b: string, c: string)
    requires LexLess(a, b) && LexLess(b, c)
    ensures LexLess(a, c)
    decreases |a|
  {
    if a != [] && a[0] == b[0] && b[0] == c[0] {
      LexLessTransitive(a[1..], b[1..], c[1..]);
    }
  }

  lemma {:induction false} LexLessTotal(a: string, b: string)
    requires a != b
    ensures LexLess(a, b) || LexLess(b, a)
    decreases |a|
  {
    if a != [] && b != [] && a[0] == b[0] {
      assert a[1..] != b[1..] by {
        assert a == [a[0]] + a[1..] && b == [b[0]] + b[1..];
      }
      LexLessTotal(a[1..], b[1..]);
    }
  }

  /** KeyLess is a strict total order, the order Python's sort relies on. */
  lemma KeyLessStrictTotal(a: KeyValue, b: KeyValue, c: KeyValue)
    ensures !KeyLess(a, a)
    ensures KeyLess(a, b) && KeyLess(b, c) ==> KeyLess(a, c)
    ensures a != b ==> KeyLess(a, b) || KeyLess(b, a)
  {
    if a.Text? {
      LexLessIrreflexive(a.s);
    }
    if a.Text? && b.Text? && c.Text? && LexLess(a.s, b.s) && LexLess(b.s, c.s) {
      LexLessTransitive(a.s, b.s, c.s);
    }
    if a.Text? && b.Text? && a != b {
      LexLessTotal(a.s, b.s);
    }
  }

  lemma BeforeOrder(a: KeyValue, b: KeyValue, c: KeyValue, descending: bool)
    ensures !Before(a, a, descending)
    ensures Before(a, b, descending) && Before(b, c, descending) ==> Before(a, c, descending)
    ensures a != b ==> Before(a, b, descending) || Before(b, a, descending)
  {
    KeyLessStrictTotal(a, b, c);
    KeyLessStrictTotal(c, b, a);
    KeyLessStrictTotal(b, a, c);
  }

  /** No element is followed by one that must come before it. */
  ghost predicate SortedBy<T>(s: seq<T>, key: T -> KeyValue, descending: bool) {
    forall i, j :: 0 <= i < j < |s| ==> !Before(key(s[j]), key(s[i]), descending)
  }

  /** Where a stable insertion puts `x`: before the first element it must precede. */
  function InsertPos<T>(r: seq<T>, x: T, key: T -> KeyValue, descending: bool): (p: nat)
    ensures p <= |r|
    ensures forall i :: 0 <= i < p ==> !Before(key(x), key(r[i]), descending)
    ensures p < |r| ==> Before(key(x), key(r[p]), descending)
    decreases |r|
  {
    if r == [] || Before(key(x), key(r[0]), descending) then 0
    else 1 + InsertPos(r[1..], x, key, descending)
  }

  function Insert<T>(r: seq<T>, x: T, key: T -> KeyValue, descending: bool): seq<T> {
    var p := InsertPos(r, x, key, descending);
    r[..p] + [x] + r[p..]
  }

  /** sorted(s, key=key, reverse=descending): each element is inserted after
      every earlier one it need not precede, which keeps the sort stable. */
  function SortBy<T>(s: seq<T>, key: T -> KeyValue, descending: bool): (r: seq<T>)
    ensures |r| == |s|
    decreases |s|
  {
    if s == [] then []
    else Insert(SortBy(s[..|s| - 1], key, descending), s[|s| - 1], key, descending)
  }

  /** The elements of `s` whose key is `k`, in their order in `s`. */
  function WithKey<T>(s: seq<T>, key: T -> KeyValue, k: KeyValue): seq<T>
    decreases |s|
  {
    if s == [] then []
    else WithKey(s[..|s| - 1], key, k) + (if key(s[|s| - 1]) == k then [s[|s| - 1]] else [])
  }

  lemma {:induction false} WithKeyAppend<T>(a: seq<T>, b: seq<T>, key: T -> KeyValue, k: KeyValue)
    ensures WithKey(a + b, key, k) == WithKey(a, key, k) + WithKey(b, key, k)
    decreases |b|
  {
    if b == [] {
      assert a + b == a;
    } else {
      var b' := b[..|b| - 1];
      assert (a + b)[..|a + b| - 1] == a + b';
      var last := b[|b| - 1];
      assert (a + b)[|a + b| - 1] == last;
      WithKeyAppend(a, b', key, k);
      var tail := if key(last) == k then [last] else [];
      calc {
        WithKey(a + b, key, k);
        WithKey(a + b', key, k) + tail;
        WithKey(a, key, k) + WithKey(b', key, k) + tail;
        WithKey(a, key, k) + (WithKey(b', key, k) + tail);
      }
    }
  }

  lemma {:induction false} WithKeyNone<T>(s: seq<T>, key: T -> KeyValue, k: KeyValue)
    requires forall i :: 0 <= i < |s| ==> key(s[i]) != k
    ensures WithKey(s, key, k) == []
    decreases |s|
  {
    if s != [] {
      WithKeyNone(s[..|s| - 1], key, k);
    }
  }

  /** Inserting into a sorted sequence keeps it sorted, and everything after
      the inserted element must follow it. */
  lemma InsertSorted<T>(r: seq<T>, x: T, key: T -> KeyValue, descending: bool)
    requires SortedBy(r, key, descending)
    ensures SortedBy(Insert(r, x, key, descending), key, descending)
    ensures forall j :: InsertPos(r, x, key, descending) <= j < |r| ==> Before(key(x), key(r[j]), descending)
  {
    var p := InsertPos(r, x, key, descending);
    forall j | p <= j < |r|
      ensures Before(key(x), key(r[j]), descending)
    {
      BeforeOrder(key(x), key(r[p]), key(r[j]), descending);
      BeforeOrder(key(r[p]), key(r[j]), key(x), descending);
    }
    var q := Insert(r, x, key, descending);
    forall i, j | 0 <= i < j < |q|
      ensures !Before(key(q[j]), key(q[i]), descending)
    {
      if i == p {
        BeforeOrder(key(x), key(q[j]), key(x), descending);
      } else if j == p {
      } else {
        var i' := if i < p then i else i - 1;
        var j' := if j < p then j else j - 1;
        assert q[i] == r[i'] && q[j] == r[j'];
      }
    }
  }

  /** The result of sorted() is ordered by the key. */
  lemma {:induction false} SortBySorted<T>(s: seq<T>, key: T -> KeyValue, descending: bool)
    ensures SortedBy(SortBy(s, key, descending), key, descending)
    decreases |s|
  {
    if s != [] {
      SortBySorted(s[..|s| - 1], key, descending);
      InsertSorted(SortBy(s[..|s| - 1], key, descending), s[|s| - 1], key, descending);
    }
  }

  /** Inserting adds exactly the inserted element. */
  lemma InsertPermutation<T>(r: seq<T>, x: T, key: T -> KeyValue, descending: bool)
    ensures multiset(Insert(r, x, key, descending)) == multiset(r) + multiset{x}
  {
    var p := InsertPos(r, x, key, descending);
    assert r == r[..p] + r[p..];
  }

  /** sorted() returns a permutation of its input. */
  lemma {:induction false} SortByPermutation<T>(s: seq<T>, key: T -> KeyValue, descending: bool)
    ensures multiset(SortBy(s, key, descending)) == multiset(s)
    decreases |s|
  {
    if s != [] {
      SortByPermutation(s[..|s| - 1], key, descending);
      InsertPermutation(SortBy(s[..|s| - 1], key, descending), s[|s| - 1], key, descending);
      assert s == s[..|s| - 1] + [s[|s| - 1]];
    }
  }

  /** Placing `x` before elements whose keys differ from its own puts it
      last among the elements that share its key. */
  lemma {:induction false} WithKeyInsertAt<T>(a: seq<T>, x: T, b: seq<T>, key: T -> KeyValue, k: KeyValue)
    requires forall j :: 0 <= j < |b| ==> key(b[j]) != key(x)
    ensures WithKey(a + [x] + b, key, k) == WithKey(a + b, key, k) + (if key(x) == k then [x] else [])
  {
    WithKeyAppend(a + [x], b, key, k);
    WithKeyAppend(a, [x], key, k);
    WithKeyAppend(a, b, key, k);
    assert WithKey([x], key, k) == (if key(x) == k then [x] else []) by {
      assert [x][..0] == [];
    }
    if key(x) == k {
      WithKeyNone(b, key, k);
    }
  }

  /** A stable insertion adds `x` after every element that shares its key. */
  lemma InsertWithKey<T>(r: seq<T>, x: T, key: T -> KeyValue, descending: bool, k: KeyValue)
    requires SortedBy(r, key, descending)
    ensures WithKey(Insert(r, x, key, descending), key, k)
         == WithKey(r, key, k) + (if key(x) == k then [x] else [])
  {
    InsertSorted(r, x, key, descending);
    var p := InsertPos(r, x, key, descending);
    forall j | 0 <= j < |r[p..]|
      ensures key(r[p..][j]) != key(x)
    {
      BeforeOrder(key(x), key(x), key(x), descending);
    }
    WithKeyInsertAt(r[..p], x, r[p..], key, k);
    assert r[..p] + r[p..] == r;
  }

  /** sorted() is stable: elements with equal keys keep their relative order. */
  lemma {:induction false} SortByStable<T>(s: seq<T>, key: T -> KeyValue, descending: bool, k: KeyValue)
    ensures WithKey(SortBy(s, key, descending), key, k) == WithKey(s, key, k)
    decreases |s|
  {
    if s != [] {
      SortByStable(s[..|s| - 1], key, descending, k);
      SortBySorted(s[..|s| - 1], key, descending);
      InsertWithKey(SortBy(s[..|s| - 1], key, descending), s[|s| - 1], key, descending, k);
    }
  }
}
