// The script's styles are an OrderedDict from name to style (subs.py:111,
// 117, 196-200, 288-292): a sequence of styles in insertion order, in which
// storing under an existing name replaces that entry where it stands.

module StyleDict {

  import opened Common
  import opened AssLines

  /** No two entries share a name, as the keys of a dictionary. */
  predicate UniqueNames(styles: seq<AssStyle>) {
    forall i, j :: 0 <= i < j < |styles| ==> styles[i].name != styles[j].name
  }

  /** styles[name], or None when the key is missing. */
  function Lookup(styles: seq<AssStyle>, name: string): (r: Option<AssStyle>)
    ensures r.Some? ==> r.value in styles && r.value.name == name
    ensures r.None? <==> forall i :: 0 <= i < |styles| ==> styles[i].name != name
    decreases |styles|
  {
    if styles == [] then None
    else if styles[0].name == name then Some(styles[0])
    else
      assert forall i :: 1 <= i < |styles| ==> styles[i] == styles[1..][i - 1];
      Lookup(styles[1..], name)
  }

  /** styles[style.name] = style */
  function Put(styles: seq<AssStyle>, style: AssStyle): (r: seq<AssStyle>)
    decreases |styles|
  {
    if styles == [] then [style]
    else if styles[0].name == style.name then [style] + styles[1..]
    else [styles[0]] + Put(styles[1..], style)
  }

  /** Storing keeps the keys unique, and afterwards the name maps to the new
      style while every other name maps to what it did. */
  lemma {:induction false} PutSpec(styles: seq<AssStyle>, style: AssStyle)
    requires UniqueNames(styles)
    ensures UniqueNames(Put(styles, style))
    ensures forall name ::
              Lookup(Put(styles, style), name) == (if name == style.name then Some(style) else Lookup(styles, name))
    decreases |styles|
  {
    if styles != [] && styles[0].name != style.name {
      PutSpec(styles[1..], style);
      var rest := Put(styles[1..], style);
      var r := Put(styles, style);
      assert Lookup(styles[1..], styles[0].name).None?;
      assert r[1..] == rest;
    } else if styles != [] {
      var r := Put(styles, style);
      assert r[1..] == styles[1..];
    }
  }

  /** for style in others: styles[style.name] = style */
  function PutAll(styles: seq<AssStyle>, others: seq<AssStyle>): seq<AssStyle>
    decreases |others|
  {
    if others == [] then styles else PutAll(Put(styles, others[0]), others[1..])
  }

  /** The last of `others` with this name, if any. */
  function LastNamed(others: seq<AssStyle>, name: string): (r: Option<AssStyle>)
    ensures r.Some? ==> r.value in others && r.value.name == name
    ensures r.None? <==> forall i :: 0 <= i < |others| ==> others[i].name != name
    decreases |others|
  {
    if others == [] then None
    else if others[|others| - 1].name == name then Some(others[|others| - 1])
    else LastNamed(others[..|others| - 1], name)
  }

  lemma {:induction false} LastNamedCons(x: AssStyle, rest: seq<AssStyle>, name: string)
    ensures LastNamed([x] + rest, name) ==
      (if LastNamed(rest, name).Some? then LastNamed(rest, name) else if x.name == name then Some(x) else None)
    decreases |rest|
  {
    if rest != [] {
      var s := [x] + rest;
      var n := |rest| - 1;
      assert s[|s| - 1] == rest[n];
      if rest[n].name == name {
        assert LastNamed(s, name) == Some(rest[n]) == LastNamed(rest, name);
      } else {
        assert s[..|s| - 1] == [x] + rest[..n];
        assert LastNamed(s, name) == LastNamed([x] + rest[..n], name);
        assert LastNamed(rest, name) == LastNamed(rest[..n], name);
        LastNamedCons(x, rest[..n], name);
      }
    } else {
      assert ([x] + rest)[..0] == [];
    }
  }

  /** Storing a list of styles keeps the keys unique; a name of the list ends
      up mapping to the last style of the list with that name, and every other
      name to what it did. */
  lemma {:induction false} PutAllSpec(styles: seq<AssStyle>, others: seq<AssStyle>)
    requires UniqueNames(styles)
    ensures UniqueNames(PutAll(styles, others))
    ensures forall name ::
              Lookup(PutAll(styles, others), name)
              == (if LastNamed(others, name).Some? then LastNamed(others, name) else Lookup(styles, name))
    decreases |others|
  {
    if others != [] {
      PutSpec(styles, others[0]);
      PutAllSpec(Put(styles, others[0]), others[1..]);
      forall name
        ensures LastNamed(others, name) ==
          (if LastNamed(others[1..], name).Some? then LastNamed(others[1..], name)
           else if others[0].name == name then Some(others[0]) else None)
      {
        LastNamedCons(others[0], others[1..], name);
        assert [others[0]] + others[1..] == others;
      }
    }
  }

  /** A style survives the deletions if it is used or its name was not
      deleted. */
  function KeepStyles(styles: seq<AssStyle>, used: set<string>, deleted: set<string>): seq<AssStyle>
    decreases |styles|
  {
    if styles == [] then []
    else
      var n := |styles| - 1;
      var last := styles[n];
      KeepStyles(styles[..n], used, deleted) + (if last.name in used || last.name !in deleted then [last] else [])
  }

  /** A style survives exactly when it is used or its name was not deleted. */
  lemma {:induction false} KeepMembers(styles: seq<AssStyle>, used: set<string>, deleted: set<string>)
    ensures forall s :: s in KeepStyles(styles, used, deleted) <==> s in styles && (s.name in used || s.name !in deleted)
    decreases |styles|
  {
    if styles != [] {
      var n := |styles| - 1;
      KeepMembers(styles[..n], used, deleted);
      assert styles == styles[..n] + [styles[n]];
    }
  }

  /** del styles[name]: every entry under that name goes. */
  function Delete(styles: seq<AssStyle>, name: string): seq<AssStyle>
    decreases |styles|
  {
    if styles == [] then []
    else
      var n := |styles| - 1;
      Delete(styles[..n], name) + (if styles[n].name != name then [styles[n]] else [])
  }

  /** After the deletion exactly the styles of other names are left. */
  lemma {:induction false} DeleteMembers(styles: seq<AssStyle>, name: string)
    ensures forall s :: s in Delete(styles, name) <==> s in styles && s.name != name
    decreases |styles|
  {
    if styles != [] {
      var n := |styles| - 1;
      DeleteMembers(styles[..n], name);
      assert styles == styles[..n] + [styles[n]];
    }
  }

  /** Deleting an unused name from the survivors is deleting it with the rest. */
  lemma {:induction false} DeleteKept(styles: seq<AssStyle>, used: set<string>, deleted: set<string>, name: string)
    requires name !in used
    ensures Delete(KeepStyles(styles, used, deleted), name) == KeepStyles(styles, used, deleted + {name})
    decreases |styles|
  {
    if styles != [] {
      var n := |styles| - 1;
      DeleteKept(styles[..n], used, deleted, name);
      var kept := KeepStyles(styles[..n], used, deleted);
      var tail := if styles[n].name in used || styles[n].name !in deleted then [styles[n]] else [];
      var tail' := if styles[n].name in used || styles[n].name !in deleted + {name} then [styles[n]] else [];
      DeleteAppend(kept, tail, name);
      assert Delete(tail, name) == tail' by {
        if tail != [] {
          assert tail[..0] == [];
        }
      }
    }
  }

  lemma {:induction false} DeleteAppend(a: seq<AssStyle>, b: seq<AssStyle>, name: string)
    ensures Delete(a + b, name) == Delete(a, name) + Delete(b, name)
    decreases |b|
  {
    if b != [] {
      var n := |b| - 1;
      assert (a + b)[..|a + b| - 1] == a + b[..n];
      DeleteAppend(a, b[..n], name);
      assert Delete(b, name) == Delete(b[..n], name) + (if b[n].name != name then [b[n]] else []);
    } else {
      assert a + b == a;
    }
  }

  /** A used name is never deleted, so marking it changes nothing. */
  lemma {:induction false} KeepUsedName(styles: seq<AssStyle>, used: set<string>, deleted: set<string>, name: string)
    requires name in used
    ensures KeepStyles(styles, used, deleted + {name}) == KeepStyles(styles, used, deleted)
    decreases |styles|
  {
    if styles != [] {
      KeepUsedName(styles[..|styles| - 1], used, deleted, name);
    }
  }

  lemma {:induction false} KeepNothingDeleted(styles: seq<AssStyle>, used: set<string>)
    ensures KeepStyles(styles, used, {}) == styles
    decreases |styles|
  {
    if styles != [] {
      var n := |styles| - 1;
      var front := styles[..n];
      assert styles[n].name !in {};
      assert KeepStyles(styles, used, {}) == KeepStyles(front, used, {}) + [styles[n]];
      KeepNothingDeleted(front, used);
      assert styles == front + [styles[n]];
    }
  }

  /** The names a list of styles uses. */
  function Names(styles: seq<AssStyle>): (r: set<string>)
    ensures forall s :: s in styles ==> s.name in r
  {
    set s | s in styles :: s.name
  }
}
