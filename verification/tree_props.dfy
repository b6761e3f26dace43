/** Properties of the tree walks: what `get` sees after `set`, `clear` and `merge`. */
module TreeProps {
  import opened Wrappers
  import opened Values
  import opened Tree

  /** Reading through an object member. */
  lemma ResolveObj(ms: seq<Member>, k: string, r: seq<string>)
    ensures Resolve(Obj(ms), [k] + r) ==
      if Lookup(ms, k).Some? then Resolve(Lookup(ms, k).value, r) else None
  {
    assert ([k] + r)[0] == k;
    assert ([k] + r)[1..] == r;
  }

  /** Assigning along a path starting with `k` assigns member `k` of the root. */
  lemma SetAtCons(t: Json, k: string, r: seq<string>, v: Json)
    ensures SetAt(t, [k] + r, v) == Obj(Put(Fields(t), k, SetAt(Lookup(Fields(t), k).GetOr(Null), r, v)))
  {
    assert ([k] + r)[0] == k;
    assert ([k] + r)[1..] == r;
  }

  /** After assigning `a` at `p`, reading below `p` reads inside `a`. */
  lemma {:induction false} ResolveSetAt(t: Json, p: seq<string>, a: Json, q: seq<string>)
    ensures Resolve(SetAt(t, p, a), p + q) == Resolve(a, q)
    decreases |p|
  {
    if |p| == 0 {
      assert p + q == q;
    } else {
      var ms := Fields(t);
      var c := Lookup(ms, p[0]).GetOr(Null);
      var child := SetAt(c, p[1..], a);
      var n := Obj(Put(ms, p[0], child));
      assert SetAt(t, p, a) == n;
      assert p + q == [p[0]] + (p[1..] + q);
      ResolveObj(Put(ms, p[0], child), p[0], p[1..] + q);
      assert Resolve(n, p + q) == Resolve(child, p[1..] + q);
      ResolveSetAt(c, p[1..], a, q);
    }
  }

  /** Reading from a scalar never finds an object. */
  lemma {:induction false} ResolveScalar(t: Json, q: seq<string>)
    requires !t.Obj? && !t.Arr?
    ensures Resolve(t, q).Some? ==> !Resolve(t, q).value.Obj? && !Resolve(t, q).value.Arr?
    decreases |q|
  {
    if |q| > 0 && Truthy(t) && OwnProperty(t, q[0]).Some? {
      ResolveScalar(OwnProperty(t, q[0]).value, q[1..]);
    }
  }

  /** Two paths that agree on their first `i > 0` names agree on the first and on the rest. */
  lemma SharedPrefix(p: seq<string>, q: seq<string>, i: nat)
    requires 0 < i < |p| && i < |q| && q[..i] == p[..i]
    ensures q[0] == p[0]
    ensures q[1..][..i - 1] == p[1..][..i - 1]
    ensures q[1..][i - 1] == q[i] && p[1..][i - 1] == p[i]
    ensures p[..i] == [p[0]] + p[1..][..i - 1]
  {
    assert q[0] == q[..i][0];
    assert p[0] == p[..i][0];
    assert q[1..][..i - 1] == q[..i][1..];
    assert p[1..][..i - 1] == p[..i][1..];
  }

  /**
   * `set` at `p` and a path `q` that leaves `p` after its first `i` names: `q`
   * reads as before when the node at `p[..i]` was an object, and is
   * undefined when that node was replaced by a fresh `{}`.
   */
  lemma {:induction false} SetAtDiverge(t: Json, p: seq<string>, v: Json, q: seq<string>, i: nat)
    requires ArrayFree(t, p)
    requires i < |p| && i < |q| && q[..i] == p[..i] && q[i] != p[i]
    ensures Resolve(SetAt(t, p, v), q) ==
      if Resolve(t, p[..i]).Some? && Resolve(t, p[..i]).value.Obj? then Resolve(t, q) else None
    decreases |p|
  {
    var ms := Fields(t);
    var c := Lookup(ms, p[0]);
    var c' := c.GetOr(Null);
    var child := SetAt(c', p[1..], v);
    assert p == [p[0]] + p[1..];
    assert q == [q[0]] + q[1..];
    SetAtCons(t, p[0], p[1..], v);
    ResolveObj(Put(ms, p[0], child), q[0], q[1..]);
    if i == 0 {
      if t.Obj? {
        ResolveObj(ms, q[0], q[1..]);
      }
    } else {
      SharedPrefix(p, q, i);
      SetAtDiverge(c', p[1..], v, q[1..], i - 1);
      if t.Obj? {
        ResolveObj(ms, p[0], p[1..][..i - 1]);
        ResolveObj(ms, q[0], q[1..]);
      } else {
        ResolveScalar(t, p[..i]);
      }
    }
  }

  /** Two `set`s, the second below the first, compose into one. */
  lemma {:induction false} SetAtCompose(t: Json, p: seq<string>, a: Json, q: seq<string>, x: Json)
    ensures SetAt(SetAt(t, p, a), p + q, x) == SetAt(t, p, SetAt(a, q, x))
    decreases |p|
  {
    if |p| == 0 {
      assert p + q == q;
    } else {
      var ms := Fields(t);
      var c := Lookup(ms, p[0]).GetOr(Null);
      var s1 := SetAt(c, p[1..], a);
      var n := Obj(Put(ms, p[0], s1));
      assert SetAt(t, p, a) == n;
      assert p + q == [p[0]] + (p[1..] + q);
      SetAtCons(n, p[0], p[1..] + q, x);
      assert Lookup(Fields(n), p[0]) == Some(s1);
      PutPut(ms, p[0], s1, SetAt(s1, p[1..] + q, x));
      SetAtCompose(c, p[1..], a, q, x);
    }
  }

  /** `merge` can walk below a value it has just merged, if that value is falsy or walkable. */
  lemma {:induction false} MergeWalkableSetAt(t: Json, p: seq<string>, a: Json, q: seq<string>)
    requires |p| >= 1 && |q| >= 1
    requires !Truthy(a) || MergeWalkable(a, q)
    ensures MergeWalkable(SetAt(t, p, a), p + q)
    decreases |p|
  {
    var ms := Fields(t);
    var c := Lookup(ms, p[0]).GetOr(Null);
    var s1 := SetAt(c, p[1..], a);
    assert (p + q)[0] == p[0];
    assert (p + q)[1..] == p[1..] + q;
    assert Lookup(Put(ms, p[0], s1), p[0]) == Some(s1);
    if |p| > 1 {
      MergeWalkableSetAt(c, p[1..], a, q);
    } else {
      assert p[1..] + q == q;
    }
  }

  /** A path `merge` can walk holds no array that `set` would walk into. */
  lemma {:induction false} MergeWalkableArrayFree(t: Json, p: seq<string>)
    requires |p| >= 1 && MergeWalkable(t, p)
    ensures ArrayFree(t, p)
    decreases |p|
  {
    if |p| > 1 {
      var c := Lookup(t.members, p[0]);
      if c.Some? && Truthy(c.value) {
        MergeWalkableArrayFree(c.value, p[1..]);
      }
    }
  }

  /** `SetAt` below the top only looks at the members of the node it starts from. */
  lemma SetAtFields(a: Json, b: Json, q: seq<string>, v: Json)
    requires |q| >= 1 && Fields(a) == Fields(b)
    ensures SetAt(a, q, v) == SetAt(b, q, v)
  {
  }

  /** On a walkable path, `merge`'s walk finds what `get` finds. */
  lemma {:induction false} MergeWalkFinds(t: Json, p: seq<string>, v: Json)
    requires |p| >= 1 && MergeWalkable(t, p)
    ensures MergeWalk(t, p, v).Walked?
    ensures MergeWalk(t, p, v).existing == Resolve(t, p)
    decreases |p|
  {
    var ms := t.members;
    var c := Lookup(ms, p[0]);
    assert p == [p[0]] + p[1..];
    ResolveObj(ms, p[0], p[1..]);
    if |p| > 1 {
      var next := if c.None? || !Truthy(c.value) then Obj([]) else c.value;
      MergeWalkFinds(next, p[1..], v);
      if c.None? || !Truthy(c.value) {
        assert p[1..] == [p[1]] + p[2..];
        ResolveObj([], p[1], p[2..]);
      }
    }
  }

  /** On a walkable path, `merge`'s direct write is what `set` writes. */
  lemma {:induction false} MergeWalkWrites(t: Json, p: seq<string>, v: Json)
    requires |p| >= 1 && MergeWalkable(t, p)
    ensures MergeWalk(t, p, v).Walked?
    ensures MergeWalk(t, p, v).written == SetAt(t, p, v)
    decreases |p|
  {
    var ms := t.members;
    var c := Lookup(ms, p[0]);
    MergeWalkFinds(t, p, v);
    assert p == [p[0]] + p[1..];
    SetAtCons(t, p[0], p[1..], v);
    if |p| > 1 {
      var next := if c.None? || !Truthy(c.value) then Obj([]) else c.value;
      MergeWalkWrites(next, p[1..], v);
      SetAtFields(next, c.GetOr(Null), p[1..], v);
    }
  }

  /** When the key exists, `merge`'s walk has replaced nothing on the way. */
  lemma {:induction false} MergeWalkKeeps(t: Json, p: seq<string>, v: Json)
    requires |p| >= 1 && MergeWalkable(t, p) && Resolve(t, p).Some?
    ensures MergeWalk(t, p, v).Walked?
    ensures MergeWalk(t, p, v).prepared == t
    ensures SetAt(t, p, Resolve(t, p).value) == t
    decreases |p|
  {
    var ms := t.members;
    var c := Lookup(ms, p[0]);
    MergeWalkFinds(t, p, v);
    assert p == [p[0]] + p[1..];
    ResolveObj(ms, p[0], p[1..]);
    SetAtCons(t, p[0], p[1..], Resolve(t, p).value);
    if |p| == 1 {
      PutSame(ms, p[0], c.value);
    } else {
      assert c.Some?;
      assert Truthy(c.value);
      MergeWalkKeeps(c.value, p[1..], v);
      PutSame(ms, p[0], c.value);
    }
  }

  /**
   * On a walkable path, `merge`'s walk finds what `get` finds, writes what
   * `set` writes, and replaces nothing when the old value exists.
   */
  lemma MergeWalkSpec(t: Json, p: seq<string>, v: Json)
    requires |p| >= 1 && MergeWalkable(t, p)
    ensures MergeWalk(t, p, v).Walked?
    ensures MergeWalk(t, p, v).existing == Resolve(t, p)
    ensures MergeWalk(t, p, v).written == SetAt(t, p, v)
    ensures Resolve(t, p).Some? ==>
      MergeWalk(t, p, v).prepared == t && SetAt(t, p, Resolve(t, p).value) == t
  {
    MergeWalkFinds(t, p, v);
    MergeWalkWrites(t, p, v);
    if Resolve(t, p).Some? {
      MergeWalkKeeps(t, p, v);
    }
  }

  /** The order-preserving fold of `merge`'s members, read back name by name. */
  lemma {:induction false} FoldMergeLookup(acc: Json, v: Json, i: nat, n: string)
    requires v.Obj? && i <= |v.members| && DistinctNames(v.members)
    ensures Lookup(Fields(FoldMerge(acc, v, i)), n) ==
      if Lookup(v.members[i..], n).Some?
      then Some(DeepMerge(Lookup(Fields(acc), n), Lookup(v.members[i..], n).value))
      else Lookup(Fields(acc), n)
    decreases |v.members| - i
  {
    if i < |v.members| {
      var m := v.members[i];
      var ms := Fields(acc);
      var acc' := Obj(Put(ms, m.name, DeepMerge(Lookup(ms, m.name), m.value)));
      assert FoldMerge(acc, v, i) == FoldMerge(acc', v, i + 1);
      FoldMergeLookup(acc', v, i + 1, n);
      var suffix := v.members[i..];
      assert suffix[0] == m && suffix[1..] == v.members[i + 1..];
      if n == m.name {
        LookupAfter(v.members, i);
      }
    }
  }

  /**
   * Deep merge into an object (or `null`): a name of the new value holds the
   * merge of its old and new values, any other name keeps its old value.
   */
  lemma DeepMergeLookup(e: Json, v: Json, n: string)
    requires (e.Obj? || e.Null?) && v.Obj? && DistinctNames(v.members)
    ensures Lookup(Fields(DeepMerge(Some(e), v)), n) ==
      if Lookup(v.members, n).Some?
      then Some(DeepMerge(Lookup(Fields(e), n), Lookup(v.members, n).value))
      else Lookup(Fields(e), n)
  {
    FoldMergeLookup(e, v, 0, n);
    assert v.members[0..] == v.members;
  }

  /** After a successful `clear`, `get` finds nothing at the cleared key. */
  lemma {:induction false} ClearGone(t: Json, p: seq<string>)
    requires |p| >= 1 && ClearAt(t, p).Done?
    ensures Resolve(ClearAt(t, p).tree, p) == None
    decreases |p|
  {
    if |p| > 1 {
      var c := Lookup(t.members, p[0]).value;
      ClearGone(c, p[1..]);
    }
  }

  /** A successful `clear` leaves every path that leaves the cleared key as it was. */
  lemma {:induction false} ClearDiverge(t: Json, p: seq<string>, q: seq<string>, i: nat)
    requires |p| >= 1 && ClearAt(t, p).Done?
    requires i < |p| && i < |q| && q[..i] == p[..i] && q[i] != p[i]
    ensures Resolve(ClearAt(t, p).tree, q) == Resolve(t, q)
    decreases |p|
  {
    if i > 0 {
      assert q[0] == q[..i][0] == p[..i][0] == p[0];
      assert q[1..][..i - 1] == q[..i][1..] == p[..i][1..] == p[1..][..i - 1];
      assert q[1..][i - 1] == q[i];
      assert p[1..][i - 1] == p[i];
      var c := Lookup(t.members, p[0]).value;
      ClearDiverge(c, p[1..], q[1..], i - 1);
    }
  }

  /** `o` is a found object. */
  predicate IsObjAt(o: Option<Json>) {
    o.Some? && o.value.Obj?
  }

  /** `o` is undefined or a primitive other than `null`: nothing `clear` can walk into. */
  predicate Scalar(o: Option<Json>) {
    o.None? || IsPrimitive(o.value)
  }

  /** The nodes at the first `n` prefixes of `p`, the root included, are objects. */
  predicate ObjectsAlong(t: Json, p: seq<string>, n: nat)
    requires n <= |p|
  {
    forall j :: 0 <= j < n ==> IsObjAt(Resolve(t, p[..j]))
  }

  /** Reading a non-empty prefix of `p` from an object reads inside member `p[0]`. */
  lemma ResolvePrefix(ms: seq<Member>, p: seq<string>, j: nat)
    requires 1 <= j <= |p|
    ensures Resolve(Obj(ms), p[..j]) ==
      if Lookup(ms, p[0]).Some? then Resolve(Lookup(ms, p[0]).value, p[1..][..j - 1]) else None
  {
    assert p[..j] == [p[0]] + p[1..][..j - 1];
    ResolveObj(ms, p[0], p[1..][..j - 1]);
  }

  /** Objects along `p` from an object root: its member `p[0]` and objects along the rest. */
  lemma ObjectsAlongCons(ms: seq<Member>, p: seq<string>, n: nat)
    requires 2 <= n <= |p|
    ensures ObjectsAlong(Obj(ms), p, n) <==>
      IsObjAt(Lookup(ms, p[0])) && ObjectsAlong(Lookup(ms, p[0]).value, p[1..], n - 1)
  {
    var t := Obj(ms);
    var c := Lookup(ms, p[0]);
    assert p[..0] == [];
    ResolvePrefix(ms, p, 1);
    assert p[1..][..0] == [];
    if ObjectsAlong(t, p, n) {
      assert IsObjAt(Resolve(t, p[..1]));
      forall j | 0 <= j < n - 1
        ensures IsObjAt(Resolve(c.value, p[1..][..j]))
      {
        ResolvePrefix(ms, p, j + 1);
        assert IsObjAt(Resolve(t, p[..j + 1]));
      }
    }
    if IsObjAt(c) && ObjectsAlong(c.value, p[1..], n - 1) {
      forall j | 0 <= j < n
        ensures IsObjAt(Resolve(t, p[..j]))
      {
        if j > 0 {
          ResolvePrefix(ms, p, j);
          assert IsObjAt(Resolve(c.value, p[1..][..j - 1]));
        }
      }
    }
  }

  /** From an object root, `clear` succeeds exactly when every node along the key is an object. */
  lemma {:induction false} ClearDoneIff(t: Json, p: seq<string>)
    requires t.Obj? && |p| >= 1
    ensures ClearAt(t, p).Done? <==> ObjectsAlong(t, p, |p|)
    decreases |p|
  {
    assert p[..0] == [];
    if |p| > 1 {
      var ms := t.members;
      var c := Lookup(ms, p[0]);
      ObjectsAlongCons(ms, p, |p|);
      if IsObjAt(c) {
        ClearDoneIff(c.value, p[1..]);
      } else if c.Some? && c.value.Null? {
        assert ClearAt(c.value, p[1..]).Threw?;
      }
    }
  }

  /**
   * From an object root, `clear` reports failure exactly when, past objects
   * only, the walk reaches an intermediate that is missing or primitive.
   */
  lemma {:induction false} ClearRefusedIff(t: Json, p: seq<string>)
    requires t.Obj? && |p| >= 1
    ensures ClearAt(t, p).Refused? <==>
      exists i :: 1 <= i < |p| && ObjectsAlong(t, p, i) && Scalar(Resolve(t, p[..i]))
    decreases |p|
  {
    assert p[..0] == [];
    if |p| > 1 {
      var ms := t.members;
      var c := Lookup(ms, p[0]);
      ResolvePrefix(ms, p, 1);
      assert p[1..][..0] == [];
      if c.None? || !IsObjectType(c.value) {
        assert ObjectsAlong(t, p, 1) && Scalar(Resolve(t, p[..1]));
      } else if !c.value.Obj? {
        if c.value.Null? {
          assert ClearAt(c.value, p[1..]).Threw?;
        }
        forall i | 1 <= i < |p| && ObjectsAlong(t, p, i)
          ensures !Scalar(Resolve(t, p[..i]))
        {
        }
      } else {
        var cv := c.value;
        ClearRefusedIff(cv, p[1..]);
        if ClearAt(t, p).Refused? {
          var i' :| 1 <= i' < |p| - 1 && ObjectsAlong(cv, p[1..], i') && Scalar(Resolve(cv, p[1..][..i']));
          ObjectsAlongCons(ms, p, i' + 1);
          ResolvePrefix(ms, p, i' + 1);
          assert ObjectsAlong(t, p, i' + 1) && Scalar(Resolve(t, p[..i' + 1]));
        } else {
          forall i | 1 <= i < |p| && ObjectsAlong(t, p, i)
            ensures !Scalar(Resolve(t, p[..i]))
          {
            if i > 1 {
              ObjectsAlongCons(ms, p, i);
              ResolvePrefix(ms, p, i);
            }
          }
        }
      }
    }
  }

  /** After `set`, every node on the way to the written key is an object. */
  lemma {:induction false} SetAtObjectsAlong(t: Json, p: seq<string>, v: Json)
    requires |p| >= 1
    ensures ObjectsAlong(SetAt(t, p, v), p, |p|)
    decreases |p|
  {
    var c := Lookup(Fields(t), p[0]).GetOr(Null);
    var child := SetAt(c, p[1..], v);
    var ms := Put(Fields(t), p[0], child);
    assert p == [p[0]] + p[1..];
    SetAtCons(t, p[0], p[1..], v);
    assert SetAt(t, p, v) == Obj(ms);
    assert p[..0] == [];
    if |p| > 1 {
      SetAtObjectsAlong(c, p[1..], v);
      ObjectsAlongCons(ms, p, |p|);
    }
  }

  /**
   * `merge`'s walk throws where, past objects only, it meets a truthy
   * primitive intermediate; such a path holds no array `set` would use.
   */
  lemma {:induction false} MergeWalkThrows(t: Json, p: seq<string>, v: Json, i: nat)
    requires t.Obj? && 1 <= i < |p| && ObjectsAlong(t, p, i)
    requires var c := Resolve(t, p[..i]); c.Some? && Truthy(c.value) && IsPrimitive(c.value)
    ensures MergeWalk(t, p, v) == WalkThrew
    ensures ArrayFree(t, p)
    decreases i
  {
    var ms := t.members;
    var c := Lookup(ms, p[0]);
    ResolvePrefix(ms, p, i);
    if i == 1 {
      assert p[1..][..0] == [];
    } else {
      ObjectsAlongCons(ms, p, i);
      MergeWalkThrows(c.value, p[1..], v, i - 1);
    }
  }

  /** `clear` throws where, past objects only, its walk meets `null`. */
  lemma {:induction false} ClearAtThrows(t: Json, p: seq<string>, i: nat)
    requires t.Obj? && 1 <= i < |p| && ObjectsAlong(t, p, i)
    requires Resolve(t, p[..i]) == Some(Null)
    ensures ClearAt(t, p) == Threw
    decreases i
  {
    var ms := t.members;
    var c := Lookup(ms, p[0]);
    ResolvePrefix(ms, p, i);
    if i == 1 {
      assert p[1..][..0] == [];
    } else {
      ObjectsAlongCons(ms, p, i);
      ClearAtThrows(c.value, p[1..], i - 1);
    }
  }
}
