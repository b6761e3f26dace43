/**
 * What the store's mutators promise across calls: `merge` is a deep merge
 * of plain data, `set` and `clear` leave unrelated paths alone, a read-only
 * store never changes, and the debounced regime saves once per burst.
 */
module StoreProps {
  import opened Wrappers
  import opened Values
  import opened KeyPath
  import opened Tree
  import opened TreeProps
  import opened Store

  /** Reading one name of an object (or of `null`) is a member lookup. */
  lemma ResolveOne(a: Json, n: string)
    requires a.Obj? || a.Null?
    ensures Resolve(a, [n]) == Lookup(Fields(a), n)
  {
    if a.Obj? {
      ResolveObj(a.members, n, []);
    }
  }

  /** Writing one name into an object (or over `null`) is a member update. */
  lemma SetAtOne(a: Json, n: string, x: Json)
    ensures SetAt(a, [n], x) == Obj(Put(Fields(a), n, x))
  {
    SetAtCons(a, n, [], x);
  }

  /**
   * `set` below the root touches nothing outside the written path: a path
   * that leaves it at position `i` reads as before, unless the `i`-th node
   * on the way was not an object and has been replaced by `{}`.
   */
  lemma SetOthers(s: Instance, k: string, v: Json, q: seq<string>, i: nat)
    requires !s.readOnly && s.store.Obj? && ArrayFree(s.store, Split(k))
    requires i < |Split(k)| && i < |q| && q[..i] == Split(k)[..i] && q[i] != Split(k)[i]
    ensures Set(s, Some(k), v).completion == Return(true)
    ensures Resolve(Set(s, Some(k), v).inst.store, q) ==
      if IsObjAt(Resolve(s.store, Split(k)[..i])) then Resolve(s.store, q) else None
  {
    SetAtDiverge(s.store, Split(k), v, q, i);
  }

  /**
   * `clear` on an object store: it returns true exactly when every node on
   * the way to the parent is an object, and false exactly when the walk
   * meets a missing or primitive value first.
   */
  lemma ClearResult(s: Instance, k: string)
    requires !s.readOnly && k != "" && s.store.Obj?
    ensures Clear(s, Some(k)).completion == Return(true) <==> ObjectsAlong(s.store, Split(k), |Split(k)|)
    ensures Clear(s, Some(k)).completion == Return(false) <==>
      exists i :: 1 <= i < |Split(k)| && ObjectsAlong(s.store, Split(k), i) && Scalar(Resolve(s.store, Split(k)[..i]))
  {
    ClearDoneIff(s.store, Split(k));
    ClearRefusedIff(s.store, Split(k));
  }

  /** A successful `clear` leaves every path that leaves the cleared one unchanged. */
  lemma ClearOthers(s: Instance, k: string, q: seq<string>, i: nat)
    requires Clear(s, Some(k)).completion == Return(true) && k != ""
    requires i < |Split(k)| && i < |q| && q[..i] == Split(k)[..i] && q[i] != Split(k)[i]
    ensures Resolve(Clear(s, Some(k)).inst.store, q) == Resolve(s.store, q)
  {
    ClearDiverge(s.store, Split(k), q, i);
  }

  /**
   * `merge` under a key whose walk meets no array and no truthy primitive,
   * of a value whose member names hold no delimiter, returns true and
   * leaves the store with the deep merge of `v` into what was at the key.
   */
  lemma {:induction false} MergeSpec(s: Instance, k: string, v: Json)
    requires !s.readOnly && MergeWalkable(s.store, Split(k)) && ColonFree(v)
    ensures Merge(s, Some(k), v).completion == Return(true)
    ensures Merge(s, Some(k), v).inst.store == SetAt(s.store, Split(k), DeepMerge(Resolve(s.store, Split(k)), v))
    decreases v, 2, 0
  {
    var e := Resolve(s.store, Split(k));
    if !v.Obj? {
      MergeScalarSpec(s, k, v);
    } else if e.Some? && IsObjectType(e.value) && !e.value.Arr? {
      MergeIntoSpec(s, k, v);
    } else {
      MergeReplaceSpec(s, k, v);
    }
  }

  /** A value that is not an object is `set` at the key. */
  lemma MergeScalarSpec(s: Instance, k: string, v: Json)
    requires !s.readOnly && MergeWalkable(s.store, Split(k)) && !v.Obj?
    ensures Merge(s, Some(k), v).completion == Return(true)
    ensures Merge(s, Some(k), v).inst.store == SetAt(s.store, Split(k), v)
  {
    MergeWalkableArrayFree(s.store, Split(k));
    assert Merge(s, Some(k), v) == Set(s, Some(k), v);
  }

  /** An object replaces a missing, primitive or array value outright. */
  lemma MergeReplaceSpec(s: Instance, k: string, v: Json)
    requires !s.readOnly && MergeWalkable(s.store, Split(k)) && v.Obj?
    requires var e := Resolve(s.store, Split(k)); !(e.Some? && IsObjectType(e.value) && !e.value.Arr?)
    ensures Merge(s, Some(k), v).completion == Return(true)
    ensures Merge(s, Some(k), v).inst.store == SetAt(s.store, Split(k), v)
  {
    MergeWalkSpec(s.store, Split(k), v);
  }

  /** An object merged into an object or `null` goes member by member. */
  lemma {:induction false} MergeIntoSpec(s: Instance, k: string, v: Json)
    requires !s.readOnly && MergeWalkable(s.store, Split(k)) && ColonFree(v) && v.Obj?
    requires var e := Resolve(s.store, Split(k)); e.Some? && IsObjectType(e.value) && !e.value.Arr?
    ensures Merge(s, Some(k), v).completion == Return(true)
    ensures Merge(s, Some(k), v).inst.store == SetAt(s.store, Split(k), FoldMerge(Resolve(s.store, Split(k)).value, v, 0))
    decreases v, 1, 0
  {
    var p := Split(k);
    var t := s.store;
    var e := Resolve(t, p).value;
    MergeWalkSpec(t, p, v);
    var s0 := s.(store := MergeWalk(t, p, v).prepared);
    assert s0.store == SetAt(t, p, e);
    MergeMembersSpec(s0, k, v, 0, t, e);
  }

  /** The loop over the members keeps the store at `SetAt(t, path, acc)`. */
  lemma {:induction false} MergeMembersSpec(s: Instance, k: string, v: Json, i: nat, t: Json, a: Json)
    requires v.Obj? && i <= |v.members| && ColonFree(v)
    requires !s.readOnly && MergeWalkable(t, Split(k)) && (a.Obj? || a.Null?)
    requires s.store == SetAt(t, Split(k), a)
    ensures MergeMembers(s, Some(k), v, i).completion == Return(true)
    ensures MergeMembers(s, Some(k), v, i).inst.store == SetAt(t, Split(k), FoldMerge(a, v, i))
    decreases v, 0, |v.members| - i
  {
    if i < |v.members| {
      var p := Split(k);
      var m := v.members[i];
      var ck := ChildKey(Some(k), m.name);
      PathOfChildKey(Some(k), m.name);
      SplitPlain(m.name);
      assert Split(ck) == p + [m.name];
      MergeWalkableSetAt(t, p, a, [m.name]);
      MergeSpec(s, ck, m.value);
      var r := Merge(s, Some(ck), m.value);
      ResolveSetAt(t, p, a, [m.name]);
      ResolveOne(a, m.name);
      var x := DeepMerge(Lookup(Fields(a), m.name), m.value);
      SetAtCompose(t, p, a, [m.name], x);
      SetAtOne(a, m.name, x);
      var a' := Obj(Put(Fields(a), m.name, x));
      assert r.inst.store == SetAt(t, p, a');
      MergeMembersSpec(r.inst, k, v, i + 1, t, a');
    }
  }

  /** Merging then reading the key gives the deep merge. */
  lemma MergeThenGet(s: Instance, k: string, v: Json)
    requires !s.readOnly && MergeWalkable(s.store, Split(k)) && ColonFree(v)
    ensures Get(Merge(s, Some(k), v).inst, Some(k)) == Some(DeepMerge(Get(s, Some(k)), v))
  {
    MergeSpec(s, k, v);
    ResolveSetAt(s.store, Split(k), DeepMerge(Resolve(s.store, Split(k)), v), []);
    assert Split(k) + [] == Split(k);
  }

  /** A read-only store answers every mutator with false and never changes. */
  lemma {:induction false} ReadOnlyBurst(s: Instance, ops: seq<Op>)
    requires s.readOnly
    ensures Burst(s, ops).inst == s
    ensures forall i :: 0 <= i < |ops| ==> Burst(s, ops).results[i] == Return(false)
    decreases |ops|
  {
    if |ops| > 0 {
      ReadOnlyBurst(s, ops[1..]);
    }
  }

  /**
   * With a positive delay, a run of mutator calls saves nothing; any call
   * that returned true leaves the timer pending, and when it fires exactly
   * one save of the store at that moment follows.
   */
  lemma {:induction false} DebounceOneSave(s: Instance, ops: seq<Op>)
    requires s.config.autoSave > 0
    ensures Burst(s, ops).inst.saves == s.saves
    ensures Return(true) in Burst(s, ops).results ==> Burst(s, ops).inst.pending
    ensures Fire(Burst(s, ops).inst).saves ==
      s.saves + if Burst(s, ops).inst.pending then [Burst(s, ops).inst.store] else []
    decreases |ops|
  {
    if |ops| > 0 {
      var first := Apply(s, ops[0]);
      DebounceOneSave(first.inst, ops[1..]);
    }
  }

  /** With a negative delay, mutators never save and never start a timer. */
  lemma DisabledNeverSaves(s: Instance, ops: seq<Op>)
    requires s.config.autoSave < 0
    ensures Burst(s, ops).inst.saves == s.saves
    ensures Burst(s, ops).inst.pending == s.pending
  {
  }

  /**
   * With a zero delay, each `set`, `clear` or `reset` that returns true saves
   * once: the new store, except that a root `set` saves the `{}` its inner
   * `reset` produced.
   */
  lemma ImmediateSave(s: Instance, op: Op)
    requires s.config.autoSave == 0 && !op.MergeOp? && Apply(s, op).completion == Return(true)
    ensures Apply(s, op).inst.saves ==
      s.saves + [if op.SetOp? && op.key.None? then Obj([]) else Apply(s, op).inst.store]
  {
  }

  /** `reset` is `clear` without a key. */
  lemma ResetIsClearAll(s: Instance)
    ensures Reset(s) == Clear(s, None)
  {
  }

  /** What `set` writes, `clear` under the same key removes. */
  lemma SetThenClear(s: Instance, k: string, v: Json)
    requires !s.readOnly && k != "" && s.store.Obj? && ArrayFree(s.store, Split(k))
    ensures var s1 := Set(s, Some(k), v).inst;
      Clear(s1, Some(k)).completion == Return(true) && Get(Clear(s1, Some(k)).inst, Some(k)) == None
  {
    var s1 := Set(s, Some(k), v).inst;
    SetAtObjectsAlong(s.store, Split(k), v);
    ClearDoneIff(s1.store, Split(k));
  }

  /**
   * `merge` without a key targets the member `"undefined"`; unless that
   * member already holds an object or `null`, it is simply overwritten.
   */
  lemma MergeAbsentKey(s: Instance, v: Json)
    requires !s.readOnly && s.store.Obj? && v.Obj?
    requires var e := Lookup(s.store.members, "undefined"); e.None? || !(e.value.Obj? || e.value.Null?)
    ensures Merge(s, None, v) == Outcome(Return(true), AutoSave(s.(store := SetAt(s.store, ["undefined"], v))))
  {
    SetAtOne(s.store, "undefined", v);
  }

  /** Keyless `merge` of members is `merge` of members under the key `""`. */
  lemma {:induction false} MembersUnderAbsentKey(s: Instance, v: Json, i: nat)
    requires v.Obj? && i <= |v.members|
    ensures MergeMembers(s, None, v, i) == MergeMembers(s, Some(""), v, i)
    decreases |v.members| - i
  {
    if i < |v.members| {
      var m := v.members[i];
      assert ChildKey(None, m.name) == ChildKey(Some(""), m.name);
      var r := Merge(s, Some(ChildKey(None, m.name)), m.value);
      if r.completion == Return(true) {
        MembersUnderAbsentKey(r.inst, v, i + 1);
      }
    }
  }

  /**
   * When `"undefined"` already holds an object or `null`, keyless `merge`
   * merges the members under `common.key(undefined, name)`, which is
   * `":" + name`: they land in the member named `""`, not in `"undefined"`.
   */
  lemma MergeAbsentKeyStraysToEmptyName(s: Instance, v: Json)
    requires !s.readOnly && s.store.Obj? && v.Obj? && ColonFree(v)
    requires var u := Lookup(s.store.members, "undefined"); u.Some? && (u.value.Obj? || u.value.Null?)
    requires var e := Lookup(s.store.members, ""); e.Some? && (e.value.Obj? || e.value.Null?)
    ensures Merge(s, None, v).completion == Return(true)
    ensures Merge(s, None, v).inst.store == SetAt(s.store, [""], DeepMerge(Lookup(s.store.members, ""), v))
  {
    var t := s.store;
    var e := Lookup(t.members, "").value;
    ResolveOne(t, "undefined");
    MergeWalkSpec(t, ["undefined"], v);
    assert s.(store := t) == s;
    MembersUnderAbsentKey(s, v, 0);
    assert Split("") == [""];
    PutSame(t.members, "", e);
    SetAtOne(t, "", e);
    MergeMembersSpec(s, "", v, 0, t, e);
  }

  /**
   * Where, past objects only, the walk to a key meets a truthy primitive
   * intermediate, `set` replaces it by `{}` and succeeds, but `merge` of an
   * object assigns into the primitive and throws, changing nothing.
   */
  lemma MergeThrowsWhereSetWrites(s: Instance, k: string, v: Json, i: nat)
    requires !s.readOnly && s.store.Obj? && v.Obj?
    requires 1 <= i < |Split(k)| && ObjectsAlong(s.store, Split(k), i)
    requires var c := Resolve(s.store, Split(k)[..i]); c.Some? && Truthy(c.value) && IsPrimitive(c.value)
    ensures Merge(s, Some(k), v) == Outcome(Throw, s)
    ensures Set(s, Some(k), v).completion == Return(true)
  {
    MergeWalkThrows(s.store, Split(k), v, i);
  }

  /** Where, past objects only, `clear`'s walk meets `null`, `clear` throws and changes nothing. */
  lemma ClearThrowsAtNull(s: Instance, k: string, i: nat)
    requires !s.readOnly && s.store.Obj?
    requires 1 <= i < |Split(k)| && ObjectsAlong(s.store, Split(k), i)
    requires Resolve(s.store, Split(k)[..i]) == Some(Null)
    ensures Clear(s, Some(k)) == Outcome(Throw, s)
  {
    ClearAtThrows(s.store, Split(k), i);
  }

  /** Repeated `_autoSave` calls before the timer fires leave one timer, and no save, pending. */
  lemma AutoSaveRestarts(s: Instance)
    requires s.config.autoSave != 0
    ensures AutoSave(AutoSave(s)) == AutoSave(s)
  {
  }

  /**
   * The timer runs `save`: once it fires, a debounced auto-save has written
   * exactly what an immediate `save` of the same store writes.
   */
  lemma FireSaves(s: Instance)
    requires s.config.autoSave > 0
    ensures Fire(AutoSave(s)) == Save(s).(pending := false)
  {
  }
}
