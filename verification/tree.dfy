/**
 * The nested-object tree and the walks `get`, `set`, `clear` and `merge`
 * perform along a key path, as pure functions on JSON values.
 */
module Tree {
  import opened Wrappers
  import opened Values

  /** Result of a walk that may fail the way the store's source does. */
  datatype Effect =
    | Done(tree: Json)    // the walk finished; `tree` is the new store
    | Refused             // the operation reports failure (`return false`) without mutating
    | Threw               // a strict-mode TypeError escapes (a property of null, an assignment to a primitive)
    | Unmodelled          // the walk would use an array as a property bag

  /**
   * `get`: from the root, descend while the current node is truthy and owns
   * the next name; `None` is `undefined`.
   */
  function Resolve(t: Json, p: seq<string>): Option<Json>
    decreases |p|
  {
    if |p| == 0 then Some(t)
    else if !Truthy(t) then None
    else match OwnProperty(t, p[0])
      case None => None
      case Some(c) => Resolve(c, p[1..])
  }

  /**
   * The tree after `set` assigns `v` at path `p`: every intermediate that is
   * not an object is replaced by `{}`, then the last name is written.
   * An array intermediate is treated as a non-object here; the store never
   * calls this on such a path (see `ArrayFree`).
   */
  function SetAt(t: Json, p: seq<string>, v: Json): Json
    decreases |p|
  {
    if |p| == 0 then v
    else
      var ms := Fields(t);
      Obj(Put(ms, p[0], SetAt(Lookup(ms, p[0]).GetOr(Null), p[1..], v)))
  }

  /**
   * No node that a mutator would use as a container on the way along `p`
   * is an array: the root and every existing object member walked into.
   */
  predicate ArrayFree(t: Json, p: seq<string>)
    decreases |p|
  {
    |p| == 0 ||
    (!t.Arr? && (t.Obj? && Lookup(t.members, p[0]).Some? ==> ArrayFree(Lookup(t.members, p[0]).value, p[1..])))
  }

  /**
   * `clear` with a non-empty key: walk the intermediates (each must be an
   * object or `null`, else the walk refuses), then delete the last name.
   */
  function ClearAt(t: Json, p: seq<string>): (r: Effect)
    requires |p| >= 1
    ensures r.Done? && t.Obj? ==> r.tree.Obj?
    decreases |p|
  {
    if |p| == 1 then
      match t
      case Obj(ms) => Done(Obj(Remove(ms, p[0])))
      case Null => Threw
      case Arr(_) => Unmodelled
      case Str(_) => if OwnProperty(t, p[0]).Some? then Threw else Done(t)
      case _ => Done(t)
    else
      match t
      case Obj(ms) =>
        (match Lookup(ms, p[0])
         case None => Refused
         case Some(c) =>
           if !IsObjectType(c) then Refused
           else match ClearAt(c, p[1..])
             case Done(c') => Done(Obj(Put(ms, p[0], c')))
             case other => other)
      case Null => Threw
      case Arr(_) => Unmodelled
      case _ => Refused
  }

  /** What `merge`'s walk to the last name of its path yields. */
  datatype Walk =
    | Walked(prepared: Json, existing: Option<Json>, written: Json)
    | WalkThrew
    | WalkUnmodelled

  /**
   * `merge`'s walk along `p`: every falsy intermediate is replaced by `{}`,
   * a truthy one is entered as it is; a primitive or `null` container makes
   * the walk throw. `prepared` is the tree after the replacements,
   * `existing` the value found under the last name, and `written` the tree
   * with `v` written there.
   */
  function MergeWalk(t: Json, p: seq<string>, v: Json): Walk
    requires |p| >= 1
    decreases |p|
  {
    match t
    case Obj(ms) =>
      if |p| == 1 then Walked(t, Lookup(ms, p[0]), Obj(Put(ms, p[0], v)))
      else
        var c := Lookup(ms, p[0]);
        var next := if c.None? || !Truthy(c.value) then Obj([]) else c.value;
        (match MergeWalk(next, p[1..], v)
         case Walked(prepared, existing, written) =>
           Walked(Obj(Put(ms, p[0], prepared)), existing, Obj(Put(ms, p[0], written)))
         case other => other)
    case Arr(_) => WalkUnmodelled
    case _ => WalkThrew
  }

  /**
   * `merge`'s walk along `p` neither throws nor meets an array: the root is an
   * object and each intermediate is missing, falsy, or an object.
   */
  predicate MergeWalkable(t: Json, p: seq<string>)
    requires |p| >= 1
    decreases |p|
  {
    t.Obj? &&
    (|p| == 1 ||
     var c := Lookup(t.members, p[0]);
     c.None? || !Truthy(c.value) || MergeWalkable(c.value, p[1..]))
  }

  /**
   * The value a recursive merge of `v` leaves where `existing` was: a
   * non-object `v`, or anything over a missing value, a primitive or an
   * array, is taken as it is; over an object or `null`, the members of `v`
   * are merged in one at a time.
   */
  function DeepMerge(existing: Option<Json>, v: Json): Json
    decreases v, 1, 0
  {
    if !v.Obj? || existing.None? || !(existing.value.Obj? || existing.value.Null?) then v
    else FoldMerge(existing.value, v, 0)
  }

  /** Merges the members of object `v` from the `i`-th on into `acc`, in order. */
  function FoldMerge(acc: Json, v: Json, i: nat): Json
    requires v.Obj? && i <= |v.members|
    decreases v, 0, |v.members| - i
  {
    if i == |v.members| then acc
    else
      var m := v.members[i];
      var ms := Fields(acc);
      FoldMerge(Obj(Put(ms, m.name, DeepMerge(Lookup(ms, m.name), m.value))), v, i + 1)
  }
}
