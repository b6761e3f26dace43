/**
 * One store instance: the in-memory tree, the `readOnly` flag, the options
 * it was built with, and the auto-save state. Every mutator is a function
 * from an instance to an `Outcome`: what the call completes with, and the
 * instance it leaves behind.
 */
module Store {
  import opened Wrappers
  import opened Values
  import opened KeyPath
  import opened Tree
  import opened TreeProps

  /** The constructor's options; `None` is an absent option. */
  datatype Options = Options(name: Option<string>, autoSave: Option<int>, autoUpdate: Option<Json>)

  /** The settings an instance keeps: node name, auto-save delay in ms, auto-update flag. */
  datatype Config = Config(name: string, autoSave: int, autoUpdate: Json)

  /**
   * `pending` is the one outstanding auto-save timer; `saves` logs, oldest
   * first, the store as each save to the remote node serialised it.
   */
  datatype Instance = Instance(store: Json, readOnly: bool, config: Config, pending: bool, saves: seq<Json>)

  /** How a mutator call ends: a boolean return, a TypeError, or a case outside this model. */
  datatype Completion = Return(ok: bool) | Throw | Unmodelled

  datatype Outcome = Outcome(completion: Completion, inst: Instance)

  const DefaultName: string := "nconf-zookeeper"

  /**
   * The constructor. `options.autoSave || -1` maps an absent or zero delay
   * to -1, so the immediate-save regime is reachable only by assigning the
   * delay afterwards.
   */
  function New(options: Options): (r: Instance)
    ensures r.store == Obj([]) && !r.readOnly && !r.pending && r.saves == []
    ensures r.config.autoSave != 0
    ensures r.config.autoSave == (if options.autoSave.Some? && options.autoSave.value != 0 then options.autoSave.value else -1)
    ensures r.config.name == (if options.name.Some? && options.name.value != "" then options.name.value else DefaultName)
    ensures r.config.autoUpdate == Bool(true) <==> options.autoUpdate == Some(Bool(true))
  {
    var name := if options.name.Some? && options.name.value != "" then options.name.value else DefaultName;
    var delay := if options.autoSave.Some? && options.autoSave.value != 0 then options.autoSave.value else -1;
    var update := if options.autoUpdate.Some? && Truthy(options.autoUpdate.value) then options.autoUpdate.value else Bool(false);
    Instance(Obj([]), false, Config(name, delay, update), false, [])
  }

  /** The remote node the store is mirrored to. */
  function File(c: Config): string {
    "/" + c.name
  }

  /**
   * What any mutator may change besides the store: saves are only appended,
   * and only in the immediate regime; a timer is only started in the
   * debounced regime, and never cancelled without a replacement.
   */
  predicate Frame(s: Instance, s': Instance) {
    && s'.readOnly == s.readOnly
    && s'.config == s.config
    && s.saves <= s'.saves
    && (s.config.autoSave != 0 ==> s'.saves == s.saves)
    && (s.pending ==> s'.pending)
    && (s'.pending ==> s.pending || s.config.autoSave > 0)
  }

  lemma FrameTransitive(s1: Instance, s2: Instance, s3: Instance)
    requires Frame(s1, s2) && Frame(s2, s3)
    ensures Frame(s1, s3)
  {
  }

  /**
   * `_autoSave`: a negative delay does nothing, zero saves the store now,
   * and a positive delay (re)starts the single timer.
   */
  function AutoSave(s: Instance): (r: Instance)
    ensures Frame(s, r) && r.store == s.store
    ensures s.config.autoSave < 0 ==> r == s
    ensures s.config.autoSave == 0 ==> r.saves == s.saves + [s.store] && r.pending == s.pending
    ensures s.config.autoSave > 0 ==> r.pending && r.saves == s.saves
  {
    if s.config.autoSave < 0 then s
    else if s.config.autoSave == 0 then s.(saves := s.saves + [s.store])
    else s.(pending := true)
  }

  /** The pending timer fires: one save of the store as it is now. */
  function Fire(s: Instance): (r: Instance)
    ensures !r.pending && r.store == s.store && r.config == s.config && r.readOnly == s.readOnly
    ensures r.saves == if s.pending then s.saves + [s.store] else s.saves
  {
    if s.pending then s.(pending := false, saves := s.saves + [s.store]) else s
  }

  /** `save`: serialise the whole store to the remote node. */
  function Save(s: Instance): (r: Instance)
    ensures r.saves == s.saves + [s.store] && r.store == s.store && r.pending == s.pending
  {
    s.(saves := s.saves + [s.store])
  }

  /** `get`: the value at `key`, `None` for `undefined`; an absent key reads the whole store. */
  function Get(s: Instance, key: Option<string>): (r: Option<Json>)
    ensures key.None? ==> r == Some(s.store)
  {
    Resolve(s.store, Path(key))
  }

  /** `reset`: empty the store. */
  function Reset(s: Instance): (r: Outcome)
    ensures Frame(s, r.inst)
    ensures s.readOnly ==> r == Outcome(Return(false), s)
    ensures !s.readOnly ==> r.completion == Return(true) && r.inst.store == Obj([])
    ensures !s.readOnly && s.config.autoSave == 0 ==> r.inst.saves == s.saves + [Obj([])]
    ensures !s.readOnly && s.config.autoSave > 0 ==> r.inst.pending
  {
    if s.readOnly then Outcome(Return(false), s)
    else Outcome(Return(true), AutoSave(s.(store := Obj([]))))
  }

  /**
   * `set`. At the root only a truthy object (arrays included) is accepted;
   * it goes through `reset`, whose auto-save sees `{}`, and no auto-save
   * follows the assignment. Below the root, intermediates that are not
   * objects are replaced by `{}` and the value is assigned.
   */
  function Set(s: Instance, key: Option<string>, v: Json): (r: Outcome)
    ensures Frame(s, r.inst)
    ensures s.readOnly ==> r == Outcome(Return(false), s)
    ensures !s.readOnly && key.None? ==>
      if Truthy(v) && IsObjectType(v)
      then r.completion == Return(true) && r.inst.store == v
      else r == Outcome(Return(false), s)
    ensures !s.readOnly && key.None? && Truthy(v) && IsObjectType(v) && s.config.autoSave == 0 ==>
      r.inst.saves == s.saves + [Obj([])]
    ensures !s.readOnly && key.Some? ==> r.completion != Return(false)
    ensures !s.readOnly && key.Some? && !s.store.Obj? && !s.store.Arr? ==> r == Outcome(Throw, s)
    ensures !s.readOnly && key.Some? && s.store.Obj? && ArrayFree(s.store, Path(key)) ==>
      r.completion == Return(true) && Resolve(r.inst.store, Path(key)) == Some(v)
    ensures r.completion == Return(true) && s.config.autoSave > 0 ==> r.inst.pending
  {
    var p := Path(key);
    if s.readOnly then Outcome(Return(false), s)
    else if |p| == 0 then
      if !Truthy(v) || !IsObjectType(v) then Outcome(Return(false), s)
      else Outcome(Return(true), Reset(s).inst.(store := v))
    else if s.store.Arr? || !ArrayFree(s.store, p) then Outcome(Completion.Unmodelled, s)
    else if !s.store.Obj? then Outcome(Throw, s)
    else
      ResolveSetAt(s.store, p, v, []);
      assert p + [] == p;
      Outcome(Return(true), AutoSave(s.(store := SetAt(s.store, p, v))))
  }

  /** A key `clear` treats as present: `if (key)` on a string. */
  predicate KeyTruthy(key: Option<string>) {
    key.Some? && key.value != ""
  }

  /**
   * `clear`. A falsy key (absent or `""`) empties the store; otherwise the
   * last name is deleted from its parent, or the walk refuses.
   */
  function Clear(s: Instance, key: Option<string>): (r: Outcome)
    ensures Frame(s, r.inst)
    ensures s.readOnly ==> r == Outcome(Return(false), s)
    ensures !s.readOnly && !KeyTruthy(key) ==> r.completion == Return(true) && r.inst.store == Obj([])
    ensures r.completion == Return(true) ==> Resolve(r.inst.store, Path(key)) == None || !KeyTruthy(key)
    ensures r.completion != Return(true) ==> r.inst == s
    ensures !s.readOnly && KeyTruthy(key) && ClearAt(s.store, Path(key)).Done? ==>
      r.completion == Return(true) && r.inst.store == ClearAt(s.store, Path(key)).tree
    ensures r.completion == Return(true) && s.config.autoSave > 0 ==> r.inst.pending
  {
    if s.readOnly then Outcome(Return(false), s)
    else if !KeyTruthy(key) then Outcome(Return(true), AutoSave(s.(store := Obj([]))))
    else
      var p := Path(key);
      match ClearAt(s.store, p)
      case Done(t) =>
        ClearGone(s.store, p);
        Outcome(Return(true), AutoSave(s.(store := t)))
      case Refused => Outcome(Return(false), s)
      case Threw => Outcome(Throw, s)
      case Unmodelled => Outcome(Completion.Unmodelled, s)
  }

  /**
   * The path `merge` walks: with an absent key, `path.shift()` on `[]`
   * yields `undefined`, which names the member `"undefined"`, so the walk
   * is the one for the key `"undefined"`.
   */
  function MergePath(key: Option<string>): (r: seq<string>)
    ensures |r| >= 1
    ensures r == Split(key.GetOr("undefined"))
  {
    SplitPlain("undefined");
    if key.None? then ["undefined"] else Split(key.value)
  }

  /**
   * `merge`. A value that is not an object is `set`. An object replaces a
   * missing, primitive or array value outright; into an object or `null` its
   * members are merged one by one under the keys `common.key(key, name)`,
   * stopping at the first that does not return true.
   */
  function Merge(s: Instance, key: Option<string>, v: Json): (r: Outcome)
    ensures Frame(s, r.inst)
    ensures s.readOnly ==> r == Outcome(Return(false), s)
    ensures !v.Obj? ==> r == Set(s, key, v)
    ensures r.completion == Return(false) <==> s.readOnly || (key.None? && !v.Obj? && !v.Arr?)
    ensures r.completion == Return(true) && s.config.autoSave > 0 ==> r.inst.pending
    decreases v, 1, 0
  {
    if s.readOnly then Outcome(Return(false), s)
    else if !v.Obj? then Set(s, key, v)
    else
      match MergeWalk(s.store, MergePath(key), v)
      case WalkThrew => Outcome(Throw, s)
      case WalkUnmodelled => Outcome(Completion.Unmodelled, s)
      case Walked(prepared, existing, written) =>
        if existing.None? || !IsObjectType(existing.value) || existing.value.Arr? then
          Outcome(Return(true), AutoSave(s.(store := written)))
        else
          var r := MergeMembers(s.(store := prepared), key, v, 0);
          if r.completion.Return? then Outcome(r.completion, AutoSave(r.inst)) else r
  }

  /** The `every` over the members of `v` from the `i`-th on. */
  function MergeMembers(s: Instance, key: Option<string>, v: Json, i: nat): (r: Outcome)
    requires v.Obj? && i <= |v.members|
    ensures Frame(s, r.inst)
    ensures !s.readOnly ==> r.completion != Return(false)
    decreases v, 0, |v.members| - i
  {
    if i == |v.members| then Outcome(Return(true), s)
    else
      var m := v.members[i];
      var r := Merge(s, Some(ChildKey(key, m.name)), m.value);
      if r.completion == Return(true) then MergeMembers(r.inst, key, v, i + 1) else r
  }

  /** One call of a mutator. */
  datatype Op =
    | SetOp(key: Option<string>, value: Json)
    | ClearOp(key: Option<string>)
    | MergeOp(key: Option<string>, value: Json)
    | ResetOp

  function Apply(s: Instance, op: Op): (r: Outcome)
    ensures Frame(s, r.inst)
    ensures s.readOnly ==> r == Outcome(Return(false), s)
    ensures r.completion == Return(true) && s.config.autoSave > 0 ==> r.inst.pending
  {
    match op
    case SetOp(k, v) => Set(s, k, v)
    case ClearOp(k) => Clear(s, k)
    case MergeOp(k, v) => Merge(s, k, v)
    case ResetOp => Reset(s)
  }

  /** The instance a run of mutator calls leaves, and what each call completed with. */
  datatype Trace = Trace(inst: Instance, results: seq<Completion>)

  /**
   * Mutator calls one after another, with no timer firing in between; a call
   * that throws leaves the instance as the exception found it.
   */
  function Burst(s: Instance, ops: seq<Op>): (r: Trace)
    ensures |r.results| == |ops|
    ensures Frame(s, r.inst)
    decreases |ops|
  {
    if |ops| == 0 then Trace(s, [])
    else
      var first := Apply(s, ops[0]);
      var rest := Burst(first.inst, ops[1..]);
      FrameTransitive(s, first.inst, rest.inst);
      Trace(rest.inst, [first.completion] + rest.results)
  }
}
