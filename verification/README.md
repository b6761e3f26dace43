# nconf-zookeeper store, modelled in Dafny

nconf-zookeeper is a configuration store for nconf. It keeps a nested JSON
object in memory and mirrors it to one ZooKeeper node, `/<name>`. Keys like
`my:nested:key` address the path `my` → `nested` → `key`. This project models
the store in `lib/zookeeper.js` in three parts:

- **Key addressing and the tree** (`keypath.dfy`, `values.dfy`, `tree.dfy`,
  `tree_props.dfy`). `common.path` and `common.key` become `Split` and `Join`.
  JSON values are a datatype whose objects are ordered member lists, because
  JavaScript objects keep insertion order and `merge` visits members in that
  order. The walks of `get`, `set`, `clear` and `merge` are separate
  functions, because each treats intermediates in its own way:
  - `set` replaces any non-object intermediate with `{}`;
  - `merge` replaces only falsy ones, and throws on a truthy primitive;
  - `clear` refuses at a missing or primitive one, and throws on `null`.
- **The instance and auto-save** (`store.dfy`, `store_props.dfy`). An instance
  holds:
  - the tree;
  - `readOnly`;
  - the constructor's settings;
  - a flag for the one pending auto-save timer;
  - a log of every save, each entry being the store as it was written.

  Every mutator returns an outcome: a boolean return, a thrown TypeError
  (the source runs in strict mode), or `Unmodelled` for the cases listed
  under "Left out".
- **Load, fetch, recovery and watching** (`sync.dfy`, `sync_props.dfy`). The
  ZooKeeper client is replaced by the events it reports and a trace of the
  requests the instance sends it. A `load` callback is a number, and each
  call of a callback is logged.

Central results:
- `merge` of plain data is a deep merge (`StoreProps.MergeSpec` against the
  reference `Tree.DeepMerge`).
- `clear` with a key leaves every path off the key alone. `set` and `merge`
  with a key do too, except below an intermediate they replace by `{}`.
  (`merge` without a key writes the member `""`, which is off its path.)
- On a read-only store, `set`, `clear`, `merge` and `reset` change nothing.
  Fetched data still replaces the store.
- With a positive delay, a burst of mutations is saved once, as the store
  stands when the timer fires.
- A `load` callback is called at most once.

## Model

| member | source | states |
|---|---|---|
| KeyPath.Split | lib/zookeeper.js:24-26 | a key splits into at least one piece, as `String.prototype.split` does |
| KeyPath.SplitPieces | lib/zookeeper.js:24-26 | no piece of a split key contains `:` |
| KeyPath.Path | lib/zookeeper.js:24-26 | a key gives no segments exactly when it is `null`/`undefined` |
| KeyPath.Join | lib/zookeeper.js:27-29 | definition of `join(':')`; `KeyPath.JoinSplit` and `KeyPath.SplitJoin` prove it inverse to `Split` |
| KeyPath.ChildKey | lib/zookeeper.js:27-29 | definition of `common.key(fullKey, nested)`; `KeyPath.PathOfChildKey` states the path it addresses |
| KeyPath.KeyText | lib/zookeeper.js:27-29 | definition of how `join` renders a key: `undefined` as the empty string; `StoreProps.MembersUnderAbsentKey` states the consequence |
| KeyPath.JoinSplit | lib/zookeeper.js:24-29 | joining the pieces of any key with `:` gives back that key |
| KeyPath.SplitJoin | lib/zookeeper.js:24-29 | splitting the join of a non-empty list of pieces without `:` gives back the list |
| KeyPath.SplitPlain | lib/zookeeper.js:24-26 | a key without `:` is a single segment |
| KeyPath.SplitAround | lib/zookeeper.js:24-29 | splitting `a:b` gives the pieces of `a` followed by those of `b` |
| KeyPath.PathOfChildKey | lib/zookeeper.js:27-29 | the segments of `common.key(key, nested)` are those of the key (`""` for an absent key) followed by those of `nested`, so a `:` inside `nested` makes extra levels |
| Values.Truthy | lib/zookeeper.js:226 | definition of JavaScript truthiness (`!value`) on JSON values, which `set`, `merge` and `get` test |
| Values.IsObjectType | lib/zookeeper.js:226 | definition of `typeof value === 'object'`: true of `null`, arrays and objects |
| Values.Lookup | lib/zookeeper.js:199-200 | definition of a property read; `Values.LookupNames`, `LookupMissing` and `LookupMember` state what it finds |
| Values.LookupNames | lib/zookeeper.js:199-200 | a property read finds a value exactly when the name is an own property of the object |
| Values.LookupMissing | lib/zookeeper.js:199-200 | a name no member holds reads `undefined` |
| Values.Put | lib/zookeeper.js:250 | after an assignment, the name reads the new value and every other name reads as before |
| Values.PutNames | lib/zookeeper.js:250 | assignment keeps an existing property in its place and appends a new one last, which preserves key order |
| Values.PutSame | lib/zookeeper.js:250 | assigning a property the value it already has changes nothing |
| Values.PutPut | lib/zookeeper.js:250 | a second assignment to the same name overrides the first |
| Values.Remove | lib/zookeeper.js:284 | after `delete`, the name is absent, every other name reads as before, and the remaining names are exactly the old ones minus the deleted one |
| Values.LookupMember | lib/zookeeper.js:199-200 | in an object with distinct names, each member is found under its own name |
| Values.LookupAfter | lib/zookeeper.js:345-347 | in an object with distinct names, a member's name occurs nowhere after it, so later members of `merge`'s loop never touch it again |
| Values.OwnProperty | lib/zookeeper.js:199-200 | definition of `hasOwnProperty` followed by a read; its contract covers only the object and non-string-primitive cases, and `Values.ArrayOwnProperties` and `Values.StringOwnProperties` state the array and string cases |
| Values.ArrayIndexNumeral | lib/zookeeper.js:199-200 | the decimal numeral of an index is a canonical index name that denotes that index |
| Values.NumeralArrayIndex | lib/zookeeper.js:199-200 | every canonical index name is the decimal numeral of the index it denotes |
| Values.ArrayOwnProperties | lib/zookeeper.js:199-200 | an array owns exactly `length` and the numerals of its indexes, and the numeral of index `i` reads element `i` |
| Values.StringOwnProperties | lib/zookeeper.js:199-200 | a string owns exactly `length` and the numerals of its positions, and the numeral of position `i` reads that one character |
| Tree.Resolve | lib/zookeeper.js:190-207 | definition of `get`'s walk; `TreeProps.ResolveSetAt`, `ResolveScalar` and `StoreProps.MergeThenGet` state what it reads after each mutator |
| Tree.SetAt | lib/zookeeper.js:239-250 | definition of `set`'s walk and assignment; `TreeProps.ResolveSetAt`, `SetAtDiverge` and `SetAtObjectsAlong` state its effect |
| Tree.MergeWalk | lib/zookeeper.js:322-332 | definition of `merge`'s walk; `TreeProps.MergeWalkSpec` and `MergeWalkThrows` state when it succeeds, what it finds and what it writes |
| Tree.DeepMerge | lib/zookeeper.js:332-347 | the reference deep merge; `TreeProps.DeepMergeLookup` states its member-wise meaning and `StoreProps.MergeSpec` proves `merge` computes it |
| Tree.FoldMerge | lib/zookeeper.js:345-347 | the reference member-by-member fold; `TreeProps.FoldMergeLookup` states what each name holds afterwards |
| Tree.ClearAt | lib/zookeeper.js:273-284 | deleting a key from an object store leaves an object |
| TreeProps.ResolveSetAt | lib/zookeeper.js:239-250 | after assigning `a` at a path, reading that path, or any path below it, reads inside `a` |
| TreeProps.SetAtDiverge | lib/zookeeper.js:239-250 | a path that leaves the written one at position `i` reads as before, unless the node at the branch point was not an object and was replaced by `{}` |
| TreeProps.SetAtCompose | lib/zookeeper.js:239-250 | assigning below a path after assigning at that path equals one assignment of the combined value |
| TreeProps.SetAtObjectsAlong | lib/zookeeper.js:239-246 | after `set`, every node on the way to the key is an object |
| TreeProps.ResolveScalar | lib/zookeeper.js:197-203 | reading through a primitive never yields an object or an array |
| TreeProps.MergeWalkableSetAt | lib/zookeeper.js:322-329 | after writing an object or falsy value at a path, `merge`'s walk can pass through it one level deeper |
| TreeProps.MergeWalkableArrayFree | lib/zookeeper.js:322-329 | a path `merge` can walk meets no array |
| TreeProps.MergeWalkFinds | lib/zookeeper.js:322-332 | on a path `merge` can walk, the walk succeeds and finds the value `get` would read at the key |
| TreeProps.MergeWalkWrites | lib/zookeeper.js:322-343 | on such a path, writing the value directly where the walk ends gives the same tree as `set` |
| TreeProps.MergeWalkKeeps | lib/zookeeper.js:322-329 | when the key already exists, the walk has replaced no intermediate, and writing back the value found there changes nothing |
| TreeProps.MergeWalkSpec | lib/zookeeper.js:322-343 | `merge`'s walk sees the old value at the key, and its direct write equals `set`'s; if the key exists, the walk has changed nothing |
| TreeProps.FoldMergeLookup | lib/zookeeper.js:345-347 | after merging the members from position `i` on into an object, a name among them holds the deep merge of its old and new values, and any other name keeps its old value |
| TreeProps.DeepMergeLookup | lib/zookeeper.js:332-347 | deep merge of an object into an object or `null`: a name of the new value holds the merge of old and new, any other name keeps its old value |
| TreeProps.ClearGone | lib/zookeeper.js:282-284 | after a successful `clear`, the key reads `undefined` |
| TreeProps.ClearDiverge | lib/zookeeper.js:273-284 | a successful `clear` leaves every path that leaves the key unchanged |
| TreeProps.ClearDoneIff | lib/zookeeper.js:273-284 | on an object store, `clear` deletes exactly when every node on the way to the parent is an object |
| TreeProps.ClearRefusedIff | lib/zookeeper.js:273-280 | on an object store, `clear` returns false exactly when, past objects only, the walk meets a missing or primitive intermediate |
| TreeProps.MergeWalkThrows | lib/zookeeper.js:322-329 | `merge`'s walk throws where, past objects only, it meets a truthy primitive intermediate, and such a path holds no array that `set` would use |
| TreeProps.ClearAtThrows | lib/zookeeper.js:273-284 | `clear`'s walk throws where, past objects only, it meets `null` |
| Store.New | lib/zookeeper.js:50-57 | a new store is an empty, writable object; an absent or zero delay becomes -1, so the constructor never yields delay 0; the name defaults to `nconf-zookeeper`; the watcher is enabled only by `autoUpdate === true` |
| Store.AutoSave | lib/zookeeper.js:169-183 | definition of the three delay regimes of `_autoSave`; its contract adds that the store and settings are untouched and that the change stays within `Frame`. `StoreProps.AutoSaveRestarts`, `DebounceOneSave`, `DisabledNeverSaves` and `ImmediateSave` state the consequences |
| Store.Fire | lib/zookeeper.js:182 | definition of the timer firing; `StoreProps.FireSaves` proves the firing is a call of `save` |
| Store.Save | lib/zookeeper.js:161-167 | definition of `save` as the append of a snapshot of the whole store; `SyncProps.SaveThenFetch` proves a fetch of that snapshot restores the instance |
| Store.Get | lib/zookeeper.js:190-207 | an absent key reads the whole store |
| Store.Reset | lib/zookeeper.js:356-364 | a writable store becomes `{}`, which triggers an auto-save; a read-only store returns false and does not change |
| Store.Set | lib/zookeeper.js:215-253 | the root takes only a truthy object or array, and then the store is exactly that value; anything else at the root returns false and changes nothing; with delay 0 a root set saves `{}`; a non-root key on a writable object store returns true and `get` then reads the value; on a `null` or primitive store it throws |
| Store.KeyTruthy | lib/zookeeper.js:265 | definition of `if (key)` on a string key: present and not empty; `Store.Clear` states what each side does |
| Store.Clear | lib/zookeeper.js:260-291 | an absent or empty key empties the store; after success the key reads `undefined`; a call that does not return true changes nothing |
| Store.MergePath | lib/zookeeper.js:314-332 | `merge` without a key walks exactly the path of the key `"undefined"`; any other key walks its own segments |
| Store.Merge | lib/zookeeper.js:301-350 | a value that is not an object is handed to `set`; `merge` returns false exactly when the store is read-only, or when the key is absent and the value is a primitive or `null` |
| Store.MergeMembers | lib/zookeeper.js:345-347 | the loop over the members never returns false on a writable store |
| Store.Apply | lib/zookeeper.js:215-364 | every mutator on a read-only store returns false and changes nothing; saves are only appended, and only with delay 0; a timer is started only with a positive delay, and never cancelled without a replacement |
| Store.Burst | lib/zookeeper.js:169-183 | a run of mutator calls changes neither the settings nor the read-only flag, and never removes a save |
| Store.File | lib/zookeeper.js:76-80 | definition of the node path `"/" + name`; `SyncProps.FirstLoad` and `NoNodeRecovery` show it is the node fetched and created |
| StoreProps.SetOthers | lib/zookeeper.js:239-250 | `set` under a key leaves every path off that key as it was, except below intermediates that were replaced by `{}` |
| StoreProps.ClearResult | lib/zookeeper.js:265-290 | on an object store, `clear` returns true exactly when every node on the way to the parent is an object, and false exactly when the walk meets a missing or primitive intermediate |
| StoreProps.ClearOthers | lib/zookeeper.js:273-284 | a successful `clear` leaves every path off the key as it was |
| StoreProps.MergeSpec | lib/zookeeper.js:301-350 | when the walk meets no array and no truthy primitive, and no member name contains `:`, `merge` returns true and the store holds the deep merge of the value into what was at the key: a missing, primitive or array value is replaced; in an object, old-only keys are kept, new keys are added and shared keys are merged recursively |
| StoreProps.MergeScalarSpec | lib/zookeeper.js:310-311 | a value that is not an object, merged on a walkable path, is written at the key as `set` writes it |
| StoreProps.MergeReplaceSpec | lib/zookeeper.js:332-343 | on a writable store whose walk to the key meets no array and no truthy primitive, an object merged where the key is missing or holds a primitive or an array replaces that value outright and returns true |
| StoreProps.MergeIntoSpec | lib/zookeeper.js:332-347 | on a writable store whose walk to the key meets no array and no truthy primitive, an object whose member names hold no `:`, merged where the key holds an object or `null`, returns true and folds the members in one by one |
| StoreProps.MergeMembersSpec | lib/zookeeper.js:345-347 | for a value whose member names hold no `:`, merging the members one call at a time into an object or `null` at a key equals folding them into it |
| StoreProps.MergeThenGet | lib/zookeeper.js:301-350 | after such a `merge`, `get` of the key returns the deep merge of the old value and the new one |
| StoreProps.MergeAbsentKey | lib/zookeeper.js:314-343 | on a writable object store, `merge` of an object without a key overwrites the member `"undefined"` unless that member already holds an object or `null` |
| StoreProps.MembersUnderAbsentKey | lib/zookeeper.js:27-29 | `common.key(undefined, name)` and `common.key("", name)` are both `":" + name`, so keyless member merging is merging under the key `""` |
| StoreProps.MergeAbsentKeyStraysToEmptyName | lib/zookeeper.js:314-347 | on a writable object store where `"undefined"` and `""` both hold an object or `null`, keyless `merge` of an object whose member names hold no `:` deep-merges it into the member `""`, not into `"undefined"` |
| StoreProps.MergeThrowsWhereSetWrites | lib/zookeeper.js:322-329 | where, past objects only, the walk to a key meets a truthy primitive intermediate, `merge` of an object throws and changes nothing, while `set` of it at the same key returns true |
| StoreProps.ClearThrowsAtNull | lib/zookeeper.js:273-284 | where, past objects only, the walk of `clear` meets `null`, `clear` throws and changes nothing |
| StoreProps.SetThenClear | lib/zookeeper.js:260-291 | `clear` of a key that `set` just wrote returns true and removes it |
| StoreProps.ResetIsClearAll | lib/zookeeper.js:356-364 | `reset` behaves as `clear` without a key |
| StoreProps.ReadOnlyBurst | lib/zookeeper.js:215-364 | on a read-only store, every call of `set`, `clear`, `merge` and `reset` returns false, and the store, timer and saves stay as they were |
| StoreProps.DebounceOneSave | lib/zookeeper.js:176-182 | with a positive delay, a burst of calls saves nothing; a call that returned true leaves the timer pending; the one firing then saves the store once, as it stands at that moment |
| StoreProps.AutoSaveRestarts | lib/zookeeper.js:170-182 | calling `_autoSave` twice is the same as calling it once unless the delay is 0: a positive delay leaves the one pending timer and no extra save, and a negative delay does nothing |
| StoreProps.FireSaves | lib/zookeeper.js:182 | a debounced auto-save, once its timer fires, has written exactly what an immediate `save` of the same store writes |
| StoreProps.DisabledNeverSaves | lib/zookeeper.js:170-172 | with a negative delay, nothing is ever saved and no timer starts |
| StoreProps.ImmediateSave | lib/zookeeper.js:173-176 | with delay 0, each successful `set`, `clear` or `reset` saves exactly once; a root `set` saves `{}`, the others save the new store |
| Sync.Fetch | lib/zookeeper.js:87-95 | definition of `getData`: one request for `/<name>`, with the watcher exactly when `autoUpdate === true`. `SyncProps.FirstLoad`, `LoadWhileConnected` and `NoNodeRecovery` state the requests over whole exchanges |
| Sync.Load | lib/zookeeper.js:146-155 | definition of `load`: it registers the callback, then connects, fetches or waits according to the state name. `SyncProps.FirstLoad` and `LoadWhileConnected` prove the callback then receives the fetched data |
| Sync.OnError | lib/zookeeper.js:113-126 | definition of `onError`: `NO_NODE` asks for the node to be created, and any other error changes nothing. `SyncProps.NoNodeRecovery` and `IgnoredEvents` state the consequences |
| Sync.GotData | lib/zookeeper.js:97-111 | definition of `gotData`: the data replaces the store, and the registered callback gets it and is forgotten. `SyncProps.RunPool` and `CallbackAtMostOnce` prove no callback is called twice |
| Sync.Handle | lib/zookeeper.js:82-140 | for replies that carry parsed data, only a failed mkdirp throws; requests and calls are only appended; a callback is called only on an error-free reply, and only the registered one; the store changes only when data arrives, and becomes that data |
| Sync.Step | lib/zookeeper.js:82-364 | a `load` registers its callback and calls none; any other input calls at most the registered callback, only on an error-free reply, and then forgets it; no input changes the settings |
| Sync.Run | lib/zookeeper.js:82-364 | over any run that does not end in a throw, the settings stay as constructed |
| Sync.Watching | lib/zookeeper.js:89 | definition: only `autoUpdate === true` attaches the watcher; `Sync.Fetch` states the consequence |
| Sync.EndsWith | lib/zookeeper.js:152 | definition of the `/CONNECTED$/` test; `SyncProps.LoadWhileConnected` states the consequence |
| SyncProps.RunPool | lib/zookeeper.js:97-111 | over any run, the callbacks called come from those already called, the registered one, and those later `load`s register, each at most as often as it occurs there |
| SyncProps.CallbackAtMostOnce | lib/zookeeper.js:107-110 | if no callback number is reused, no `load` callback is called twice |
| SyncProps.FirstLoad | lib/zookeeper.js:82-111 | a new instance loaded while disconnected connects, fetches once connected, stores the data and hands it to the callback |
| SyncProps.NoNodeRecovery | lib/zookeeper.js:113-126 | `NO_NODE` gives exactly one mkdirp and then one fetch without the watcher, even with auto-update on |
| SyncProps.MkdirpFailureIsFatal | lib/zookeeper.js:118-121 | a failed mkdirp throws its error and ends the run |
| SyncProps.IgnoredEvents | lib/zookeeper.js:113-140 | errors other than `NO_NODE`, and watch events other than `NODE_DATA_CHANGED`, change nothing, so the callback stays pending |
| SyncProps.LoadWhileConnected | lib/zookeeper.js:146-155 | a `load` while connected fetches at once, with the watcher exactly when auto-update is on, and the reply reaches the new callback |
| SyncProps.SaveThenFetch | lib/zookeeper.js:97-111 | the snapshot `save` writes is the store as it stood, and a fetch that returns it leaves the instance unchanged |

## Left out

- `JSON.parse`, `JSON.stringify` and `Buffer` (lib/zookeeper.js:103, 163). Fetched data arrives already parsed, as an optional value. A save records a snapshot of the store.
- Real timers (lib/zookeeper.js:178-182). The one pending `setTimeout` is a flag. Its firing is the explicit step `Store.Fire`.
- The callback passed to `save` (lib/zookeeper.js:163-166). It is not modelled, because only the ZooKeeper client calls it.
- The constructor's connection-string building and `createClient` (lib/zookeeper.js:59-73). The client is a foreign library; the model has the events it reports instead.
- The optional `debug` module (lib/zookeeper.js:16-21) and the registration with nconf (lib/zookeeper.js:366-371). Neither affects the store.
- zk.js, a command-line debugging tool, is not part of this model. Neither is the test suite; its `onUpdated` option (test/zookeeper.js:121-131) is implemented nowhere in the store.
- Floating-point numbers, `NaN` and `Infinity`. JSON numbers are integers here, which only changes truthiness for `NaN`.
- Reference aliasing. `this.store = value` shares the caller's object, and `get` returns internal references. The model uses value semantics.
- String lengths and indexes count Dafny characters, not UTF-16 code units.
- JavaScript orders integer-like property names first. Objects here keep plain insertion order.
- Tree.Resolve: never throws. `get` calls `target.hasOwnProperty(key)` (lib/zookeeper.js:199), so a node with its own member named `hasOwnProperty` makes `get` throw a TypeError. For example, `get("a")` throws on `{"hasOwnProperty": 1, "a": 2}`, while the model reads `2`.
- Values.OwnProperty: ignores inherited properties such as `constructor` or `__proto__`. `get` tests `hasOwnProperty`, so it never reaches them.
- Tree.ClearAt: treats every name as an own property. In the source, `set`, `clear` and `merge` read `target[key]`, which also finds inherited properties of `Object.prototype`. So `clear("toString:x")` on `{}` walks into the inherited function `toString`, deletes nothing and returns true with an auto-save. The model refuses and returns false.
- Store.Merge: treats every name as an own property. In the source, a walk through `__proto__` writes into `Object.prototype`, and a walk through an inherited name such as `toString` enters a function. The model writes an own member instead. `Store.Set` differs only for `__proto__`. At an inherited function such as `toString`, `set` sees a non-object and assigns an own `{}`, as `Tree.SetAt` does.
- Store.Set: returns `Unmodelled` when the walk reaches an array. The source would then use the array as a property bag.
- Store.Clear: returns `Unmodelled` when an intermediate or the parent is an array. The source would walk into an array through an index or an inherited name, and `delete` on an array deletes an element and leaves a hole. Neither is modelled. Functions cannot occur in JSON data, so the model has no function values. The `typeof value !== 'function'` test matters only for inherited properties (see `Tree.ClearAt`).
- Store.Merge: returns `Unmodelled` when its walk reaches an array. The full deep-merge result (`StoreProps.MergeSpec`) is stated only for keys whose walk meets no truthy primitive, and for values whose member names contain no `:`. A `:` in a member name re-splits into deeper levels (`KeyPath.PathOfChildKey`).
- Store.New: takes options as a record of optional fields. A `null` options argument is the all-absent record. A non-boolean truthy `autoUpdate` is kept as given, but only `true` enables the watcher.
- Sync.GotData: calls the callback and forgets it in one step. The source calls it first and clears `dataCallback` afterwards (lib/zookeeper.js:107-109). So a `load` made from inside the callback is registered and then wiped at once, and never called. A callback that throws is never forgotten and can be called again by the next reply. The model covers neither case, and `SyncProps.CallbackAtMostOnce` assumes callbacks return normally.
- Sync.Load: the client's connection state is a string parameter. The state machine of `node-zookeeper-client` is not part of this model.
- Sync.Handle: `JSON.parse` throws a SyntaxError out of `gotData` when the node holds bytes that are not JSON, such as an empty buffer (lib/zookeeper.js:103). The callback is then neither called nor cleared. The model receives data already parsed, so it has no such reply.
- Sync.Handle: ZooKeeper watches fire only once, and a watch that fires while a fetch is in flight can race with it. Neither is modelled: events arrive one at a time, in any order a run chooses.
