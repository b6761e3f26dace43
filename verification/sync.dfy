/**
 * How an instance talks to ZooKeeper: `load` registers a callback and
 * connects or fetches, replies and watch events arrive as events, and a
 * missing node is created and fetched again. The client itself is outside
 * the model; what the instance asks of it is recorded as a request trace.
 */
module Sync {
  import opened Wrappers
  import opened Values
  import opened Store

  /** What the instance asks of the ZooKeeper client. */
  datatype Request =
    | Connect
    | GetData(path: string, watch: bool)
    | Mkdirp(path: string)

  /** One call of a `load` callback, with the data it was given (`None` for `null`). */
  datatype Delivery = Delivery(callback: nat, data: Option<Json>)

  /**
   * An instance with its connection-side state: the registered `load`
   * callback (identified by a number), the callbacks called so far, and the
   * requests issued so far.
   */
  datatype Session = Session(inst: Instance, callback: Option<nat>, delivered: seq<Delivery>, requests: seq<Request>)

  /** What the client reports back. */
  datatype Event =
    | Connected
    | Reply(error: Option<string>, data: Option<Json>)
    | ClientError(name: string)
    | MkdirpDone(failure: Option<string>)
    | Watch(name: string)

  /** An event either leaves a session behind or throws out of the mkdirp callback. */
  datatype Reaction = Continue(session: Session) | Fatal(error: string)

  const NoNode: string := "NO_NODE"
  const NodeDataChanged: string := "NODE_DATA_CHANGED"
  const Disconnected: string := "DISCONNECTED"
  const ConnectedSuffix: string := "CONNECTED"

  predicate EndsWith(s: string, suffix: string) {
    |suffix| <= |s| && s[|s| - |suffix|..] == suffix
  }

  function Start(inst: Instance): Session {
    Session(inst, None, [], [])
  }

  /** Only `autoUpdate === true` attaches the watcher. */
  predicate Watching(c: Config) {
    c.autoUpdate == Bool(true)
  }

  /** `getData`: fetch the node, with the watcher exactly when auto-update is on. */
  function Fetch(s: Session): (r: Session)
    ensures r == s.(requests := r.requests)
    ensures |r.requests| == |s.requests| + 1 && r.requests[..|s.requests|] == s.requests
    ensures r.requests[|s.requests|].GetData?
    ensures r.requests[|s.requests|].path == File(s.inst.config)
    ensures r.requests[|s.requests|].watch <==> s.inst.config.autoUpdate == Bool(true)
  {
    s.(requests := s.requests + [GetData(File(s.inst.config), Watching(s.inst.config))])
  }

  /**
   * `load`: register the callback (replacing any earlier one), then connect
   * if disconnected, fetch if the state name ends in `CONNECTED`, and
   * otherwise wait.
   */
  function Load(s: Session, cb: nat, stateName: string): (r: Session)
    ensures r.callback == Some(cb) && r.inst == s.inst && r.delivered == s.delivered
    ensures stateName == Disconnected ==> r.requests == s.requests + [Connect]
    ensures stateName != Disconnected && EndsWith(stateName, ConnectedSuffix) ==> r.requests == Fetch(s).requests
    ensures !EndsWith(stateName, ConnectedSuffix) ==> r.requests == s.requests
  {
    var s1 := s.(callback := Some(cb));
    if stateName == Disconnected then s1.(requests := s.requests + [Connect])
    else if EndsWith(stateName, ConnectedSuffix) then Fetch(s1)
    else s1
  }

  /** `onError`: a missing node is created; any other error is dropped. */
  function OnError(s: Session, name: string): (r: Session)
    ensures name != NoNode ==> r == s
    ensures name == NoNode ==> r == s.(requests := s.requests + [Mkdirp(File(s.inst.config))])
  {
    if name == NoNode then s.(requests := s.requests + [Mkdirp(File(s.inst.config))]) else s
  }

  /**
   * `gotData`: an error goes to `onError`; data replaces the whole store;
   * then the registered callback, if any, gets the data and is forgotten.
   */
  function GotData(s: Session, error: Option<string>, data: Option<Json>): (r: Session)
    ensures error.Some? ==> r == OnError(s, error.value)
    ensures error.None? ==> r.requests == s.requests && r.callback.None?
    ensures error.None? ==> r.inst == if data.Some? then s.inst.(store := data.value) else s.inst
    ensures error.None? ==>
      r.delivered == s.delivered + if s.callback.Some? then [Delivery(s.callback.value, data)] else []
  {
    if error.Some? then OnError(s, error.value)
    else
      var inst := if data.Some? then s.inst.(store := data.value) else s.inst;
      var delivered := if s.callback.Some? then s.delivered + [Delivery(s.callback.value, data)] else s.delivered;
      Session(inst, None, delivered, s.requests)
  }

  /** The client's callbacks and events, dispatched as the instance binds them. */
  function Handle(s: Session, e: Event): (r: Reaction)
    ensures r.Fatal? <==> e.MkdirpDone? && e.failure.Some?
    ensures r.Fatal? ==> r.error == e.failure.value
    ensures r.Continue? ==> s.requests <= r.session.requests && s.delivered <= r.session.delivered
    ensures r.Continue? && r.session.delivered != s.delivered ==>
      e.Reply? && e.error.None? && s.callback.Some? && r.session.callback.None? &&
      r.session.delivered == s.delivered + [Delivery(s.callback.value, e.data)]
    ensures r.Continue? && r.session.inst != s.inst ==>
      e.Reply? && e.error.None? && e.data.Some? && r.session.inst == s.inst.(store := e.data.value)
    ensures r.Continue? && r.session.callback != s.callback ==> r.session.callback.None?
  {
    match e
    case Connected => Continue(Fetch(s))
    case Reply(error, data) => Continue(GotData(s, error, data))
    case ClientError(name) => Continue(OnError(s, name))
    case MkdirpDone(failure) =>
      if failure.Some? then Fatal(failure.value)
      else Continue(s.(requests := s.requests + [GetData(File(s.inst.config), false)]))
    case Watch(name) => if name == NodeDataChanged then Continue(Fetch(s)) else Continue(s)
  }

  /** Everything that can happen to a session. */
  datatype Input =
    | LoadCall(cb: nat, stateName: string)
    | Notify(event: Event)
    | Mutate(op: Op)
    | Tick
    | SaveCall

  function Step(s: Session, input: Input): (r: Reaction)
    ensures r.Continue? ==> r.session.inst.config == s.inst.config
    ensures input.Mutate? ==> r == Continue(s.(inst := Apply(s.inst, input.op).inst))
    ensures r.Continue? && input.LoadCall? ==>
      r.session.delivered == s.delivered && r.session.callback == Some(input.cb)
    ensures r.Continue? && !input.LoadCall? && r.session.delivered == s.delivered ==>
      r.session.callback == s.callback || r.session.callback.None?
    ensures r.Continue? && r.session.delivered != s.delivered ==>
      input.Notify? && input.event.Reply? && input.event.error.None? && s.callback.Some? && r.session.callback.None? &&
      r.session.delivered == s.delivered + [Delivery(s.callback.value, input.event.data)]
  {
    match input
    case LoadCall(cb, stateName) => Continue(Load(s, cb, stateName))
    case Notify(e) => Handle(s, e)
    case Mutate(op) => Continue(s.(inst := Apply(s.inst, op).inst))
    case Tick => Continue(s.(inst := Fire(s.inst)))
    case SaveCall => Continue(s.(inst := Save(s.inst)))
  }

  /** Inputs one after another; a fatal throw ends the run. */
  function Run(s: Session, inputs: seq<Input>): (r: Reaction)
    ensures r.Continue? ==> r.session.inst.config == s.inst.config
    decreases |inputs|
  {
    if |inputs| == 0 then Continue(s)
    else
      match Step(s, inputs[0])
      case Fatal(error) => Fatal(error)
      case Continue(s1) => Run(s1, inputs[1..])
  }
}
