/**
 * Properties of the connection side over whole runs: a `load` callback is
 * called at most once, and the start-up and missing-node exchanges issue
 * exactly the requests the instance promises.
 */
module SyncProps {
  import opened Wrappers
  import opened Values
  import opened Store
  import opened Sync

  /** The callback numbers of the deliveries, in order. */
  function Ids(ds: seq<Delivery>): (r: seq<nat>)
    ensures |r| == |ds|
    ensures forall i :: 0 <= i < |ds| ==> r[i] == ds[i].callback
  {
    if |ds| == 0 then [] else [ds[0].callback] + Ids(ds[1..])
  }

  /** The callback numbers `load` will register, in order. */
  function LoadIds(inputs: seq<Input>): seq<nat> {
    if |inputs| == 0 then []
    else if inputs[0].LoadCall? then [inputs[0].cb] + LoadIds(inputs[1..])
    else LoadIds(inputs[1..])
  }

  /**
   * Every callback that has been or could yet be called: those already
   * called, the registered one, and those the remaining loads register.
   */
  function Pool(s: Session, inputs: seq<Input>): multiset<nat> {
    multiset(Ids(s.delivered))
      + Registered(s.callback)
      + multiset(LoadIds(inputs))
  }

  lemma IdsAppend(ds: seq<Delivery>, d: Delivery)
    ensures Ids(ds + [d]) == Ids(ds) + [d.callback]
  {
    var r := Ids(ds + [d]);
    assert r == Ids(ds) + [d.callback];
  }

  /** The registered callback as a multiset of at most one number. */
  function Registered(c: Option<nat>): multiset<nat> {
    if c.Some? then multiset{c.value} else multiset{}
  }

  lemma LoadIdsCons(input: Input, rest: seq<Input>)
    ensures LoadIds([input] + rest) == (if input.LoadCall? then [input.cb] else []) + LoadIds(rest)
  {
    assert ([input] + rest)[0] == input;
    assert ([input] + rest)[1..] == rest;
  }

  /** One step never adds a callback to the pool: a delivery uses up the registered one. */
  lemma StepPool(s: Session, input: Input, rest: seq<Input>)
    requires Step(s, input).Continue?
    ensures Pool(Step(s, input).session, rest) <= Pool(s, [input] + rest)
  {
    var s1 := Step(s, input).session;
    LoadIdsCons(input, rest);
    if s1.delivered != s.delivered {
      IdsAppend(s.delivered, Delivery(s.callback.value, input.event.data));
    }
  }

  /** Over a run, the callbacks called come out of the pool the run started with. */
  lemma {:induction false} RunPool(s: Session, inputs: seq<Input>)
    requires Run(s, inputs).Continue?
    ensures multiset(Ids(Run(s, inputs).session.delivered)) <= Pool(s, inputs)
    decreases |inputs|
  {
    if |inputs| == 0 {
    } else {
      var s1 := Step(s, inputs[0]).session;
      assert inputs == [inputs[0]] + inputs[1..];
      StepPool(s, inputs[0], inputs[1..]);
      RunPool(s1, inputs[1..]);
    }
  }

  /**
   * When no callback number is used twice, no `load` callback is called
   * more than once, however the events interleave.
   */
  lemma CallbackAtMostOnce(s: Session, inputs: seq<Input>, id: nat)
    requires Run(s, inputs).Continue?
    requires Pool(s, inputs)[id] <= 1
    ensures multiset(Ids(Run(s, inputs).session.delivered))[id] <= 1
  {
    RunPool(s, inputs);
  }

  /** Three inputs that each leave a session behind run one after another. */
  lemma RunThree(s: Session, a: Input, b: Input, c: Input, s1: Session, s2: Session, s3: Session)
    requires Step(s, a) == Continue(s1) && Step(s1, b) == Continue(s2) && Step(s2, c) == Continue(s3)
    ensures Run(s, [a, b, c]) == Continue(s3)
  {
    var inputs := [a, b, c];
    assert inputs[1..] == [b, c];
    assert inputs[1..][1..] == [c];
    assert inputs[1..][1..][1..] == [];
    assert Run(s2, inputs[1..][1..]) == Continue(s3);
    assert Run(s1, inputs[1..]) == Continue(s3);
  }

  /**
   * A new instance loaded while disconnected connects, fetches once
   * connected, stores what arrives and hands it to the callback.
   */
  lemma FirstLoad(options: Options, cb: nat, d: Json)
    ensures var s := Start(New(options));
      var r := Run(s, [LoadCall(cb, Disconnected), Notify(Connected), Notify(Reply(None, Some(d)))]);
      && r.Continue?
      && r.session.requests == [Connect, GetData(File(s.inst.config), options.autoUpdate == Some(Bool(true)))]
      && r.session.inst.store == d
      && r.session.delivered == [Delivery(cb, Some(d))]
      && r.session.callback.None?
  {
    var s := Start(New(options));
    var s1 := Load(s, cb, Disconnected);
    var s2 := Fetch(s1);
    var s3 := GotData(s2, None, Some(d));
    assert Step(s, LoadCall(cb, Disconnected)) == Continue(s1);
    assert Step(s1, Notify(Connected)) == Continue(s2);
    assert Step(s2, Notify(Reply(None, Some(d)))) == Continue(s3);
    RunThree(s, LoadCall(cb, Disconnected), Notify(Connected), Notify(Reply(None, Some(d))), s1, s2, s3);
  }

  /**
   * A fetch that finds no node creates it and fetches again without the
   * watcher, whatever auto-update says; the data then reaches the callback.
   */
  lemma NoNodeRecovery(s: Session, d: Option<Json>, latest: Json)
    ensures var r := Run(s, [Notify(Reply(Some(NoNode), d)), Notify(MkdirpDone(None)), Notify(Reply(None, Some(latest)))]);
      && r.Continue?
      && r.session.requests == s.requests + [Mkdirp(File(s.inst.config)), GetData(File(s.inst.config), false)]
      && r.session.inst == s.inst.(store := latest)
      && r.session.delivered == s.delivered + (if s.callback.Some? then [Delivery(s.callback.value, Some(latest))] else [])
  {
    var file := File(s.inst.config);
    var s1 := s.(requests := s.requests + [Mkdirp(file)]);
    var s2 := s1.(requests := s1.requests + [GetData(file, false)]);
    var s3 := GotData(s2, None, Some(latest));
    assert Step(s, Notify(Reply(Some(NoNode), d))) == Continue(s1);
    assert Step(s1, Notify(MkdirpDone(None))) == Continue(s2);
    assert Step(s2, Notify(Reply(None, Some(latest)))) == Continue(s3);
    RunThree(s, Notify(Reply(Some(NoNode), d)), Notify(MkdirpDone(None)), Notify(Reply(None, Some(latest))), s1, s2, s3);
    assert s2.requests == s.requests + [Mkdirp(file), GetData(file, false)];
  }

  /** A failed mkdirp throws its error out of the callback. */
  lemma MkdirpFailureIsFatal(s: Session, e: string, rest: seq<Input>)
    ensures Run(s, [Notify(MkdirpDone(Some(e)))] + rest) == Fatal(e)
  {
    assert ([Notify(MkdirpDone(Some(e)))] + rest)[0] == Notify(MkdirpDone(Some(e)));
  }

  /**
   * Errors other than a missing node, and watch events other than a data
   * change, leave the session exactly as it was: the callback stays pending.
   */
  lemma IgnoredEvents(s: Session, name: string, d: Option<Json>)
    requires name != NoNode
    ensures Handle(s, Reply(Some(name), d)) == Continue(s)
    ensures Handle(s, ClientError(name)) == Continue(s)
    ensures name != NodeDataChanged ==> Handle(s, Watch(name)) == Continue(s)
  {
  }

  /**
   * A `load` on a connected client fetches at once, with the watcher exactly
   * when auto-update is on, and the reply reaches the new callback.
   */
  lemma LoadWhileConnected(s: Session, cb: nat, state: string, d: Json)
    requires state != Disconnected && EndsWith(state, ConnectedSuffix)
    ensures var r := Run(s, [LoadCall(cb, state), Notify(Reply(None, Some(d)))]);
      && r.Continue?
      && r.session.requests == s.requests + [GetData(File(s.inst.config), Watching(s.inst.config))]
      && r.session.inst == s.inst.(store := d)
      && r.session.delivered == s.delivered + [Delivery(cb, Some(d))]
      && r.session.callback.None?
  {
    var inputs := [LoadCall(cb, state), Notify(Reply(None, Some(d)))];
    var s1 := Load(s, cb, state);
    var s2 := GotData(s1, None, Some(d));
    assert Step(s, inputs[0]) == Continue(s1);
    assert inputs[1..] == [Notify(Reply(None, Some(d)))];
    assert inputs[1..][1..] == [];
    assert Run(s1, inputs[1..]) == Continue(s2);
  }

  /**
   * What `save` writes is what a later fetch restores: a reply carrying the
   * last snapshot saved leaves the instance as it stood when saved.
   */
  lemma SaveThenFetch(s: Session)
    ensures var saved := Save(s.inst);
      var d := saved.saves[|saved.saves| - 1];
      && d == s.inst.store
      && Handle(s.(inst := saved), Reply(None, Some(d))).Continue?
      && Handle(s.(inst := saved), Reply(None, Some(d))).session.inst == saved
  {
  }
}
