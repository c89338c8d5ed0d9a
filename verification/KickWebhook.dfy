/** Webhook dispatch over both Kick machines: each dispatch offers its payload to the chat bridge first and runs the
    handlers in a later critical section, so other dispatches may come in between. */
module KickWebhook {
  import opened Prelude
  import opened Json
  import HandlerList
  import Registry = KickRegistry
  import Bridge = KickBridge

  datatype State = State(registry: Registry.State, bridge: Bridge.State)

  datatype Step =
    | Dispatch(task: nat, trigger: string, payload: Value)   // dispatch_webhook: bridge ingest
    | Register(r: Registry.Step)                             // any other step of the registry
    | Chat(b: Bridge.Step)                                   // any other step of the bridge

  predicate Enabled(s: State, step: Step) {
    match step
    case Dispatch(t, trigger, payload) =>
      && Registry.Enabled(s.registry, Registry.Receive(t, trigger, payload))
      && Bridge.Enabled(s.bridge, Bridge.Ingest(trigger, payload))
    case Register(r) => !r.Receive? && Registry.Enabled(s.registry, r)
    case Chat(b) => !b.Ingest? && Bridge.Enabled(s.bridge, b)
  }

  function Apply(s: State, step: Step): State
    requires Enabled(s, step)
  {
    match step
    case Dispatch(t, trigger, payload) =>
      State(Registry.Apply(s.registry, Registry.Receive(t, trigger, payload)),
            Bridge.Apply(s.bridge, Bridge.Ingest(trigger, payload)))
    case Register(r) => s.(registry := Registry.Apply(s.registry, r))
    case Chat(b) => s.(bridge := Bridge.Apply(s.bridge, b))
  }

  function Exec(configured: bool, run: seq<Step>): Option<State> {
    if run == [] then Some(State(Registry.Init(configured), Bridge.INIT))
    else
      match Exec(configured, run[..|run|-1])
      case None => None
      case Some(s) =>
        var step := run[|run|-1];
        if Enabled(s, step) then Some(Apply(s, step)) else None
  }

  lemma ExecLast(configured: bool, run: seq<Step>)
    requires run != [] && Exec(configured, run).Some?
    ensures var before := Exec(configured, run[..|run|-1]);
            && before.Some? && Enabled(before.value, run[|run|-1])
            && Exec(configured, run).value == Apply(before.value, run[|run|-1])
  {
  }

  // ---------------------------------------------------------------- each half is a run of its own machine

  /** The step the registry takes, if any. */
  function RegistryStep(step: Step): seq<Registry.Step> {
    match step
    case Dispatch(t, trigger, payload) => [Registry.Receive(t, trigger, payload)]
    case Register(r) => [r]
    case Chat(_) => []
  }

  /** The step the bridge takes, if any. */
  function BridgeStep(step: Step): seq<Bridge.Step> {
    match step
    case Dispatch(_, trigger, payload) => [Bridge.Ingest(trigger, payload)]
    case Register(_) => []
    case Chat(b) => [b]
  }

  function RegistryRun(run: seq<Step>): seq<Registry.Step> {
    if run == [] then [] else RegistryRun(run[..|run|-1]) + RegistryStep(run[|run|-1])
  }

  function BridgeRun(run: seq<Step>): seq<Bridge.Step> {
    if run == [] then [] else BridgeRun(run[..|run|-1]) + BridgeStep(run[|run|-1])
  }

  lemma RegistryTakes(configured: bool, run: seq<Registry.Step>, step: Registry.Step)
    requires Registry.Exec(configured, run).Some? && Registry.Enabled(Registry.Exec(configured, run).value, step)
    ensures Registry.Exec(configured, run + [step]) ==
            Some(Registry.Apply(Registry.Exec(configured, run).value, step))
  {
    assert (run + [step])[..|run|] == run;
  }

  /** What was proved of the registry's runs and of the bridge's runs holds of both at once. */
  lemma {:induction false} Projects(configured: bool, run: seq<Step>)
    requires Exec(configured, run).Some?
    ensures var s := Exec(configured, run).value;
            && Registry.Exec(configured, RegistryRun(run)) == Some(s.registry)
            && Bridge.Exec(BridgeRun(run)) == Some(s.bridge)
  {
    if run != [] {
      var before, step := run[..|run|-1], run[|run|-1];
      ExecLast(configured, run);
      Projects(configured, before);
      var registryBefore, bridgeBefore := RegistryRun(before), BridgeRun(before);
      match step
      case Dispatch(t, trigger, payload) =>
        RegistryTakes(configured, registryBefore, Registry.Receive(t, trigger, payload));
        Bridge.ExecAppend(bridgeBefore, Bridge.Ingest(trigger, payload));
      case Register(r) =>
        RegistryTakes(configured, registryBefore, r);
        assert bridgeBefore + [] == bridgeBefore;
      case Chat(b) =>
        Bridge.ExecAppend(bridgeBefore, b);
        assert registryBefore + [] == registryBefore;
    }
  }

  // ---------------------------------------------------------------- every delivery was offered, once

  predicate IsDispatch(step: Step, t: nat) {
    step.Dispatch? && step.task == t
  }

  predicate IsDelivery(step: Step, t: nat) {
    step.Register? && step.r.Deliver? && step.r.task == t
  }

  function Dispatches(run: seq<Step>, t: nat): nat {
    if run == [] then 0
    else Dispatches(run[..|run|-1], t) + if IsDispatch(run[|run|-1], t) then 1 else 0
  }

  function Deliveries(run: seq<Step>, t: nat): nat {
    if run == [] then 0
    else Deliveries(run[..|run|-1], t) + if IsDelivery(run[|run|-1], t) then 1 else 0
  }

  /** How far a call can have got, given how often it was dispatched and delivered. */
  ghost predicate Tallies(s: Registry.State, t: nat, dispatches: nat, deliveries: nat) {
    if t in s.tasks && s.tasks[t].Delivering? then dispatches == 1 && deliveries == 0
    else if t in s.tasks && s.tasks[t].Delivered? then dispatches == 1 && deliveries == 1
    else dispatches == 0 && deliveries == 0
  }

  lemma StepTallies(s: State, step: Step, t: nat, dispatches: nat, deliveries: nat)
    requires Enabled(s, step) && Tallies(s.registry, t, dispatches, deliveries)
    ensures Tallies(Apply(s, step).registry, t,
                    dispatches + (if IsDispatch(step, t) then 1 else 0),
                    deliveries + (if IsDelivery(step, t) then 1 else 0))
  {
  }

  lemma {:induction false} RunTallies(configured: bool, run: seq<Step>, t: nat)
    requires Exec(configured, run).Some?
    ensures Tallies(Exec(configured, run).value.registry, t, Dispatches(run, t), Deliveries(run, t))
  {
    if run != [] {
      var before := run[..|run|-1];
      ExecLast(configured, run);
      RunTallies(configured, before, t);
      StepTallies(Exec(configured, before).value, run[|run|-1], t, Dispatches(before, t), Deliveries(before, t));
    }
  }

  /** A call that is about to deliver keeps what it was dispatched with. */
  lemma StepDelivering(s: State, step: Step, t: nat)
    requires Enabled(s, step)
    requires var tasks := Apply(s, step).registry.tasks; t in tasks && tasks[t].Delivering?
    ensures var task := Apply(s, step).registry.tasks[t];
            step == Dispatch(t, task.trigger, task.payload) || (t in s.registry.tasks && s.registry.tasks[t] == task)
  {
  }

  lemma {:induction false} OfferOf(configured: bool, run: seq<Step>, t: nat) returns (i: nat)
    requires Exec(configured, run).Some?
    requires var tasks := Exec(configured, run).value.registry.tasks; t in tasks && tasks[t].Delivering?
    ensures var task := Exec(configured, run).value.registry.tasks[t];
            i < |run| && run[i] == Dispatch(t, task.trigger, task.payload)
  {
    var before, step := run[..|run|-1], run[|run|-1];
    ExecLast(configured, run);
    StepDelivering(Exec(configured, before).value, step, t);
    if IsDispatch(step, t) {
      i := |run| - 1;
    } else {
      i := OfferOf(configured, before, t);
    }
  }

  /** In every interleaved run, what a call delivers to the handlers it offered to the bridge earlier, and it did each
      of the two exactly once. */
  lemma {:induction false} DeliveredWasOffered(configured: bool, run: seq<Step>, j: nat) returns (i: nat)
    requires Exec(configured, run).Some? && j < |run| && run[j].Register? && run[j].r.Deliver?
    ensures i < j && run[i] == Dispatch(run[j].r.task, run[j].r.trigger, run[j].r.payload)
    ensures Dispatches(run, run[j].r.task) == 1 && Deliveries(run, run[j].r.task) == 1
    decreases |run|
  {
    var before, t := run[..|run|-1], run[j].r.task;
    ExecLast(configured, run);
    RunTallies(configured, run, t);
    if j == |run| - 1 {
      i := OfferOf(configured, before, t);
    } else {
      i := DeliveredWasOffered(configured, before, j);
    }
  }

  // ---------------------------------------------------------------- bridge and handlers get the same payloads

  predicate OffersChat(step: Step) {
    step.Dispatch? && step.trigger == Bridge.CHAT_TRIGGER
  }

  predicate DeliversChat(step: Step) {
    step.Register? && step.r.Deliver? && step.r.trigger == Bridge.CHAT_TRIGGER
  }

  predicate Offers(step: Step, p: Value) {
    OffersChat(step) && step.payload == p
  }

  predicate Delivers(step: Step, p: Value) {
    DeliversChat(step) && step.r.payload == p
  }

  /** The chat payloads offered to the bridge, in order. */
  function Offered(run: seq<Step>): seq<Value> {
    if run == [] then []
    else
      var last := run[|run|-1];
      Offered(run[..|run|-1]) + if OffersChat(last) then [last.payload] else []
  }

  /** The chat payloads delivered to the handlers, in order. */
  function Delivered(run: seq<Step>): seq<Value> {
    if run == [] then []
    else
      var last := run[|run|-1];
      Delivered(run[..|run|-1]) + if DeliversChat(last) then [last.r.payload] else []
  }

  /** The calls that have offered `p` and not delivered it yet. */
  ghost function Pending(s: Registry.State, p: Value): set<nat> {
    set t | t in s.tasks && s.tasks[t] == Registry.Delivering(Bridge.CHAT_TRIGGER, p)
  }

  lemma ReceivePending(s: Registry.State, t: nat, trigger: string, payload: Value, p: Value)
    requires Registry.Enabled(s, Registry.Receive(t, trigger, payload))
    ensures t !in Pending(s, p)
    ensures Pending(Registry.Apply(s, Registry.Receive(t, trigger, payload)), p) ==
            Pending(s, p) + if trigger == Bridge.CHAT_TRIGGER && payload == p then {t} else {}
  {
  }

  lemma DeliverPending(s: Registry.State, t: nat, trigger: string, payload: Value, p: Value)
    requires Registry.Enabled(s, Registry.Deliver(t, trigger, payload))
    ensures t in Pending(s, p) <==> trigger == Bridge.CHAT_TRIGGER && payload == p
    ensures Pending(Registry.Apply(s, Registry.Deliver(t, trigger, payload)), p) == Pending(s, p) - {t}
  {
  }

  lemma OtherPending(s: Registry.State, step: Registry.Step, p: Value)
    requires Registry.Enabled(s, step) && !step.Receive? && !step.Deliver?
    ensures Pending(Registry.Apply(s, step), p) == Pending(s, p)
  {
  }

  /** A dispatch adds one pending call for its payload, and a delivery takes one away. */
  lemma StepPending(s: State, step: Step, p: Value)
    requires Enabled(s, step)
    ensures |Pending(Apply(s, step).registry, p)| + (if Delivers(step, p) then 1 else 0) ==
            |Pending(s.registry, p)| + if Offers(step, p) then 1 else 0
  {
    match step
    case Dispatch(t, trigger, payload) => ReceivePending(s.registry, t, trigger, payload, p);
    case Register(r) =>
      if r.Deliver? {
        DeliverPending(s.registry, r.task, r.trigger, r.payload, p);
      } else {
        OtherPending(s.registry, r, p);
      }
    case Chat(_) =>
  }

  lemma {:induction false} OfferedIsDeliveredOrPending(configured: bool, run: seq<Step>, p: Value)
    requires Exec(configured, run).Some?
    ensures multiset(Offered(run))[p] ==
            multiset(Delivered(run))[p] + |Pending(Exec(configured, run).value.registry, p)|
  {
    if run != [] {
      var before := run[..|run|-1];
      ExecLast(configured, run);
      OfferedIsDeliveredOrPending(configured, before, p);
      StepPending(Exec(configured, before).value, run[|run|-1], p);
    }
  }

  lemma {:induction false} OfferedToBridge(run: seq<Step>)
    requires forall i | 0 <= i < |run| :: run[i].Chat? ==> !run[i].b.Ingest?
    ensures Bridge.ChatPayloads(BridgeRun(run)) == Offered(run)
  {
    if run != [] {
      var before, last := run[..|run|-1], run[|run|-1];
      OfferedToBridge(before);
      var steps := BridgeRun(before);
      if last.Register? {
        assert steps + [] == steps;
      } else {
        assert BridgeRun(run)[..|steps|] == steps;
      }
    }
  }

  lemma {:induction false} OnlyDispatchIngests(configured: bool, run: seq<Step>, i: nat)
    requires Exec(configured, run).Some? && i < |run|
    ensures run[i].Chat? ==> !run[i].b.Ingest?
    decreases |run|
  {
    ExecLast(configured, run);
    if i < |run| - 1 {
      OnlyDispatchIngests(configured, run[..|run|-1], i);
    }
  }

  /** In every interleaved run, each chat payload was taken from the bridge, is queued in it or was dropped by it exactly
      as often as it was delivered to the handlers or still waits for their lock. */
  lemma BridgeMatchesHandlers(configured: bool, run: seq<Step>, p: Value)
    requires Exec(configured, run).Some?
    ensures var s := Exec(configured, run).value;
            multiset(s.bridge.taken)[p] + multiset(s.bridge.queue)[p] + multiset(s.bridge.dropped)[p] ==
            multiset(Delivered(run))[p] + |Pending(s.registry, p)|
  {
    Projects(configured, run);
    Bridge.NothingLostSilently(BridgeRun(run));
    forall i | 0 <= i < |run|
      ensures run[i].Chat? ==> !run[i].b.Ingest?
    {
      OnlyDispatchIngests(configured, run, i);
    }
    OfferedToBridge(run);
    OfferedIsDeliveredOrPending(configured, run, p);
  }

  // ---------------------------------------------------------------- but not in the same order

  lemma ExecAppend(configured: bool, run: seq<Step>, s: State, step: Step)
    requires Exec(configured, run) == Some(s) && Enabled(s, step)
    ensures Exec(configured, run + [step]) == Some(Apply(s, step))
  {
    assert (run + [step])[..|run|] == run;
  }

  const CHAT: string := Bridge.CHAT_TRIGGER

  /** One handler is registered for chat messages under the first id. */
  function Registered(): seq<Step> {
    [] + [Register(Registry.Begin(0, CHAT))] + [Register(Registry.Push(0, 1, CHAT))]
  }

  /** Two dispatches: the first to reach the bridge is the last to get the handlers lock. */
  function Overtaking(first: Value, second: Value): seq<Step> {
    Registered()
    + [Dispatch(1, CHAT, first)] + [Dispatch(2, CHAT, second)]
    + [Register(Registry.Deliver(2, CHAT, second))] + [Register(Registry.Deliver(1, CHAT, first))]
  }

  lemma RegisteredState() returns (s: State)
    ensures Exec(false, Registered()) == Some(s)
    ensures s.registry.handlers == [HandlerList.Handler(1, CHAT)] && s.registry.calls == []
    ensures s.registry.tasks.Keys == {0} && s.bridge == Bridge.INIT
  {
    var start := State(Registry.Init(false), Bridge.INIT);
    ExecAppend(false, [], start, Register(Registry.Begin(0, CHAT)));
    var drawn := Apply(start, Register(Registry.Begin(0, CHAT)));
    ExecAppend(false, [] + [Register(Registry.Begin(0, CHAT))], drawn, Register(Registry.Push(0, 1, CHAT)));
    s := Apply(drawn, Register(Registry.Push(0, 1, CHAT)));
  }

  /** One more dispatch, with room in the bridge. */
  lemma OfferState(run: seq<Step>, s: State, t: nat, payload: Value) returns (s': State)
    requires Exec(false, run) == Some(s) && t !in s.registry.tasks
    requires s.bridge.sourceAlive && |s.bridge.queue| < Bridge.BRIDGE_CAPACITY
    ensures Exec(false, run + [Dispatch(t, CHAT, payload)]) == Some(s')
    ensures s'.registry == s.registry.(tasks := s.registry.tasks[t := Registry.Delivering(CHAT, payload)])
    ensures s'.bridge.sourceAlive && s'.bridge.queue == s.bridge.queue + [payload]
  {
    ExecAppend(false, run, s, Dispatch(t, CHAT, payload));
    s' := Apply(s, Dispatch(t, CHAT, payload));
  }

  lemma OffersState(first: Value, second: Value) returns (s: State)
    ensures Exec(false, Registered() + [Dispatch(1, CHAT, first)] + [Dispatch(2, CHAT, second)]) == Some(s)
    ensures s.registry.handlers == [HandlerList.Handler(1, CHAT)] && s.registry.calls == []
    ensures 1 in s.registry.tasks && s.registry.tasks[1] == Registry.Delivering(CHAT, first)
    ensures 2 in s.registry.tasks && s.registry.tasks[2] == Registry.Delivering(CHAT, second)
    ensures s.bridge.queue == [first, second]
  {
    s := RegisteredState();
    var run := Registered();
    s := OfferState(run, s, 1, first);
    s := OfferState(run + [Dispatch(1, CHAT, first)], s, 2, second);
  }

  lemma OneCall(payload: Value)
    ensures HandlerList.CallsFor([HandlerList.Handler(1, CHAT)], CHAT, payload) == [HandlerList.Call(1, payload)]
  {
    var handlers := [HandlerList.Handler(1, CHAT)];
    assert handlers[1..] == [];
  }

  /** The bridge may get two payloads in one order and the handlers in the other. */
  lemma OrdersDiffer(first: Value, second: Value)
    ensures Exec(false, Overtaking(first, second)).Some?
    ensures var s := Exec(false, Overtaking(first, second)).value;
            && s.bridge.queue == [first, second]
            && s.registry.calls == [HandlerList.Call(1, second), HandlerList.Call(1, first)]
  {
    var s := OffersState(first, second);
    var run := Registered() + [Dispatch(1, CHAT, first)] + [Dispatch(2, CHAT, second)];
    var overtakes, follows := Register(Registry.Deliver(2, CHAT, second)), Register(Registry.Deliver(1, CHAT, first));
    ExecAppend(false, run, s, overtakes);
    OneCall(second);
    var s' := Apply(s, overtakes);
    assert s'.registry.calls == [HandlerList.Call(1, second)];
    ExecAppend(false, run + [overtakes], s', follows);
    OneCall(first);
  }
}
