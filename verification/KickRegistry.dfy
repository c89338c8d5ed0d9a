/** The Kick connector's event engine as interleaved atomic steps: one step per critical section of
    `on_event`, `remove_event` and `dispatch_webhook`, with every remote answer left open. */
module KickRegistry {
  import opened Prelude
  import opened HandlerList
  import opened SubscriptionIds

  // ---------------------------------------------------------------- pure parts of the source

  function TriggerToKickEvents(trigger: string): seq<string> {
    if trigger == "chat_message" then ["chat.message.sent"]
    else if trigger == "stream_live" || trigger == "stream_offline" then ["livestream.status.updated"]
    else if trigger == "channel_followed" then ["channel.followed"]
    else []
  }

  predicate IsValidTrigger(trigger: string) {
    trigger in ["chat_message", "stream_live", "stream_offline", "channel_followed"]
  }

  /** Which event type carries which trigger; going live and going offline share one. */
  lemma TriggerEventsAre(trigger: string, e: string)
    ensures e in TriggerToKickEvents(trigger) <==>
              || (e == "chat.message.sent" && trigger == "chat_message")
              || (e == "livestream.status.updated" && (trigger == "stream_live" || trigger == "stream_offline"))
              || (e == "channel.followed" && trigger == "channel_followed")
  {
  }

  /** The triggers one can register for are exactly those that some event type carries. */
  lemma ValidIffCarried(trigger: string)
    ensures IsValidTrigger(trigger) <==> exists e :: e in TriggerToKickEvents(trigger)
  {
    if IsValidTrigger(trigger) {
      assert TriggerToKickEvents(trigger)[0] in TriggerToKickEvents(trigger);
    }
  }

  /** One answered `subscribe_events` request. */
  datatype Remote = Remote(events: seq<string>, ok: bool)

  /** The event types still to be subscribed. */
  function NewEvents(events: seq<string>, subscribed: set<string>): seq<string> {
    if events == [] then []
    else (if events[0] !in subscribed then [events[0]] else []) + NewEvents(events[1..], subscribed)
  }

  function ToSet(events: seq<string>): set<string> {
    set e | e in events
  }

  // ---------------------------------------------------------------- the state machine

  /** How far one call in flight has got. */
  datatype Task =
    | Rejected                                                    // unknown trigger
    | Registering(id: nat, trigger: string)                       // id taken, handler not pushed
    | Subscribing(id: nat, trigger: string)                       // pushed, subscription lock not taken
    | Asking(id: nat, trigger: string, events: seq<string>)       // holds the lock, request in flight
    | Returned(id: nat, trigger: string)
    | Delivering(trigger: string, payload: Payload)               // bridge fed, handler lock not taken
    | Delivered

  /** `configured` says whether a webhook callback URL is set; `lock` is the holder of `subscribed_events`;
      `calls` and `remotes` record what handlers and Kick observed. */
  datatype State = State(
    configured: bool,
    counter: nat,
    tasks: map<nat, Task>,
    handlers: seq<Handler>,
    lock: Option<nat>,
    subscribed: set<string>,
    calls: seq<Call>,
    remotes: seq<Remote>)

  function Init(configured: bool): State {
    State(configured, 1, map[], [], None, {}, [], [])
  }

  datatype Step =
    | Begin(task: nat, trigger: string)                       // on_event: validate, take an id
    | Push(task: nat, id: nat, trigger: string)               // on_event: handlers lock
    | Lock(task: nat)                                         // on_event: subscribed_events lock taken
    | Answer(task: nat, ok: bool)                             // on_event: Kick answered, lock released
    | Remove(id: nat)                                         // remove_event: handlers lock
    | Receive(task: nat, trigger: string, payload: Payload)   // dispatch_webhook: bridge ingest
    | Deliver(task: nat, trigger: string, payload: Payload)   // dispatch_webhook: handlers lock

  predicate Enabled(s: State, step: Step) {
    match step
    case Begin(t, _) => t !in s.tasks
    case Push(t, id, trigger) => t in s.tasks && s.tasks[t] == Registering(id, trigger)
    case Lock(t) => t in s.tasks && s.tasks[t].Subscribing? && s.lock.None?
    case Answer(t, _) => t in s.tasks && s.tasks[t].Asking?
    case Remove(_) => true
    case Receive(t, _, _) => t !in s.tasks
    case Deliver(t, trigger, payload) => t in s.tasks && s.tasks[t] == Delivering(trigger, payload)
  }

  function Apply(s: State, step: Step): State
    requires Enabled(s, step)
  {
    match step
    case Begin(t, trigger) =>
      if !IsValidTrigger(trigger) then s.(tasks := s.tasks[t := Rejected])
      else s.(tasks := s.tasks[t := Registering(s.counter, trigger)], counter := NextCounter(s.counter))
    case Push(t, id, trigger) =>
      s.(handlers := s.handlers + [Handler(id, trigger)],
         tasks := s.tasks[t := if s.configured then Subscribing(id, trigger) else Returned(id, trigger)])
    case Lock(t) =>
      var task := s.tasks[t];
      var newEvents := NewEvents(TriggerToKickEvents(task.trigger), s.subscribed);
      if newEvents == [] then s.(tasks := s.tasks[t := Returned(task.id, task.trigger)])
      else s.(tasks := s.tasks[t := Asking(task.id, task.trigger, newEvents)], lock := Some(t))
    case Answer(t, ok) =>
      var task := s.tasks[t];
      s.(tasks := s.tasks[t := Returned(task.id, task.trigger)],
         lock := None,
         subscribed := if ok then s.subscribed + ToSet(task.events) else s.subscribed,
         remotes := s.remotes + [Remote(task.events, ok)])
    case Remove(id) => s.(handlers := Retain(s.handlers, id))
    case Receive(t, trigger, payload) => s.(tasks := s.tasks[t := Delivering(trigger, payload)])
    case Deliver(t, trigger, payload) =>
      s.(tasks := s.tasks[t := Delivered], calls := s.calls + CallsFor(s.handlers, trigger, payload))
  }

  /** The state after `run`, when every step of it was enabled. */
  function Exec(configured: bool, run: seq<Step>): Option<State> {
    if run == [] then Some(Init(configured))
    else
      match Exec(configured, run[..|run|-1])
      case None => None
      case Some(s) =>
        var step := run[|run|-1];
        if Enabled(s, step) then Some(Apply(s, step)) else None
  }

  /** One step less. */
  lemma ExecLast(configured: bool, run: seq<Step>)
    requires run != [] && Exec(configured, run).Some?
    ensures var before := Exec(configured, run[..|run|-1]);
            && before.Some? && Enabled(before.value, run[|run|-1])
            && Exec(configured, run).value == Apply(before.value, run[|run|-1])
  {
  }

  // ---------------------------------------------------------------- identifiers

  /** What a step does with ids. */
  function IdEventOf(step: Step): IdEvent {
    match step
    case Begin(t, trigger) => if IsValidTrigger(trigger) then Draws(t) else Neither
    case Push(t, id, _) => Pushes(t, id)
    case _ => Neither
  }

  /** How many ids `run` has taken. */
  function Taken(run: seq<Step>): nat {
    Drawn(run, IdEventOf)
  }

  /** The ids pushed onto the handler list so far. */
  function Pushed(run: seq<Step>): set<nat> {
    PushedIds(run, IdEventOf)
  }

  /** The ids in the hands of calls that have not pushed yet. */
  ghost function Held(s: State): map<nat, nat> {
    map t | t in s.tasks && s.tasks[t].Registering? :: s.tasks[t].id
  }

  /** What a step does to the held ids. */
  lemma StepHeld(s: State, step: Step)
    requires Enabled(s, step)
    ensures var h, s' := Holding(s.counter, Held(s)), Apply(s, step);
            Allows(h, IdEventOf(step)) && After(h, IdEventOf(step)) == Holding(s'.counter, Held(s'))
  {
    var s' := Apply(s, step);
    assert Held(s') ==
           match step
           case Begin(t, trigger) => if IsValidTrigger(trigger) then Held(s)[t := s.counter] else Held(s)
           case Push(t, _, _) => Held(s) - {t}
           case _ => Held(s);
  }

  /** Every run draws, holds and pushes ids as the counter's discipline demands. */
  lemma {:induction false} RunFollows(configured: bool, run: seq<Step>)
    requires Exec(configured, run).Some?
    ensures var s := Exec(configured, run).value; Follow(run, IdEventOf) == Some(Holding(s.counter, Held(s)))
  {
    if run != [] {
      ExecLast(configured, run);
      RunFollows(configured, run[..|run|-1]);
      StepHeld(Exec(configured, run[..|run|-1]).value, run[|run|-1]);
    }
  }

  /** No id is pushed twice. */
  lemma PushedOnce(configured: bool, run: seq<Step>)
    requires run != [] && Exec(configured, run).Some? && Taken(run) <= ID_RANGE
    ensures var last := run[|run|-1]; last.Push? ==> last.id !in Pushed(run[..|run|-1])
    ensures Taken(run[..|run|-1]) <= ID_RANGE
  {
    RunFollows(configured, run);
    PushIsFresh(run, IdEventOf);
  }

  // ---------------------------------------------------------------- live subscriptions

  /** The handler list, as a function of the run alone: the trigger `id` was last pushed for,
      unless a removal came later. */
  function LiveTrigger(run: seq<Step>, id: nat): Option<string> {
    if run == [] then None
    else
      var step := run[|run|-1];
      if step.Push? && step.id == id then Some(step.trigger)
      else if step.Remove? && step.id == id then None
      else LiveTrigger(run[..|run|-1], id)
  }

  /** Exactly the live subscriptions are in the handler list. */
  lemma {:induction false} HandlersAreLive(configured: bool, run: seq<Step>, id: nat, trigger: string)
    requires Exec(configured, run).Some? && Taken(run) <= ID_RANGE
    ensures Handler(id, trigger) in Exec(configured, run).value.handlers <==> LiveTrigger(run, id) == Some(trigger)
    ensures LiveTrigger(run, id).Some? ==> id in Pushed(run)
  {
    if run != [] {
      var before := run[..|run|-1];
      ExecLast(configured, run);
      HandlersAreLive(configured, before, id, trigger);
      PushedOnce(configured, run);
      var s := Exec(configured, before).value;
      match run[|run|-1]
      case Remove(removed) => RetainKeeps(s.handlers, removed, Handler(id, trigger));
      case _ =>
    }
  }

  /** Live subscription ids are pairwise distinct in every reachable state. */
  lemma {:induction false} LiveIdsDistinct(configured: bool, run: seq<Step>)
    requires Exec(configured, run).Some? && Taken(run) <= ID_RANGE
    ensures DistinctIds(Exec(configured, run).value.handlers)
  {
    if run != [] {
      var before := run[..|run|-1];
      ExecLast(configured, run);
      LiveIdsDistinct(configured, before);
      PushedOnce(configured, run);
      var s := Exec(configured, before).value;
      match run[|run|-1]
      case Push(t, id, trigger) =>
        forall h | h in s.handlers
          ensures h.id != id
        {
          HandlersAreLive(configured, before, h.id, h.trigger);
        }
      case Remove(removed) => RetainDistinct(s.handlers, removed);
      case _ =>
    }
  }

  // ---------------------------------------------------------------- delivery

  /** The payloads dispatched for `trigger` in a stretch of a run, in order. */
  function Dispatched(run: seq<Step>, trigger: string): seq<Payload> {
    if run == [] then []
    else
      var last := run[|run|-1];
      Dispatched(run[..|run|-1], trigger)
      + if last.Deliver? && last.trigger == trigger then [last.payload] else []
  }

  /** The last step adds to what `id` received exactly when it delivers for the trigger `id` is live with. */
  lemma ReceivedLast(configured: bool, run: seq<Step>, id: nat)
    requires run != [] && Exec(configured, run).Some? && Taken(run) <= ID_RANGE
    ensures var before, last := run[..|run|-1], run[|run|-1];
            && Exec(configured, before).Some?
            && Received(Exec(configured, run).value.calls, id) ==
               Received(Exec(configured, before).value.calls, id)
               + if last.Deliver? && LiveTrigger(before, id) == Some(last.trigger) then [last.payload] else []
  {
    var before := run[..|run|-1];
    ExecLast(configured, run);
    var s := Exec(configured, before).value;
    match run[|run|-1]
    case Deliver(_, trigger, payload) =>
      LiveIdsDistinct(configured, before);
      DeliveryOnce(s.handlers, trigger, payload, id);
      HandlersAreLive(configured, before, id, trigger);
      ReceivedAppend(s.calls, CallsFor(s.handlers, trigger, payload), id);
    case _ =>
  }

  lemma {:induction false} UnpushedReceivesNothing(configured: bool, run: seq<Step>, id: nat)
    requires Exec(configured, run).Some? && Taken(run) <= ID_RANGE && id !in Pushed(run)
    ensures Received(Exec(configured, run).value.calls, id) == []
  {
    if run != [] {
      var before := run[..|run|-1];
      ReceivedLast(configured, run, id);
      HandlersAreLive(configured, before, id, "");
      UnpushedReceivesNothing(configured, before, id);
    }
  }

  /** `run[i]` pushes the handler for `id`, and `j` is the first later removal of it, or the end of the run. */
  ghost predicate Lifetime(run: seq<Step>, i: nat, j: nat, id: nat, trigger: string) {
    && i < j <= |run|
    && run[i].Push? && run[i].id == id && run[i].trigger == trigger
    && (forall k | i < k < j :: run[k] != Remove(id))
    && (j < |run| ==> run[j] == Remove(id))
  }

  /** During its lifetime a subscription is live with its trigger, and afterwards never again. */
  lemma {:induction false} LiveDuringLifetime(configured: bool, run: seq<Step>, i: nat, j: nat, id: nat, trigger: string)
    requires Exec(configured, run).Some? && Taken(run) <= ID_RANGE
    requires Lifetime(run, i, j, id, trigger)
    ensures LiveTrigger(run, id) == if j == |run| then Some(trigger) else None
    decreases |run|
  {
    var before, last := run[..|run|-1], run[|run|-1];
    if i < |run| - 1 {
      ExecLast(configured, run);
      LifetimeBefore(run, i, j, id, trigger);
      assert before[i] == run[i];
      PushedAt(before, IdEventOf, i);
      PushedOnce(configured, run);
      LiveDuringLifetime(configured, before, i, if j == |run| then j - 1 else j, id, trigger);
    }
  }

  /** In every interleaved run, a subscription's handler receives exactly, in order and each once, the
      payloads dispatched for its trigger between its push and its removal. */
  lemma {:induction false} DeliveredExactly(configured: bool, run: seq<Step>, i: nat, j: nat, id: nat, trigger: string)
    requires Exec(configured, run).Some? && Taken(run) <= ID_RANGE
    requires Lifetime(run, i, j, id, trigger)
    ensures Received(Exec(configured, run).value.calls, id) == Dispatched(run[i+1..j], trigger)
    decreases |run|
  {
    var before, last := run[..|run|-1], run[|run|-1];
    ReceivedLast(configured, run, id);
    ExecLast(configured, run);
    if i == |run| - 1 {
      PushedOnce(configured, run);
      UnpushedReceivesNothing(configured, before, id);
    } else {
      var k := if j == |run| then j - 1 else j;
      LifetimeBefore(run, i, j, id, trigger);
      DeliveredExactly(configured, before, i, k, id, trigger);
      LiveDuringLifetime(configured, before, i, k, id, trigger);
    }
  }

  /** A lifetime that started before the last step, seen one step earlier. */
  lemma LifetimeBefore(run: seq<Step>, i: nat, j: nat, id: nat, trigger: string)
    requires Lifetime(run, i, j, id, trigger) && i < |run| - 1
    ensures var before, last, k := run[..|run|-1], run[|run|-1], if j == |run| then j - 1 else j;
            && Lifetime(before, i, k, id, trigger)
            && Dispatched(run[i+1..j], trigger) == Dispatched(before[i+1..k], trigger)
               + (if k < j && last.Deliver? && last.trigger == trigger then [last.payload] else [])
            && (j < |run| && k == |before| ==> last == Remove(id))
  {
    var before, k := run[..|run|-1], if j == |run| then j - 1 else j;
    assert forall m | 0 <= m < |before| :: before[m] == run[m];
    var now, earlier := run[i+1..j], before[i+1..k];
    if k < j {
      assert now == earlier + [run[|run|-1]];
      assert now[..|now|-1] == earlier && now[|now|-1] == run[|run|-1];
    } else {
      assert now == earlier;
    }
  }
}
