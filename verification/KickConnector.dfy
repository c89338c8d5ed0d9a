/** The Kick connector object: its lock-guarded fields and the critical sections that change them, each one
    proved to be the step of the same name of the interleaved machine. */
module KickConnectorObject {
  import opened Prelude
  import opened HandlerList
  import opened SubscriptionIds
  import opened KickRegistry
  import opened KickSubscriptions
  import Bridge = KickBridge

  lemma ExecAppend(configured: bool, run: seq<Step>, step: Step)
    requires Exec(configured, run).Some? && Enabled(Exec(configured, run).value, step)
    ensures Exec(configured, run + [step]) == Some(Apply(Exec(configured, run).value, step))
  {
    assert (run + [step])[..|run|] == run;
  }

  lemma {:induction false} NewEventsAppend(a: seq<string>, b: seq<string>, subscribed: set<string>)
    ensures NewEvents(a + b, subscribed) == NewEvents(a, subscribed) + NewEvents(b, subscribed)
  {
    if a == [] {
      assert a + b == b;
    } else {
      assert (a + b)[1..] == a[1..] + b;
      NewEventsAppend(a[1..], b, subscribed);
    }
  }

  /** Inserting the new events is inserting them all. */
  lemma NewEventsCover(events: seq<string>, subscribed: set<string>)
    ensures subscribed + ToSet(NewEvents(events, subscribed)) == subscribed + ToSet(events)
    ensures NewEvents(events, subscribed) == [] ==> subscribed + ToSet(events) == subscribed
  {
    forall e
      ensures e in NewEvents(events, subscribed) <==> e in events && e !in subscribed
    {
      NewEventsExact(events, subscribed, e);
    }
  }

  // ---------------------------------------------------------------- the loops of the critical sections

  method CollectNewEvents(kickEvents: seq<string>, subscribed: set<string>) returns (newEvents: seq<string>)
    ensures newEvents == NewEvents(kickEvents, subscribed)
  {
    newEvents := [];
    for i := 0 to |kickEvents|
      invariant newEvents == NewEvents(kickEvents[..i], subscribed)
    {
      assert kickEvents[..i+1] == kickEvents[..i] + [kickEvents[i]];
      NewEventsAppend(kickEvents[..i], [kickEvents[i]], subscribed);
      if kickEvents[i] !in subscribed {
        newEvents := newEvents + [kickEvents[i]];
      }
    }
    assert kickEvents[..|kickEvents|] == kickEvents;
  }

  method InsertAll(subscribed: set<string>, newEvents: seq<string>) returns (r: set<string>)
    ensures r == subscribed + ToSet(newEvents)
  {
    r := subscribed;
    for i := 0 to |newEvents|
      invariant r == subscribed + ToSet(newEvents[..i])
    {
      assert newEvents[..i+1] == newEvents[..i] + [newEvents[i]];
      r := r + {newEvents[i]};
    }
    assert newEvents[..|newEvents|] == newEvents;
  }

  /** `calls` is what the registered callbacks observed; `trace` is the machine run this object has gone
      through and `now` the machine's state after it. */
  class KickConnector {
    const configured: bool
    var counter: nat
    var handlers: seq<Handler>
    var subscribed: set<string>
    var calls: seq<Call>
    ghost var trace: seq<Step>
    ghost var now: State

    ghost predicate Valid()
      reads this
    {
      && Exec(configured, trace) == Some(now) && now.configured == configured
      && counter == now.counter
      && handlers == now.handlers
      && subscribed == now.subscribed
      && calls == now.calls
    }

    constructor (configured: bool)
      ensures Valid() && trace == [] && this.configured == configured
    {
      this.configured := configured;
      counter, handlers, subscribed, calls := 1, [], {}, [];
      trace, now := [], Init(configured);
    }

    ghost method Note(step: Step)
      requires Exec(configured, trace) == Some(now) && Enabled(now, step)
      modifies this`trace, this`now
      ensures trace == old(trace) + [step] && now == Apply(old(now), step)
      ensures Exec(configured, trace) == Some(now)
    {
      ExecAppend(configured, trace, step);
      trace, now := trace + [step], Apply(now, step);
    }

    /** `on_event`, up to the id. */
    method Begin(task: nat, trigger: string) returns (id: Option<nat>)
      requires Valid() && task !in now.tasks
      modifies this`counter, this`trace, this`now
      ensures Valid() && trace == old(trace) + [Step.Begin(task, trigger)]
      ensures id == if IsValidTrigger(trigger) then Some(old(counter)) else None
      ensures now.tasks == old(now.tasks)[task := if id.Some? then Registering(id.value, trigger) else Rejected]
      ensures now.lock == old(now.lock)
    {
      Note(Step.Begin(task, trigger));
      if !IsValidTrigger(trigger) {
        return None;
      }
      id := Some(counter);
      counter := NextCounter(counter);
    }

    /** `on_event`, the handlers lock. */
    method PushHandler(task: nat, id: nat, trigger: string)
      requires Valid() && task in now.tasks && now.tasks[task] == Registering(id, trigger)
      modifies this`handlers, this`trace, this`now
      ensures Valid() && trace == old(trace) + [Push(task, id, trigger)]
      ensures handlers == old(handlers) + [Handler(id, trigger)]
      ensures now.tasks == old(now.tasks)[task := if configured then Subscribing(id, trigger) else Returned(id, trigger)]
      ensures now.lock == old(now.lock)
    {
      Note(Push(task, id, trigger));
      handlers := handlers + [Handler(id, trigger)];
    }

    /** `on_event`, the subscription lock up to the request: which event types to ask for. */
    method TakeLock(task: nat, trigger: string) returns (newEvents: seq<string>)
      requires Valid() && Enabled(now, Lock(task)) && now.tasks[task].trigger == trigger
      modifies this`trace, this`now
      ensures Valid() && trace == old(trace) + [Lock(task)] && now == Apply(old(now), Lock(task))
      ensures newEvents == [] <==> now.tasks[task].Returned?
      ensures newEvents != [] ==> now.tasks[task].Asking? && now.tasks[task].events == newEvents
    {
      newEvents := CollectNewEvents(TriggerToKickEvents(trigger), subscribed);
      Note(Lock(task));
    }

    /** `on_event`, after Kick answered: record what was asked for, or nothing. */
    method RecordAnswer(task: nat, newEvents: seq<string>, ok: bool)
      requires Valid() && Enabled(now, Answer(task, ok)) && now.tasks[task].events == newEvents
      modifies this`subscribed, this`trace, this`now
      ensures Valid() && trace == old(trace) + [Answer(task, ok)] && now == Apply(old(now), Answer(task, ok))
    {
      Note(Answer(task, ok));
      if ok {
        subscribed := InsertAll(subscribed, newEvents);
      }
    }

    /** The subscription part of `on_event`, given Kick's answer and nothing interleaving. */
    method Subscribe(task: nat, id: nat, trigger: string, ok: bool)
      requires Valid() && now.lock.None?
      requires task in now.tasks && now.tasks[task] == Subscribing(id, trigger)
      modifies this`subscribed, this`trace, this`now
      ensures Valid() && old(trace) < trace
      ensures now.tasks == old(now.tasks)[task := Returned(id, trigger)]
      ensures subscribed == if ok then old(subscribed) + ToSet(TriggerToKickEvents(trigger)) else old(subscribed)
    {
      NewEventsCover(TriggerToKickEvents(trigger), subscribed);
      var newEvents := TakeLock(task, trigger);
      if newEvents != [] {
        RecordAnswer(task, newEvents, ok);
      }
    }

    /** `on_event` up to the subscription part, with nothing interleaving. */
    method Register(task: nat, trigger: string) returns (id: Option<nat>)
      requires Valid() && task !in now.tasks
      modifies this`counter, this`handlers, this`trace, this`now
      ensures Valid() && old(trace) < trace && now.lock == old(now.lock)
      ensures id == if IsValidTrigger(trigger) then Some(old(counter)) else None
      ensures now.tasks == old(now.tasks)[task :=
                if id.None? then Rejected
                else if configured then Subscribing(id.value, trigger)
                else Returned(id.value, trigger)]
      ensures handlers == if id.Some? then old(handlers) + [Handler(id.value, trigger)] else old(handlers)
    {
      id := Begin(task, trigger);
      if id.Some? {
        ghost var pushed := if configured then Subscribing(id.value, trigger) else Returned(id.value, trigger);
        LastUpdateWins(old(now.tasks), task, now.tasks[task], pushed);
        PushHandler(task, id.value, trigger);
      }
    }

    /** A whole `on_event` call that nothing interleaves with, given Kick's answer. */
    method OnEvent(task: nat, trigger: string, ok: bool) returns (id: Option<nat>)
      requires Valid() && task !in now.tasks && now.lock.None?
      modifies this`counter, this`handlers, this`subscribed, this`trace, this`now
      ensures Valid() && old(trace) < trace
      ensures id == if IsValidTrigger(trigger) then Some(old(counter)) else None
      ensures now.tasks == old(now.tasks)[task := if id.Some? then Returned(id.value, trigger) else Rejected]
      ensures handlers == if id.Some? then old(handlers) + [Handler(id.value, trigger)] else old(handlers)
      ensures subscribed == if id.Some? && configured && ok then old(subscribed) + ToSet(TriggerToKickEvents(trigger))
                            else old(subscribed)
    {
      id := Register(task, trigger);
      if id.Some? && configured {
        Subscribe(task, id.value, trigger, ok);
      }
    }

    method RemoveEvent(id: nat)
      requires Valid()
      modifies this`handlers, this`trace, this`now
      ensures Valid() && trace == old(trace) + [Remove(id)] && now == Apply(old(now), Remove(id))
    {
      Note(Remove(id));
      handlers := RetainHandlers(handlers, id);
    }

    /** `dispatch_webhook`, up to the handlers lock: offer the payload to the bridge. */
    method OfferToBridge(task: nat, trigger: string, payload: Payload, chat: Bridge.KickChatSource)
      requires Valid() && chat.Valid() && task !in now.tasks
      modifies this`trace, this`now, chat
      ensures Valid() && trace == old(trace) + [Receive(task, trigger, payload)]
      ensures now == Apply(old(now), Receive(task, trigger, payload))
      ensures chat.Valid() && chat.trace == old(chat.trace) + [Bridge.Ingest(trigger, payload)]
    {
      chat.Ingest(trigger, payload);
      Note(Receive(task, trigger, payload));
    }

    /** `dispatch_webhook`, the handlers lock: call every matching handler. */
    method DeliverToHandlers(task: nat, trigger: string, payload: Payload)
      requires Valid() && Enabled(now, Deliver(task, trigger, payload))
      modifies this`calls, this`trace, this`now
      ensures Valid() && trace == old(trace) + [Deliver(task, trigger, payload)]
      ensures now == Apply(old(now), Deliver(task, trigger, payload))
    {
      var made := InvokeHandlers(handlers, trigger, payload);
      Note(Deliver(task, trigger, payload));
      calls := calls + made;
    }

    /** A whole `dispatch_webhook` call that nothing interleaves with: the bridge is fed before the handlers run. */
    method DispatchWebhook(task: nat, trigger: string, payload: Payload, chat: Bridge.KickChatSource)
      requires Valid() && chat.Valid() && task !in now.tasks
      modifies this`calls, this`trace, this`now, chat
      ensures Valid()
      ensures trace == old(trace) + [Receive(task, trigger, payload)] + [Deliver(task, trigger, payload)]
      ensures chat.Valid() && chat.trace == old(chat.trace) + [Bridge.Ingest(trigger, payload)]
      ensures calls == old(calls) + CallsFor(handlers, trigger, payload)
    {
      OfferToBridge(task, trigger, payload, chat);
      DeliverToHandlers(task, trigger, payload);
    }
  }
}
