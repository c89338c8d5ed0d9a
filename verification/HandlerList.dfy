/** The handler list every connector keeps: push, retain, and invoke all handlers of a trigger in order. */
module HandlerList {
  import Json

  type Payload = Json.Value

  datatype Handler = Handler(id: nat, trigger: string)

  /** One invocation of a registered handler. */
  datatype Call = Call(id: nat, payload: Payload)

  /** The invocations one delivery makes, in registration order. */
  function CallsFor(handlers: seq<Handler>, trigger: string, payload: Payload): seq<Call> {
    if handlers == [] then []
    else (if handlers[0].trigger == trigger then [Call(handlers[0].id, payload)] else [])
         + CallsFor(handlers[1..], trigger, payload)
  }

  /** `retain(|(id, _, _)| *id != removed)`. */
  function Retain(handlers: seq<Handler>, removed: nat): seq<Handler> {
    if handlers == [] then []
    else (if handlers[0].id != removed then [handlers[0]] else []) + Retain(handlers[1..], removed)
  }

  lemma {:induction false} RetainKeeps(handlers: seq<Handler>, removed: nat, h: Handler)
    ensures h in Retain(handlers, removed) <==> h in handlers && h.id != removed
  {
    if handlers != [] {
      RetainKeeps(handlers[1..], removed, h);
      assert handlers == [handlers[0]] + handlers[1..];
    }
  }

  /** No two registrations share an id. */
  ghost predicate DistinctIds(handlers: seq<Handler>) {
    forall i, j | 0 <= i < j < |handlers| :: handlers[i].id != handlers[j].id
  }

  lemma {:induction false} RetainDistinct(handlers: seq<Handler>, removed: nat)
    requires DistinctIds(handlers)
    ensures DistinctIds(Retain(handlers, removed))
  {
    if handlers != [] {
      RetainDistinct(handlers[1..], removed);
      forall h | h in Retain(handlers[1..], removed)
        ensures h.id != handlers[0].id
      {
        RetainKeeps(handlers[1..], removed, h);
      }
    }
  }

  /** What handler `id` was invoked with, in order. */
  function Received(calls: seq<Call>, id: nat): seq<Payload> {
    if calls == [] then []
    else
      var last := calls[|calls|-1];
      Received(calls[..|calls|-1], id) + if last.id == id then [last.payload] else []
  }

  lemma {:induction false} ReceivedAppend(a: seq<Call>, b: seq<Call>, id: nat)
    ensures Received(a + b, id) == Received(a, id) + Received(b, id)
  {
    if b == [] {
      assert a + b == a;
    } else {
      assert (a + b)[..|a + b|-1] == a + b[..|b|-1];
      ReceivedAppend(a, b[..|b|-1], id);
    }
  }

  /** One delivery reaches a live subscription once if it is for its trigger, and otherwise not at all. */
  lemma {:induction false} DeliveryOnce(handlers: seq<Handler>, trigger: string, payload: Payload, id: nat)
    requires DistinctIds(handlers)
    ensures Received(CallsFor(handlers, trigger, payload), id) ==
            if Handler(id, trigger) in handlers then [payload] else []
  {
    if handlers != [] {
      var h, rest := handlers[0], handlers[1..];
      var first := if h.trigger == trigger then [Call(h.id, payload)] else [];
      ReceivedAppend(first, CallsFor(rest, trigger, payload), id);
      DeliveryOnce(rest, trigger, payload, id);
      assert Handler(id, trigger) in handlers <==> h == Handler(id, trigger) || Handler(id, trigger) in rest;
      assert first != [] ==> first[..0] == [];
    }
  }

  lemma {:induction false} CallsForAppend(a: seq<Handler>, b: seq<Handler>, trigger: string, payload: Payload)
    ensures CallsFor(a + b, trigger, payload) == CallsFor(a, trigger, payload) + CallsFor(b, trigger, payload)
  {
    if a == [] {
      assert a + b == b;
    } else {
      var first := if a[0].trigger == trigger then [Call(a[0].id, payload)] else [];
      assert (a + b)[1..] == a[1..] + b;
      CallsForAppend(a[1..], b, trigger, payload);
      assert first + (CallsFor(a[1..], trigger, payload) + CallsFor(b, trigger, payload))
          == (first + CallsFor(a[1..], trigger, payload)) + CallsFor(b, trigger, payload);
    }
  }

  lemma {:induction false} RetainAppend(a: seq<Handler>, b: seq<Handler>, removed: nat)
    ensures Retain(a + b, removed) == Retain(a, removed) + Retain(b, removed)
  {
    if a == [] {
      assert a + b == b;
    } else {
      assert (a + b)[1..] == a[1..] + b;
      RetainAppend(a[1..], b, removed);
    }
  }

  // ---------------------------------------------------------------- the loops over the list

  method RetainHandlers(handlers: seq<Handler>, removed: nat) returns (kept: seq<Handler>)
    ensures kept == Retain(handlers, removed)
  {
    kept := [];
    for i := 0 to |handlers|
      invariant kept == Retain(handlers[..i], removed)
    {
      assert handlers[..i+1] == handlers[..i] + [handlers[i]];
      RetainAppend(handlers[..i], [handlers[i]], removed);
      if handlers[i].id != removed {
        kept := kept + [handlers[i]];
      }
    }
    assert handlers[..|handlers|] == handlers;
  }

  /** Call every handler registered for `trigger`, in registration order. */
  method InvokeHandlers(handlers: seq<Handler>, trigger: string, payload: Payload) returns (calls: seq<Call>)
    ensures calls == CallsFor(handlers, trigger, payload)
  {
    calls := [];
    for i := 0 to |handlers|
      invariant calls == CallsFor(handlers[..i], trigger, payload)
    {
      assert handlers[..i+1] == handlers[..i] + [handlers[i]];
      CallsForAppend(handlers[..i], [handlers[i]], trigger, payload);
      if handlers[i].trigger == trigger {
        calls := calls + [Call(handlers[i].id, payload)];
      }
    }
    assert handlers[..|handlers|] == handlers;
  }
}
