/** What concurrent Kick registrations ask of Kick's subscription API, over every interleaved run. */
module KickSubscriptions {
  import opened Prelude
  import opened KickRegistry

  /** Occurrences of `e` in one request. */
  function Mentions(events: seq<string>, e: string): nat {
    if events == [] then 0
    else (if events[0] == e then 1 else 0) + Mentions(events[1..], e)
  }

  /** Occurrences of `e` over all requests answered with success. */
  function Successes(remotes: seq<Remote>, e: string): nat {
    if remotes == [] then 0
    else
      var last := remotes[|remotes|-1];
      Successes(remotes[..|remotes|-1], e) + if last.ok then Mentions(last.events, e) else 0
  }

  lemma {:induction false} NewEventsExact(events: seq<string>, subscribed: set<string>, e: string)
    ensures e in NewEvents(events, subscribed) <==> e in events && e !in subscribed
    ensures Mentions(NewEvents(events, subscribed), e) == if e in subscribed then 0 else Mentions(events, e)
    ensures Mentions(events, e) > 0 <==> e in events
  {
    if events != [] {
      NewEventsExact(events[1..], subscribed, e);
      assert e in events <==> e == events[0] || e in events[1..];
      var rest := NewEvents(events[1..], subscribed);
      assert [] + rest == rest && ([events[0]] + rest)[1..] == rest;
    }
  }

  /** Every trigger asks for each of its event types once. */
  lemma TriggerEventsOnce(trigger: string, e: string)
    ensures Mentions(TriggerToKickEvents(trigger), e) <= 1
  {
    var events := TriggerToKickEvents(trigger);
    assert events != [] ==> events[1..] == [];
  }

  /** The lock is held exactly by the call whose request is in flight; what it asks for is unsubscribed. */
  ghost predicate LockHeld(s: State) {
    && (s.lock.Some? ==> s.lock.value in s.tasks)
    && forall t | t in s.tasks :: (s.tasks[t].Asking? <==> s.lock == Some(t))
  }

  ghost predicate AsksOnlyNew(s: State) {
    forall t | t in s.tasks && s.tasks[t].Asking? ::
      s.tasks[t].events != [] &&
      forall e | e in s.tasks[t].events :: e !in s.subscribed && Mentions(s.tasks[t].events, e) == 1
  }

  /** Each event type succeeded once if it is recorded as subscribed, and never otherwise. */
  ghost predicate RecordsSuccesses(s: State) {
    forall e :: Successes(s.remotes, e) == if e in s.subscribed then 1 else 0
  }

  /** A request never carries an event type an earlier one already got. */
  ghost predicate NeverAsksAgain(remotes: seq<Remote>) {
    forall i, j, e | 0 <= i < j < |remotes| && remotes[i].ok && e in remotes[i].events :: e !in remotes[j].events
  }

  ghost predicate SuccessesRecorded(s: State) {
    forall i, e | 0 <= i < |s.remotes| && s.remotes[i].ok && e in s.remotes[i].events :: e in s.subscribed
  }

  ghost predicate Invariant(s: State) {
    && LockHeld(s) && AsksOnlyNew(s) && RecordsSuccesses(s)
    && SuccessesRecorded(s) && NeverAsksAgain(s.remotes)
    && (!s.configured ==> s.remotes == [] && forall t | t in s.tasks :: !s.tasks[t].Subscribing? && !s.tasks[t].Asking?)
  }

  lemma LockKeepsInvariant(s: State, t: nat)
    requires Invariant(s) && Enabled(s, Lock(t))
    ensures Invariant(Apply(s, Lock(t)))
  {
    var trigger := s.tasks[t].trigger;
    var events := TriggerToKickEvents(trigger);
    forall e
      ensures e in NewEvents(events, s.subscribed) ==>
                e !in s.subscribed && Mentions(NewEvents(events, s.subscribed), e) == 1
    {
      NewEventsExact(events, s.subscribed, e);
      TriggerEventsOnce(trigger, e);
    }
  }

  lemma SuccessesAppend(remotes: seq<Remote>, last: Remote, e: string)
    ensures Successes(remotes + [last], e) == Successes(remotes, e) + if last.ok then Mentions(last.events, e) else 0
  {
    assert (remotes + [last])[..|remotes|] == remotes;
  }

  /** A success is recorded once, a failure not at all. */
  lemma AnswerRecords(s: State, t: nat, ok: bool)
    requires Invariant(s) && Enabled(s, Answer(t, ok))
    ensures RecordsSuccesses(Apply(s, Answer(t, ok)))
  {
    var events := s.tasks[t].events;
    var s' := Apply(s, Answer(t, ok));
    forall e
      ensures Successes(s'.remotes, e) == if e in s'.subscribed then 1 else 0
    {
      SuccessesAppend(s.remotes, Remote(events, ok), e);
      NewEventsExact(events, {}, e);
    }
  }

  /** The answered request asked only for types no earlier one got. */
  lemma AnswerNeverAsksAgain(s: State, t: nat, ok: bool)
    requires Invariant(s) && Enabled(s, Answer(t, ok))
    ensures var s' := Apply(s, Answer(t, ok)); SuccessesRecorded(s') && NeverAsksAgain(s'.remotes)
  {
    var s' := Apply(s, Answer(t, ok));
    assert s'.remotes == s.remotes + [Remote(s.tasks[t].events, ok)];
    assert forall i | 0 <= i < |s.remotes| :: s'.remotes[i] == s.remotes[i];
  }

  lemma AnswerKeepsInvariant(s: State, t: nat, ok: bool)
    requires Invariant(s) && Enabled(s, Answer(t, ok))
    ensures Invariant(Apply(s, Answer(t, ok)))
  {
    AnswerRecords(s, t, ok);
    AnswerNeverAsksAgain(s, t, ok);
  }

  lemma StepKeepsInvariant(s: State, step: Step)
    requires Invariant(s) && Enabled(s, step)
    ensures Invariant(Apply(s, step)) && s.subscribed <= Apply(s, step).subscribed
    ensures s.remotes <= Apply(s, step).remotes
  {
    match step
    case Lock(t) => LockKeepsInvariant(s, t);
    case Answer(t, ok) => AnswerKeepsInvariant(s, t, ok);
    case _ =>
  }

  lemma {:induction false} InvariantHolds(configured: bool, run: seq<Step>)
    requires Exec(configured, run).Some?
    ensures Invariant(Exec(configured, run).value)
    ensures Exec(configured, run).value.configured == configured
  {
    if run != [] {
      ExecLast(configured, run);
      InvariantHolds(configured, run[..|run|-1]);
      StepKeepsInvariant(Exec(configured, run[..|run|-1]).value, run[|run|-1]);
    }
  }

  /** In every interleaved run: no event type succeeds twice, the recorded set is exactly the event types
      that succeeded, no request carries a type that already succeeded, at most one request is in flight,
      and without a callback URL nothing is asked. */
  lemma SubscribesOnce(configured: bool, run: seq<Step>)
    requires Exec(configured, run).Some?
    ensures var s := Exec(configured, run).value;
            && (forall e :: Successes(s.remotes, e) == if e in s.subscribed then 1 else 0)
            && NeverAsksAgain(s.remotes)
            && (forall t, u | t in s.tasks && u in s.tasks && s.tasks[t].Asking? && s.tasks[u].Asking? :: t == u)
            && (!configured ==> s.remotes == [])
  {
    InvariantHolds(configured, run);
  }

  /** The recorded set and the request log only grow. */
  lemma {:induction false} SubscribedOnlyGrows(configured: bool, run: seq<Step>, k: nat)
    requires k <= |run| && Exec(configured, run).Some?
    ensures Exec(configured, run[..k]).Some?
    ensures var early, late := Exec(configured, run[..k]).value, Exec(configured, run).value;
            early.subscribed <= late.subscribed && early.remotes <= late.remotes
    decreases |run|
  {
    if k == |run| {
      assert run[..k] == run;
    } else {
      var before := run[..|run|-1];
      ExecLast(configured, run);
      InvariantHolds(configured, before);
      StepKeepsInvariant(Exec(configured, before).value, run[|run|-1]);
      SubscribedOnlyGrows(configured, before, k);
      assert before[..k] == run[..k];
    }
  }

  /** A registration that gets the lock asks for exactly those of its event types that never succeeded,
      however often they failed, and asks nothing when all of them succeeded. */
  lemma RetriesUntilSuccess(configured: bool, run: seq<Step>, t: nat)
    requires Exec(configured, run).Some? && Enabled(Exec(configured, run).value, Lock(t))
    ensures var s := Exec(configured, run).value;
            var trigger, after := s.tasks[t].trigger, Apply(s, Lock(t)).tasks[t];
            && (after.Asking? <==> exists e | e in TriggerToKickEvents(trigger) :: Successes(s.remotes, e) == 0)
            && (after.Asking? ==> forall e ::
                  e in after.events <==> e in TriggerToKickEvents(trigger) && Successes(s.remotes, e) == 0)
            && (!after.Asking? ==> after == Returned(s.tasks[t].id, trigger))
  {
    InvariantHolds(configured, run);
    var s := Exec(configured, run).value;
    var events := TriggerToKickEvents(s.tasks[t].trigger);
    var newEvents := NewEvents(events, s.subscribed);
    forall e
      ensures e in newEvents <==> e in events && Successes(s.remotes, e) == 0
    {
      NewEventsExact(events, s.subscribed, e);
    }
    assert newEvents != [] ==> newEvents[0] in newEvents;
  }
}
