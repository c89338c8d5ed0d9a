/** Kick's webhook public key, fetched lazily under a lock that is held across the fetch. */
module KickKeyCache {
  import opened Prelude

  /** How far one `webhook_public_key` call has got; a result of `None` is an error. */
  datatype Caller =
    | Waiting
    | Fetching
    | Done(result: Option<string>)

  /** One finished fetch. */
  datatype Fetch = Fetch(caller: nat, outcome: Option<string>)

  /** `fetches` records every fetch, in the order they ended. */
  datatype State = State(
    cache: Option<string>,
    lock: Option<nat>,
    callers: map<nat, Caller>,
    fetches: seq<Fetch>)

  const INIT: State := State(None, None, map[], [])

  datatype Step =
    | Call(caller: nat)
    | Acquire(caller: nat)
    | Fetched(caller: nat, outcome: Option<string>)

  predicate Enabled(s: State, step: Step) {
    match step
    case Call(c) => c !in s.callers
    case Acquire(c) => c in s.callers && s.callers[c].Waiting? && s.lock.None?
    case Fetched(c, _) => c in s.callers && s.callers[c].Fetching?
  }

  function Apply(s: State, step: Step): State
    requires Enabled(s, step)
  {
    match step
    case Call(c) => s.(callers := s.callers[c := Waiting])
    case Acquire(c) =>
      if s.cache.Some? then s.(callers := s.callers[c := Done(s.cache)])
      else s.(callers := s.callers[c := Fetching], lock := Some(c))
    case Fetched(c, outcome) =>
      s.(callers := s.callers[c := Done(outcome)],
         lock := None,
         cache := if outcome.Some? then outcome else s.cache,
         fetches := s.fetches + [Fetch(c, outcome)])
  }

  function Exec(run: seq<Step>): Option<State> {
    if run == [] then Some(INIT)
    else
      match Exec(run[..|run|-1])
      case None => None
      case Some(s) =>
        var step := run[|run|-1];
        if Enabled(s, step) then Some(Apply(s, step)) else None
  }

  ghost predicate Invariant(s: State) {
    && (s.lock.Some? ==> s.lock.value in s.callers && s.cache.None?)
    && (forall c | c in s.callers :: s.callers[c].Fetching? <==> s.lock == Some(c))
    && s.cache == (if s.fetches == [] then None else s.fetches[|s.fetches|-1].outcome)
    && (forall i | 0 <= i < |s.fetches| - 1 :: s.fetches[i].outcome.None?)
    && (forall c | c in s.callers && s.callers[c].Done? && s.callers[c].result.Some? :: s.callers[c].result == s.cache)
  }

  /** A caller that fetched got its own outcome, and a caller that got an error fetched itself. */
  ghost predicate OwnOutcomes(s: State) {
    && (forall i | 0 <= i < |s.fetches| ::
          s.fetches[i].caller in s.callers && s.callers[s.fetches[i].caller] == Done(s.fetches[i].outcome))
    && (forall c | c in s.callers && s.callers[c] == Done(None) :: Fetch(c, None) in s.fetches)
  }

  lemma StepKeepsInvariant(s: State, step: Step)
    requires Invariant(s) && OwnOutcomes(s) && Enabled(s, step)
    ensures Invariant(Apply(s, step))
  {
  }

  lemma StepKeepsOutcomes(s: State, step: Step)
    requires Invariant(s) && OwnOutcomes(s) && Enabled(s, step)
    ensures OwnOutcomes(Apply(s, step))
  {
  }

  lemma {:induction false} InvariantHolds(run: seq<Step>)
    requires Exec(run).Some?
    ensures Invariant(Exec(run).value) && OwnOutcomes(Exec(run).value)
  {
    if run != [] {
      InvariantHolds(run[..|run|-1]);
      StepKeepsInvariant(Exec(run[..|run|-1]).value, run[|run|-1]);
      StepKeepsOutcomes(Exec(run[..|run|-1]).value, run[|run|-1]);
    }
  }

  /** Under every interleaving: at most one fetch is in flight, only the last fetch can have succeeded, every
      successful call returned that one key, failed fetches leave the cache empty, and exactly the callers
      whose own fetch failed got an error. */
  lemma FetchesOnce(run: seq<Step>)
    requires Exec(run).Some?
    ensures var s := Exec(run).value;
            && (forall c, d | c in s.callers && d in s.callers && s.callers[c].Fetching? && s.callers[d].Fetching? ::
                  c == d)
            && (forall i | 0 <= i < |s.fetches| && s.fetches[i].outcome.Some? ::
                  i == |s.fetches| - 1 && s.cache == s.fetches[i].outcome)
            && (s.cache.Some? ==> s.fetches != [] && s.fetches[|s.fetches|-1].outcome == s.cache)
            && (forall c | c in s.callers && s.callers[c].Done? && s.callers[c].result.Some? ::
                  s.callers[c].result == s.cache)
            && (forall c :: c in s.callers && s.callers[c] == Done(None) <==> Fetch(c, None) in s.fetches)
  {
    InvariantHolds(run);
  }

  /** Once a key is cached, no run ever fetches again or changes it. */
  lemma {:induction false} CachedForGood(run: seq<Step>, k: nat)
    requires k <= |run| && Exec(run).Some?
    ensures Exec(run[..k]).Some?
    ensures var early, late := Exec(run[..k]).value, Exec(run).value;
            early.cache.Some? ==> late.cache == early.cache && late.fetches == early.fetches
    decreases |run|
  {
    if k == |run| {
      assert run[..k] == run;
    } else {
      var before := run[..|run|-1];
      CachedForGood(before, k);
      InvariantHolds(before);
      assert before[..k] == run[..k];
    }
  }

  lemma ExecAppend(run: seq<Step>, step: Step)
    requires Exec(run).Some? && Enabled(Exec(run).value, step)
    ensures Exec(run + [step]) == Some(Apply(Exec(run).value, step))
  {
    assert (run + [step])[..|run|] == run;
  }

  /** The lock-guarded cache field; `trace` is the machine run it has gone through and `now` the state after it. */
  class PublicKeyCache {
    var cached: Option<string>
    ghost var trace: seq<Step>
    ghost var now: State

    ghost predicate Valid()
      reads this
    {
      Exec(trace) == Some(now) && cached == now.cache
    }

    constructor ()
      ensures Valid() && trace == []
    {
      cached, trace, now := None, [], INIT;
    }

    ghost method Note(step: Step)
      requires Exec(trace) == Some(now) && Enabled(now, step)
      modifies this`trace, this`now
      ensures trace == old(trace) + [step] && now == Apply(old(now), step)
      ensures Exec(trace) == Some(now)
    {
      ExecAppend(trace, step);
      trace, now := trace + [step], Apply(now, step);
    }

    /** A whole `webhook_public_key` call that finds the lock free, with the fetch outcome it would see. */
    method WebhookPublicKey(caller: nat, outcome: Option<string>) returns (key: Option<string>)
      requires Valid() && caller !in now.callers && now.lock.None?
      modifies this
      ensures Valid() && old(trace) < trace
      ensures now.callers == old(now.callers)[caller := Done(key)]
      ensures key == if old(cached).Some? then old(cached) else outcome
      ensures now.fetches == if old(cached).Some? then old(now.fetches) else old(now.fetches) + [Fetch(caller, outcome)]
    {
      ghost var before := now.callers;
      Note(Call(caller));
      Note(Acquire(caller));
      LastUpdateWins(before, caller, Waiting, now.callers[caller]);
      if cached.Some? {
        return cached;
      }
      Note(Fetched(caller, outcome));
      LastUpdateWins(before, caller, Fetching, Done(outcome));
      if outcome.Some? {
        cached := outcome;
      }
      key := outcome;
    }
  }
}
