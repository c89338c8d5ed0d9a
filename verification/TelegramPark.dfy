/** The Telegram webhook source parks until shutdown on a versioned watch cell. */
module TelegramPark {
  import opened Prelude

  datatype Reason = ShutdownTrue | SenderGone

  /** Where the park loop stands: about to read the cell, awaiting a change, or gone. */
  datatype Place = Checking | Parked | Exited(reason: Reason)

  /** The watch cell (`value`, `version`, and `closed` once its sender is dropped) and its receiver, which
      remembers the version it has `seen`. */
  datatype State = State(value: bool, version: nat, closed: bool, seen: nat, place: Place)

  /** The loop may be handed any cell, whatever was sent on it before. */
  predicate IsStart(s: State) {
    s.place == Checking && s.seen <= s.version
  }

  datatype Step =
    | Send(value: bool)   // sender: store and bump the version
    | DropSender
    | Check               // receiver: borrow_and_update
    | Wake                // receiver: changed() is Ok
    | Gone                // receiver: changed() is Err

  predicate Enabled(s: State, step: Step) {
    match step
    case Send(_) => !s.closed
    case DropSender => !s.closed
    case Check => s.place == Checking
    case Wake => s.place == Parked && s.version != s.seen
    case Gone => s.place == Parked && s.version == s.seen && s.closed
  }

  function Apply(s: State, step: Step): State
    requires Enabled(s, step)
  {
    match step
    case Send(v) => s.(value := v, version := s.version + 1)
    case DropSender => s.(closed := true)
    case Check => s.(seen := s.version, place := if s.value then Exited(ShutdownTrue) else Parked)
    case Wake => s.(seen := s.version, place := Checking)
    case Gone => s.(place := Exited(SenderGone))
  }

  function Exec(start: State, run: seq<Step>): Option<State> {
    if run == [] then Some(start)
    else
      match Exec(start, run[..|run|-1])
      case None => None
      case Some(s) =>
        var step := run[|run|-1];
        if Enabled(s, step) then Some(Apply(s, step)) else None
  }

  /** A parked receiver that has seen the current version has seen `false`. */
  predicate NothingMissed(s: State) {
    && s.seen <= s.version
    && (s.place == Parked && s.seen == s.version ==> !s.value)
  }

  lemma {:induction false} InvariantHolds(start: State, run: seq<Step>)
    requires IsStart(start) && Exec(start, run).Some?
    ensures NothingMissed(Exec(start, run).value)
  {
    if run != [] {
      InvariantHolds(start, run[..|run|-1]);
    }
  }

  /** No lost wake-up: whenever the loop is parked and the cell holds `true`, a wake is pending; and whenever
      the cell holds `true` or its sender is gone, the loop has exited or can move. */
  lemma NoLostWakeUp(start: State, run: seq<Step>)
    requires IsStart(start) && Exec(start, run).Some?
    ensures var s := Exec(start, run).value;
            && (s.place == Parked && s.value ==> Enabled(s, Wake))
            && (s.value || s.closed ==> s.place.Exited? || Enabled(s, Check) || Enabled(s, Wake) || Enabled(s, Gone))
  {
    InvariantHolds(start, run);
  }

  predicate IsReceiverStep(step: Step) {
    step.Check? || step.Wake? || step.Gone?
  }

  function ReceiverSteps(run: seq<Step>): nat {
    if run == [] then 0
    else ReceiverSteps(run[..|run|-1]) + if IsReceiverStep(run[|run|-1]) then 1 else 0
  }

  /** How many steps the loop can still take once the value stays true or the sender is gone. */
  function Rank(s: State): nat {
    if s.place.Exited? then 0
    else if s.value then (if s.place == Checking then 1 else 2)
    else if s.place == Checking then 2
    else if s.seen == s.version then 1
    else 3
  }

  /** From a state where the value is true or the sender gone, and with no `false` sent later, the loop takes at
      most three more steps, and after those it has exited: the exit is reached by every run that lets it move. */
  lemma {:induction false} ExitsWithinThreeSteps(s: State, more: seq<Step>)
    requires NothingMissed(s) && (s.value || s.closed)
    requires Exec(s, more).Some? && Send(false) !in more
    ensures var t := Exec(s, more).value;
            && NothingMissed(t) && (t.value || t.closed)
            && ReceiverSteps(more) + Rank(t) <= Rank(s) <= 3
            && (ReceiverSteps(more) >= 3 ==> t.place.Exited?)
            && (t.place.Exited? || Enabled(t, Check) || Enabled(t, Wake) || Enabled(t, Gone))
  {
    if more != [] {
      ExitsWithinThreeSteps(s, more[..|more|-1]);
      assert more[|more|-1] in more;
    }
  }

  /** The loop exits for no other reason: it read `true`, or the sender was gone and nothing was left unseen. */
  lemma {:induction false} ExitReason(start: State, run: seq<Step>) returns (k: nat)
    requires IsStart(start) && Exec(start, run).Some? && Exec(start, run).value.place.Exited?
    ensures k < |run| && Exec(start, run[..k]).Some?
    ensures var s := Exec(start, run[..k]).value;
            match Exec(start, run).value.place.reason
            case ShutdownTrue => run[k] == Check && s.value
            case SenderGone => run[k] == Gone && s.closed && !s.value
  {
    var before := run[..|run|-1];
    var s := Exec(start, before).value;
    InvariantHolds(start, before);
    if s.place.Exited? {
      k := ExitReason(start, before);
      assert before[..k] == run[..k];
    } else {
      k := |run| - 1;
    }
  }

  // ---------------------------------------------------------------- the source's own form

  datatype SenderStep = Sends(value: bool) | Drops

  lemma ExecAppend(start: State, run: seq<Step>, step: Step)
    requires Exec(start, run).Some? && Enabled(Exec(start, run).value, step)
    ensures Exec(start, run + [step]) == Some(Apply(Exec(start, run).value, step))
  {
    assert (run + [step])[..|run|] == run;
  }

  /** The receiver's half of the watch channel, with the cell it shares with the sender. `now` is the machine's
      state after `trace`, started at `start`. */
  class ShutdownReceiver {
    var value: bool
    var version: nat
    var closed: bool
    var seen: nat
    ghost const start: State
    ghost var trace: seq<Step>
    ghost var now: State

    ghost predicate Valid()
      reads this
    {
      && IsStart(start) && Exec(start, trace) == Some(now)
      && now == State(value, version, closed, seen, now.place)
    }

    constructor (value: bool, version: nat, closed: bool, seen: nat)
      requires seen <= version
      ensures Valid() && trace == [] && now.place == Checking
    {
      this.value, this.version, this.closed, this.seen := value, version, closed, seen;
      start := State(value, version, closed, seen, Checking);
      trace, now := [], State(value, version, closed, seen, Checking);
    }

    ghost method Note(step: Step)
      requires IsStart(start) && Exec(start, trace) == Some(now) && Enabled(now, step)
      modifies this`trace, this`now
      ensures trace == old(trace) + [step] && now == Apply(old(now), step)
      ensures Exec(start, trace) == Some(now)
    {
      ExecAppend(start, trace, step);
      trace, now := trace + [step], Apply(now, step);
    }

    /** What the sender does while the loop is parked. */
    method Perform(step: SenderStep)
      requires Valid() && !closed
      modifies this`value, this`version, this`closed, this`trace, this`now
      ensures Valid() && now.place == old(now.place) && old(trace) < trace
      ensures step == Drops ==> closed && value == old(value) && version == old(version)
      ensures step.Sends? ==> value == step.value && version == old(version) + 1 && !closed
    {
      match step {
        case Sends(v) =>
          Note(Send(v));
          value, version := v, version + 1;
        case Drops =>
          Note(DropSender);
          closed := true;
      }
    }

    /** The park loop against a sender that performs `sender` while the loop waits. It is still parked at the
        end exactly when the cell holds `false` and its sender is alive. */
    method ParkUntilShutdown(sender: seq<SenderStep>) returns (exit: Option<Reason>)
      requires Valid() && now.place == Checking
      modifies this
      ensures Valid() && old(trace) < trace
      ensures exit.None? <==> now.place == Parked
      ensures exit.Some? ==> now.place == Exited(exit.value)
      ensures now.place == Parked <==> !value && !closed
      ensures exit == Some(ShutdownTrue) ==> value
      ensures exit == Some(SenderGone) ==> closed && !value
    {
      var i := 0;
      while true
        invariant 0 <= i <= |sender|
        invariant Valid() && now.place == Checking && old(trace) <= trace
        decreases |sender| - i
      {
        seen := version;
        Note(Check);
        if value {
          return Some(ShutdownTrue);
        }
        ghost var parkedAt := i;
        while version == seen && !closed
          invariant parkedAt <= i <= |sender| && (version != seen ==> parkedAt < i)
          invariant Valid() && now.place == Parked && old(trace) < trace
          invariant version == seen ==> !value
          decreases |sender| - i
        {
          if i == |sender| {
            return None;
          }
          Perform(sender[i]);
          i := i + 1;
        }
        if version == seen {
          Note(Gone);
          return Some(SenderGone);
        }
        seen := version;
        Note(Wake);
      }
    }
  }
}
