/** The Kick webhook-to-chat bridge: a bounded queue fed by webhook dispatch and drained by serialized
    `run` calls, as interleaved atomic steps. */
module KickBridge {
  import opened Prelude
  import opened Json
  import Text

  const BRIDGE_CAPACITY: nat := 256
  const CHAT_TRIGGER: string := "chat_message"

  datatype ChatMessage = ChatMessage(channelId: string, userId: string, text: string, raw: Value)

  /** Read an id sent as a number or a string. */
  function IdField(value: Option<Value>): string {
    match value
    case Some(Str(s)) => s
    case Some(Num(n)) => n.Print()
    case _ => ""
  }

  function ChatMessageFromPayload(payload: Value): Option<ChatMessage> {
    var channelId := IdField(Then(payload.Get("broadcaster"), "user_id"));
    var userId := IdField(Then(payload.Get("sender"), "user_id"));
    if channelId == "" && userId == "" then None
    else Some(ChatMessage(channelId, userId, OrElse(AsStr(payload.Get("content")), ""), payload))
  }

  /** `payload.who.user_id` is a number or a non-empty string. */
  predicate Names(payload: Value, who: string) {
    && payload.Obj? && who in payload.fields
    && payload.fields[who].Obj? && "user_id" in payload.fields[who].fields
    && var id := payload.fields[who].fields["user_id"];
       id.Num? || (id.Str? && id.s != "")
  }

  /** A payload is a chat message exactly when it names a broadcaster or a sender; the broadcaster becomes the
      channel and the sender the user. */
  lemma ChatMessageIff(payload: Value)
    ensures ChatMessageFromPayload(payload).Some? <==> Names(payload, "broadcaster") || Names(payload, "sender")
    ensures ChatMessageFromPayload(payload).Some? ==>
              var m := ChatMessageFromPayload(payload).value;
              && m.raw == payload
              && (m.channelId != "" <==> Names(payload, "broadcaster"))
              && (m.userId != "" <==> Names(payload, "sender"))
  {
  }

  /** An id is kept as it was sent: a string unchanged, an integer in decimal, and nothing else at all. */
  lemma IdFieldIs(value: Option<Value>)
    ensures value.Some? && value.value.Str? ==> IdField(value) == value.value.s
    ensures value.Some? && value.value.Num? && value.value.number.Int? ==>
              Text.ReadDecimal(IdField(value)) == value.value.number.n && IdField(value) != ""
    ensures value.Some? && value.value.Num? && value.value.number.Float? ==> IdField(value) == value.value.number.text
    ensures value.None? || !(value.value.Str? || value.value.Num?) ==> IdField(value) == ""
  {
    if value.Some? && value.value.Num? && value.value.number.Int? {
      Text.ReadDecimalOfDecimal(value.value.number.n);
    }
  }

  /** `id` is what the user id below `who` reads as. */
  predicate NamesId(payload: Value, who: string, id: string) {
    if Names(payload, who) then InnerId(payload.fields[who].fields["user_id"], id) else id == ""
  }

  predicate InnerId(sent: Value, id: string) {
    match sent
    case Str(s) => id == s
    case Num(Int(n)) => id != "" && Text.ReadDecimal(id) == n
    case Num(Float(text)) => id == text
    case _ => false
  }

  /** The broadcaster's id is the channel, the sender's the user, the content the text, and the payload is kept. */
  lemma ChatMessageIs(payload: Value)
    requires ChatMessageFromPayload(payload).Some?
    ensures var m := ChatMessageFromPayload(payload).value;
            && NamesId(payload, "broadcaster", m.channelId) && NamesId(payload, "sender", m.userId)
            && TextOfField(payload, "content", m.text) && m.raw == payload
  {
    IdFieldIs(Then(payload.Get("broadcaster"), "user_id"));
    IdFieldIs(Then(payload.Get("sender"), "user_id"));
  }

  // ---------------------------------------------------------------- the state machine

  datatype Exit = ShutdownSeen | SendFailed | BridgeClosed

  /** How far one `run` call has got. */
  datatype Run =
    | Waiting                          // for the receiver lock
    | Selecting                        // at the select
    | Forwarding(msg: ChatMessage)     // awaiting the downstream send
    | Exited(exit: Exit)

  /** One completed downstream send. */
  datatype Sent = Sent(run: nat, msg: ChatMessage, ok: bool)

  /** `queue` is the bridge and `lock` the holder of its receiver; the source owns both ends of the bridge,
      so both live while `sourceAlive`. The sequences record what happened. */
  datatype State = State(
    sourceAlive: bool,
    shutdown: bool,
    queue: seq<Value>,
    lock: Option<nat>,
    runs: map<nat, Run>,
    accepted: seq<Value>,
    dropped: seq<Value>,
    taken: seq<Value>,
    sends: seq<Sent>,
    forwarded: seq<ChatMessage>)

  const INIT: State := State(true, false, [], None, map[], [], [], [], [], [])

  datatype Step =
    | Ingest(trigger: string, payload: Value)
    | Start(run: nat)
    | Acquire(run: nat)
    | Receive(run: nat)
    | ReceiveClosed(run: nat)
    | SendDone(run: nat, ok: bool)
    | SetShutdown(value: bool)
    | Changed(run: nat)
    | DropSource

  predicate At(s: State, run: nat, at: Run) {
    run in s.runs && s.runs[run] == at
  }

  /** A running call borrows the source, so the source cannot be dropped under it. `Changed` may wake a call at any
      time, although a real one needs a new value or a dropped sender: what holds in every run here holds in fewer. */
  predicate Enabled(s: State, step: Step) {
    match step
    case Ingest(_, _) => s.sourceAlive
    case Start(r) => s.sourceAlive && r !in s.runs
    case Acquire(r) => At(s, r, Waiting) && s.lock.None?
    case Receive(r) => At(s, r, Selecting) && s.queue != []
    case ReceiveClosed(r) => At(s, r, Selecting) && s.queue == [] && !s.sourceAlive
    case SendDone(r, _) => r in s.runs && s.runs[r].Forwarding?
    case SetShutdown(_) => true
    case Changed(r) => At(s, r, Selecting)
    case DropSource => forall r | r in s.runs :: s.runs[r].Exited?
  }

  function Leave(s: State, r: nat, exit: Exit): State {
    s.(runs := s.runs[r := Exited(exit)], lock := None)
  }

  function Apply(s: State, step: Step): State
    requires Enabled(s, step)
  {
    match step
    case Ingest(trigger, payload) =>
      if trigger != CHAT_TRIGGER then s
      else if |s.queue| < BRIDGE_CAPACITY then s.(queue := s.queue + [payload], accepted := s.accepted + [payload])
      else s.(dropped := s.dropped + [payload])
    case Start(r) => s.(runs := s.runs[r := Waiting])
    case Acquire(r) => s.(runs := s.runs[r := Selecting], lock := Some(r))
    case Receive(r) =>
      var payload := s.queue[0];
      var rest := s.(queue := s.queue[1..], taken := s.taken + [payload]);
      (match ChatMessageFromPayload(payload)
       case None => rest
       case Some(msg) => rest.(runs := rest.runs[r := Forwarding(msg)]))
    case ReceiveClosed(r) => Leave(s, r, BridgeClosed)
    case SendDone(r, ok) =>
      var msg := s.runs[r].msg;
      var logged := s.(sends := s.sends + [Sent(r, msg, ok)]);
      if ok then logged.(forwarded := logged.forwarded + [msg], runs := logged.runs[r := Selecting])
      else Leave(logged, r, SendFailed)
    case SetShutdown(value) => s.(shutdown := value)
    case Changed(r) => if s.shutdown then Leave(s, r, ShutdownSeen) else s
    case DropSource => s.(sourceAlive := false)
  }

  /** The state after `trace`, when every step of it was enabled. */
  function Exec(trace: seq<Step>): Option<State> {
    if trace == [] then Some(INIT)
    else
      match Exec(trace[..|trace|-1])
      case None => None
      case Some(s) =>
        var step := trace[|trace|-1];
        if Enabled(s, step) then Some(Apply(s, step)) else None
  }

  lemma ExecLast(trace: seq<Step>)
    requires trace != [] && Exec(trace).Some?
    ensures var before := Exec(trace[..|trace|-1]);
            && before.Some? && Enabled(before.value, trace[|trace|-1])
            && Exec(trace).value == Apply(before.value, trace[|trace|-1])
  {
  }

  lemma ExecAppend(trace: seq<Step>, step: Step)
    requires Exec(trace).Some? && Enabled(Exec(trace).value, step)
    ensures Exec(trace + [step]) == Some(Apply(Exec(trace).value, step))
  {
    assert (trace + [step])[..|trace|] == trace;
  }

  // ---------------------------------------------------------------- reference: what the records should be

  /** The chat messages a sequence of payloads carries, in order. */
  function Decoded(payloads: seq<Value>): seq<ChatMessage> {
    if payloads == [] then []
    else
      Decoded(payloads[..|payloads|-1])
      + match ChatMessageFromPayload(payloads[|payloads|-1])
        case Some(msg) => [msg]
        case None => []
  }

  /** The messages of a sequence of sends, all of them or only the successful ones. */
  function Messages(sends: seq<Sent>, failedToo: bool): seq<ChatMessage> {
    if sends == [] then []
    else
      var last := sends[|sends|-1];
      Messages(sends[..|sends|-1], failedToo) + if last.ok || failedToo then [last.msg] else []
  }

  /** How many sends of `run` failed. */
  function Failures(sends: seq<Sent>, run: nat): nat {
    if sends == [] then 0
    else
      var last := sends[|sends|-1];
      Failures(sends[..|sends|-1], run) + if last.run == run && !last.ok then 1 else 0
  }

  /** The message whose send has not completed yet, if any. */
  function InFlight(s: State): seq<ChatMessage> {
    if s.lock.Some? && s.lock.value in s.runs && s.runs[s.lock.value].Forwarding?
    then [s.runs[s.lock.value].msg] else []
  }

  /** The chat payloads webhook dispatch handed in, in order. */
  function ChatPayloads(trace: seq<Step>): seq<Value> {
    if trace == [] then []
    else
      var last := trace[|trace|-1];
      ChatPayloads(trace[..|trace|-1])
      + if last.Ingest? && last.trigger == CHAT_TRIGGER then [last.payload] else []
  }

  // ---------------------------------------------------------------- invariants

  ghost predicate Serialized(s: State) {
    && (s.lock.Some? ==> s.lock.value in s.runs)
    && (forall r | r in s.runs :: s.lock == Some(r) <==> s.runs[r].Selecting? || s.runs[r].Forwarding?)
    && (forall r | r in s.runs && !s.runs[r].Exited? :: s.sourceAlive)
    && (forall r | r in s.runs :: s.runs[r] != Exited(BridgeClosed))
  }

  ghost predicate Conserves(s: State) {
    && |s.queue| <= BRIDGE_CAPACITY
    && s.accepted == s.taken + s.queue
    && Decoded(s.taken) == Messages(s.sends, true) + InFlight(s)
    && s.forwarded == Messages(s.sends, false)
  }

  ghost predicate FailsOnce(s: State) {
    forall r :: Failures(s.sends, r) == if At(s, r, Exited(SendFailed)) then 1 else 0
  }

  lemma StepKeepsSerialized(s: State, step: Step)
    requires Serialized(s) && Enabled(s, step)
    ensures Serialized(Apply(s, step))
  {
  }

  lemma DecodedAppend(payloads: seq<Value>, payload: Value, decoded: Option<ChatMessage>)
    requires decoded == ChatMessageFromPayload(payload)
    ensures Decoded(payloads + [payload]) == Decoded(payloads) + if decoded.Some? then [decoded.value] else []
  {
    assert (payloads + [payload])[..|payloads|] == payloads;
  }

  lemma Shift<T>(a: seq<T>, b: seq<T>)
    requires b != []
    ensures (a + [b[0]]) + b[1..] == a + b
  {
  }

  lemma ReceiveConserves(s: State, r: nat)
    requires Serialized(s) && Conserves(s) && Enabled(s, Receive(r))
    ensures Conserves(Apply(s, Receive(r)))
  {
    Shift(s.taken, s.queue);
    DecodedAppend(s.taken, s.queue[0], ChatMessageFromPayload(s.queue[0]));
    assert InFlight(s) == [];
  }

  lemma SendDoneConserves(s: State, r: nat, ok: bool)
    requires Serialized(s) && Conserves(s) && Enabled(s, SendDone(r, ok))
    ensures Conserves(Apply(s, SendDone(r, ok)))
  {
    var s' := Apply(s, SendDone(r, ok));
    assert s'.sends[..|s'.sends|-1] == s.sends;
  }

  lemma StepConserves(s: State, step: Step)
    requires Serialized(s) && Conserves(s) && Enabled(s, step)
    ensures Conserves(Apply(s, step))
  {
    match step
    case Receive(r) => ReceiveConserves(s, r);
    case SendDone(r, ok) => SendDoneConserves(s, r, ok);
    case _ =>
  }

  lemma FailuresAppend(sends: seq<Sent>, sent: Sent, r: nat)
    ensures Failures(sends + [sent], r) == Failures(sends, r) + if sent.run == r && !sent.ok then 1 else 0
  {
    assert (sends + [sent])[..|sends|] == sends;
  }

  lemma SendDoneFailsOnce(s: State, run: nat, ok: bool, r: nat)
    requires Serialized(s) && Enabled(s, SendDone(run, ok))
    requires Failures(s.sends, r) == if At(s, r, Exited(SendFailed)) then 1 else 0
    ensures var s' := Apply(s, SendDone(run, ok));
            Failures(s'.sends, r) == if At(s', r, Exited(SendFailed)) then 1 else 0
  {
    FailuresAppend(s.sends, Sent(run, s.runs[run].msg, ok), r);
  }

  lemma StepFailsOnce(s: State, step: Step)
    requires Serialized(s) && FailsOnce(s) && Enabled(s, step)
    ensures FailsOnce(Apply(s, step))
  {
    var s' := Apply(s, step);
    forall r: nat
      ensures Failures(s'.sends, r) == if At(s', r, Exited(SendFailed)) then 1 else 0
    {
      if step.SendDone? {
        SendDoneFailsOnce(s, step.run, step.ok, r);
      } else {
        assert s'.sends == s.sends;
        assert At(s', r, Exited(SendFailed)) <==> At(s, r, Exited(SendFailed));
      }
    }
  }

  lemma {:induction false} InvariantHolds(trace: seq<Step>)
    requires Exec(trace).Some?
    ensures var s := Exec(trace).value; Serialized(s) && Conserves(s) && FailsOnce(s)
  {
    if trace != [] {
      ExecLast(trace);
      InvariantHolds(trace[..|trace|-1]);
      var s, step := Exec(trace[..|trace|-1]).value, trace[|trace|-1];
      StepKeepsSerialized(s, step);
      StepConserves(s, step);
      StepFailsOnce(s, step);
    }
  }

  /** In every reachable state: the queue is bounded, accepted payloads are the taken ones followed by the
      queued ones, every decoding of a taken payload was sent, failed or is in flight, in order, the forwarded
      messages are those without the failed ones, and each `run` fails at most once, by its exit. */
  lemma BridgeConserves(trace: seq<Step>)
    requires Exec(trace).Some?
    ensures var s := Exec(trace).value;
            && |s.queue| <= 256
            && s.accepted == s.taken + s.queue
            && Decoded(s.taken) == Messages(s.sends, true) + InFlight(s)
            && s.forwarded == Messages(s.sends, false)
            && forall r :: Failures(s.sends, r) == if At(s, r, Exited(SendFailed)) then 1 else 0
  {
    InvariantHolds(trace);
  }

  /** A step moves payloads but loses none. */
  lemma StepLosesNothing(s: State, step: Step)
    requires Enabled(s, step)
    ensures var s' := Apply(s, step);
            multiset(s'.accepted) + multiset(s'.dropped) ==
            multiset(s.accepted) + multiset(s.dropped)
            + (if step.Ingest? && step.trigger == CHAT_TRIGGER then multiset{step.payload} else multiset{})
  {
    var s' := Apply(s, step);
    if !(step.Ingest? && step.trigger == CHAT_TRIGGER) {
      assert s'.accepted == s.accepted && s'.dropped == s.dropped;
    }
  }

  /** Every chat payload handed in was taken, is queued or was dropped. */
  lemma {:induction false} NothingLostSilently(trace: seq<Step>)
    requires Exec(trace).Some?
    ensures var s := Exec(trace).value;
            multiset(ChatPayloads(trace)) == multiset(s.taken) + multiset(s.queue) + multiset(s.dropped)
  {
    InvariantHolds(trace);
    if trace != [] {
      var before := trace[..|trace|-1];
      ExecLast(trace);
      NothingLostSilently(before);
      InvariantHolds(before);
      StepLosesNothing(Exec(before).value, trace[|trace|-1]);
    }
  }

  /** A chat payload is dropped exactly when the bridge is full. */
  lemma DroppedIffFull(trace: seq<Step>, payload: Value)
    requires Exec(trace).Some? && Exec(trace).value.sourceAlive
    ensures var s, s' := Exec(trace).value, Apply(Exec(trace).value, Ingest("chat_message", payload));
            if |s.queue| == 256 then s' == s.(dropped := s.dropped + [payload])
            else s' == s.(queue := s.queue + [payload], accepted := s.accepted + [payload])
  {
    InvariantHolds(trace);
  }

  predicate HasExited(s: State, r: nat) {
    r in s.runs && s.runs[r].Exited?
  }

  /** The steps by which a `run` can end, and that it ends once. */
  lemma StepExits(s: State, step: Step, r: nat)
    requires Serialized(s) && Enabled(s, step)
    ensures HasExited(s, r) ==> HasExited(Apply(s, step), r) && Apply(s, step).runs[r] == s.runs[r]
    ensures !HasExited(s, r) && HasExited(Apply(s, step), r) ==>
              match Apply(s, step).runs[r].exit
              case ShutdownSeen => step == Changed(r) && s.shutdown
              case SendFailed => step == SendDone(r, false)
              case BridgeClosed => false
  {
  }

  /** Why a `run` ended: it saw the shutdown flag true, or its forward failed. The bridge-closed exit is
      unreachable, because a running call keeps the source, and with it a sender, alive. */
  lemma {:induction false} ExitReason(trace: seq<Step>, r: nat) returns (k: nat)
    requires Exec(trace).Some? && HasExited(Exec(trace).value, r)
    ensures k < |trace| && Exec(trace[..k]).Some?
    ensures match Exec(trace).value.runs[r].exit
            case ShutdownSeen => trace[k] == Changed(r) && Exec(trace[..k]).value.shutdown
            case SendFailed => trace[k] == SendDone(r, false)
            case BridgeClosed => false
  {
    ExecLast(trace);
    var before := trace[..|trace|-1];
    var s := Exec(before).value;
    InvariantHolds(before);
    StepExits(s, trace[|trace|-1], r);
    if HasExited(s, r) {
      k := ExitReason(before, r);
      assert before[..k] == trace[..k];
    } else {
      k := |trace| - 1;
    }
  }

  // ---------------------------------------------------------------- shutdown ends a run

  /** The value the shutdown flag was last set to. */
  function ShutdownFlag(trace: seq<Step>): bool {
    if trace == [] then false
    else if trace[|trace|-1].SetShutdown? then trace[|trace|-1].value
    else ShutdownFlag(trace[..|trace|-1])
  }

  lemma {:induction false} FlagIsLastSet(trace: seq<Step>)
    requires Exec(trace).Some?
    ensures Exec(trace).value.shutdown == ShutdownFlag(trace)
  {
    if trace != [] {
      ExecLast(trace);
      FlagIsLastSet(trace[..|trace|-1]);
    }
  }

  /** In every trace, a run that wakes up for the shutdown flag ends, and frees the bridge for the next run, if and only
      if the flag was last set to true; otherwise it goes on selecting. */
  lemma ShutdownEndsRun(trace: seq<Step>, r: nat)
    requires trace != [] && Exec(trace).Some? && trace[|trace|-1] == Changed(r)
    ensures At(Exec(trace[..|trace|-1]).value, r, Selecting)
    ensures var s := Exec(trace).value;
            if ShutdownFlag(trace) then At(s, r, Exited(ShutdownSeen)) && s.lock == None
            else At(s, r, Selecting) && s.lock == Some(r)
  {
    ExecLast(trace);
    var before := trace[..|trace|-1];
    InvariantHolds(before);
    FlagIsLastSet(before);
  }

  /** A failed forward ends the run as well, and a forward that succeeds or a payload without message does not. */
  lemma ForwardEndsRun(trace: seq<Step>, r: nat, ok: bool)
    requires trace != [] && Exec(trace).Some? && trace[|trace|-1] == SendDone(r, ok)
    ensures var s := Exec(trace).value;
            if ok then At(s, r, Selecting) && s.lock == Some(r) else At(s, r, Exited(SendFailed)) && s.lock == None
  {
    ExecLast(trace);
    InvariantHolds(trace);
  }

  // ---------------------------------------------------------------- the source's own form

  /** What the select of `run` wakes up with; `Fed` stands for a dispatch that runs in between. */
  datatype Arm =
    | Message(sendOk: bool)
    | ShutdownChanged(value: bool)
    | Fed(trigger: string, payload: Value)

  /** The machine's state after `run` has handled one wake-up. */
  function Handle(s: State, run: nat, arm: Arm): State
    requires s.sourceAlive && At(s, run, Selecting)
  {
    match arm
    case Fed(trigger, payload) => Apply(s, Step.Ingest(trigger, payload))
    case ShutdownChanged(value) => Apply(Apply(s, SetShutdown(value)), Changed(run))
    case Message(sendOk) =>
      if s.queue == [] then s
      else
        var s' := Apply(s, Receive(run));
        if ChatMessageFromPayload(s.queue[0]).None? then s' else Apply(s', SendDone(run, sendOk))
  }

  /** The machine's state after `run` has handled `arms`, or the part of them up to its exit. */
  function Drive(s: State, run: nat, arms: seq<Arm>): State
    requires s.sourceAlive
    decreases |arms|
  {
    if arms == [] || !At(s, run, Selecting) then s
    else Drive(Handle(s, run, arms[0]), run, arms[1..])
  }

  /** `KickChatSource`: `queue` is the bridge, `forwarded` what reached the downstream channel. `trace`
      is the machine run this object has gone through, and `Valid` says that it really is one. */
  class KickChatSource {
    var queue: seq<Value>
    var forwarded: seq<ChatMessage>
    ghost var trace: seq<Step>

    ghost predicate Valid()
      reads this
    {
      && Exec(trace).Some?
      && Current().sourceAlive
      && queue == Current().queue
      && forwarded == Current().forwarded
    }

    ghost function Current(): State
      reads this
      requires Exec(trace).Some?
    {
      Exec(trace).value
    }

    constructor ()
      ensures Valid() && trace == [] && queue == [] && forwarded == []
    {
      queue, forwarded, trace := [], [], [];
    }

    ghost method Note(step: Step)
      requires Exec(trace).Some? && Enabled(Current(), step)
      modifies this`trace
      ensures trace == old(trace) + [step]
      ensures Exec(trace) == Some(Apply(old(Current()), step))
    {
      ExecAppend(trace, step);
      trace := trace + [step];
    }

    /** Never blocks: a full bridge drops the payload. */
    method Ingest(trigger: string, payload: Value)
      requires Valid()
      modifies this
      ensures Valid() && trace == old(trace) + [Step.Ingest(trigger, payload)]
      ensures forwarded == old(forwarded)
      ensures queue == if trigger == CHAT_TRIGGER && |old(queue)| < BRIDGE_CAPACITY
                       then old(queue) + [payload] else old(queue)
    {
      Note(Step.Ingest(trigger, payload));
      if trigger != CHAT_TRIGGER {
        return;
      }
      if |queue| < BRIDGE_CAPACITY {
        queue := queue + [payload];
      }
    }

    /** The receive arm of the select: take one payload and forward its message, if it carries one. */
    method Drain(run: nat, sendOk: bool) returns (failed: bool)
      requires Valid() && At(Current(), run, Selecting) && queue != []
      modifies this
      ensures Valid() && old(trace) <= trace
      ensures Current() == Handle(old(Current()), run, Message(sendOk))
      ensures At(Current(), run, if failed then Exited(SendFailed) else Selecting)
      ensures failed <==> ChatMessageFromPayload(old(queue)[0]).Some? && !sendOk
      ensures queue == old(queue)[1..]
    {
      var payload := queue[0];
      queue := queue[1..];
      Note(Receive(run));
      match ChatMessageFromPayload(payload) {
        case None =>
          failed := false;
        case Some(msg) =>
          Note(SendDone(run, sendOk));
          if sendOk {
            forwarded := forwarded + [msg];
          }
          failed := !sendOk;
      }
    }

    /** One wake-up of the select. */
    method Wake(run: nat, arm: Arm) returns (exit: Option<Exit>)
      requires Valid() && At(Current(), run, Selecting)
      modifies this
      ensures Valid() && old(trace) <= trace
      ensures Current() == Handle(old(Current()), run, arm)
      ensures exit.None? ==> At(Current(), run, Selecting)
      ensures exit.Some? ==> At(Current(), run, Exited(exit.value)) && exit.value != BridgeClosed
      ensures arm.ShutdownChanged? ==> exit == if arm.value then Some(ShutdownSeen) else None
      ensures arm.Fed? ==> exit == None
      ensures arm.Message? ==>
                exit == if old(queue) != [] && ChatMessageFromPayload(old(queue)[0]).Some? && !arm.sendOk
                        then Some(SendFailed) else None
    {
      exit := None;
      match arm {
        case Fed(trigger, payload) =>
          Ingest(trigger, payload);
        case ShutdownChanged(value) =>
          Note(SetShutdown(value));
          Note(Changed(run));
          if value {
            exit := Some(ShutdownSeen);
          }
        case Message(sendOk) =>
          if queue != [] {
            var failed := Drain(run, sendOk);
            if failed {
              exit := Some(SendFailed);
            }
          }
      }
    }

    /** The drain loop, until an exit or until `arms` is used up. */
    method Run(run: nat, arms: seq<Arm>) returns (exit: Option<Exit>)
      requires Valid() && run !in Current().runs && Current().lock.None?
      modifies this
      ensures Valid() && old(trace) <= trace
      ensures Current() == Drive(Apply(Apply(old(Current()), Start(run)), Acquire(run)), run, arms)
      ensures exit.None? ==> At(Current(), run, Selecting)
      ensures exit.Some? ==> At(Current(), run, Exited(exit.value)) && exit.value != BridgeClosed
      ensures (exists i | 0 <= i < |arms| :: arms[i] == ShutdownChanged(true)) ==> exit.Some?
      ensures exit == Some(ShutdownSeen) ==> exists i | 0 <= i < |arms| :: arms[i] == ShutdownChanged(true)
    {
      Note(Start(run));
      Note(Acquire(run));
      ghost var start := Current();
      exit := None;
      var i := 0;
      while i < |arms| && exit.None?
        invariant 0 <= i <= |arms|
        invariant Valid() && old(trace) <= trace
        invariant exit.None? ==> At(Current(), run, Selecting)
        invariant exit.Some? ==> At(Current(), run, Exited(exit.value)) && exit.value != BridgeClosed
        invariant Drive(Current(), run, arms[i..]) == Drive(start, run, arms)
        invariant exit.None? ==> forall k | 0 <= k < i :: arms[k] != ShutdownChanged(true)
        invariant exit == Some(ShutdownSeen) ==> i > 0 && arms[i-1] == ShutdownChanged(true)
        decreases |arms| - i
      {
        assert arms[i..][1..] == arms[i+1..];
        exit := Wake(run, arms[i]);
        i := i + 1;
      }
    }
  }
}
