/** Telegram updates take two paths: the polling dispatcher turns them into chat messages that carry rule
    events, and the connector fires trigger handlers for them. */
module TelegramIngest {
  import opened Prelude
  import opened Json
  import Text
  import opened HandlerList
  import opened SubscriptionIds

  /** `ChatMessage` with the rule events attached by `with_events`. */
  datatype ChatMessage = ChatMessage(channelId: string, userId: string, text: string, events: seq<string>, raw: Value)

  /** `.and_then(|i| i.as_i64()).map(|i| i.to_string()).unwrap_or_default()`. */
  function IdText(v: Option<Value>): string {
    match AsI64(v)
    case Some(n) => Text.Decimal(n)
    case None => ""
  }

  predicate IsCommand(text: string) {
    text != "" && text[0] == '/'
  }

  // ---------------------------------------------------------------- the polling dispatcher

  function FromMessage(update: Value, message: Value): ChatMessage {
    var text := OrElse(AsStr(message.Get("text")), "");
    ChatMessage(
      IdText(Then(message.Get("chat"), "id")),
      IdText(Then(message.Get("from"), "id")),
      text,
      if IsCommand(text) then ["message", "command_received"] else ["message"],
      update)
  }

  function FromCallback(update: Value, callback: Value): ChatMessage {
    ChatMessage(
      IdText(Then(Then(callback.Get("message"), "chat"), "id")),
      IdText(Then(callback.Get("from"), "id")),
      OrElse(AsStr(callback.Get("data")), ""),
      ["callback_query_received"],
      update)
  }

  /** The message the spawned task for `update` will send, if one is spawned. */
  function Classify(update: Value): Option<ChatMessage> {
    match update.Get("message")
    case Some(message) => Some(FromMessage(update, message))
    case None =>
      match update.Get("callback_query")
      case Some(callback) => Some(FromCallback(update, callback))
      case None => None
  }

  /** `text` is the decimal text of the number at `outer.key`, or empty when that is no `i64`. */
  predicate NumberText(v: Value, outer: string, key: string, text: string) {
    if HasField(v, outer) && HasField(v.fields[outer], key) && IsI64(v.fields[outer].fields[key])
    then text == Text.Decimal(v.fields[outer].fields[key].number.n)
    else text == ""
  }

  /** What a message update becomes, over its own fields. */
  lemma MessageIs(update: Value)
    requires HasField(update, "message")
    ensures Classify(update).Some?
    ensures var m, message := Classify(update).value, update.fields["message"];
            && m.raw == update
            && NumberText(message, "chat", "id", m.channelId) && NumberText(message, "from", "id", m.userId)
            && TextOfField(message, "text", m.text)
            && m.events == if m.text != "" && m.text[0] == '/' then ["message", "command_received"] else ["message"]
  {
  }

  /** What a button press becomes, over its own fields. */
  lemma CallbackIs(update: Value)
    requires !HasField(update, "message") && HasField(update, "callback_query")
    ensures Classify(update).Some?
    ensures var m, callback := Classify(update).value, update.fields["callback_query"];
            && m.raw == update
            && NumberText(callback, "from", "id", m.userId) && TextOfField(callback, "data", m.text)
            && (if HasField(callback, "message") then NumberText(callback.fields["message"], "chat", "id", m.channelId)
                else m.channelId == "")
            && m.events == ["callback_query_received"]
  {
  }

  /** An update is turned into a message exactly when it has one of the two fields, and its message keeps it whole. */
  lemma ClassifyIff(update: Value)
    ensures Classify(update).Some? <==> HasField(update, "message") || HasField(update, "callback_query")
    ensures Classify(update).Some? ==> Classify(update).value.raw == update
  {
  }

  // ---------------------------------------------------------------- the connector's dispatch

  predicate CarriesCommand(message: Value) {
    IsCommand(OrElse(AsStr(message.Get("text")), ""))
  }

  /** The triggers `dispatch_update` fires for `update`, in order. */
  function FiredTriggers(update: Value): seq<string> {
    match update.Get("message")
    case Some(message) =>
      if CarriesCommand(message) then ["command_received", "message_received"] else ["message_received"]
    case None =>
      if update.Get("callback_query").Some? then ["callback_query_received"] else []
  }

  /** `/command@bot args`: the command without slash and bot name, and the text after the first space. */
  function ParseCommand(text: string): (string, string) {
    ParseBare(if IsCommand(text) then text[1..] else text)
  }

  function ParseBare(bare: string): (string, string) {
    var head := Text.Split(bare, ' ')[0];
    (Text.Split(head, '@')[0], if |head| < |bare| then bare[|head| + 1..] else "")
  }

  function Suffix(c: char, s: Option<string>): string {
    if s.Some? then [c] + s.value else ""
  }

  /** A command as Telegram writes it. */
  function CommandText(command: string, bot: Option<string>, args: Option<string>): string {
    "/" + (command + Suffix('@', bot) + Suffix(' ', args))
  }

  lemma FirstPart(head: string, c: char, s: Option<string>)
    requires c !in head
    ensures Text.Split(head + Suffix(c, s), c)[0] == head
    ensures var all := head + Suffix(c, s);
            (if |head| < |all| then all[|head| + 1..] else "") == OrElse(s, "")
  {
    match s
    case Some(tail) =>
      Text.SplitPrepend(head, tail, c);
      assert head + Suffix(c, s) == head + [c] + tail;
    case None =>
      Text.SplitPrepend(head, "", c);
      assert head + Suffix(c, s) == head;
  }

  lemma BareParses(head: string, command: string, bot: Option<string>, args: Option<string>)
    requires head == command + Suffix('@', bot) && ' ' !in head && '@' !in command
    ensures ParseBare(head + Suffix(' ', args)) == (command, OrElse(args, ""))
  {
    FirstPart(head, ' ', args);
    FirstPart(command, '@', bot);
  }

  lemma HeadHasNoSpace(command: string, bot: Option<string>)
    ensures ' ' !in command + Suffix('@', bot) <==> ' ' !in command && (bot.Some? ==> ' ' !in bot.value)
  {
    if bot.Some? {
      assert forall c :: c in command + Suffix('@', bot) <==> c in command || c == '@' || c in bot.value;
    }
  }

  /** The parts of every command are read back: bot names are dropped and arguments kept as they are. */
  lemma ParsesCommands(command: string, bot: Option<string>, args: Option<string>)
    requires ' ' !in command && '@' !in command
    requires bot.Some? ==> ' ' !in bot.value
    ensures IsCommand(CommandText(command, bot, args))
    ensures ParseCommand(CommandText(command, bot, args)) == (command, OrElse(args, ""))
  {
    var head := command + Suffix('@', bot);
    HeadHasNoSpace(command, bot);
    assert CommandText(command, bot, args)[1..] == head + Suffix(' ', args);
    BareParses(head, command, bot, args);
  }

  /** Every text is a part without `c`, and what follows the first `c` if there is one. */
  lemma {:induction false} CutAtFirst(text: string, c: char) returns (head: string, tail: Option<string>)
    ensures text == head + Suffix(c, tail) && c !in head
  {
    if text == "" {
      head, tail := "", None;
    } else if text[0] == c {
      head, tail := "", Some(text[1..]);
      assert text == [c] + text[1..];
    } else {
      var first := text[0];
      head, tail := CutAtFirst(text[1..], c);
      assert text == [first] + (head + Suffix(c, tail)) == ([first] + head) + Suffix(c, tail);
      head := [first] + head;
    }
  }

  /** Every text that starts with a slash is a command text, and its parts are read back. */
  lemma EveryCommandParses(text: string) returns (command: string, bot: Option<string>, args: Option<string>)
    requires IsCommand(text)
    ensures text == CommandText(command, bot, args)
    ensures ' ' !in command && '@' !in command && (bot.Some? ==> ' ' !in bot.value)
    ensures ParseCommand(text) == (command, OrElse(args, ""))
  {
    var head;
    head, args := CutAtFirst(text[1..], ' ');
    command, bot := CutAtFirst(head, '@');
    assert text == ['/'] + text[1..];
    HeadHasNoSpace(command, bot);
    ParsesCommands(command, bot, args);
  }

  /** A text without the slash parses like the command it would be with one. */
  lemma SlashIsOptional(text: string)
    requires !IsCommand(text)
    ensures ParseCommand(text) == ParseCommand("/" + text)
  {
    assert ("/" + text)[1..] == text;
  }

  function WithCommand(message: Value): Value {
    if !message.Obj? then message
    else
      var parsed := ParseCommand(OrElse(AsStr(message.Get("text")), ""));
      Obj(message.fields["command" := Str(parsed.0)]["args" := Str(parsed.1)])
  }

  /** The payload of a command is its message with the two parts added. */
  lemma WithCommandKeeps(message: Value, key: string)
    ensures key !in ["command", "args"] ==> WithCommand(message).Get(key) == message.Get(key)
    ensures message.Obj? ==>
              var parsed := ParseCommand(OrElse(AsStr(message.Get("text")), ""));
              && WithCommand(message).Get("command") == Some(Str(parsed.0))
              && WithCommand(message).Get("args") == Some(Str(parsed.1))
    ensures !message.Obj? ==> WithCommand(message) == message
  {
  }

  /** The payload `dispatch_update` builds for each trigger it fires. */
  function UpdatePayload(update: Value, trigger: string): Value {
    match update.Get("message")
    case Some(message) => if trigger == "command_received" then WithCommand(message) else message
    case None => OrElse(update.Get("callback_query"), Null)
  }

  /** The handlers of each trigger get the message or the button press itself, and those of commands the message with
      its command. */
  lemma PayloadIs(update: Value)
    ensures HasField(update, "message") ==>
              && UpdatePayload(update, "message_received") == update.fields["message"]
              && UpdatePayload(update, "command_received") == WithCommand(update.fields["message"])
    ensures !HasField(update, "message") && HasField(update, "callback_query") ==>
              UpdatePayload(update, "callback_query_received") == update.fields["callback_query"]
  {
  }

  function PayloadOf(update: Value): string -> Value {
    trigger => UpdatePayload(update, trigger)
  }

  /** The rule event `message` is the trigger `message_received`; the others have one name. */
  function TriggerName(event: string): string {
    if event == "message" then "message_received" else event
  }

  function Renamed(events: seq<string>): seq<string> {
    seq(|events|, i requires 0 <= i < |events| => TriggerName(events[i]))
  }

  function Reversed(s: seq<string>): seq<string> {
    seq(|s|, i requires 0 <= i < |s| => s[|s| - 1 - i])
  }

  /** Both paths classify every update alike: a message is spawned exactly when a trigger fires, and its rule
      events are the fired triggers, listed in the opposite order. */
  lemma PathsAgree(update: Value)
    ensures Classify(update).None? <==> FiredTriggers(update) == []
    ensures Classify(update).Some? ==>
              FiredTriggers(update) == Reversed(Renamed(Classify(update).value.events))
  {
    if Classify(update).Some? {
      var events := Classify(update).value.events;
      assert |events| == 1 ==> Reversed(Renamed(events)) == [TriggerName(events[0])];
      assert |events| == 2 ==> Reversed(Renamed(events)) == [TriggerName(events[1]), TriggerName(events[0])];
    }
  }

  /** The invocations of one `dispatch_update`, with `payloadOf` standing for the payload built per trigger. The lock
      is taken once per trigger, and `lists` holds the handler list found each time. */
  function CallsForUpdate(lists: seq<seq<Handler>>, triggers: seq<string>, payloadOf: string -> Value): seq<Call>
    requires |lists| == |triggers|
  {
    if triggers == [] then []
    else CallsFor(lists[0], triggers[0], payloadOf(triggers[0]))
         + CallsForUpdate(lists[1..], triggers[1..], payloadOf)
  }

  /** The handlers in `handlers` have the triggers their ids were registered for. */
  ghost predicate Agrees(handlers: seq<Handler>, registered: map<nat, string>) {
    forall i | 0 <= i < |handlers| :: handlers[i].id in registered && registered[handlers[i].id] == handlers[i].trigger
  }

  /** Lists a run can find: ids are distinct, and none of them changes its trigger from one list to the next. */
  ghost predicate AreHandlerLists(lists: seq<seq<Handler>>, registered: map<nat, string>) {
    forall k | 0 <= k < |lists| :: DistinctIds(lists[k]) && Agrees(lists[k], registered)
  }

  /** `h` is in the list found when its trigger is dispatched. */
  ghost predicate IsFoundAtItsLock(lists: seq<seq<Handler>>, triggers: seq<string>, h: Handler)
    requires |lists| == |triggers|
  {
    exists k | 0 <= k < |triggers| :: triggers[k] == h.trigger && h in lists[k]
  }

  /** The first lock, then the others. */
  lemma FoundFirst(lists: seq<seq<Handler>>, triggers: seq<string>, h: Handler)
    requires |lists| == |triggers| && triggers != [] && NoRepeats(triggers)
    ensures NoRepeats(triggers[1..])
    ensures IsFoundAtItsLock(lists, triggers, h) <==>
              if triggers[0] == h.trigger then h in lists[0] else IsFoundAtItsLock(lists[1..], triggers[1..], h)
    ensures triggers[0] == h.trigger ==> !IsFoundAtItsLock(lists[1..], triggers[1..], h)
  {
    assert forall k | 1 <= k < |triggers| :: triggers[1..][k-1] == triggers[k] && lists[1..][k-1] == lists[k];
  }

  /** One lock adds to what a handler receives exactly when it is for its trigger and finds it. */
  lemma ReceivedFirst(
    lists: seq<seq<Handler>>, triggers: seq<string>, payloadOf: string -> Value, h: Handler, registered: map<nat, string>)
    requires |lists| == |triggers| && triggers != [] && AreHandlerLists(lists, registered)
    requires h.id in registered && registered[h.id] == h.trigger
    ensures Received(CallsForUpdate(lists, triggers, payloadOf), h.id) ==
            (if h.trigger == triggers[0] && h in lists[0] then [payloadOf(h.trigger)] else [])
            + Received(CallsForUpdate(lists[1..], triggers[1..], payloadOf), h.id)
  {
    var t := triggers[0];
    DeliveryOnce(lists[0], t, payloadOf(t), h.id);
    ReceivedAppend(CallsFor(lists[0], t, payloadOf(t)), CallsForUpdate(lists[1..], triggers[1..], payloadOf), h.id);
    assert Handler(h.id, t) in lists[0] ==> h.trigger == t;
  }

  /** Whatever registrations and removals happen between the locks of one update, a registered handler is invoked once
      if it is found when its own trigger is dispatched, and otherwise not at all. */
  lemma {:induction false} CallsForUpdateOnce(
    lists: seq<seq<Handler>>, triggers: seq<string>, payloadOf: string -> Value, h: Handler, registered: map<nat, string>)
    requires |lists| == |triggers| && NoRepeats(triggers) && AreHandlerLists(lists, registered)
    requires h.id in registered && registered[h.id] == h.trigger
    ensures Received(CallsForUpdate(lists, triggers, payloadOf), h.id) ==
            if IsFoundAtItsLock(lists, triggers, h) then [payloadOf(h.trigger)] else []
  {
    if triggers != [] {
      FoundFirst(lists, triggers, h);
      assert forall k | 0 <= k < |lists| - 1 :: lists[1..][k] == lists[k+1];
      CallsForUpdateOnce(lists[1..], triggers[1..], payloadOf, h, registered);
      ReceivedFirst(lists, triggers, payloadOf, h, registered);
    }
  }

  lemma ReversedMembers(s: seq<string>, x: string)
    ensures x in Reversed(s) <==> x in s
  {
    if x in s {
      var i :| 0 <= i < |s| && s[i] == x;
      assert Reversed(s)[|s| - 1 - i] == x;
    }
  }

  /** The polling path attaches exactly the fired triggers, so a handler is invoked for an update exactly once if its
      trigger is attached as a rule event and it is found when that trigger is dispatched, and otherwise not at all. */
  lemma HandlerFiresIffRuleEvent(
    lists: seq<seq<Handler>>, update: Value, payloadOf: string -> Value, h: Handler, registered: map<nat, string>)
    requires |lists| == |FiredTriggers(update)| && AreHandlerLists(lists, registered)
    requires h.id in registered && registered[h.id] == h.trigger
    ensures h.trigger in FiredTriggers(update) <==>
              Classify(update).Some? && h.trigger in Renamed(Classify(update).value.events)
    ensures Received(CallsForUpdate(lists, FiredTriggers(update), payloadOf), h.id) ==
            if IsFoundAtItsLock(lists, FiredTriggers(update), h) then [payloadOf(h.trigger)] else []
  {
    assert NoRepeats(FiredTriggers(update));
    CallsForUpdateOnce(lists, FiredTriggers(update), payloadOf, h, registered);
    PathsAgree(update);
    if Classify(update).Some? {
      ReversedMembers(Renamed(Classify(update).value.events), h.trigger);
    }
  }

  lemma CallsForOne(list: seq<Handler>, t: string, payloadOf: string -> Value)
    ensures CallsForUpdate([list], [t], payloadOf) == CallsFor(list, t, payloadOf(t))
  {
    assert [t][1..] == [] && [list][1..] == [];
  }

  lemma CallsForTwo(first: seq<Handler>, second: seq<Handler>, t: string, u: string, payloadOf: string -> Value)
    ensures CallsForUpdate([first, second], [t, u], payloadOf)
            == CallsFor(first, t, payloadOf(t)) + CallsFor(second, u, payloadOf(u))
  {
    CallsForOne(second, u, payloadOf);
    assert [t, u][1..] == [u] && [first, second][1..] == [second];
  }

  /** What the message branch invokes, with the list found at the first and at the last lock. */
  function MessageInvocations(
    first: seq<Handler>, last: seq<Handler>, message: Value, isCommand: bool, commandPayload: Value): seq<Call>
  {
    (if isCommand then CallsFor(first, "command_received", commandPayload) else [])
    + CallsFor(last, "message_received", message)
  }

  /** The lists found by an update that fires one or two triggers. */
  function Found(first: seq<Handler>, last: seq<Handler>, triggers: seq<string>): (lists: seq<seq<Handler>>)
    requires |triggers| <= 2
    ensures |lists| == |triggers|
  {
    if |triggers| == 2 then [first, last] else if |triggers| == 1 then [last] else []
  }

  lemma MessageCalls(first: seq<Handler>, last: seq<Handler>, update: Value, message: Value)
    requires update.Get("message") == Some(message)
    ensures CallsForUpdate(Found(first, last, FiredTriggers(update)), FiredTriggers(update), PayloadOf(update)) ==
            MessageInvocations(first, last, message, CarriesCommand(message), WithCommand(message))
  {
    if CarriesCommand(message) {
      CallsForTwo(first, last, "command_received", "message_received", PayloadOf(update));
    } else {
      CallsForOne(last, "message_received", PayloadOf(update));
    }
  }

  lemma CallbackCalls(list: seq<Handler>, update: Value)
    requires update.Get("message").None?
    ensures CallsForUpdate(Found(list, list, FiredTriggers(update)), FiredTriggers(update), PayloadOf(update)) ==
            match update.Get("callback_query")
            case Some(callback) => CallsFor(list, "callback_query_received", callback)
            case None => []
  {
    CallsForOne(list, "callback_query_received", PayloadOf(update));
  }

  predicate IsValidTrigger(trigger: string) {
    trigger in ["message_received", "command_received", "callback_query_received"]
  }

  /** An update with nothing but a text message. */
  function TextUpdate(text: string): Value {
    Obj(map["message" := Obj(map["text" := Str(text)])])
  }

  /** The triggers one can register for are exactly those that some update fires. */
  lemma ValidIffFires(trigger: string)
    ensures IsValidTrigger(trigger) <==> exists update :: trigger in FiredTriggers(update)
  {
    assert FiredTriggers(TextUpdate("/")) == ["command_received", "message_received"];
    var press := Obj(map["callback_query" := Null]);
    assert FiredTriggers(press) == ["callback_query_received"];
    if IsValidTrigger(trigger) {
      assert trigger in FiredTriggers(TextUpdate("/")) || trigger in FiredTriggers(press);
    }
  }

  /** What other calls do while a dispatch is between two locks. */
  datatype Change =
    | Draws(task: nat, trigger: string)
    | Pushes(task: nat, trigger: string)
    | Removes(id: nat)

  lemma PushAgrees(handlers: seq<Handler>, registered: map<nat, string>, id: nat, trigger: string)
    requires DistinctIds(handlers) && Agrees(handlers, registered) && id !in registered
    ensures DistinctIds(handlers + [Handler(id, trigger)])
    ensures Agrees(handlers + [Handler(id, trigger)], registered[id := trigger])
  {
  }

  lemma RetainAgrees(handlers: seq<Handler>, registered: map<nat, string>, removed: nat)
    requires DistinctIds(handlers) && Agrees(handlers, registered)
    ensures DistinctIds(Retain(handlers, removed)) && Agrees(Retain(handlers, removed), registered)
  {
    var kept := Retain(handlers, removed);
    RetainDistinct(handlers, removed);
    forall i | 0 <= i < |kept|
      ensures kept[i].id in registered && registered[kept[i].id] == kept[i].trigger
    {
      RetainKeeps(handlers, removed, kept[i]);
      assert kept[i] in handlers;
    }
  }

  /** No registration is forgotten or changed. */
  ghost predicate Extends(later: map<nat, string>, earlier: map<nat, string>) {
    forall id | id in earlier :: id in later && later[id] == earlier[id]
  }

  /** The connector's lock-guarded fields, and `held`, the ids in the hands of calls that have not pushed yet. `calls` is
      what the registered callbacks observed, `taken` how many ids were drawn and `registered` the trigger of every id
      ever pushed. */
  class TelegramConnector {
    var counter: nat
    var handlers: seq<Handler>
    var calls: seq<Call>
    var held: map<nat, nat>
    ghost var taken: nat
    ghost var registered: map<nat, string>

    /** As long as the counter has not wrapped around, ids are fresh and registered ids pairwise distinct. */
    ghost predicate Valid()
      reads this`counter, this`handlers, this`taken, this`held, this`registered
    {
      taken <= ID_RANGE ==>
        && IdsFresh(taken, counter, held, registered.Keys)
        && DistinctIds(handlers) && Agrees(handlers, registered)
    }

    constructor ()
      ensures Valid() && handlers == [] && calls == [] && taken == 0 && held == map[] && registered == map[]
    {
      counter, handlers, calls, held := 1, [], [], map[];
      taken, registered := 0, map[];
    }

    /** `on_event`, up to the id; `None` is the error for an unknown trigger. */
    method TakeId(task: nat, trigger: string) returns (id: Option<nat>)
      requires Valid() && task !in held
      modifies this`counter, this`taken, this`held
      ensures Valid()
      ensures id == if IsValidTrigger(trigger) then Some(old(counter)) else None
      ensures taken == old(taken) + if id.Some? then 1 else 0
      ensures held == if id.Some? then old(held)[task := id.value] else old(held)
    {
      if !IsValidTrigger(trigger) {
        return None;
      }
      if taken < ID_RANGE {
        DrawKeepsFresh(taken, counter, held, registered.Keys, task);
      }
      id := Some(counter);
      counter, taken, held := NextCounter(counter), taken + 1, held[task := counter];
    }

    /** `on_event`, the handlers lock: the id is new among all ids ever registered. */
    method PushHandler(task: nat, id: nat, trigger: string)
      requires Valid() && task in held && held[task] == id
      modifies this`handlers, this`held, this`registered
      ensures Valid() && held == old(held) - {task} && registered == old(registered)[id := trigger]
      ensures handlers == old(handlers) + [Handler(id, trigger)]
      ensures taken <= ID_RANGE ==> id !in old(registered)
    {
      if taken <= ID_RANGE {
        PushKeepsFresh(taken, counter, held, registered.Keys, task);
        PushAgrees(handlers, registered, id, trigger);
        assert registered[id := trigger].Keys == registered.Keys + {id};
      }
      handlers := handlers + [Handler(id, trigger)];
      held, registered := held - {task}, registered[id := trigger];
    }

    /** A whole `on_event` call that nothing interleaves with. */
    method OnEvent(task: nat, trigger: string) returns (id: Option<nat>)
      requires Valid() && task !in held
      modifies this`counter, this`handlers, this`taken, this`held, this`registered
      ensures Valid() && held == old(held)
      ensures id == if IsValidTrigger(trigger) then Some(old(counter)) else None
      ensures handlers == if id.Some? then old(handlers) + [Handler(id.value, trigger)] else old(handlers)
      ensures id.Some? && taken <= ID_RANGE ==> id.value !in old(registered)
    {
      id := TakeId(task, trigger);
      if id.Some? {
        PushHandler(task, id.value, trigger);
      }
    }

    method RemoveEvent(id: nat)
      requires Valid()
      modifies this`handlers
      ensures Valid()
      ensures handlers == Retain(old(handlers), id)
      ensures forall h :: h in handlers <==> h in old(handlers) && h.id != id
    {
      forall h
        ensures h in Retain(handlers, id) <==> h in handlers && h.id != id
      {
        RetainKeeps(handlers, id, h);
      }
      if taken <= ID_RANGE {
        RetainAgrees(handlers, registered, id);
      }
      handlers := RetainHandlers(handlers, id);
    }

    /** One critical section of another call; one that this call has not reached is skipped. */
    method Perform(change: Change)
      requires Valid()
      modifies this`counter, this`handlers, this`taken, this`held, this`registered
      ensures Valid() && old(taken) <= taken
      ensures taken <= ID_RANGE ==> Extends(registered, old(registered))
    {
      match change {
        case Draws(task, trigger) =>
          if task !in held {
            var _ := TakeId(task, trigger);
          }
        case Pushes(task, trigger) =>
          if task in held {
            PushHandler(task, held[task], trigger);
          }
        case Removes(id) =>
          RemoveEvent(id);
      }
    }

    /** Whatever other calls do between two locks, no registration changes its trigger. */
    method Interfere(changes: seq<Change>)
      requires Valid()
      modifies this`counter, this`handlers, this`taken, this`held, this`registered
      ensures Valid() && old(taken) <= taken
      ensures taken <= ID_RANGE ==> Extends(registered, old(registered))
    {
      for i := 0 to |changes|
        invariant Valid() && old(taken) <= taken
        invariant taken <= ID_RANGE ==> Extends(registered, old(registered))
      {
        Perform(changes[i]);
      }
    }

    method DispatchToHandlers(trigger: string, payload: Value)
      modifies this`calls
      ensures calls == old(calls) + CallsFor(handlers, trigger, payload)
    {
      var made := InvokeHandlers(handlers, trigger, payload);
      calls := calls + made;
    }

    /** The message branch of `dispatch_update`: `message_received` fires for commands too, and `between` happens while
        the lock is free. */
    method DispatchMessage(message: Value, isCommand: bool, commandPayload: Value, between: seq<Change>)
      requires Valid()
      modifies this
      ensures Valid()
      ensures calls == old(calls) + MessageInvocations(old(handlers), handlers, message, isCommand, commandPayload)
      ensures old(taken) <= taken && (taken <= ID_RANGE ==> Extends(registered, old(registered)))
    {
      if isCommand {
        DispatchToHandlers("command_received", commandPayload);
      }
      Interfere(between);
      DispatchToHandlers("message_received", message);
    }

    /** `dispatch_update`: the calls of the fired triggers, each with the handler list found at its lock. */
    method DispatchUpdate(update: Value, between: seq<Change>)
      requires Valid()
      modifies this
      ensures Valid()
      ensures var lists := Found(old(handlers), handlers, FiredTriggers(update));
              && calls == old(calls) + CallsForUpdate(lists, FiredTriggers(update), PayloadOf(update))
              && (taken <= ID_RANGE ==> AreHandlerLists(lists, registered) && Extends(registered, old(registered)))
    {
      match update.Get("message") {
        case Some(message) =>
          DispatchMessage(message, CarriesCommand(message), WithCommand(message), between);
          MessageCalls(old(handlers), handlers, update, message);
        case None =>
          CallbackCalls(handlers, update);
          match update.Get("callback_query") {
            case Some(callback) => DispatchToHandlers("callback_query_received", callback);
            case None =>
          }
      }
    }
  }

  // ---------------------------------------------------------------- the spawned tasks

  /** A callback with an id is acknowledged before it is sent. */
  predicate NeedsAck(m: ChatMessage) {
    m.raw.Get("message").None? && AsStr(Then(m.raw.Get("callback_query"), "id")).Some?
  }

  /** Tasks about to acknowledge, tasks about to send, and what became of the others. */
  datatype State = State(
    toAck: multiset<ChatMessage>,
    toSend: multiset<ChatMessage>,
    acked: multiset<ChatMessage>,
    sent: seq<ChatMessage>,
    failed: seq<ChatMessage>)

  const INIT: State := State(multiset{}, multiset{}, multiset{}, [], [])

  datatype Step =
    | Dispatch(update: Value)
    | Acknowledge(m: ChatMessage, ok: bool)   // a failed acknowledgement is only logged
    | SendDone(m: ChatMessage, ok: bool)

  predicate Enabled(s: State, step: Step) {
    match step
    case Dispatch(_) => true
    case Acknowledge(m, _) => m in s.toAck
    case SendDone(m, _) => m in s.toSend
  }

  /** The dispatcher spawns a task for the message, if the update carries one. */
  function Spawn(s: State, spawned: Option<ChatMessage>): State {
    match spawned
    case None => s
    case Some(m) =>
      if NeedsAck(m) then s.(toAck := s.toAck + multiset{m}) else s.(toSend := s.toSend + multiset{m})
  }

  function Apply(s: State, step: Step): State
    requires Enabled(s, step)
  {
    match step
    case Dispatch(update) => Spawn(s, Classify(update))
    case Acknowledge(m, _) =>
      s.(toAck := s.toAck - multiset{m}, toSend := s.toSend + multiset{m}, acked := s.acked + multiset{m})
    case SendDone(m, ok) =>
      if ok then s.(toSend := s.toSend - multiset{m}, sent := s.sent + [m])
      else s.(toSend := s.toSend - multiset{m}, failed := s.failed + [m])
  }

  function Exec(run: seq<Step>): Option<State> {
    if run == [] then Some(INIT)
    else
      match Exec(run[..|run|-1])
      case None => None
      case Some(s) =>
        var step := run[|run|-1];
        if Enabled(s, step) then Some(Apply(s, step)) else None
  }

  /** The message a step dispatches, if any. */
  function Carried(step: Step): Option<ChatMessage> {
    if step.Dispatch? then Classify(step.update) else None
  }

  /** The messages the dispatched updates carry, in order. */
  function Dispatched(run: seq<Step>): seq<ChatMessage> {
    if run == [] then []
    else
      var carried := Carried(run[|run|-1]);
      Dispatched(run[..|run|-1]) + if carried.Some? then [carried.value] else []
  }

  /** How many copies of `m` are past the acknowledgement. */
  ghost function Released(s: State, m: ChatMessage): nat {
    s.toSend[m] + multiset(s.sent)[m] + multiset(s.failed)[m]
  }

  /** `n` copies of `m` were dispatched. */
  ghost predicate Accounted(s: State, m: ChatMessage, n: nat) {
    && s.toAck[m] + Released(s, m) == n
    && (if NeedsAck(m) then s.acked[m] == Released(s, m) else s.acked[m] == s.toAck[m] == 0)
  }

  lemma SpawnAccounts(s: State, spawned: Option<ChatMessage>, m: ChatMessage, n: nat)
    requires Accounted(s, m, n)
    ensures Accounted(Spawn(s, spawned), m, n + if spawned == Some(m) then 1 else 0)
  {
  }

  lemma StepAccounts(s: State, step: Step, m: ChatMessage, n: nat)
    requires Enabled(s, step) && Accounted(s, m, n)
    ensures Accounted(Apply(s, step), m, n + if Carried(step) == Some(m) then 1 else 0)
  {
    match step
    case Dispatch(update) => SpawnAccounts(s, Classify(update), m, n);
    case Acknowledge(x, _) => assert x != m ==> Released(Apply(s, step), m) == Released(s, m);
    case SendDone(x, ok) => assert Released(Apply(s, step), m) == Released(s, m);
  }

  lemma {:induction false} RunAccounts(run: seq<Step>, m: ChatMessage)
    requires Exec(run).Some?
    ensures Accounted(Exec(run).value, m, multiset(Dispatched(run))[m])
  {
    if run != [] {
      var before, step := run[..|run|-1], run[|run|-1];
      RunAccounts(before, m);
      StepAccounts(Exec(before).value, step, m, multiset(Dispatched(before))[m]);
    }
  }

  /** Over every interleaving of the spawned tasks, no message is lost, duplicated or made up, and every callback
      with an id is acknowledged exactly once, before it is sent; nothing else is acknowledged. */
  lemma TasksConserve(run: seq<Step>)
    requires Exec(run).Some?
    ensures var s := Exec(run).value;
            && s.toAck + s.toSend + multiset(s.sent) + multiset(s.failed) == multiset(Dispatched(run))
            && (forall m :: s.acked[m] ==
                  if NeedsAck(m) then s.toSend[m] + multiset(s.sent)[m] + multiset(s.failed)[m] else 0)
  {
    var s := Exec(run).value;
    forall m
      ensures (s.toAck + s.toSend + multiset(s.sent) + multiset(s.failed))[m] == multiset(Dispatched(run))[m]
      ensures s.acked[m] == if NeedsAck(m) then s.toSend[m] + multiset(s.sent)[m] + multiset(s.failed)[m] else 0
    {
      RunAccounts(run, m);
    }
  }

  /** The messages whose send ended with `ok`, in order. */
  function Ended(run: seq<Step>, ok: bool): seq<ChatMessage> {
    if run == [] then []
    else
      var last := run[|run|-1];
      Ended(run[..|run|-1], ok) + if last.SendDone? && last.ok == ok then [last.m] else []
  }

  /** How often `m` was acknowledged, whether or not Telegram took it. */
  function Acknowledged(run: seq<Step>, m: ChatMessage): nat {
    if run == [] then 0
    else
      var last := run[|run|-1];
      Acknowledged(run[..|run|-1], m) + if last.Acknowledge? && last.m == m then 1 else 0
  }

  lemma SpawnRecordsNothing(s: State, spawned: Option<ChatMessage>)
    ensures var s' := Spawn(s, spawned); s'.sent == s.sent && s'.failed == s.failed && s'.acked == s.acked
  {
  }

  lemma StepRecords(s: State, step: Step, m: ChatMessage)
    requires Enabled(s, step)
    ensures var s' := Apply(s, step);
            && s'.sent == s.sent + (if step.SendDone? && step.ok then [step.m] else [])
            && s'.failed == s.failed + (if step.SendDone? && !step.ok then [step.m] else [])
            && s'.acked[m] == s.acked[m] + if step.Acknowledge? && step.m == m then 1 else 0
  {
    if step.Dispatch? {
      SpawnRecordsNothing(s, Classify(step.update));
    }
  }

  /** The records are what happened: sent are the sends that succeeded, failed those that did not, each in order. */
  lemma {:induction false} OutcomesAre(run: seq<Step>, m: ChatMessage)
    requires Exec(run).Some?
    ensures var s := Exec(run).value;
            s.sent == Ended(run, true) && s.failed == Ended(run, false) && s.acked[m] == Acknowledged(run, m)
  {
    if run != [] {
      OutcomesAre(run[..|run|-1], m);
      StepRecords(Exec(run[..|run|-1]).value, run[|run|-1], m);
    }
  }

  // ---------------------------------------------------------------- what becomes of each update

  /** A button press that Telegram waits to have answered. */
  predicate AwaitsAnswer(update: Value) {
    && !HasField(update, "message") && HasField(update, "callback_query")
    && HasField(update.fields["callback_query"], "id") && update.fields["callback_query"].fields["id"].Str?
  }

  /** How often `run` dispatches `update`. */
  function TimesDispatched(run: seq<Step>, update: Value): nat {
    if run == [] then 0
    else TimesDispatched(run[..|run|-1], update) + if run[|run|-1] == Dispatch(update) then 1 else 0
  }

  lemma AnswersAwaited(update: Value)
    requires Classify(update).Some?
    ensures NeedsAck(Classify(update).value) <==> AwaitsAnswer(update)
  {
    ClassifyIff(update);
  }

  /** Different updates are carried by different messages. */
  lemma {:induction false} CarriedPerUpdate(run: seq<Step>, update: Value)
    requires Classify(update).Some?
    ensures multiset(Dispatched(run))[Classify(update).value] == TimesDispatched(run, update)
  {
    if run != [] {
      var before, last := run[..|run|-1], run[|run|-1];
      CarriedPerUpdate(before, update);
      ClassifyIff(update);
      if last.Dispatch? {
        ClassifyIff(last.update);
      }
      assert Carried(last) == Some(Classify(update).value) <==> last == Dispatch(update);
    }
  }

  /** Over every interleaving of the spawned tasks: an update is waiting, sent or failed exactly as often as it was
      dispatched; a button press with an id is acknowledged once for each time it is past waiting, so before every send,
      and no other update is ever acknowledged. */
  lemma UpdateFate(run: seq<Step>, update: Value)
    requires Exec(run).Some? && Classify(update).Some?
    ensures var s, m := Exec(run).value, Classify(update).value;
            var past := s.toSend[m] + multiset(s.sent)[m] + multiset(s.failed)[m];
            && s.toAck[m] + past == TimesDispatched(run, update)
            && (if AwaitsAnswer(update) then s.acked[m] == past else s.acked[m] == 0 && s.toAck[m] == 0)
  {
    RunAccounts(run, Classify(update).value);
    CarriedPerUpdate(run, update);
    AnswersAwaited(update);
  }
}
