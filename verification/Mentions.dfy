/** The mention extractors: which destination a payload names, and the workspace key printed for it. */
module Mentions {
  import opened Prelude
  import opened Json
  import opened Text
  import opened WorkspaceKey

  datatype Connector = Telegram | Discord | Irc | Slack | Signal

  datatype Destination =
    | TelegramChat(chatId: int)
    | DiscordChannel(guild: string, channel: string)
    | DiscordDm(channel: string)
    | IrcChannel(network: string, name: string)
    | IrcUser(network: string, nick: string)
    | SlackChannel(channel: string)
    | SlackIm(channel: string)
    | SignalGroup(group: string)
    | SignalUser(phone: string)

  // ---------------------------------------------------------------- what a payload names

  /** `.filter(|s| !s.is_empty())`. */
  function Filled(s: Option<string>): Option<string> {
    if s == Some("") then None else s
  }

  predicate IsChannelName(target: string) {
    target != "" && (target[0] == '#' || target[0] == '&')
  }

  function TelegramNames(trigger: string, payload: Value): Option<Destination> {
    var chat :=
      if trigger == "message_received" || trigger == "command_received" then payload.Get("chat")
      else if trigger == "callback_query_received" then Then(payload.Get("message"), "chat")
      else None;
    match AsI64(Then(chat, "id"))
    case Some(id) => Some(TelegramChat(id))
    case None => None
  }

  function DiscordNames(payload: Value): Option<Destination> {
    match AsStr(payload.Get("channel_id"))
    case None => None
    case Some(channel) =>
      match AsStr(payload.Get("guild_id"))
      case Some(guild) => Some(DiscordChannel(guild, channel))
      case None => Some(DiscordDm(channel))
  }

  /** A channel is told from a user by the prefix of the target, as in section 1.3 of RFC 1459. */
  function IrcNames(payload: Value): Option<Destination> {
    var network := OrElse(AsStr(payload.Get("network")), "default");
    var target := AsStr(Or(payload.Get("target"), payload.Get("channel")));
    if target.Some? && IsChannelName(target.value) then Some(IrcChannel(network, target.value))
    else
      match AsStr(payload.Get("nick"))
      case Some(nick) => Some(IrcUser(network, nick))
      case None => None
  }

  function SlackNames(payload: Value): Option<Destination> {
    match Filled(AsStr(Or(payload.Get("channel_id"), payload.Get("item_channel"))))
    case None => None
    case Some(channel) => Some(if channel[0] == 'D' then SlackIm(channel) else SlackChannel(channel))
  }

  function SignalNames(payload: Value): Option<Destination> {
    match Filled(AsStr(payload.Get("group_id")))
    case Some(group) => Some(SignalGroup(group))
    case None =>
      match Filled(AsStr(payload.Get("source")))
      case Some(phone) => Some(SignalUser(phone))
      case None => None
  }

  function Names(connector: Connector, trigger: string, payload: Value): Option<Destination> {
    match connector
    case Telegram => TelegramNames(trigger, payload)
    case Discord => DiscordNames(payload)
    case Irc => IrcNames(payload)
    case Slack => SlackNames(payload)
    case Signal => SignalNames(payload)
  }

  // ---------------------------------------------------------------- over the payload's own fields

  /** The chat a trigger's payload is about. */
  predicate ChatIs(trigger: string, payload: Value, chat: Value) {
    if trigger == "message_received" || trigger == "command_received" then FieldIs(payload, "chat", chat)
    else trigger == "callback_query_received" && InnerFieldIs(payload, "message", "chat", chat)
  }

  /** Telegram names a chat exactly when its id is an `i64`. */
  lemma TelegramNamesIff(trigger: string, payload: Value, d: Destination)
    ensures TelegramNames(trigger, payload) == Some(d) <==>
              d.TelegramChat? && exists chat, id ::
                ChatIs(trigger, payload, chat) && FieldIs(chat, "id", id) && IsI64(id) && id.number.n == d.chatId
  {
    var named := TelegramNames(trigger, payload);
    if named.Some? {
      var chat := if trigger == "callback_query_received" then payload.fields["message"].fields["chat"]
                  else payload.fields["chat"];
      var id := chat.fields["id"];
      assert ChatIs(trigger, payload, chat) && FieldIs(chat, "id", id) && IsI64(id);
    }
  }

  /** Discord names a channel of a guild exactly when `guild_id` is a string, and a direct message otherwise. */
  lemma DiscordNamesIff(payload: Value, d: Destination)
    ensures DiscordNames(payload) == Some(d) <==>
              match d
              case DiscordChannel(guild, channel) =>
                FieldIs(payload, "channel_id", Str(channel)) && FieldIs(payload, "guild_id", Str(guild))
              case DiscordDm(channel) =>
                && FieldIs(payload, "channel_id", Str(channel))
                && !(HasField(payload, "guild_id") && payload.fields["guild_id"].Str?)
              case _ => false
  {
  }

  /** The network, with a default when the field is no string. */
  predicate NetworkIs(payload: Value, network: string) {
    if HasField(payload, "network") && payload.fields["network"].Str? then FieldIs(payload, "network", Str(network))
    else network == "default"
  }

  /** The target of a message, or its channel when there is no target field. */
  predicate TargetIs(payload: Value, target: Value) {
    FieldIs(payload, "target", target) || (!HasField(payload, "target") && FieldIs(payload, "channel", target))
  }

  predicate StartsAsChannel(name: string) {
    name != "" && (name[0] == '#' || name[0] == '&')
  }

  /** IRC names a channel exactly when the target is a string that starts with `#` or `&`, whatever the nick, and a user
      by the nick otherwise. */
  lemma IrcNamesIff(payload: Value, d: Destination)
    ensures IrcNames(payload) == Some(d) <==>
              match d
              case IrcChannel(network, name) =>
                NetworkIs(payload, network) && TargetIs(payload, Str(name)) && StartsAsChannel(name)
              case IrcUser(network, nick) =>
                && NetworkIs(payload, network) && FieldIs(payload, "nick", Str(nick))
                && !(exists name :: TargetIs(payload, Str(name)) && StartsAsChannel(name))
              case _ => false
  {
  }

  /** The channel of a Slack payload: `item_channel` counts exactly when there is no `channel_id`. */
  predicate SlackChannelIs(payload: Value, channel: string) {
    && channel != ""
    && (FieldIs(payload, "channel_id", Str(channel))
        || (!HasField(payload, "channel_id") && FieldIs(payload, "item_channel", Str(channel))))
  }

  /** Slack names a direct message exactly when the channel starts with `D`. */
  lemma SlackNamesIff(payload: Value, d: Destination)
    ensures SlackNames(payload) == Some(d) <==>
              match d
              case SlackIm(channel) => SlackChannelIs(payload, channel) && channel[0] == 'D'
              case SlackChannel(channel) => SlackChannelIs(payload, channel) && channel[0] != 'D'
              case _ => false
  {
  }

  /** Signal names a group exactly when `group_id` is a non-empty string, whoever the source is, and the source
      otherwise. */
  lemma SignalNamesIff(payload: Value, d: Destination)
    ensures SignalNames(payload) == Some(d) <==>
              match d
              case SignalGroup(group) => group != "" && FieldIs(payload, "group_id", Str(group))
              case SignalUser(phone) =>
                && phone != "" && FieldIs(payload, "source", Str(phone))
                && !(exists group :: group != "" && FieldIs(payload, "group_id", Str(group)))
              case _ => false
  {
  }

  // ---------------------------------------------------------------- its key

  function Scheme(d: Destination): string {
    match d
    case TelegramChat(_) => "telegram"
    case DiscordChannel(_, _) | DiscordDm(_) => "discord"
    case IrcChannel(_, _) | IrcUser(_, _) => "irc"
    case SlackChannel(_) | SlackIm(_) => "slack"
    case SignalGroup(_) | SignalUser(_) => "signal"
  }

  function Segments(d: Destination): seq<string> {
    match d
    case TelegramChat(id) => ["chat", Decimal(id)]
    case DiscordChannel(guild, channel) => ["guild", guild, "channel", channel]
    case DiscordDm(channel) => ["dm", channel]
    case IrcChannel(network, name) => ["network", network, "channel", name]
    case IrcUser(network, nick) => ["network", network, "user", nick]
    case SlackChannel(channel) => ["channel", channel]
    case SlackIm(channel) => ["im", channel]
    case SignalGroup(group) => ["group", group]
    case SignalUser(phone) => ["user", phone]
  }

  function Key(d: Destination): string {
    Build(Scheme(d), Segments(d))
  }

  /** The key the extractor harvests from a payload. */
  function HarvestedKey(connector: Connector, trigger: string, payload: Value): Option<string> {
    match Names(connector, trigger, payload)
    case Some(d) => Some(Key(d))
    case None => None
  }

  /** No two destinations share a scheme and segments. */
  lemma PartsIdentify(d1: Destination, d2: Destination)
    requires Scheme(d1) == Scheme(d2) && Segments(d1) == Segments(d2)
    ensures d1 == d2
  {
    var s1, s2 := Segments(d1), Segments(d2);
    assert s1[0] == s2[0] && s1[1] == s2[1] && |s1| == |s2|;
    assert |s1| == 4 ==> s1[2] == s2[2] && s1[3] == s2[3];
    if d1.TelegramChat? && d2.TelegramChat? {
      ReadDecimalOfDecimal(d1.chatId);
      ReadDecimalOfDecimal(d2.chatId);
    }
  }

  lemma DecimalIsClean(n: int)
    ensures IsCleanSegment(Decimal(n))
  {
    var s := Decimal(n);
    assert s[|s|-1] in s;
  }

  lemma SchemesAreClean(d: Destination)
    ensures IsScheme(Scheme(d))
  {
  }

  /** The connector a destination belongs to. */
  function Owner(d: Destination): Connector {
    match d
    case TelegramChat(_) => Telegram
    case DiscordChannel(_, _) | DiscordDm(_) => Discord
    case IrcChannel(_, _) | IrcUser(_, _) => Irc
    case SlackChannel(_) | SlackIm(_) => Slack
    case SignalGroup(_) | SignalUser(_) => Signal
  }

  /** What a payload can name: a chat id is an `i64`, an IRC channel starts with `#` or `&`, and a Slack id is an IM
      exactly when it starts with `D`. */
  predicate IsNameable(d: Destination) {
    match d
    case TelegramChat(id) => I64_MIN <= id <= I64_MAX
    case IrcChannel(_, name) => IsChannelName(name)
    case SlackIm(channel) => channel != "" && channel[0] == 'D'
    case SlackChannel(channel) => channel != "" && channel[0] != 'D'
    case SignalGroup(group) => group != ""
    case SignalUser(phone) => phone != ""
    case _ => true
  }

  /** A connector's payloads name only its own destinations. */
  lemma NamesOwn(c: Connector, trigger: string, payload: Value)
    ensures var d := Names(c, trigger, payload);
            d.Some? ==>
              && Owner(d.value) == c && IsNameable(d.value)
  {
  }

  /** A payload that names `d`. */
  function PayloadFor(d: Destination): Value
    requires IsNameable(d)
  {
    match d
    case TelegramChat(id) => Obj(map["chat" := Obj(map["id" := Num(Int(id))])])
    case DiscordChannel(guild, channel) => Obj(map["guild_id" := Str(guild), "channel_id" := Str(channel)])
    case DiscordDm(channel) => Obj(map["channel_id" := Str(channel)])
    case IrcChannel(network, name) => Obj(map["network" := Str(network), "target" := Str(name)])
    case IrcUser(network, nick) => Obj(map["network" := Str(network), "nick" := Str(nick)])
    case SlackChannel(channel) => Obj(map["channel_id" := Str(channel)])
    case SlackIm(channel) => Obj(map["channel_id" := Str(channel)])
    case SignalGroup(group) => Obj(map["group_id" := Str(group)])
    case SignalUser(phone) => Obj(map["source" := Str(phone)])
  }

  /** Every nameable destination is named by a payload of its connector. */
  lemma NameableIsNamed(d: Destination)
    requires IsNameable(d)
    ensures Names(Owner(d), "message_received", PayloadFor(d)) == Some(d)
  {
  }

  // ---------------------------------------------------------------- keys identify

  /** A pair of ids around its label, as printed. */
  function PairText(x: string, mark: string, y: string): string {
    if x == "" then Slashed(mark, y) else Slashed(x, Slashed(mark, y))
  }

  /** What follows the tag in a key. */
  function IdText(d: Destination): string {
    var s := Segments(d);
    if |s| == 2 then s[1] else PairText(s[1], s[2], s[3])
  }

  lemma OneSegmentPath(id: string)
    ensures PathOf([id]) == id
  {
    PathCons(id, []);
    assert [id] + [] == [id];
  }

  lemma PairPath(x: string, mark: string, y: string)
    requires mark != ""
    ensures PathOf([x, mark, y]) == PairText(x, mark, y)
  {
    OneSegmentPath(y);
    PathCons(mark, [y]);
    PathCons(x, [mark] + [y]);
    assert [x, mark, y] == [x] + ([mark] + [y]);
  }

  lemma SinglePath(tag: string, id: string)
    requires tag != ""
    ensures PathOf([tag, id]) == Slashed(tag, id)
  {
    OneSegmentPath(id);
    PathCons(tag, [id]);
    assert [tag, id] == [tag] + [id];
  }

  lemma PairedPath(tag: string, x: string, mark: string, y: string)
    requires tag != "" && mark != ""
    ensures PathOf([tag, x, mark, y]) == Slashed(tag, PairText(x, mark, y))
  {
    PairPath(x, mark, y);
    PathCons(tag, [x, mark, y]);
    assert [tag, x, mark, y] == [tag] + [x, mark, y];
  }

  lemma PathIs(d: Destination)
    ensures PathOf(Segments(d)) == Slashed(Segments(d)[0], IdText(d))
  {
    var s := Segments(d);
    if |s| == 2 {
      SinglePath(s[0], s[1]);
    } else {
      PairedPath(s[0], s[1], s[2], s[3]);
    }
  }

  /** `a/b`. */
  function WithSlash(a: string, b: string): string {
    a + ['/'] + b
  }

  lemma SlashedJoins(a: string, b: string)
    requires b != ""
    ensures Slashed(a, b) == WithSlash(a, b)
  {
  }

  lemma SingleKey(d: Destination, scheme: string, tag: string, id: string)
    requires Scheme(d) == scheme && Segments(d) == [tag, id] && tag != "" && id != ""
    ensures Key(d) == scheme + "://" + WithSlash(tag, id)
  {
    SinglePath(tag, id);
    SlashedJoins(tag, id);
  }

  lemma PairedKey(d: Destination, scheme: string, tag: string, x: string, mark: string, y: string)
    requires Scheme(d) == scheme && Segments(d) == [tag, x, mark, y]
    requires tag != "" && x != "" && mark != "" && y != ""
    ensures Key(d) == scheme + "://" + WithSlash(tag, WithSlash(x, WithSlash(mark, y)))
  {
    PairedPath(tag, x, mark, y);
    SlashedJoins(mark, y);
    SlashedJoins(x, WithSlash(mark, y));
    SlashedJoins(tag, WithSlash(x, WithSlash(mark, y)));
  }

  /** The documented shapes of the keys with one id. */
  lemma SingleKeyShapes(x: string)
    requires x != ""
    ensures Key(DiscordDm(x)) == "discord" + "://" + WithSlash("dm", x)
    ensures Key(SlackChannel(x)) == "slack" + "://" + WithSlash("channel", x)
    ensures Key(SlackIm(x)) == "slack" + "://" + WithSlash("im", x)
    ensures Key(SignalGroup(x)) == "signal" + "://" + WithSlash("group", x)
    ensures Key(SignalUser(x)) == "signal" + "://" + WithSlash("user", x)
  {
    SingleKey(DiscordDm(x), "discord", "dm", x);
    SingleKey(SlackChannel(x), "slack", "channel", x);
    SingleKey(SlackIm(x), "slack", "im", x);
    SingleKey(SignalGroup(x), "signal", "group", x);
    SingleKey(SignalUser(x), "signal", "user", x);
  }

  /** The documented shapes of the keys with two ids. */
  lemma PairedKeyShapes(x: string, y: string)
    requires x != "" && y != ""
    ensures Key(DiscordChannel(x, y)) == "discord" + "://" + WithSlash("guild", WithSlash(x, WithSlash("channel", y)))
    ensures Key(IrcChannel(x, y)) == "irc" + "://" + WithSlash("network", WithSlash(x, WithSlash("channel", y)))
    ensures Key(IrcUser(x, y)) == "irc" + "://" + WithSlash("network", WithSlash(x, WithSlash("user", y)))
  {
    PairedKey(DiscordChannel(x, y), "discord", "guild", x, "channel", y);
    PairedKey(IrcChannel(x, y), "irc", "network", x, "channel", y);
    PairedKey(IrcUser(x, y), "irc", "network", x, "user", y);
  }

  /** In a pair of ids, the first has no slash; the second, and an id on its own, may be any text. */
  predicate IsDelimited(d: Destination) {
    |Segments(d)| == 4 ==> '/' !in Segments(d)[1]
  }

  lemma TagsHaveNoSlash(d: Destination)
    ensures '/' !in Segments(d)[0] && Segments(d)[0] != ""
    ensures |Segments(d)| == 4 ==> '/' !in Segments(d)[2] && Segments(d)[2] != ""
  {
  }

  /** Empty ids are dropped from a key: `d2` has no first id, and its label and second id print like the first id of
      `d1` and what follows it. */
  predicate TakesPlace(d1: Destination, d2: Destination) {
    match d1
    case DiscordChannel(guild, channel) => guild == "channel" && d2 == DiscordChannel("", Slashed("channel", channel))
    case IrcChannel(network, name) => network == "user" && d2 == IrcUser("", Slashed("channel", name))
    case IrcUser(network, nick) => network == "user" && d2 == IrcUser("", Slashed("user", nick))
    case _ => false
  }

  predicate Collide(d1: Destination, d2: Destination) {
    TakesPlace(d1, d2) || TakesPlace(d2, d1)
  }

  /** The first id of a pair is missing, and the label stands in its place. */
  predicate Shifted(x1: string, label1: string, y1: string, x2: string, label2: string, y2: string) {
    x2 == "" && x1 == label2 && y2 == Slashed(label1, y1)
  }

  /** Two pairs are printed alike if and only if they are equal or one is shifted. */
  lemma PairsIdentify(x1: string, label1: string, y1: string, x2: string, label2: string, y2: string)
    requires '/' !in x1 && '/' !in x2 && '/' !in label1 && '/' !in label2 && label1 != "" && label2 != ""
    ensures PairText(x1, label1, y1) == PairText(x2, label2, y2) <==>
              || (x1 == x2 && label1 == label2 && y1 == y2)
              || Shifted(x1, label1, y1, x2, label2, y2)
              || Shifted(x2, label2, y2, x1, label1, y1)
  {
    if PairText(x1, label1, y1) == PairText(x2, label2, y2) {
      var r1, r2 := Slashed(label1, y1), Slashed(label2, y2);
      SlashedInjective(
        if x1 == "" then label1 else x1, if x1 == "" then y1 else r1,
        if x2 == "" then label2 else x2, if x2 == "" then y2 else r2);
      if x1 != "" && x2 != "" {
        SlashedInjective(label1, y1, label2, y2);
      }
    }
  }

  /** Scheme and tag tell how many ids follow. */
  lemma TagTellsShape(d1: Destination, d2: Destination)
    requires Scheme(d1) == Scheme(d2) && Segments(d1)[0] == Segments(d2)[0]
    ensures |Segments(d1)| == |Segments(d2)|
  {
  }

  /** Keys are equal exactly when scheme, tag and what follows it are. */
  lemma KeysEqualTexts(d1: Destination, d2: Destination)
    ensures Key(d1) == Key(d2) <==>
            Scheme(d1) == Scheme(d2) && Segments(d1)[0] == Segments(d2)[0] && IdText(d1) == IdText(d2)
  {
    SchemesAreClean(d1);
    SchemesAreClean(d2);
    KeyEqualPaths(Scheme(d1), Segments(d1), Scheme(d2), Segments(d2));
    PathIs(d1);
    PathIs(d2);
    TagsHaveNoSlash(d1);
    TagsHaveNoSlash(d2);
    if PathOf(Segments(d1)) == PathOf(Segments(d2)) {
      SlashedInjective(Segments(d1)[0], IdText(d1), Segments(d2)[0], IdText(d2));
    }
  }

  /** Two destinations with one id each. */
  lemma SinglesIdentify(d1: Destination, d2: Destination)
    requires |Segments(d1)| == |Segments(d2)| == 2 && Scheme(d1) == Scheme(d2)
    requires Segments(d1)[0] == Segments(d2)[0] && IdText(d1) == IdText(d2)
    ensures d1 == d2
  {
    assert Segments(d1) == Segments(d2);
    PartsIdentify(d1, d2);
  }

  /** A shifted pair of the same scheme is a colliding one. */
  lemma ShiftedCollides(d1: Destination, d2: Destination)
    requires |Segments(d1)| == |Segments(d2)| == 4 && Scheme(d1) == Scheme(d2) && IsNameable(d2)
    ensures var s1, s2 := Segments(d1), Segments(d2);
            Shifted(s1[1], s1[2], s1[3], s2[1], s2[2], s2[3]) <==> TakesPlace(d1, d2)
  {
  }

  lemma PairedDestinations(d1: Destination, d2: Destination)
    requires |Segments(d1)| == |Segments(d2)| == 4 && Scheme(d1) == Scheme(d2)
    requires IsNameable(d1) && IsNameable(d2) && IsDelimited(d1) && IsDelimited(d2)
    ensures IdText(d1) == IdText(d2) <==> d1 == d2 || Collide(d1, d2)
  {
    var s1, s2 := Segments(d1), Segments(d2);
    TagsHaveNoSlash(d1);
    TagsHaveNoSlash(d2);
    PairsIdentify(s1[1], s1[2], s1[3], s2[1], s2[2], s2[3]);
    ShiftedCollides(d1, d2);
    ShiftedCollides(d2, d1);
  }

  lemma TakesPlaceShape(d1: Destination, d2: Destination)
    requires TakesPlace(d1, d2)
    ensures |Segments(d1)| == |Segments(d2)| == 4 && Scheme(d1) == Scheme(d2) && Segments(d1)[0] == Segments(d2)[0]
  {
  }

  lemma KeysEqualIff(d1: Destination, d2: Destination)
    requires IsNameable(d1) && IsNameable(d2) && IsDelimited(d1) && IsDelimited(d2)
    ensures Key(d1) == Key(d2) <==> d1 == d2 || Collide(d1, d2)
  {
    KeysEqualTexts(d1, d2);
    if TakesPlace(d1, d2) {
      TakesPlaceShape(d1, d2);
    }
    if TakesPlace(d2, d1) {
      TakesPlaceShape(d2, d1);
    }
    if Scheme(d1) == Scheme(d2) && Segments(d1)[0] == Segments(d2)[0] {
      TagTellsShape(d1, d2);
      if |Segments(d1)| == 4 {
        PairedDestinations(d1, d2);
      } else if IdText(d1) == IdText(d2) {
        SinglesIdentify(d1, d2);
      }
    }
  }

  /** Where the first id of a pair has no slash, two payloads of any of the five connectors yield the same key if and
      only if they name the same connector, shape and ids, or collide because a first id is missing. */
  lemma KeysIdentifyIff(
    c1: Connector, t1: string, p1: Value, d1: Destination,
    c2: Connector, t2: string, p2: Value, d2: Destination)
    requires Names(c1, t1, p1) == Some(d1) && Names(c2, t2, p2) == Some(d2)
    requires IsDelimited(d1) && IsDelimited(d2)
    ensures HarvestedKey(c1, t1, p1) == HarvestedKey(c2, t2, p2) <==> (c1 == c2 && d1 == d2) || Collide(d1, d2)
  {
    NamesOwn(c1, t1, p1);
    NamesOwn(c2, t2, p2);
    KeysEqualIff(d1, d2);
  }

  /** With a slash in the first id of a pair, the place where it ends is lost. */
  lemma SlashedPairsCollide(a: string, b: string, c: string)
    requires a != "" && b != "" && c != ""
    ensures var left, right := Slashed(a, Slashed("channel", b)), Slashed(b, Slashed("channel", c));
            && Key(IrcChannel(left, c)) == Key(IrcChannel(a, right)) && IrcChannel(left, c) != IrcChannel(a, right)
            && Key(DiscordChannel(left, c)) == Key(DiscordChannel(a, right))
            && DiscordChannel(left, c) != DiscordChannel(a, right)
  {
    var left, right := Slashed(a, Slashed("channel", b)), Slashed(b, Slashed("channel", c));
    assert PairText(left, "channel", c) == PairText(a, "channel", right);
    assert |left| > |a|;
    KeysEqualTexts(IrcChannel(left, c), IrcChannel(a, right));
    KeysEqualTexts(DiscordChannel(left, c), DiscordChannel(a, right));
  }

  // ---------------------------------------------------------------- reading a key back

  function ReadTwo(scheme: string, a: string, b: string): Option<Destination> {
    if scheme == "telegram" && a == "chat" then Some(TelegramChat(ReadDecimal(b)))
    else if scheme == "discord" && a == "dm" then Some(DiscordDm(b))
    else if scheme == "slack" && a == "channel" then Some(SlackChannel(b))
    else if scheme == "slack" && a == "im" then Some(SlackIm(b))
    else if scheme == "signal" && a == "group" then Some(SignalGroup(b))
    else if scheme == "signal" && a == "user" then Some(SignalUser(b))
    else None
  }

  function ReadFour(scheme: string, a: string, b: string, c: string, d: string): Option<Destination> {
    if scheme == "discord" && a == "guild" && c == "channel" then Some(DiscordChannel(b, d))
    else if scheme == "irc" && a == "network" && c == "channel" then Some(IrcChannel(b, d))
    else if scheme == "irc" && a == "network" && c == "user" then Some(IrcUser(b, d))
    else None
  }

  function ReadParts(p: Parsed): Option<Destination> {
    var s := p.segments;
    if |s| == 2 then ReadTwo(p.scheme, s[0], s[1])
    else if |s| == 4 then ReadFour(p.scheme, s[0], s[1], s[2], s[3])
    else None
  }

  /** The destination a workspace key stands for. */
  function Read(key: string): Option<Destination> {
    match Parse(key)
    case None => None
    case Some(parsed) => ReadParts(parsed)
  }

  /** Ids are non-empty, free of slashes, and the last does not end in whitespace. */
  predicate IsAddressable(d: Destination) {
    AreSegments(Segments(d)) && EndsClean(Segments(d)[|Segments(d)|-1])
  }

  /** Reading inverts the parts of every destination. */
  lemma ReadsParts(d: Destination)
    ensures ReadParts(Parsed(Scheme(d), Segments(d))) == Some(d)
  {
    if d.TelegramChat? {
      ReadDecimalOfDecimal(d.chatId);
    }
  }

  /** And only reads a destination other than a Telegram chat off its own parts. */
  lemma ReadOnlyOwnParts(p: Parsed, d: Destination)
    requires ReadParts(p) == Some(d) && !d.TelegramChat?
    ensures p == Parsed(Scheme(d), Segments(d))
  {
    var s := p.segments;
    if |s| == 2 {
      assert s == [s[0], s[1]];
    } else {
      assert s == [s[0], s[1], s[2], s[3]];
    }
  }

  /** A destination is recoverable from its key if and only if it is addressable; every Telegram chat is. */
  lemma ReadKeyIff(d: Destination)
    ensures Read(Key(d)) == Some(d) <==> IsAddressable(d)
    ensures d.TelegramChat? ==> IsAddressable(d)
  {
    SchemesAreClean(d);
    RoundTripIff(Scheme(d), Segments(d));
    if d.TelegramChat? {
      DecimalIsClean(d.chatId);
    }
    ReadsParts(d);
    if Read(Key(d)) == Some(d) && !d.TelegramChat? {
      ReadOnlyOwnParts(Parse(Key(d)).value, d);
    }
  }

  function ConnectorName(c: Connector): string {
    match c
    case Telegram => "connector-telegram"
    case Discord => "connector-discord"
    case Irc => "connector-irc"
    case Slack => "connector-slack"
    case Signal => "connector-signal"
  }

  lemma ConnectorSchemes(c: Connector, d: Destination)
    ensures SchemeForConnector(ConnectorName(c)) == Scheme(d) <==> Owner(d) == c
  {
  }

  /** The id a send to `d` must address. */
  function Target(d: Destination): string {
    Segments(d)[|Segments(d)|-1]
  }

  /** The tag in front of it. */
  function Tag(d: Destination): string {
    Segments(d)[|Segments(d)|-2]
  }

  /** What precedes both. */
  function Front(d: Destination): seq<string> {
    Segments(d)[..|Segments(d)|-2]
  }

  lemma TaggedSegments(d: Destination)
    ensures Segments(d) == Front(d) + [Tag(d)] + [Target(d)]
  {
  }

  lemma TagsAreClean(d: Destination)
    ensures IsCleanSegment(Tag(d))
  {
  }

  /** The last piece of the id a payload named is what its key addresses. */
  lemma KeyAddresses(d: Destination, to: Connector)
    ensures ExtractId(Key(d), ConnectorName(to)) ==
            if to == Owner(d) then Id(Addressed(Tag(d), Target(d)))
            else WrongScheme(Scheme(d), SchemeForConnector(ConnectorName(to)))
  {
    SchemesAreClean(d);
    TagsAreClean(d);
    ConnectorSchemes(to, d);
    TaggedSegments(d);
    TaggedKeyExtracts(Scheme(d), Front(d), Tag(d), Target(d), ConnectorName(to));
  }

  /** Every harvested key, handed to the send action of the connector it came from, addresses the last piece of the id
      the payload named, and so that id if and only if it has no slash, is not empty and does not end in whitespace.
      Any other connector refuses the key. */
  lemma KeySends(d: Destination, to: Connector)
    ensures var sent := ExtractId(Key(d), ConnectorName(to));
            if to == Owner(d) then
              && sent == Id(Addressed(Tag(d), Target(d)))
              && (sent == Id(Target(d)) <==> IsCleanSegment(Target(d)))
            else sent == WrongScheme(Scheme(d), SchemeForConnector(ConnectorName(to)))
  {
    KeyAddresses(d, to);
    TagsAreClean(d);
    AddressedIff(Tag(d), Target(d));
  }

  lemma GroupAddresses(d: Destination, group: string)
    requires d == SignalGroup(group)
    ensures ExtractId(Key(d), ConnectorName(Signal)) == Id(Addressed("group", group))
  {
    assert Tag(d) == "group" && Target(d) == group && Owner(d) == Signal;
    KeyAddresses(d, Signal);
  }

  /** Signal group ids are Base64 and may hold slashes: a key harvested for such a group addresses what follows the
      last slash. */
  lemma SlashedGroupGoesElsewhere(group: string, front: string, rest: string)
    requires group == front + ['/'] + rest && IsCleanSegment(rest)
    ensures IsNameable(SignalGroup(group))
    ensures Names(Signal, "message_received", PayloadFor(SignalGroup(group))) == Some(SignalGroup(group))
    ensures ExtractId(Key(SignalGroup(group)), ConnectorName(Signal)) == Id(rest)
    ensures rest != group
  {
    assert |group| > |rest|;
    NameableIsNamed(SignalGroup(group));
    GroupAddresses(SignalGroup(group), group);
    AddressedAfterSlash("group", front, rest);
  }

  /** Every chat id is printed into its key and recovered from it by the send action, digit for digit. */
  lemma TelegramIdSurvives(id: int)
    ensures Key(TelegramChat(id)) == "telegram" + "://" + WithSlash("chat", Decimal(id))
    ensures ExtractId(Key(TelegramChat(id)), "connector-telegram") == Id(Decimal(id))
    ensures ReadDecimal(Decimal(id)) == id
  {
    DecimalIsClean(id);
    SingleKey(TelegramChat(id), "telegram", "chat", Decimal(id));
    KeySends(TelegramChat(id), Telegram);
    ReadDecimalOfDecimal(id);
  }
}
