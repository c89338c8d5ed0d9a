/** Telegram's chat path and its mention extractor address the same chat. */
module TelegramAddress {
  import opened Prelude
  import opened Json
  import opened WorkspaceKey
  import opened TelegramIngest
  import Text
  import Mentions

  /** The chat id a trigger payload names is the one the chat path reads off the update. */
  lemma SameChat(update: Value, trigger: string)
    requires trigger in FiredTriggers(update)
    ensures Classify(update).Some?
    ensures Classify(update).value.channelId ==
            match Mentions.TelegramNames(trigger, UpdatePayload(update, trigger))
            case Some(d) => Text.Decimal(d.chatId)
            case None => ""
  {
    match update.Get("message")
    case Some(message) => WithCommandKeeps(message, "chat");
    case None =>
  }

  /** For every update and every trigger it fires: the key harvested from the trigger's payload, handed to the send
      action, addresses the channel the chat path answers in, and no key is harvested when there is no channel. */
  lemma ReplyReachesMention(update: Value, trigger: string)
    requires trigger in FiredTriggers(update)
    ensures Classify(update).Some?
    ensures var channel := Classify(update).value.channelId;
            match Mentions.HarvestedKey(Mentions.Telegram, trigger, UpdatePayload(update, trigger))
            case Some(key) => channel != "" && ExtractId(key, "connector-telegram") == Id(channel)
            case None => channel == ""
  {
    SameChat(update, trigger);
    var named := Mentions.TelegramNames(trigger, UpdatePayload(update, trigger));
    if named.Some? {
      Mentions.TelegramIdSurvives(named.value.chatId);
    }
  }
}
