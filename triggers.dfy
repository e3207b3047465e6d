/**
 * When the bot answers a group message, and what it keeps of the message as the request
 * (`should_respond_to_message` and `extract_user_message` in bot.py).  A message calls the
 * bot when one of three trigger words occurs in it, in any letter case, or when it
 * mentions the bot's user name.  The request is the message with the triggers cut out;
 * only their lower-case and upper-case spellings are cut.
 */
module Triggers {
  import opened Text

  /** `BOT_TRIGGERS`, in the order they are tried. */
  const BotTriggers: seq<string> := ["/bot", "бот", "@bot"]

  predicate NonEmptyWords(ws: seq<string>) {
    forall i :: 0 <= i < |ws| ==> ws[i] != []
  }

  lemma BotTriggersNonEmpty()
    ensures NonEmptyWords(BotTriggers)
  {
  }

  /** The mention of the bot, `@username`. */
  function Mention(botUsername: string): string {
    "@" + botUsername
  }

  /** The trigger loop: tries each trigger in turn and stops at the first one that occurs. */
  function AnyOccurs(s: string, triggers: seq<string>): (r: bool)
    ensures r <==> exists t :: t in triggers && Contains(s, t)
  {
    if triggers == [] then false
    else if Contains(s, triggers[0]) then
      assert triggers[0] in triggers;
      true
    else
      assert forall t :: t in triggers <==> t == triggers[0] || t in triggers[1..];
      AnyOccurs(s, triggers[1..])
  }

  /**
   * `should_respond_to_message`: never for an empty message; otherwise exactly when a
   * trigger occurs in the lower-cased message, or a user name is configured and the
   * message mentions it as written.
   */
  function ShouldRespond(text: string, botUsername: string): (r: bool)
    ensures r <==> (text != [] &&
      ((exists t :: t in BotTriggers && Contains(Lower(text), t))
       || (botUsername != [] && Contains(text, Mention(botUsername)))))
  {
    if text == [] then false
    else if AnyOccurs(Lower(text), BotTriggers) then true
    else botUsername != [] && Contains(text, Mention(botUsername))
  }

  /** The trigger loop of `extract_user_message`: each trigger is cut out, then its upper-case form. */
  function RemoveTriggers(s: string, triggers: seq<string>): string
    requires NonEmptyWords(triggers)
    decreases |triggers|
  {
    if triggers == [] then s
    else
      var t := triggers[0];
      RemoveTriggers(RemoveAll(RemoveAll(s, t), Upper(t)), triggers[1..])
  }

  /** The message once the triggers and the mention are cut out, before stripping. */
  function Cleaned(text: string, botUsername: string): string {
    BotTriggersNonEmpty();
    var c := RemoveTriggers(text, BotTriggers);
    if botUsername != [] then RemoveAll(c, Mention(botUsername)) else c
  }

  /** `extract_user_message`: the request the bot passes on. */
  method ExtractUserMessage(text: string, botUsername: string) returns (request: string)
    ensures request == Strip(Cleaned(text, botUsername))
  {
    BotTriggersNonEmpty();
    var clean := text;
    for i := 0 to |BotTriggers|
      invariant RemoveTriggers(clean, BotTriggers[i..]) == RemoveTriggers(text, BotTriggers)
    {
      var trigger := BotTriggers[i];
      assert BotTriggers[i..][1..] == BotTriggers[i + 1..];
      clean := RemoveAll(RemoveAll(clean, trigger), Upper(trigger));
    }
    if botUsername != [] {
      clean := RemoveAll(clean, Mention(botUsername));
    }
    request := Strip(clean);
  }

  /** No trigger, in either spelling, occurs in `s`. */
  predicate FreeOf(s: string, triggers: seq<string>) {
    forall i :: 0 <= i < |triggers| ==> !Contains(s, triggers[i]) && !Contains(s, Upper(triggers[i]))
  }

  /** Cutting triggers that do not occur changes nothing. */
  lemma {:induction false} RemoveTriggersAbsent(s: string, triggers: seq<string>)
    requires NonEmptyWords(triggers) && FreeOf(s, triggers)
    ensures RemoveTriggers(s, triggers) == s
    decreases |triggers|
  {
    if triggers != [] {
      var t := triggers[0];
      RemoveAllAbsent(s, t);
      RemoveAllAbsent(s, Upper(t));
      RemoveTriggersAbsent(s, triggers[1..]);
    }
  }

  /** Cutting triggers only deletes: every character left was in the message. */
  lemma {:induction false} RemoveTriggersChars(s: string, triggers: seq<string>, c: char)
    requires NonEmptyWords(triggers) && c in RemoveTriggers(s, triggers)
    ensures c in s
    decreases |triggers|
  {
    if triggers != [] {
      var t := triggers[0];
      var once := RemoveAll(s, t);
      var twice := RemoveAll(once, Upper(t));
      RemoveTriggersChars(twice, triggers[1..], c);
      RemoveAllChars(once, Upper(t), c);
      RemoveAllChars(s, t, c);
    }
  }

  /** The request is made only of characters of the message. */
  lemma RequestFromMessage(text: string, botUsername: string, c: char)
    requires c in Strip(Cleaned(text, botUsername))
    ensures c in text
  {
    BotTriggersNonEmpty();
    var c0 := RemoveTriggers(text, BotTriggers);
    StripChars(Cleaned(text, botUsername), c);
    if botUsername != [] {
      RemoveAllChars(c0, Mention(botUsername), c);
    }
    RemoveTriggersChars(text, BotTriggers, c);
  }

  /** A message with no trigger spelt in lower or upper case and no mention is passed on only stripped. */
  lemma PlainMessageOnlyStripped(text: string, botUsername: string)
    requires FreeOf(text, BotTriggers)
    requires botUsername == [] || !Contains(text, Mention(botUsername))
    ensures Strip(Cleaned(text, botUsername)) == Strip(text)
  {
    BotTriggersNonEmpty();
    RemoveTriggersAbsent(text, BotTriggers);
    if botUsername != [] {
      RemoveAllAbsent(text, Mention(botUsername));
    }
  }

  /**
   * A trigger spelt in mixed case (`Бот`) makes the bot answer, yet it is not cut out:
   * the bot receives it as part of the request.
   */
  lemma MixedCaseTriggerKept(text: string, botUsername: string)
    requires FreeOf(text, BotTriggers)
    requires botUsername == [] || !Contains(text, Mention(botUsername))
    requires exists t :: t in BotTriggers && Contains(Lower(text), t)
    ensures ShouldRespond(text, botUsername)
    ensures Strip(Cleaned(text, botUsername)) == Strip(text)
  {
    PlainMessageOnlyStripped(text, botUsername);
  }

  /** `Бот` is such a message: it lowers to the trigger `бот`, yet neither `бот` nor `БОТ` occurs in it. */
  lemma CapitalisedBotExample()
    ensures FreeOf("Бот", BotTriggers)
    ensures Contains(Lower("Бот"), "бот")
  {
    var s := "Бот";
    assert Lower(s) == "бот";
    TriggerSpellings();
    NotContainsMissingChar(s, "/bot", '/');
    NotContainsMissingChar(s, "/BOT", '/');
    NotContainsMissingChar(s, "бот", 'б');
    NotContainsMissingChar(s, "БОТ", 'О');
    NotContainsMissingChar(s, "@bot", '@');
    NotContainsMissingChar(s, "@BOT", '@');
    assert StartsWith("бот", "бот");
  }

  /**
   * The triggers are really cut: a request written as `бот <request>` reaches the bot as
   * the request alone, when the request itself holds no trigger.
   */
  lemma LeadingBotCut(s: string)
    requires FreeOf(s, BotTriggers)
    ensures Strip(Cleaned("бот " + s, "")) == Strip(s)
  {
    BotTriggersNonEmpty();
    FreeOfEach(s);
    var m := "бот " + s;
    var rest := " " + s;
    assert m == "бот" + rest;
    AbsentAfterPrefix("бот ", s, "/bot");
    AbsentAfterPrefix("бот ", s, "/BOT");
    RemoveAllAbsent(m, "/bot");
    RemoveAllAbsent(m, "/BOT");
    RemoveAllPrefix("бот", rest);
    AbsentAfterPrefix(" ", s, "бот");
    AbsentAfterPrefix(" ", s, "БОТ");
    AbsentAfterPrefix(" ", s, "@bot");
    AbsentAfterPrefix(" ", s, "@BOT");
    RemoveAllAbsent(rest, "бот");
    RemoveAllAbsent(rest, "БОТ");
    TriggerSpellings();
    assert FreeOf(rest, BotTriggers[2..]);
    RemoveTriggersAbsent(rest, BotTriggers[2..]);
    assert RemoveTriggers(m, BotTriggers) == RemoveTriggers(rest, BotTriggers[1..]);
    assert RemoveTriggers(rest, BotTriggers[1..]) == RemoveTriggers(rest, BotTriggers[2..]);
    StripLeadingBlank(s);
  }

  /** Being free of the triggers, spelt out one spelling at a time. */
  lemma FreeOfEach(s: string)
    requires FreeOf(s, BotTriggers)
    ensures !Contains(s, "/bot") && !Contains(s, "/BOT") && !Contains(s, "бот")
    ensures !Contains(s, "БОТ") && !Contains(s, "@bot") && !Contains(s, "@BOT")
  {
    TriggerSpellings();
    assert BotTriggers[0] == "/bot" && BotTriggers[1] == "бот" && BotTriggers[2] == "@bot";
  }

  /** The upper-case spellings of the triggers. */
  lemma TriggerSpellings()
    ensures Upper("/bot") == "/BOT" && Upper("бот") == "БОТ" && Upper("@bot") == "@BOT"
  {
  }
}
