/**
 * The bot's outgoing channel (`context.bot.send_message`).  Which sends fail is not
 * something the bot decides, so it is a parameter: a fixed set of chats that a send to
 * raises for.  A send that succeeds is recorded in order.
 */
module Messaging {

  datatype Message = Message(chatId: int, text: string)

  class Messenger {
    /** The messages delivered so far, oldest first. */
    var sent: seq<Message>
    /** The chats a send to fails for (blocked bot, deleted chat, network error). */
    const unreachable: set<int>

    constructor(unreachable: set<int>)
      ensures sent == [] && this.unreachable == unreachable
    {
      sent := [];
      this.unreachable := unreachable;
    }

    /** `send_message(chat_id, text)`: `ok` is false exactly when the call would raise, and then nothing is recorded. */
    method Send(chatId: int, text: string) returns (ok: bool)
      modifies this
      ensures ok <==> chatId !in unreachable
      ensures sent == if ok then old(sent) + [Message(chatId, text)] else old(sent)
    {
      ok := chatId !in unreachable;
      if ok {
        sent := sent + [Message(chatId, text)];
      }
    }
  }
}
