/**
 * The chat log and its keyword mood analysis (telegram-bot/src/chat_monitor.py).  Every
 * message is logged; the analysis takes a user's most recent messages and counts, per
 * message, how many words of a positive and of a negative list occur in it lower-cased.
 */
module ChatMood {
  import opened Text

  /** A row of `chat_logs`, in the order rows were logged. */
  datatype Entry = Entry(userId: int, chatId: int, message: string)

  const PositiveWords: seq<string> := ["отлично", "хорошо", "прекрасно", "супер", "спасибо", "рад", "доволен"]
  const NegativeWords: seq<string> := ["плохо", "грустно", "ужасно", "злой", "разочарован", "обидно"]

  /** The user's messages, most recent first (`ORDER BY created_at DESC`). */
  function NewestFirst(entries: seq<Entry>, userId: int): (r: seq<string>)
    ensures |r| <= |entries|
  {
    if entries == [] then []
    else
      var last := entries[|entries| - 1];
      (if last.userId == userId then [last.message] else []) + NewestFirst(entries[..|entries| - 1], userId)
  }

  /** `LIMIT n`: the first `n` rows; SQLite reads a negative limit as no limit. */
  function Limit(s: seq<string>, n: int): (r: seq<string>)
    ensures n >= 0 ==> |r| <= n
    ensures r <= s
    ensures |r| < |s| ==> |r| == n
  {
    if n < 0 || n >= |s| then s else s[..n]
  }

  /** How many of `words` occur in an already lower-cased message: each word once, however often it repeats. */
  function Hits(lowered: string, words: seq<string>): (n: nat)
    ensures n <= |words|
  {
    if words == [] then 0
    else (if Contains(lowered, words[0]) then 1 else 0) + Hits(lowered, words[1..])
  }

  /** `sum(1 for msg in messages for word in words if word in msg.lower())`. */
  function CountHits(messages: seq<string>, words: seq<string>): nat {
    if messages == [] then 0 else Hits(Lower(messages[0]), words) + CountHits(messages[1..], words)
  }

  /** No message matches more than every word: the count is at most one per (message, word) pair. */
  lemma {:induction false} CountHitsBound(messages: seq<string>, words: seq<string>)
    ensures CountHits(messages, words) <= |messages| * |words|
  {
    if messages != [] {
      CountHitsBound(messages[1..], words);
      assert |messages| * |words| == |words| + (|messages| - 1) * |words|;
    }
  }

  /**
   * The count of a message depends only on which words occur in it, not on how often:
   * two messages containing the same words of the list count the same.
   */
  lemma {:induction false} SameWordsSameHits(a: string, b: string, words: seq<string>)
    requires forall i :: 0 <= i < |words| ==> (Contains(a, words[i]) <==> Contains(b, words[i]))
    ensures Hits(a, words) == Hits(b, words)
  {
    if words != [] {
      assert Contains(a, words[0]) <==> Contains(b, words[0]);
      SameWordsSameHits(a, b, words[1..]);
    }
  }

  datatype Mood = Positive | Negative | Neutral

  /** The mood: whichever count is larger, neutral on a tie. */
  function Classify(positive: int, negative: int): (m: Mood)
    ensures m == Positive <==> positive > negative
    ensures m == Negative <==> negative > positive
    ensures m == Neutral <==> positive == negative
  {
    if positive > negative then Positive
    else if negative > positive then Negative
    else Neutral
  }

  /** What `analyze_chat_mood` returns. */
  datatype MoodReport = MoodReport(totalMessages: nat, positive: nat, negative: nat, mood: Mood)

  class ChatMonitor {
    var entries: seq<Entry>

    constructor()
      ensures entries == []
    {
      entries := [];
    }

    /** `log_message`: appends one row. */
    method LogMessage(userId: int, chatId: int, message: string)
      modifies this
      ensures entries == old(entries) + [Entry(userId, chatId, message)]
    {
      entries := entries + [Entry(userId, chatId, message)];
    }

    /** The messages `analyze_chat_mood` looks at. */
    function Recent(userId: int, limit: int): (r: seq<string>)
      reads this
      ensures limit >= 0 ==> |r| <= limit
      ensures r <= NewestFirst(entries, userId)
      ensures |r| == if 0 <= limit < |NewestFirst(entries, userId)| then limit else |NewestFirst(entries, userId)|
    {
      Limit(NewestFirst(entries, userId), limit)
    }

    /**
     * `analyze_chat_mood`: the number of messages looked at, the two keyword counts,
     * each at most one per word of its list per message, and the mood they give.
     */
    function AnalyzeChatMood(userId: int, limit: int): (r: MoodReport)
      reads this
      ensures r.totalMessages == |Recent(userId, limit)|
      ensures limit >= 0 ==> r.totalMessages <= limit
      ensures r.positive == CountHits(Recent(userId, limit), PositiveWords)
      ensures r.negative == CountHits(Recent(userId, limit), NegativeWords)
      ensures r.positive <= 7 * r.totalMessages && r.negative <= 6 * r.totalMessages
      ensures r.mood == Classify(r.positive, r.negative)
    {
      var messages := Recent(userId, limit);
      CountHitsBound(messages, PositiveWords);
      CountHitsBound(messages, NegativeWords);
      var positive := CountHits(messages, PositiveWords);
      var negative := CountHits(messages, NegativeWords);
      MoodReport(|messages|, positive, negative, Classify(positive, negative))
    }
  }

  /** A user with nothing logged gets zero counts and a neutral mood. */
  lemma NothingLoggedIsNeutral(m: ChatMonitor, userId: int, limit: int)
    requires forall e :: e in m.entries ==> e.userId != userId
    ensures m.AnalyzeChatMood(userId, limit) == MoodReport(0, 0, 0, Neutral)
  {
    NoEntriesOfUser(m.entries, userId);
  }

  lemma {:induction false} NoEntriesOfUser(entries: seq<Entry>, userId: int)
    requires forall e :: e in entries ==> e.userId != userId
    ensures NewestFirst(entries, userId) == []
  {
    if entries != [] {
      assert entries[|entries| - 1] in entries;
      assert forall e :: e in entries[..|entries| - 1] ==> e in entries;
      NoEntriesOfUser(entries[..|entries| - 1], userId);
    }
  }

  /** Logging a message puts it first among the user's recent messages. */
  lemma LoggedMessageIsNewest(entries: seq<Entry>, userId: int, chatId: int, message: string)
    ensures NewestFirst(entries + [Entry(userId, chatId, message)], userId) == [message] + NewestFirst(entries, userId)
  {
    var after := entries + [Entry(userId, chatId, message)];
    assert after[..|after| - 1] == entries;
  }

  /** Another user's message leaves this user's messages, and so what the analysis sees, as they were. */
  lemma OtherUsersMessageIgnored(entries: seq<Entry>, userId: int, other: int, chatId: int, message: string)
    requires other != userId
    ensures NewestFirst(entries + [Entry(other, chatId, message)], userId) == NewestFirst(entries, userId)
  {
    var after := entries + [Entry(other, chatId, message)];
    assert after[..|after| - 1] == entries;
  }
}
