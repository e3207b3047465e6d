# A verified model of the reminder, subscription and ledger logic of a Telegram assistant bot

The repository holds several drafts of one Russian-language Telegram assistant. It sets
reminders (`/remind 18:30 Позвонить маме`), keeps to-do lists, gates paid sections behind
a subscription with a one-off trial, keeps an income/expense ledger, and answers group
messages that call it by name. This project models the logic underneath the Telegram
handlers, one Dafny module per source file:

- **ReminderTime** (`reminder_time.dfy`, bot.py):
  - `parse_reminder_time` turns `через N минут/часов/дней`, `HH:MM` and `YYYY-MM-DD HH:MM` into a time.
  - The `/remind` argument loop splits the leading time tokens from the reminder text.
- **ChatStore** (`chat_store.dfy`, bot.py):
  - The reminder and to-do tables of `ChatDatabase`.
  - The periodic sweep `check_reminders`: it sends each due reminder and then closes it, and an exception ends the sweep.
  - The `/remind` command.
- **Triggers** (`triggers.dfy`, bot.py): `should_respond_to_message` and `extract_user_message`.
- **LifeAssistant** (`life_assistant.dfy`, the single-file draft):
  - Its SQLite store of users, reminders and transactions, and the income/expense report.
  - `ReminderManager`: `add_reminder`, `schedule_all`, which rebuilds the job map at start-up, and the job callback.
  - `/subscribe` with its one-off trial, and the subscription gate in front of every section.
- **SubscriptionStore** (`subscription_store.dfy`, `database.py`): `add_user`, `update_subscription` and `check_subscription` of the multi-module draft.
- **ReminderTable** (`reminder_table.dfy`, `reminder.py`): add, list, complete and delete reminders by id and owner.
- **ChatMood** (`chat_mood.dfy`, `chat_monitor.py`): the chat log and its keyword mood counts.
- **Finance** (`finance.dfy`, `finance.py`): transactions and the grouped income/expense report.

Supporting modules:
- **Common**: `Option`.
- **Query**: `WHERE` as a filter and `ORDER BY` as a sort on an integer key.
- **Text**: lower/upper case, `strip`, `split`, `replace`, `join`, digits.
- **Clock**: one integer clock in seconds, with the day as 86 400 s; `HH:MM` and `YYYY-MM-DD HH:MM` parsing and formatting.
- **Messaging**: the outgoing channel. A fixed set of unreachable chats makes a send raise.

Time is an integer number of seconds, and every operation takes the current time as a
parameter `now`. Tables are sequences of rows in insertion order, or maps keyed by user id,
inside classes whose methods update them in place. Every id comes from an AUTOINCREMENT
counter, and each class's invariant says every stored id was issued by that counter.

## Behaviour as written

Some help texts promise things the code does not do, and some of the code's choices are
easy to miss. The model follows the code in each case and proves what the code does:

- **`HH:MM` naming the current minute.** The code zeroes the seconds of now's date at
  that clock time and rolls it forward a day only when the result is strictly before now
  (`<` at bot.py:470). So `HH:MM` read exactly on that minute is due at once, while the
  same phrase read a few seconds into the minute goes to tomorrow. See `ReminderTime.ClockPhraseAtNow` and `ReminderTime.ClockPhraseLateInMinute`.
- **`завтра HH:MM`.** It is advertised in the `/remind` help text, but it never parses.
  The phrase contains a colon, so the `HH:MM`/date branch takes it first. That branch then
  fails, and the tomorrow branch is unreachable. See `ReminderTime.TomorrowNeverParses`.
- **`2024-12-25 10:00`.** The `/remind` help text shows this example (bot.py:595), but it
  is refused. The date has no colon and neither keyword, so the splitter takes no time
  token at all, and the empty time does not parse. See `ReminderTime.DateArgsNotRecognised`.
- **Far relative times.** `через 3000000 дней` lies past the last second a `datetime` can
  hold, 9999-12-31 23:59:59. The addition raises `OverflowError`, the parser catches it, and
  the phrase is not recognised. So is an `HH:MM` rolled forward past that day. See
  `ReminderTime.RelativePhrase` and `ReminderTime.ClockPhraseOnLastDay`.
- **`через 2 часа`.** The `/remind` splitter takes only `через` as the time. `2` is not a
  time token, so it ends the time part, and `/remind через 2 часа …` is refused as an
  unrecognised time. See `ReminderTime.ThroughHoursSplit`.
- **Extending a subscription, `database.py`.** `update_subscription` extends from the
  stored end even when it has passed, so a renewal after a long lapse can still leave the
  user without access. See `SubscriptionStore.LapsedExtensionStaysLapsed`. An extension
  past 9999-12-31 raises `OverflowError`, which is printed and swallowed, so the end stays
  as it was. See `SubscriptionStore.ExtensionBeyondLastDayKeepsEnd`.
- **Trial and subscription, single-file draft.** `update_subscription` overwrites the end
  with now plus the given days. It never adds to the old end.
- **An admin id of 0.** `/subscribe` tests the admin with Python truth (`ADMIN_ID and …`),
  while the section gates test `ADMIN_ID is None`. With `ADMIN_ID` = 0, user 0 passes every
  gate but is offered the trial or a payment link. See `LifeAssistant.AdminZeroMismatch`.

## Model

| member | source | states |
|---|---|---|
| Query.SortBy | bot.py:184-196 | `ORDER BY`: the result is sorted by the key and is a permutation of its input |
| Query.Where | bot.py:184-196 | `WHERE`: every row meeting the condition occurs in the result exactly as often as in the table, and no other row occurs |
| Query.SortByEqualKeys | bot.py:184-196 | rows sharing one sort key keep their table order |
| Query.SortByDistinct | bot.py:184-196 | sorting rows that are pairwise different lists none of them twice |
| Text.RemoveAllAbsent | bot.py:999-1003 | `str.replace(p, '')` changes nothing when `p` does not occur |
| Text.RemoveAllChars | bot.py:999-1003 | `str.replace(p, '')` only deletes: every character of the result is in the input |
| Text.StripIsTrimmedSlice | bot.py:449 | `strip()` returns a slice of its input with no blank at either end |
| Text.Lower | bot.py:449 | `lower()` keeps the length, turns each capital into the small letter that `upper()` maps back to it, and changes no other character |
| Text.Upper | bot.py:999-1000 | `upper()` keeps the length, turns each small letter into the capital that `lower()` maps back to it, and changes no other character |
| Text.RemoveAllPrefix | bot.py:999-1003 | `replace(p, '')` cuts an occurrence of `p` at the very start |
| Text.WordsCoverText | bot.py:454 | `split()` loses only white space: the words glued together are the text without its white space |
| Clock.DayStart | bot.py:469 | the midnight of a time lies at most a day before it and on a day boundary |
| Clock.ParseClock | bot.py:468 | `strptime(_, '%H:%M')` accepts only two digits, a colon and two digits naming an hour below 24 and a minute below 60 |
| Clock.ParseDateTime | bot.py:474 | `strptime(_, '%Y-%m-%d %H:%M')` accepts only sixteen characters naming a real calendar date of years 1 to 9999 and a time of day |
| Clock.EpochSecondsInRange | bot.py:474 | every date and time `strptime` accepts lies at or before the last second a `datetime` can hold |
| Clock.EpochSeconds | bot.py:474 | a date and time maps to a time whose midnight is its civil day and whose time of day is its clock time |
| Clock.ClockRoundTrip | bot.py:468 | reading back a formatted `HH:MM` gives the same clock time |
| Clock.DateTimeRoundTrip | bot.py:474 | reading back a formatted `YYYY-MM-DD HH:MM` gives the same date and time |
| ReminderTime.ParseReminderTime | bot.py:446-490 | every time the parser returns lies within the range of `datetime`; a result past it is `None` |
| ReminderTime.RelativeForm | bot.py:453-490 | an `через` phrase succeeds iff it names a unit, its second word has a digit, and now plus the count of units lies within the range of `datetime`; the result is now plus the digits of the second word times the first unit found (minutes, then hours, then days) |
| ReminderTime.RelativePhrase | bot.py:453-490 | `через N <unit word>` gives now plus N units when that lies within the range of `datetime`, and `None` past it |
| ReminderTime.NoUnitNotRecognised | bot.py:453-490 | an `через` phrase with no unit keyword gives `None`, not a default |
| ReminderTime.LoneThroughNotRecognised | bot.py:453-490 | a bare `через` gives `None` |
| ReminderTime.ParseTodayAt | bot.py:467-472 | `HH:MM` succeeds iff it is a valid clock time; the result lies in [now, now + 1 day) at that clock time, and is today's when that is not before now |
| ReminderTime.ClockPhrase | bot.py:466-472 | before the last day `datetime` can hold, any formatted `HH:MM` is recognised and lands within the next day at its clock time |
| ReminderTime.ClockPhraseAtNow | bot.py:469-471 | `HH:MM` read exactly on that minute yields now itself, not tomorrow |
| ReminderTime.TodayAtNow | bot.py:469-471 | an `HH:MM` equal to now's time of day is not rolled forward |
| ReminderTime.ClockPhraseLateInMinute | bot.py:469-471 | `HH:MM` naming the current minute, read some seconds into it, yields that time tomorrow |
| ReminderTime.ClockPhraseOnLastDay | bot.py:466-490 | on 9999-12-31, an `HH:MM` already past is rolled beyond the range of `datetime` and gives `None` |
| ReminderTime.ParseAbsolute | bot.py:473-474 | any other phrase with a colon succeeds iff it is a valid `YYYY-MM-DD HH:MM`, giving exactly that moment |
| ReminderTime.DateTimePhrase | bot.py:466-474 | a formatted date and time is returned unchanged, with no future check |
| ReminderTime.TomorrowNeverParses | bot.py:466-484 | every phrase starting with `завтра` yields `None` |
| ReminderTime.TimeTokenCount | bot.py:602-616 | at most two leading arguments are time tokens |
| ReminderTime.RemindSplitUnique | bot.py:607-616 | the split point is the only one where the leading tokens are time tokens, only the last may hold a colon, and the next token would end the time part |
| ReminderTime.SplitRemindArgs | bot.py:602-616 | the loop's time part and text part are the arguments before and after the split point, so together they are the argument list |
| ReminderTime.ReadRemindArgs | bot.py:602-621 | the time is the parse of the joined time part; the text is the joined rest |
| ReminderTime.ThroughHoursSplit | bot.py:607-621 | `через 2 часа …` takes only `через` as the time, which does not parse |
| ReminderTime.SingleTimeToken | bot.py:607-614 | a time token without a colon followed by a non-time token makes a one-token time part |
| ReminderTime.PlainFirstArgNotRecognised | bot.py:606-621 | a first argument with no colon and neither keyword leaves the time part empty, and the time is not recognised |
| ReminderTime.DateArgsNotRecognised | bot.py:595-621 | the help text's form `/remind 2024-12-25 10:00 …` is refused, whatever follows the date |
| ChatStore.GetActiveReminders | bot.py:178-216 | exactly the active, uncompleted rows of the chat still ahead (or of any chat due within an hour), sorted by time |
| ChatStore.CompleteAll | bot.py:218-236 | closing by id keeps the table's length; each row is closed exactly when its id is among the closed ids, and every other row is unchanged |
| ChatStore.CompleteAllAgain | bot.py:218-236 | closing ids one after another is closing them together, and closing twice is closing once |
| ChatStore.CompletedNeverSelected | bot.py:184-196 | a closed reminder is never selected again |
| ChatStore.DeleteMatching | bot.py:238-256 | deleting keeps exactly the rows whose id and owner do not both match |
| ChatStore.CompleteTodoRows | bot.py:316-334 | completing a to-do marks the row with matching id and owner completed at now; every other row, and every other field, is unchanged |
| ChatStore.CompleteTodoAgain | bot.py:316-334 | completing a to-do again only moves its completion time |
| ChatStore.DeleteTodoRows | bot.py:336-354 | deleting keeps exactly the to-dos whose id and owner do not both match |
| ChatStore.DeliveriesUpToStop | bot.py:493-513 | a sweep delivers exactly the due rows before the first unreachable due row, in query order |
| ChatStore.DeliveriesAreDue | bot.py:499-509 | every delivered reminder was selected, is due by now, and went to a reachable chat |
| ChatStore.StopAtFirstBlocked | bot.py:497-510 | the sweep stops at the first row that is due and whose chat cannot be reached, or at the end |
| ChatStore.NothingDeliveredAfterStop | bot.py:497-513 | the row at which the sweep stops, and every later selected row, are not delivered |
| ChatStore.SweepFrame | bot.py:493-513 | after a sweep a row is closed exactly when it was delivered; the row whose send raised and every selected row after it are unchanged |
| ChatStore.IdsOfRows | bot.py:66-67 | under the primary key, a row's id is among the ids of some rows of the table exactly when the row is one of them |
| ChatStore.DeleteKeepsUnique | bot.py:238-256 | deleting rows keeps the primary key: no two remaining rows share an id |
| ChatStore.ChatDatabase.CreateReminder | bot.py:154-176 | appends one active, uncompleted row under a fresh id larger than every stored id |
| ChatStore.ChatDatabase.CompleteReminder | bot.py:218-236 | the table becomes the one with that id closed; reports success |
| ChatStore.ChatDatabase.DeleteReminder | bot.py:238-256 | removes the rows with that id and owner, and reports whether one existed |
| ChatStore.ChatDatabase.CreateTodo | bot.py:258-279 | appends one uncompleted to-do under a fresh id |
| ChatStore.ChatDatabase.CompleteTodo | bot.py:316-334 | completes the to-do with that id and owner, and reports whether one existed |
| ChatStore.ChatDatabase.DeleteTodo | bot.py:336-354 | removes the to-do with that id and owner, and reports whether one existed |
| ChatStore.ChatDatabase.CheckReminders | bot.py:493-513 | the messages sent are the notices of the deliveries of the selected rows; a row is closed exactly when it was delivered, and every other row is unchanged |
| ChatStore.ChatDatabase.DeliverDue | bot.py:497-510 | the loop sends each due row until a send raises, and closes each row right after sending it; the row whose send raised is neither sent nor closed |
| Messaging.Messenger.Send | bot.py:503-506 | a send to a reachable chat records exactly one message; a send to an unreachable chat raises and records nothing |
| ChatStore.ChatDatabase.RemindCommand | bot.py:584-640 | fewer than two arguments: usage, no change; an unparsable time: refused, no change; otherwise one reminder with the parsed time and the joined text |
| Triggers.AnyOccurs | bot.py:986-988 | the trigger loop answers true iff some trigger occurs |
| Triggers.ShouldRespond | bot.py:979-993 | false on empty text; otherwise true iff a trigger occurs in the lower-cased text, or a user name is set and `@username` occurs in the text |
| Triggers.ExtractUserMessage | bot.py:995-1005 | the request is the text with each trigger and its upper-case form, then `@username`, removed, then stripped |
| Triggers.RemoveTriggersAbsent | bot.py:999-1000 | removing triggers that do not occur changes nothing |
| Triggers.RequestFromMessage | bot.py:995-1005 | every character of the request comes from the message |
| Triggers.PlainMessageOnlyStripped | bot.py:995-1005 | a message without triggers or mention is only stripped |
| Triggers.LeadingBotCut | bot.py:995-1005 | `бот <request>` reaches the bot as the request alone, stripped, when the request holds no trigger |
| Triggers.MixedCaseTriggerKept | bot.py:979-1005 | a trigger spelt in mixed case makes the bot answer yet stays in the request |
| Triggers.CapitalisedBotExample | bot.py:984-1000 | `Бот` lowers to the trigger `бот` while neither `бот` nor `БОТ` occurs in it |
| LifeAssistant.Parsed | telegram-bot/src/life_assistant_bot_full_project.py:125-130 | only a readable ISO time gives a value |
| LifeAssistant.Database.AddUser | telegram-bot/src/life_assistant_bot_full_project.py:82-92 | a known user's profile is refreshed, keeping trial and subscription; a new user starts with no trial used and no end; no row is dropped |
| LifeAssistant.Database.SetTrialUsed | telegram-bot/src/life_assistant_bot_full_project.py:99-102 | the flag is set for a known user; an unknown user stays unknown; no flag is cleared |
| LifeAssistant.Database.UpdateSubscription | telegram-bot/src/life_assistant_bot_full_project.py:110-118 | the end becomes now plus the days, overwriting any old end; an unknown user is inserted with that end; the trial flag is kept |
| LifeAssistant.Database.CheckSubscription | telegram-bot/src/life_assistant_bot_full_project.py:120-130 | true iff the user has a stored end that parses and lies strictly after now |
| LifeAssistant.Database.CheckTrialUsed | telegram-bot/src/life_assistant_bot_full_project.py:104-108 | a user without a row has not used the trial; otherwise the stored flag decides |
| LifeAssistant.Database.AddReminder | telegram-bot/src/life_assistant_bot_full_project.py:133-139 | appends one uncompleted reminder under a fresh id |
| LifeAssistant.Database.GetReminders | telegram-bot/src/life_assistant_bot_full_project.py:141-144 | the user's reminders, completed or not, each as often as stored, sorted by due date |
| LifeAssistant.Database.GetFutureReminders | telegram-bot/src/life_assistant_bot_full_project.py:146-149 | exactly the uncompleted reminders |
| LifeAssistant.Database.MarkReminderCompleted | telegram-bot/src/life_assistant_bot_full_project.py:151-155 | completes the rows with that id and changes nothing else |
| LifeAssistant.MarkCompleted | telegram-bot/src/life_assistant_bot_full_project.py:151-155 | keeps the length; every row with the id is completed |
| LifeAssistant.MarkCompletedOnly | telegram-bot/src/life_assistant_bot_full_project.py:151-155 | only the `completed` flag of rows with that id changes |
| LifeAssistant.MarkCompletedIdempotent | telegram-bot/src/life_assistant_bot_full_project.py:151-155 | marking twice is marking once |
| LifeAssistant.Database.AddTransaction | telegram-bot/src/life_assistant_bot_full_project.py:157-162 | appends one row |
| LifeAssistant.Database.TransactionsOf | telegram-bot/src/life_assistant_bot_full_project.py:166 | the user's transactions, each as often as stored, identical rows included |
| LifeAssistant.Totals | telegram-bot/src/life_assistant_bot_full_project.py:168-178 | the loop's totals equal `Income` and `Expense` of the rows it walks |
| LifeAssistant.Database.GetFinancialReport | telegram-bot/src/life_assistant_bot_full_project.py:164-179 | over the user's transactions, income sums the readable amounts of `income` rows, expense those of every other row, unreadable amounts are skipped, balance is their difference |
| LifeAssistant.IncomeExpenseSplit | telegram-bot/src/life_assistant_bot_full_project.py:170-179 | income plus expense is the sum of all readable amounts |
| LifeAssistant.FindReminder | telegram-bot/src/life_assistant_bot_full_project.py:208-210 | finds a stored row with that id, or reports that none has it |
| LifeAssistant.RestoredDelay | telegram-bot/src/life_assistant_bot_full_project.py:197-200 | the delay is positive, and is the time left when the reminder is still ahead |
| LifeAssistant.RestoredDelaysPositive | telegram-bot/src/life_assistant_bot_full_project.py:187-203 | after `schedule_all` every recorded job waits a positive time |
| LifeAssistant.RestoreCovers | telegram-bot/src/life_assistant_bot_full_project.py:187-203 | every uncompleted reminder with a readable date gets a job, and every new job belongs to such a reminder |
| LifeAssistant.RestoreKeepsKeys | telegram-bot/src/life_assistant_bot_full_project.py:187-203 | no job already recorded is dropped |
| LifeAssistant.ReminderManager.AddReminder | telegram-bot/src/life_assistant_bot_full_project.py:222-234 | an unreadable date or one before now is refused with no change; otherwise one reminder is stored and a job at the time left is recorded |
| LifeAssistant.ReminderManager.ScheduleAll | telegram-bot/src/life_assistant_bot_full_project.py:187-203 | the job map becomes the restored one over the uncompleted reminders |
| LifeAssistant.ReminderManager.JobCallback | telegram-bot/src/life_assistant_bot_full_project.py:205-220 | a missing or completed reminder: no change; a failed send: no change; otherwise one notice is sent and the reminder completed |
| LifeAssistant.ProcessSubscription | telegram-bot/src/life_assistant_bot_full_project.py:418-438 | already subscribed iff the user's stored end is still ahead or the user is a truthy admin; the trial is granted iff neither holds and it is unused, and it then sets the end to now plus 30 days and spends the trial; otherwise a 500 RUB payment link for the user |
| LifeAssistant.IsTruthyAdmin | telegram-bot/src/life_assistant_bot_full_project.py:420 | only the configured admin can pass, and an admin id of 0 never does |
| LifeAssistant.HasAccess | telegram-bot/src/life_assistant_bot_full_project.py:440-444 | a section opens iff the user is the configured admin or has a stored end that parses and lies after now |
| LifeAssistant.TrialOnce | telegram-bot/src/life_assistant_bot_full_project.py:418-438 | after `/subscribe` activated the trial, a second `/subscribe` by the same user at any later time does not activate it again |
| LifeAssistant.TrialGrantsAccess | telegram-bot/src/life_assistant_bot_full_project.py:110-130 | a fresh trial gives access until its end |
| LifeAssistant.AdminZeroMismatch | telegram-bot/src/life_assistant_bot_full_project.py:418-442 | with admin id 0, user 0 passes the section gates but is not the admin for `/subscribe` |
| SubscriptionStore.NewEnd | telegram-bot/src/database.py:188-207 | a stored date moves on by 30 days per month; no stored date gives the date holding now plus those days; an unreadable date, or a result outside 0001-01-01 to 9999-12-31 (`OverflowError`, swallowed), gives no update |
| SubscriptionStore.DayInRangeMidnight | telegram-bot/src/database.py:194-196 | a date lies in the range of `datetime` exactly when its midnight does |
| SubscriptionStore.UserStore.AddUser | telegram-bot/src/database.py:163-178 | insert-or-ignore: a known user keeps every field |
| SubscriptionStore.UserStore.UpdateSubscription | telegram-bot/src/database.py:180-207 | a known user's end becomes the new date; an unknown user, an unreadable end or an overflowing addition leaves the table unchanged |
| SubscriptionStore.UserStore.CheckSubscription | telegram-bot/src/database.py:209-232 | the admin always; anyone else iff a stored date's midnight lies after now |
| SubscriptionStore.ExtensionMovesEndLater | telegram-bot/src/database.py:190-194 | with at least one month and a result in range, an extension moves a stored end strictly later |
| SubscriptionStore.ExtensionBeyondLastDayKeepsEnd | telegram-bot/src/database.py:194-207 | an end of 9999-12-31 cannot be extended: the addition overflows and the end stays |
| SubscriptionStore.LapsedExtensionStaysLapsed | telegram-bot/src/database.py:190-194 | a month added to an end lapsed for over 30 days still gives no access |
| SubscriptionStore.FirstSubscriptionGrantsAccess | telegram-bot/src/database.py:195-229 | a first subscription of at least a month ending within the range of `datetime` gives access at once |
| SubscriptionStore.FirstSubscriptionBeyondRange | telegram-bot/src/database.py:195-207 | a first subscription ending past 9999-12-31 overflows, stores nothing and grants no access |
| SubscriptionStore.FirstSubscriptionEndsAtMidnight | telegram-bot/src/database.py:196-205 | only the date is kept: for an end within range, access ends at a midnight within the last day of the paid period |
| SubscriptionStore.AdminAlwaysAdmitted | telegram-bot/src/database.py:210-211 | the admin has access without a row |
| SubscriptionStore.UnknownUserRefused | telegram-bot/src/database.py:213-223 | anyone else without a row has no access |
| ReminderTable.CompleteMatching | telegram-bot/src/reminder.py:62-77 | only the row with matching id and owner becomes completed; every other row is unchanged |
| ReminderTable.DeleteMatching | telegram-bot/src/reminder.py:79-92 | exactly the rows not matching both id and owner remain |
| ReminderTable.CompleteTwice | telegram-bot/src/reminder.py:62-77 | completing twice is completing once |
| ReminderTable.DeleteTwice | telegram-bot/src/reminder.py:79-92 | deleting twice is deleting once |
| ReminderTable.DeleteSparesOthers | telegram-bot/src/reminder.py:79-92 | another user's reminder with the same id survives |
| ReminderTable.ReminderManager.AddReminder | telegram-bot/src/reminder.py:9-29 | a malformed date is refused and nothing is inserted; any valid date, past ones included, inserts one uncompleted row |
| ReminderTable.ReminderManager.GetReminders | telegram-bot/src/reminder.py:31-60 | the user's reminders (uncompleted only unless asked), each as often as stored, sorted by due date |
| ReminderTable.ReminderManager.CompleteReminder | telegram-bot/src/reminder.py:62-77 | the table becomes the completed one; always reports success |
| ReminderTable.ReminderManager.DeleteReminder | telegram-bot/src/reminder.py:79-92 | the table becomes the deleted one; always reports success |
| ReminderTable.CompletedLeavesDefaultListing | telegram-bot/src/reminder.py:31-60 | a completed reminder is listed only when completed ones are asked for |
| ChatMood.ChatMonitor.LogMessage | telegram-bot/src/chat_monitor.py:7-18 | appends exactly one row |
| ChatMood.Limit | telegram-bot/src/chat_monitor.py:27-34 | `LIMIT n` keeps a prefix of at most n rows (all of them for a negative n) |
| ChatMood.ChatMonitor.Recent | telegram-bot/src/chat_monitor.py:20-37 | the newest `min(limit, count)` of the user's messages, newest first; all of them for a negative limit |
| ChatMood.LoggedMessageIsNewest | telegram-bot/src/chat_monitor.py:24-26 | a newly logged message comes first among the user's messages |
| ChatMood.OtherUsersMessageIgnored | telegram-bot/src/chat_monitor.py:24-37 | another user's message leaves this user's messages unchanged |
| ChatMood.Hits | telegram-bot/src/chat_monitor.py:43-44 | a message contributes at most one count per word of the list |
| ChatMood.SameWordsSameHits | telegram-bot/src/chat_monitor.py:43-44 | a message's count depends only on which words occur in it, so a repeated word counts once |
| ChatMood.CountHitsBound | telegram-bot/src/chat_monitor.py:40-44 | the count is at most the number of messages times the number of words |
| ChatMood.Classify | telegram-bot/src/chat_monitor.py:46-51 | positive iff more positive hits, negative iff more negative hits, neutral iff equal |
| ChatMood.ChatMonitor.AnalyzeChatMood | telegram-bot/src/chat_monitor.py:20-58 | total is the number of messages looked at (at most `limit`); 0 ≤ positive ≤ 7·total, 0 ≤ negative ≤ 6·total; the mood classifies the two counts |
| ChatMood.NothingLoggedIsNeutral | telegram-bot/src/chat_monitor.py:43-51 | a user with nothing logged gets zero counts and a neutral mood |
| Finance.FinanceManager.AddTransaction | telegram-bot/src/finance.py:7-20 | an admitted type appends one row and reports success; any other type fails the table's `CHECK`, the insert is rolled back and nothing is added |
| Finance.RowsOf | telegram-bot/src/finance.py:32-37 | the user's rows, each as often as stored, identical rows included |
| Finance.AddToGroups | telegram-bot/src/finance.py:26-36 | adding a row makes no group of another key and keeps group keys distinct |
| Finance.AddToGroupsSums | telegram-bot/src/finance.py:26-36 | adding a row moves the grouped income or the grouped expense by its amount |
| Finance.AddToGroupsTotal | telegram-bot/src/finance.py:26-36 | adding a row adds its amount to its own group's total and to no other |
| Finance.GroupedSums | telegram-bot/src/finance.py:45-49 | summing the groups gives the income of the `income` rows and the expense of all other rows |
| Finance.GroupedTotals | telegram-bot/src/finance.py:26-36 | each group's total is the sum of its rows' amounts |
| Finance.GroupedKeys | telegram-bot/src/finance.py:26-36 | groups have distinct type and category, and admitted types |
| Finance.CategoryKeyInjective | telegram-bot/src/finance.py:51 | with the two admitted types, `"{type}_{category}"` determines type and category |
| Finance.KeyedTotalsOfGroups | telegram-bot/src/finance.py:51-52 | with distinct keys every group's entry holds its total |
| Finance.KeyedTotalsKeys | telegram-bot/src/finance.py:51-52 | every entry belongs to some group |
| Finance.ReportCategories | telegram-bot/src/finance.py:45-52 | `categories` holds one entry per group, valued at the sum of its rows, and nothing else |
| Finance.FinanceManager.GetFinancialReport | telegram-bot/src/finance.py:22-61 | income and expense are the row sums by type, balance is their difference, and `categories` is the keyed group totals; `period` plays no part |
| Finance.NoTransactionsEmptyReport | telegram-bot/src/finance.py:41-54 | no transactions: zero income and expense, no categories |

## Left out

- Telegram handler wiring, reply texts, keyboards and Markdown escaping. The payment link is kept only as the user and amount it names; the payment provider (`telegram-bot/src/payment.py`), `telegram-bot/src/config.py` and `telegram-bot/src/bot.py` are handler and environment plumbing.
- The YandexGPT request, conversation context, file archive, search and `save_message` in bot.py: network, file and SQL I/O.
- `ChatDatabase.get_todos` in bot.py: a listing that only feeds a reply text.
- The single-file draft's `ChatMonitor`, which returns constant zeros, plus `get_user` and the `FinanceManager` and `get_reminders` wrappers that only delegate.
- Connections, commits and the PostgreSQL branches of `telegram-bot/src/database.py`, `reminder.py`, `finance.py` and `chat_monitor.py`: the model follows the SQLite branches.
- Database errors other than the ones modelled: an unreadable stored date in `database.py`, the type check of `finances`, and a failed send.
- Clocks:
  - `now`, `utcnow` and SQLite's `datetime('now')` are one clock here, read once per operation. `ReminderManager.add_reminder` reads it twice in the source.
  - Microseconds are not modelled.
  - A stored `check_reminders` time with a fractional second makes its `strptime` raise and ends the sweep. Model times are whole seconds.
- Time zones: an ISO time with an offset makes the single-file draft's comparisons raise.
- Clock.ParseDateTime: `strptime` leniency is not modelled. It accepts single-digit fields, and any run of white space where the format has a blank, so `2024-12-25  18:30` parses in the source and not here. Clock.ParseClock likewise needs two digits per field.
- Unicode: case mapping beyond ASCII and the basic Cyrillic letters, digits beyond ASCII, and white space beyond U+00FF. `str.isspace` also holds for, for example, U+2003 and U+3000, which `Text.IsSpace` does not include.
- Amounts are integers: `Decimal` amounts and `REAL` sums are not modelled with fractions or rounding.
- The job queue, asyncio and the 60-second sweep interval: a job is recorded as its delay, and firing one is a call to `JobCallback`.
- `TRIAL_DAYS` and `ADMIN_ID` come from the environment: `TrialDays` is the default 30, and the admin id is a parameter.
- The `created_at` columns.
- The order SQL leaves open between rows with equal sort keys: the model keeps table order (`Query.SortByEqualKeys`). The sweep's stopping point can depend on that order when two due reminders share a time.
- Finance.FinanceManager.AddTransaction: the exception an unadmitted type raises is returned as `ok` false; the caller sees the same empty change.
- Finance.FinanceManager.AddTransaction: a NULL `type` passes SQLite's `CHECK`, since a NULL check result is not a failure. The model's type is always a string, so such a row is not modelled.
- Finance.ReportCategories: a NULL category gives the key `{type}_None` (telegram-bot/src/finance.py:51), the same key as a category spelt `None`. The model's category is always a string, so that collision is not modelled.
- ChatStore.ChatDatabase.CheckReminders: the sweep's failures are modelled only as sends to a fixed set of unreachable chats.
- LifeAssistant.Database.GetReminders: sorts by the parsed due time, and places an unreadable date as if it were 1970-01-01 00:00, so readable times before 1970 come ahead of it. SQLite compares the TEXT column, which agrees only for well-formed ISO times of one format.
- SubscriptionStore.NewEnd: a negative month count is modelled only up to the range of `datetime`. How `strftime` writes a year before 1000, and whether it reads back, is not modelled.
- ChatMood.ChatMonitor.Recent: newest first means reverse logging order. Messages logged within the same second have no defined order in the source.
