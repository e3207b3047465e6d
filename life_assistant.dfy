/**
 * The single-file assistant (telegram-bot/src/life_assistant_bot_full_project.py): its
 * SQLite store of users, reminders and transactions; the reminder manager that keeps one
 * scheduled job per pending reminder; the `/subscribe` trial logic; and the subscription
 * gate in front of every paid section.  Times are one integer clock in seconds; a stored
 * ISO time is either absent, readable, or text that `fromisoformat` rejects.
 */
module LifeAssistant {
  import opened Common
  import opened Query
  import opened Clock
  import opened Messaging

  /** A TEXT column holding an ISO time: NULL or empty, a readable time, or text that does not parse. */
  datatype StoredTime = Unset | IsoTime(t: int) | Garbled

  /** `datetime.fromisoformat` on the column: only a readable time gives a value. */
  function Parsed(s: StoredTime): (r: Option<int>)
    ensures r.Some? <==> s.IsoTime?
  {
    if s.IsoTime? then Some(s.t) else None
  }

  /** The optional profile fields of a user (NULL when unknown). */
  datatype Profile = Profile(username: Option<string>, firstName: Option<string>, lastName: Option<string>)

  const NoProfile := Profile(None, None, None)

  /** A row of `users`, keyed by the Telegram user id. */
  datatype UserRow = UserRow(profile: Profile, trialUsed: bool, subscriptionEnd: StoredTime)

  /** A row of `reminders` (`created_at` is not modelled). */
  datatype Reminder = Reminder(id: int, userId: int, chatId: int, text: string, due: StoredTime, completed: bool)

  /** An amount column as `Decimal` reads it: a number (in the smallest currency unit) or text it rejects. */
  datatype Amount = Num(v: int) | NotANumber

  /** A row of `transactions` (`created_at` is not modelled). */
  datatype Transaction = Transaction(userId: int, amount: Amount, category: string, description: string, kind: string)

  /** The key of `ORDER BY due_date`: the time itself for a readable date. */
  function DueKey(r: Reminder): int {
    if r.due.IsoTime? then r.due.t else 0
  }

  /** The rows after `UPDATE reminders SET completed = 1 WHERE id = ?`. */
  function MarkCompleted(rows: seq<Reminder>, id: int): (r: seq<Reminder>)
    ensures |r| == |rows|
    ensures forall x :: x in r && x.id == id ==> x.completed
  {
    if rows == [] then []
    else [if rows[0].id == id then rows[0].(completed := true) else rows[0]] + MarkCompleted(rows[1..], id)
  }

  /** Marking twice is marking once. */
  lemma {:induction false} MarkCompletedIdempotent(rows: seq<Reminder>, id: int)
    ensures MarkCompleted(MarkCompleted(rows, id), id) == MarkCompleted(rows, id)
  {
    if rows != [] {
      MarkCompletedIdempotent(rows[1..], id);
      var once := MarkCompleted(rows, id);
      assert once[1..] == MarkCompleted(rows[1..], id);
    }
  }

  /** Marking touches only the `completed` flag of rows with that id: every other row, and every other field, stays. */
  lemma {:induction false} MarkCompletedOnly(rows: seq<Reminder>, id: int, k: int)
    requires 0 <= k < |rows|
    ensures var r := MarkCompleted(rows, id)[k];
      r == if rows[k].id == id then rows[k].(completed := true) else rows[k]
  {
    if k > 0 {
      MarkCompletedOnly(rows[1..], id, k - 1);
    }
  }

  /** `SELECT * FROM reminders WHERE id = ?` with `fetchone`: the first row with that id. */
  function FindReminder(rows: seq<Reminder>, id: int): (r: Option<Reminder>)
    ensures r.Some? ==> r.value in rows && r.value.id == id
    ensures r.None? ==> forall x :: x in rows ==> x.id != id
  {
    if rows == [] then None
    else if rows[0].id == id then Some(rows[0])
    else FindReminder(rows[1..], id)
  }

  /** Every reminder id was handed out by the counter. */
  ghost predicate IdsBelow(rows: seq<Reminder>, last: int) {
    forall x :: x in rows ==> 0 < x.id <= last
  }

  lemma {:induction false} MarkCompletedKeepsIds(rows: seq<Reminder>, id: int, last: int)
    requires IdsBelow(rows, last)
    ensures IdsBelow(MarkCompleted(rows, id), last)
  {
    if rows != [] {
      assert forall x :: x in rows[1..] ==> x in rows;
      MarkCompletedKeepsIds(rows[1..], id, last);
    }
  }

  const IncomeKind := "income"

  /** What one transaction adds to the income total. */
  function IncomePart(t: Transaction): int {
    if t.amount.Num? && t.kind == IncomeKind then t.amount.v else 0
  }

  /** What one transaction adds to the expense total: every readable amount whose type is not `income`. */
  function ExpensePart(t: Transaction): int {
    if t.amount.Num? && t.kind != IncomeKind then t.amount.v else 0
  }

  function Income(rows: seq<Transaction>): int {
    if rows == [] then 0 else IncomePart(rows[0]) + Income(rows[1..])
  }

  function Expense(rows: seq<Transaction>): int {
    if rows == [] then 0 else ExpensePart(rows[0]) + Expense(rows[1..])
  }

  /** The sum of every readable amount. */
  function ReadableTotal(rows: seq<Transaction>): int {
    if rows == [] then 0 else (if rows[0].amount.Num? then rows[0].amount.v else 0) + ReadableTotal(rows[1..])
  }

  /** Both totals add up over a split of the rows, so the report loop may accumulate them row by row. */
  lemma {:induction false} TotalsAppend(a: seq<Transaction>, b: seq<Transaction>)
    ensures Income(a + b) == Income(a) + Income(b)
    ensures Expense(a + b) == Expense(a) + Expense(b)
  {
    if a != [] {
      assert (a + b)[0] == a[0] && (a + b)[1..] == a[1..] + b;
      TotalsAppend(a[1..], b);
    } else {
      assert a + b == b;
    }
  }

  /** Income and expense split the readable amounts between them: nothing readable is lost, nothing unreadable counts. */
  lemma {:induction false} IncomeExpenseSplit(rows: seq<Transaction>)
    ensures Income(rows) + Expense(rows) == ReadableTotal(rows)
  {
    if rows != [] {
      IncomeExpenseSplit(rows[1..]);
    }
  }

  /** No user row disappears, and a trial once marked used stays used. */
  ghost predicate TrialsKept(before: map<int, UserRow>, after: map<int, UserRow>) {
    forall u :: u in before ==> u in after && (before[u].trialUsed ==> after[u].trialUsed)
  }

  /**
   * The loop of `get_financial_report`: walks the rows, skipping amounts that do not parse,
   * adding `income` rows to the income and every other row to the expense.
   */
  method Totals(rows: seq<Transaction>) returns (income: int, expense: int)
    ensures income == Income(rows) && expense == Expense(rows)
  {
    income, expense := 0, 0;
    for i := 0 to |rows|
      invariant income == Income(rows[..i]) && expense == Expense(rows[..i])
    {
      var r := rows[i];
      assert rows[..i + 1] == rows[..i] + [r];
      TotalsAppend(rows[..i], [r]);
      match r.amount
      case NotANumber =>
      case Num(v) =>
        if r.kind == IncomeKind {
          income := income + v;
        } else {
          expense := expense + v;
        }
    }
    assert rows[..|rows|] == rows;
  }

  class Database {
    var users: map<int, UserRow>
    var reminders: seq<Reminder>
    var transactions: seq<Transaction>
    /** The AUTOINCREMENT counter of `reminders`. */
    var lastReminderId: int

    ghost predicate Valid()
      reads this
    {
      lastReminderId >= 0 && IdsBelow(reminders, lastReminderId)
    }

    constructor()
      ensures Valid() && users == map[] && reminders == [] && transactions == []
    {
      users, reminders, transactions := map[], [], [];
      lastReminderId := 0;
    }

    /** `add_user`: refreshes the profile of a known user, or inserts a new one with no trial used and no subscription. */
    method AddUser(userId: int, profile: Profile)
      requires Valid()
      modifies this
      ensures Valid()
      ensures users == old(users)[userId :=
        if userId in old(users) then old(users)[userId].(profile := profile) else UserRow(profile, false, Unset)]
      ensures TrialsKept(old(users), users)
      ensures reminders == old(reminders) && transactions == old(transactions) && lastReminderId == old(lastReminderId)
    {
      if userId in users {
        users := users[userId := users[userId].(profile := profile)];
      } else {
        users := users[userId := UserRow(profile, false, Unset)];
      }
    }

    /** `set_trial_used`: an UPDATE, so a user without a row stays without one. */
    method SetTrialUsed(userId: int)
      requires Valid()
      modifies this
      ensures Valid()
      ensures users == if userId in old(users) then old(users)[userId := old(users)[userId].(trialUsed := true)] else old(users)
      ensures TrialsKept(old(users), users)
      ensures reminders == old(reminders) && transactions == old(transactions) && lastReminderId == old(lastReminderId)
    {
      if userId in users {
        users := users[userId := users[userId].(trialUsed := true)];
      }
    }

    /** `check_trial_used`: false for a user without a row. */
    predicate CheckTrialUsed(userId: int)
      reads this
      ensures userId !in users ==> !CheckTrialUsed(userId)
      ensures userId in users ==> (CheckTrialUsed(userId) <==> users[userId].trialUsed)
    {
      userId in users && users[userId].trialUsed
    }

    /** `update_subscription`: the end becomes `now` plus `days` days, whatever it was; a missing user is inserted. */
    method UpdateSubscription(userId: int, days: int, now: int)
      requires Valid()
      modifies this
      ensures Valid()
      ensures users == old(users)[userId :=
        if userId in old(users) then old(users)[userId].(subscriptionEnd := IsoTime(now + days * Day))
        else UserRow(NoProfile, false, IsoTime(now + days * Day))]
      ensures TrialsKept(old(users), users)
      ensures reminders == old(reminders) && transactions == old(transactions) && lastReminderId == old(lastReminderId)
    {
      var end := IsoTime(now + days * Day);
      if userId in users {
        users := users[userId := users[userId].(subscriptionEnd := end)];
      } else {
        users := users[userId := UserRow(NoProfile, false, end)];
      }
    }

    /** `check_subscription`: a stored end that parses and lies strictly after `now`. */
    function CheckSubscription(userId: int, now: int): (r: bool)
      reads this
      ensures r <==> userId in users && users[userId].subscriptionEnd.IsoTime? && users[userId].subscriptionEnd.t > now
    {
      if userId !in users then false
      else
        match Parsed(users[userId].subscriptionEnd)
        case None => false
        case Some(end) => end > now
    }

    /** `add_reminder` of the store: appends an uncompleted row under a fresh id. */
    method AddReminder(userId: int, chatId: int, text: string, due: StoredTime) returns (id: int)
      requires Valid()
      modifies this
      ensures Valid()
      ensures id == old(lastReminderId) + 1 && lastReminderId == id
      ensures forall x :: x in old(reminders) ==> x.id < id
      ensures reminders == old(reminders) + [Reminder(id, userId, chatId, text, due, false)]
      ensures users == old(users) && transactions == old(transactions)
    {
      id := lastReminderId + 1;
      lastReminderId := id;
      reminders := reminders + [Reminder(id, userId, chatId, text, due, false)];
    }

    /** `get_reminders`: the user's reminders, completed or not, ordered by due date. */
    function GetReminders(userId: int): (r: seq<Reminder>)
      reads this
      ensures SortedBy(r, DueKey)
      ensures forall x :: x in r <==> x in reminders && x.userId == userId
      ensures forall x :: multiset(r)[x] == if x.userId == userId then multiset(reminders)[x] else 0
    {
      var mine := Where(reminders, (x: Reminder) => x.userId == userId);
      var r := SortBy(mine, DueKey);
      forall x ensures x in r <==> x in mine {
        SortByMembers(mine, DueKey, x);
      }
      r
    }

    /** `get_future_reminders`: every uncompleted reminder, due or not, in table order. */
    function GetFutureReminders(): (r: seq<Reminder>)
      reads this
      ensures forall x :: x in r <==> x in reminders && !x.completed
    {
      Where(reminders, (x: Reminder) => !x.completed)
    }

    /** `mark_reminder_completed`: completes the row with that id, whoever owns it. */
    method MarkReminderCompleted(id: int)
      requires Valid()
      modifies this
      ensures Valid()
      ensures reminders == MarkCompleted(old(reminders), id)
      ensures users == old(users) && transactions == old(transactions) && lastReminderId == old(lastReminderId)
    {
      MarkCompletedKeepsIds(reminders, id, lastReminderId);
      reminders := MarkCompleted(reminders, id);
    }

    /** `add_transaction`: appends one row. */
    method AddTransaction(t: Transaction)
      requires Valid()
      modifies this
      ensures Valid()
      ensures transactions == old(transactions) + [t]
      ensures users == old(users) && reminders == old(reminders) && lastReminderId == old(lastReminderId)
    {
      transactions := transactions + [t];
    }

    /** The user's transactions, in table order. */
    function TransactionsOf(userId: int): (r: seq<Transaction>)
      reads this
      ensures forall x :: x in r <==> x in transactions && x.userId == userId
      ensures forall x :: multiset(r)[x] == if x.userId == userId then multiset(transactions)[x] else 0
    {
      Where(transactions, (x: Transaction) => x.userId == userId)
    }

    /**
     * `get_financial_report`: the totals of the user's transactions and their difference.
     */
    method GetFinancialReport(userId: int) returns (income: int, expense: int, balance: int)
      ensures income == Income(TransactionsOf(userId))
      ensures expense == Expense(TransactionsOf(userId))
      ensures balance == income - expense
    {
      income, expense := Totals(TransactionsOf(userId));
      balance := income - expense;
    }
  }

  /** A job handed to the job queue: which reminder, and after how many seconds. */
  datatype Job = Job(reminderId: int, delay: int)

  /** The delay `schedule_all` uses: the time left, but at least one second for an overdue reminder. */
  function RestoredDelay(due: int, now: int): (d: int)
    ensures d > 0
    ensures due > now ==> d == due - now
  {
    if due - now <= 0 then 1 else due - now
  }

  /** The job map after the `schedule_all` loop has gone over `rows`. */
  function Restore(jobs: map<int, Job>, rows: seq<Reminder>, now: int): map<int, Job>
    decreases |rows|
  {
    if rows == [] then jobs
    else
      var r := rows[0];
      var next :=
        if r.completed then jobs
        else match Parsed(r.due)
          case None => jobs
          case Some(due) => jobs[r.id := Job(r.id, RestoredDelay(due, now))];
      Restore(next, rows[1..], now)
  }

  predicate PositiveDelays(jobs: map<int, Job>) {
    forall k :: k in jobs ==> jobs[k].delay > 0
  }

  /** Every job `schedule_all` records waits a positive time, so nothing is scheduled in the past. */
  lemma {:induction false} RestoredDelaysPositive(jobs: map<int, Job>, rows: seq<Reminder>, now: int)
    requires PositiveDelays(jobs)
    ensures PositiveDelays(Restore(jobs, rows, now))
    decreases |rows|
  {
    if rows != [] {
      var r := rows[0];
      var next :=
        if r.completed then jobs
        else match Parsed(r.due)
          case None => jobs
          case Some(due) => jobs[r.id := Job(r.id, RestoredDelay(due, now))];
      assert Restore(jobs, rows, now) == Restore(next, rows[1..], now);
      RestoredDelaysPositive(next, rows[1..], now);
    }
  }

  /** Restoring only adds or replaces jobs: no job that was there is dropped. */
  lemma {:induction false} RestoreKeepsKeys(jobs: map<int, Job>, rows: seq<Reminder>, now: int)
    ensures jobs.Keys <= Restore(jobs, rows, now).Keys
    decreases |rows|
  {
    if rows != [] {
      var r := rows[0];
      var next :=
        if r.completed then jobs
        else match Parsed(r.due)
          case None => jobs
          case Some(due) => jobs[r.id := Job(r.id, RestoredDelay(due, now))];
      RestoreKeepsKeys(next, rows[1..], now);
    }
  }

  /** Every uncompleted reminder with a readable due date gets a job, and only such reminders do. */
  lemma {:induction false} RestoreCovers(jobs: map<int, Job>, rows: seq<Reminder>, now: int)
    ensures var after := Restore(jobs, rows, now);
      && (forall x :: x in rows && !x.completed && x.due.IsoTime? ==> x.id in after)
      && (forall k :: k in after && k !in jobs ==>
            exists x :: x in rows && x.id == k && !x.completed && x.due.IsoTime?)
    decreases |rows|
  {
    if rows != [] {
      var r := rows[0];
      var next :=
        if r.completed then jobs
        else match Parsed(r.due)
          case None => jobs
          case Some(due) => jobs[r.id := Job(r.id, RestoredDelay(due, now))];
      RestoreCovers(next, rows[1..], now);
      RestoreKeepsKeys(next, rows[1..], now);
      assert forall x :: x in rows[1..] ==> x in rows;
      assert forall x :: x in rows ==> x == r || x in rows[1..];
    }
  }

  /** The outcome of `ReminderManager.add_reminder`. */
  datatype AddOutcome = BadDate | PastDate | Scheduled(id: int)

  /** The text of a delivered reminder. */
  function Notice(text: string): string {
    "🔔 Напоминание: " + text
  }

  class ReminderManager {
    const db: Database
    /** `scheduled_jobs`: reminder id to the job queued for it. */
    var scheduledJobs: map<int, Job>

    constructor(db: Database)
      ensures this.db == db && scheduledJobs == map[]
    {
      this.db := db;
      scheduledJobs := map[];
    }

    /**
     * `add_reminder`: an unreadable date and a date before `now` are refused and change
     * nothing; a date at `now` or later is stored and a job is queued for the time left.
     */
    method AddReminder(userId: int, chatId: int, text: string, due: StoredTime, now: int) returns (outcome: AddOutcome)
      requires db.Valid()
      modifies this, db
      ensures db.Valid()
      ensures Parsed(due).None? ==> outcome == BadDate
      ensures Parsed(due).Some? && Parsed(due).value < now ==> outcome == PastDate
      ensures Parsed(due).Some? && Parsed(due).value >= now ==> outcome == Scheduled(old(db.lastReminderId) + 1)
      ensures outcome.Scheduled? ==>
        && db.reminders == old(db.reminders) + [Reminder(outcome.id, userId, chatId, text, due, false)]
        && scheduledJobs == old(scheduledJobs)[outcome.id := Job(outcome.id, due.t - now)]
      ensures !outcome.Scheduled? ==> db.reminders == old(db.reminders) && scheduledJobs == old(scheduledJobs)
      ensures db.users == old(db.users) && db.transactions == old(db.transactions)
    {
      match Parsed(due)
      case None =>
        return BadDate;
      case Some(t) =>
        if t < now {
          return PastDate;
        }
        var id := db.AddReminder(userId, chatId, text, due);
        scheduledJobs := scheduledJobs[id := Job(id, t - now)];
        return Scheduled(id);
    }

    /** `schedule_all`: one job for every uncompleted reminder with a readable date, overdue ones after one second. */
    method ScheduleAll(now: int)
      modifies this
      ensures scheduledJobs == Restore(old(scheduledJobs), db.GetFutureReminders(), now)
    {
      var rows := db.GetFutureReminders();
      for i := 0 to |rows|
        invariant Restore(scheduledJobs, rows[i..], now) == Restore(old(scheduledJobs), rows, now)
      {
        var r := rows[i];
        assert rows[i..][1..] == rows[i + 1..];
        if !r.completed {
          match Parsed(r.due)
          case None =>
          case Some(due) =>
            scheduledJobs := scheduledJobs[r.id := Job(r.id, RestoredDelay(due, now))];
        }
      }
    }

    /**
     * `_job_callback` for one reminder id: nothing happens when the row is gone or already
     * completed; otherwise the reminder is sent, and marked completed only if the send
     * went through.
     */
    method JobCallback(reminderId: int, messenger: Messenger)
      requires db.Valid()
      modifies db, messenger
      ensures db.Valid()
      ensures var found := FindReminder(old(db.reminders), reminderId);
        if found.None? || found.value.completed then
          db.reminders == old(db.reminders) && messenger.sent == old(messenger.sent)
        else if found.value.chatId in messenger.unreachable then
          db.reminders == old(db.reminders) && messenger.sent == old(messenger.sent)
        else
          && db.reminders == MarkCompleted(old(db.reminders), reminderId)
          && messenger.sent == old(messenger.sent) + [Message(found.value.chatId, Notice(found.value.text))]
      ensures db.users == old(db.users) && db.transactions == old(db.transactions)
    {
      var found := FindReminder(db.reminders, reminderId);
      if found.None? || found.value.completed {
        return;
      }
      var ok := messenger.Send(found.value.chatId, Notice(found.value.text));
      if ok {
        db.MarkReminderCompleted(reminderId);
      }
    }
  }

  /**
   * The gate of every paid section: a subscription that has not ended, or the configured
   * admin (`ADMIN_ID is None or user_id != ADMIN_ID` denies).
   */
  predicate HasAccess(db: Database, userId: int, adminId: Option<int>, now: int)
    reads db
    ensures HasAccess(db, userId, adminId, now) <==>
      || (adminId.Some? && userId == adminId.value)
      || (userId in db.users && db.users[userId].subscriptionEnd.IsoTime? && db.users[userId].subscriptionEnd.t > now)
  {
    db.CheckSubscription(userId, now) || (adminId.Some? && userId == adminId.value)
  }

  /** `TRIAL_DAYS` with no override in the environment. */
  const TrialDays := 30

  /** The price asked once the trial is used. */
  const SubscriptionPrice := 500

  /** `create_payment_link`: the link names the user and the amount. */
  datatype PaymentLink = PaymentLink(userId: int, amountRub: int)

  /** The reply of `/subscribe`. */
  datatype SubscribeOutcome = AlreadySubscribed | TrialActivated | PaymentRequired(link: PaymentLink)

  /** `(ADMIN_ID and user_id == ADMIN_ID)`: Python truth, so an admin id of 0 never counts here. */
  predicate IsTruthyAdmin(userId: int, adminId: Option<int>)
    ensures IsTruthyAdmin(userId, adminId) ==> adminId.Some? && userId == adminId.value
    ensures adminId == Some(0) ==> !IsTruthyAdmin(userId, adminId)
    ensures adminId.Some? && adminId.value != 0 ==> (IsTruthyAdmin(userId, adminId) <==> userId == adminId.value)
  {
    adminId.Some? && adminId.value != 0 && userId == adminId.value
  }

  /**
   * `process_subscription`: nothing changes for a subscriber or the admin; otherwise a
   * user who has not had the trial gets `TrialDays` days from `now` (overwriting any old
   * end) and the trial is spent; anyone else is asked to pay.
   */
  method ProcessSubscription(db: Database, userId: int, adminId: Option<int>, now: int) returns (outcome: SubscribeOutcome)
    requires db.Valid()
    modifies db
    ensures db.Valid()
    ensures outcome == AlreadySubscribed <==>
      old(db.CheckSubscription(userId, now)) || IsTruthyAdmin(userId, adminId)
    ensures outcome == TrialActivated <==>
      !old(db.CheckSubscription(userId, now)) && !IsTruthyAdmin(userId, adminId) && !old(db.CheckTrialUsed(userId))
    ensures outcome.PaymentRequired? ==> outcome.link == PaymentLink(userId, SubscriptionPrice)
    ensures outcome == TrialActivated ==>
      && userId in db.users
      && db.users[userId].trialUsed
      && db.users[userId].subscriptionEnd == IsoTime(now + TrialDays * Day)
      && (forall u :: u in db.users && u != userId ==> u in old(db.users) && db.users[u] == old(db.users)[u])
      && (forall u :: u in old(db.users) ==> u in db.users)
    ensures outcome != TrialActivated ==> db.users == old(db.users)
    ensures TrialsKept(old(db.users), db.users)
    ensures db.reminders == old(db.reminders) && db.transactions == old(db.transactions)
  {
    if db.CheckSubscription(userId, now) || IsTruthyAdmin(userId, adminId) {
      return AlreadySubscribed;
    }
    if !db.CheckTrialUsed(userId) {
      db.UpdateSubscription(userId, TrialDays, now);
      db.SetTrialUsed(userId);
      return TrialActivated;
    }
    return PaymentRequired(PaymentLink(userId, SubscriptionPrice));
  }

  /**
   * The trial is granted once: after `/subscribe` activated it, a second `/subscribe` by
   * the same user, at any later time, is answered as a subscriber or asked to pay.
   */
  method TrialOnce(db: Database, userId: int, adminId: Option<int>, now: int, later: int)
    returns (first: SubscribeOutcome, second: SubscribeOutcome)
    requires db.Valid()
    modifies db
    ensures first == TrialActivated ==> second != TrialActivated
  {
    first := ProcessSubscription(db, userId, adminId, now);
    second := ProcessSubscription(db, userId, adminId, later);
  }

  /** A user whose trial was just activated has access until its end. */
  lemma TrialGrantsAccess(db: Database, userId: int, adminId: Option<int>, now: int, later: int)
    requires userId in db.users && db.users[userId].subscriptionEnd == IsoTime(now + TrialDays * Day)
    requires later < now + TrialDays * Day
    ensures HasAccess(db, userId, adminId, later)
  {
  }

  /**
   * With `ADMIN_ID` set to 0, user 0 passes every section gate without a subscription,
   * yet `/subscribe` does not recognise them as the admin.
   */
  lemma AdminZeroMismatch(db: Database, now: int)
    requires !db.CheckSubscription(0, now)
    ensures HasAccess(db, 0, Some(0), now)
    ensures !IsTruthyAdmin(0, Some(0))
  {
  }
}
