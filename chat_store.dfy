/**
 * The reminder and to-do tables of `ChatDatabase` in bot.py, the periodic sweep
 * `check_reminders` that delivers due reminders, and the `/remind` command that fills the
 * reminder table.  Rows keep their table order; ids come from an AUTOINCREMENT counter.
 */
module ChatStore {
  import opened Common
  import opened Query
  import opened Text
  import opened Clock
  import opened ReminderTime
  import opened Messaging

  /** A row of `reminders` (the `created_at` stamp is not modelled). */
  datatype ReminderRow = ReminderRow(
    id: int, chatId: int, userId: int, username: string,
    text: string, time: int, isCompleted: bool, isActive: bool)

  /** A row of `todos` (`created_at` and `category` are not modelled). */
  datatype TodoRow = TodoRow(
    id: int, chatId: int, userId: int, username: string, text: string,
    priority: int, dueDate: Option<int>, completedAt: Option<int>, isCompleted: bool)

  function TimeOf(r: ReminderRow): int {
    r.time
  }

  /**
   * The `WHERE` clause of `get_active_reminders(chat_id)`: an active, uncompleted row of that
   * chat still in the future when `chat_id` is given (and non-zero), otherwise any active,
   * uncompleted row due within the next hour or already overdue.
   */
  predicate IsSelected(r: ReminderRow, chatId: Option<int>, now: int) {
    && r.isActive && !r.isCompleted
    && if chatId.Some? && chatId.value != 0 then r.chatId == chatId.value && r.time > now
       else r.time <= now + Hour
  }

  function Selects(chatId: Option<int>, now: int): ReminderRow -> bool {
    (r: ReminderRow) => IsSelected(r, chatId, now)
  }

  /** `get_active_reminders(chat_id)`: the selected rows, earliest first. */
  function GetActiveReminders(rows: seq<ReminderRow>, chatId: Option<int>, now: int): (r: seq<ReminderRow>)
    ensures SortedBy(r, TimeOf)
    ensures forall x :: x in r <==> x in rows && IsSelected(x, chatId, now)
    ensures multiset(r) == multiset(Where(rows, Selects(chatId, now)))
  {
    var chosen := Where(rows, Selects(chatId, now));
    var r := SortBy(chosen, TimeOf);
    forall x ensures x in r <==> x in chosen {
      SortByMembers(chosen, TimeOf, x);
    }
    r
  }

  /** The ids of some rows, in order. */
  function Ids(rows: seq<ReminderRow>): seq<int> {
    if rows == [] then [] else [rows[0].id] + Ids(rows[1..])
  }

  /** The row as `complete_reminder` leaves it. */
  function Complete(r: ReminderRow): ReminderRow {
    r.(isCompleted := true, isActive := false)
  }

  /** The table after `complete_reminder` was called for each id in `ids`: every row with one of those ids is closed, the others are untouched. */
  function CompleteAll(rows: seq<ReminderRow>, ids: seq<int>): (r: seq<ReminderRow>)
    ensures |r| == |rows|
    ensures forall k :: 0 <= k < |rows| ==> r[k] == if rows[k].id in ids then Complete(rows[k]) else rows[k]
    ensures forall x :: x in r && x.id in ids ==> x.isCompleted && !x.isActive
  {
    if rows == [] then []
    else
      var rest := CompleteAll(rows[1..], ids);
      assert forall k :: 1 <= k < |rows| ==> rows[k] == rows[1..][k - 1];
      [if rows[0].id in ids then Complete(rows[0]) else rows[0]] + rest
  }

  /** Completing is idempotent, and completing one more id extends the set of completed ones. */
  lemma {:induction false} CompleteAllAgain(rows: seq<ReminderRow>, ids: seq<int>, id: int)
    ensures CompleteAll(CompleteAll(rows, ids), [id]) == CompleteAll(rows, ids + [id])
    ensures CompleteAll(CompleteAll(rows, ids), ids) == CompleteAll(rows, ids)
  {
    if rows != [] {
      CompleteAllAgain(rows[1..], ids, id);
      var done := CompleteAll(rows, ids);
      assert done[1..] == CompleteAll(rows[1..], ids);
    }
  }

  /** Completing no id leaves the table as it was. */
  lemma {:induction false} CompleteNone(rows: seq<ReminderRow>)
    ensures CompleteAll(rows, []) == rows
  {
    if rows != [] {
      CompleteNone(rows[1..]);
    }
  }

  /** Completion changes no id, so it keeps every id within the counter. */
  lemma {:induction false} CompleteAllKeepsIds(rows: seq<ReminderRow>, ids: seq<int>, last: int)
    requires IdsBelow(rows, last)
    ensures IdsBelow(CompleteAll(rows, ids), last)
  {
    if rows != [] {
      assert forall x :: x in rows[1..] ==> x in rows;
      CompleteAllKeepsIds(rows[1..], ids, last);
    }
  }

  /** A completed reminder is never selected again, by either form of the query, at any time. */
  lemma CompletedNeverSelected(rows: seq<ReminderRow>, ids: seq<int>, chatId: Option<int>, now: int)
    ensures forall x :: x in GetActiveReminders(CompleteAll(rows, ids), chatId, now) ==> x.id !in ids
  {
  }

  /** `delete_reminder(id, user_id)`: the rows that do not match both. */
  function DeleteMatching(rows: seq<ReminderRow>, id: int, userId: int): (r: seq<ReminderRow>)
    ensures forall x :: x in r <==> x in rows && !(x.id == id && x.userId == userId)
  {
    Where(rows, (x: ReminderRow) => !(x.id == id && x.userId == userId))
  }

  function IdOf(r: ReminderRow): int {
    r.id
  }

  /** The `PRIMARY KEY` on `id`: no two rows of the table share an id. */
  ghost predicate UniqueIds(rows: seq<ReminderRow>) {
    KeysApart(rows, IdOf)
  }

  /** Deleting rows keeps the ids of the rest apart. */
  lemma DeleteKeepsUnique(rows: seq<ReminderRow>, id: int, userId: int)
    requires UniqueIds(rows)
    ensures UniqueIds(DeleteMatching(rows, id, userId))
  {
    WhereKeysApart(rows, (x: ReminderRow) => !(x.id == id && x.userId == userId), IdOf);
  }

  /** Every id in the table was handed out by the counter: positive and at most `last`. */
  ghost predicate IdsBelow(rows: seq<ReminderRow>, last: int) {
    forall x :: x in rows ==> 0 < x.id <= last
  }

  /** The to-do as `complete_todo` leaves it at clock reading `now`. */
  function CompleteTodoRows(rows: seq<TodoRow>, id: int, userId: int, now: int): (r: seq<TodoRow>)
    ensures |r| == |rows|
    ensures forall k :: 0 <= k < |rows| ==>
      r[k] == if rows[k].id == id && rows[k].userId == userId then rows[k].(isCompleted := true, completedAt := Some(now)) else rows[k]
    ensures forall x :: x in r && x.id == id && x.userId == userId ==> x.isCompleted && x.completedAt == Some(now)
  {
    if rows == [] then []
    else
      var t := rows[0];
      var rest := CompleteTodoRows(rows[1..], id, userId, now);
      assert forall k :: 1 <= k < |rows| ==> rows[k] == rows[1..][k - 1];
      [if t.id == id && t.userId == userId then t.(isCompleted := true, completedAt := Some(now)) else t] + rest
  }

  /** Closing a task again only moves its completion stamp to the later call. */
  lemma {:induction false} CompleteTodoAgain(rows: seq<TodoRow>, id: int, userId: int, first: int, now: int)
    ensures CompleteTodoRows(CompleteTodoRows(rows, id, userId, first), id, userId, now) == CompleteTodoRows(rows, id, userId, now)
  {
    if rows != [] {
      CompleteTodoAgain(rows[1..], id, userId, first, now);
      var done := CompleteTodoRows(rows, id, userId, first);
      assert done[1..] == CompleteTodoRows(rows[1..], id, userId, first);
    }
  }

  /** Every task id was handed out by the counter: positive and at most `last`. */
  ghost predicate TodoIdsBelow(rows: seq<TodoRow>, last: int) {
    forall x :: x in rows ==> 0 < x.id <= last
  }

  /** Closing a task changes no id. */
  lemma {:induction false} CompleteTodoKeepsIds(rows: seq<TodoRow>, id: int, userId: int, now: int, last: int)
    requires TodoIdsBelow(rows, last)
    ensures TodoIdsBelow(CompleteTodoRows(rows, id, userId, now), last)
  {
    if rows != [] {
      assert forall x :: x in rows[1..] ==> x in rows;
      CompleteTodoKeepsIds(rows[1..], id, userId, now, last);
    }
  }

  /** `delete_todo(task_id, user_id)`: the to-dos that do not match both. */
  function DeleteTodoRows(rows: seq<TodoRow>, id: int, userId: int): (r: seq<TodoRow>)
    ensures forall x :: x in r <==> x in rows && !(x.id == id && x.userId == userId)
  {
    Where(rows, (x: TodoRow) => !(x.id == id && x.userId == userId))
  }

  /** The text of a delivered reminder. */
  function Notice(text: string): string {
    "🔔 **Напоминание**\n\n" + text
  }

  /** The messages a sweep sends for some rows, in order. */
  function Notices(rows: seq<ReminderRow>): seq<Message> {
    if rows == [] then [] else [Message(rows[0].chatId, Notice(rows[0].text))] + Notices(rows[1..])
  }

  /**
   * The reminders one sweep delivers, in order: walking the selected rows, those due by
   * `now` are sent; the first due one whose chat cannot be reached raises, and the
   * exception ends the sweep.
   */
  function Deliveries(due: seq<ReminderRow>, now: int, unreachable: set<int>): seq<ReminderRow> {
    if due == [] then []
    else if due[0].time > now then Deliveries(due[1..], now, unreachable)
    else if due[0].chatId in unreachable then []
    else [due[0]] + Deliveries(due[1..], now, unreachable)
  }

  /** The position at which a sweep stops: the first due row whose chat cannot be reached, or the end. */
  function StopAt(due: seq<ReminderRow>, now: int, unreachable: set<int>): (k: nat)
    ensures k <= |due|
  {
    if due == [] then 0
    else if due[0].time <= now && due[0].chatId in unreachable then 0
    else 1 + StopAt(due[1..], now, unreachable)
  }

  /** The sweep stops at the first row that is due and whose chat cannot be reached, or at the end. */
  lemma {:induction false} StopAtFirstBlocked(due: seq<ReminderRow>, now: int, unreachable: set<int>)
    ensures var k := StopAt(due, now, unreachable);
      && (k < |due| ==> due[k].time <= now && due[k].chatId in unreachable)
      && (forall j :: 0 <= j < k ==> !(due[j].time <= now && due[j].chatId in unreachable))
  {
    if due != [] {
      StopAtFirstBlocked(due[1..], now, unreachable);
      var k := StopAt(due, now, unreachable);
      assert forall j :: 1 <= j < |due| ==> due[j] == due[1..][j - 1];
    }
  }

  function IsDue(now: int): ReminderRow -> bool {
    (r: ReminderRow) => r.time <= now
  }

  /**
   * A sweep delivers exactly the rows due by `now` that come before the stopping point,
   * in query order; nothing at or after that point is sent.
   */
  lemma {:induction false} DeliveriesUpToStop(due: seq<ReminderRow>, now: int, unreachable: set<int>)
    ensures Deliveries(due, now, unreachable) == Where(due[..StopAt(due, now, unreachable)], IsDue(now))
  {
    if due != [] {
      DeliveriesUpToStop(due[1..], now, unreachable);
      var k := StopAt(due, now, unreachable);
      if k > 0 {
        assert due[..k][0] == due[0];
        assert due[..k][1..] == due[1..][..k - 1];
        WhereCons(due[..k], IsDue(now));
      }
    }
  }

  /** Every delivered reminder was selected, was due, and went to a reachable chat: nothing is sent early. */
  lemma {:induction false} DeliveriesAreDue(due: seq<ReminderRow>, now: int, unreachable: set<int>)
    ensures forall x :: x in Deliveries(due, now, unreachable) ==>
      x in due && x.time <= now && x.chatId !in unreachable
  {
    if due != [] {
      DeliveriesAreDue(due[1..], now, unreachable);
    }
  }

  /** One step of a sweep: the row at position `i` is skipped, ends the sweep, or is delivered. */
  lemma DeliveriesStep(due: seq<ReminderRow>, i: int, now: int, unreachable: set<int>)
    requires 0 <= i < |due|
    ensures Deliveries(due[i..], now, unreachable) ==
      if due[i].time > now then Deliveries(due[i + 1..], now, unreachable)
      else if due[i].chatId in unreachable then []
      else [due[i]] + Deliveries(due[i + 1..], now, unreachable)
  {
    assert due[i..][1..] == due[i + 1..];
  }

  /** Delivering one more row adds its id and its message at the end. */
  lemma {:induction false} RecordedSnoc(rows: seq<ReminderRow>, r: ReminderRow)
    ensures Ids(rows + [r]) == Ids(rows) + [r.id]
    ensures Notices(rows + [r]) == Notices(rows) + [Message(r.chatId, Notice(r.text))]
  {
    if rows != [] {
      assert (rows + [r])[1..] == rows[1..] + [r];
      RecordedSnoc(rows[1..], r);
    }
  }

  /** The ids listed by `Ids` are exactly those of the rows. */
  lemma {:induction false} IdsMembers(rows: seq<ReminderRow>, id: int)
    ensures id in Ids(rows) <==> exists x :: x in rows && x.id == id
  {
    if rows != [] {
      IdsMembers(rows[1..], id);
      assert forall x :: x in rows <==> x == rows[0] || x in rows[1..];
    }
  }

  /** Under the primary key, a row's id is among the ids of some of its rows exactly when the row itself is. */
  lemma IdsOfRows(rows: seq<ReminderRow>, some: seq<ReminderRow>)
    requires UniqueIds(rows) && forall x :: x in some ==> x in rows
    ensures forall i :: 0 <= i < |rows| ==> (rows[i].id in Ids(some) <==> rows[i] in some)
  {
    forall i | 0 <= i < |rows| ensures rows[i].id in Ids(some) <==> rows[i] in some {
      IdsMembers(some, rows[i].id);
      if rows[i].id in Ids(some) {
        var y :| y in some && y.id == rows[i].id;
        var j :| 0 <= j < |rows| && rows[j] == y;
      }
    }
  }

  /** When no row is selected twice, the row at which a sweep stops and every later one are not delivered. */
  lemma NothingDeliveredAfterStop(due: seq<ReminderRow>, now: int, unreachable: set<int>)
    requires Distinct(due)
    ensures forall j :: StopAt(due, now, unreachable) <= j < |due| ==> due[j] !in Deliveries(due, now, unreachable)
  {
    var stop := StopAt(due, now, unreachable);
    DeliveriesUpToStop(due, now, unreachable);
    forall j | stop <= j < |due| ensures due[j] !in due[..stop] {
      assert forall m :: 0 <= m < stop ==> due[..stop][m] == due[m] && due[m] != due[j];
    }
  }

  /**
   * What one sweep does to the table, row by row: a row is closed exactly when it was
   * delivered, and every other row is left as it was.  In particular the row whose send
   * raised, and every selected row after it, are unchanged.
   */
  lemma SweepFrame(rows: seq<ReminderRow>, now: int, unreachable: set<int>)
    requires UniqueIds(rows)
    ensures var due := GetActiveReminders(rows, None, now);
      var sent := Deliveries(due, now, unreachable);
      var after := CompleteAll(rows, Ids(sent));
      && (forall i :: 0 <= i < |rows| ==> after[i] == if rows[i] in sent then Complete(rows[i]) else rows[i])
      && (forall i, j :: 0 <= i < |rows| && StopAt(due, now, unreachable) <= j < |due| && rows[i] == due[j] ==>
            after[i] == rows[i])
  {
    var due := GetActiveReminders(rows, None, now);
    DeliveriesAreDue(due, now, unreachable);
    IdsOfRows(rows, Deliveries(due, now, unreachable));
    assert Distinct(rows);
    WhereDistinct(rows, Selects(None, now));
    SortByDistinct(Where(rows, Selects(None, now)), TimeOf);
    NothingDeliveredAfterStop(due, now, unreachable);
  }

  /** What the messenger holds after one more delivery. */
  lemma SentGrows(before: seq<Message>, rows: seq<ReminderRow>, r: ReminderRow)
    ensures before + Notices(rows + [r]) == (before + Notices(rows)) + [Message(r.chatId, Notice(r.text))]
  {
    RecordedSnoc(rows, r);
  }

  /** The reply of `/remind`. */
  datatype RemindOutcome = Usage | NotRecognised | Created(id: int)

  class ChatDatabase {
    var reminders: seq<ReminderRow>
    var todos: seq<TodoRow>
    /** The AUTOINCREMENT counters: the largest id ever handed out. */
    var lastReminderId: int
    var lastTodoId: int

    /** Every id in a table was handed out by its counter, so a new id is always fresh. */
    ghost predicate Valid()
      reads this
    {
      && lastReminderId >= 0 && lastTodoId >= 0
      && IdsBelow(reminders, lastReminderId)
      && UniqueIds(reminders)
      && TodoIdsBelow(todos, lastTodoId)
    }

    constructor()
      ensures Valid() && reminders == [] && todos == []
    {
      reminders, todos := [], [];
      lastReminderId, lastTodoId := 0, 0;
    }

    /** `create_reminder`: appends an active, uncompleted row under a fresh id and returns the id. */
    method CreateReminder(chatId: int, userId: int, username: string, text: string, time: int) returns (id: int)
      requires Valid()
      modifies this
      ensures Valid()
      ensures id == old(lastReminderId) + 1 && lastReminderId == id
      ensures forall x :: x in old(reminders) ==> x.id < id
      ensures reminders == old(reminders) + [ReminderRow(id, chatId, userId, username, text, time, false, true)]
      ensures todos == old(todos) && lastTodoId == old(lastTodoId)
    {
      id := lastReminderId + 1;
      lastReminderId := id;
      reminders := reminders + [ReminderRow(id, chatId, userId, username, text, time, false, true)];
    }

    /** `complete_reminder(id)`: the row with that id, whoever owns it, becomes completed and inactive. */
    method CompleteReminder(id: int) returns (ok: bool)
      requires Valid()
      modifies this
      ensures Valid() && ok
      ensures reminders == CompleteAll(old(reminders), [id])
      ensures todos == old(todos) && lastReminderId == old(lastReminderId) && lastTodoId == old(lastTodoId)
    {
      CompleteAllKeepsIds(reminders, [id], lastReminderId);
      reminders := CompleteAll(reminders, [id]);
      ok := true;
    }

    /** `delete_reminder(id, user_id)`: removes the row matching both, and says whether there was one. */
    method DeleteReminder(id: int, userId: int) returns (deleted: bool)
      requires Valid()
      modifies this
      ensures Valid()
      ensures reminders == DeleteMatching(old(reminders), id, userId)
      ensures deleted <==> exists x :: x in old(reminders) && x.id == id && x.userId == userId
      ensures todos == old(todos) && lastReminderId == old(lastReminderId) && lastTodoId == old(lastTodoId)
    {
      deleted := exists x :: x in reminders && x.id == id && x.userId == userId;
      DeleteKeepsUnique(reminders, id, userId);
      reminders := DeleteMatching(reminders, id, userId);
    }

    /** `create_todo`: appends an open task under a fresh id and returns the id. */
    method CreateTodo(chatId: int, userId: int, username: string, text: string, dueDate: Option<int>, priority: int)
      returns (id: int)
      requires Valid()
      modifies this
      ensures Valid()
      ensures id == old(lastTodoId) + 1 && lastTodoId == id
      ensures forall x :: x in old(todos) ==> x.id < id
      ensures todos == old(todos) + [TodoRow(id, chatId, userId, username, text, priority, dueDate, None, false)]
      ensures reminders == old(reminders) && lastReminderId == old(lastReminderId)
    {
      id := lastTodoId + 1;
      lastTodoId := id;
      todos := todos + [TodoRow(id, chatId, userId, username, text, priority, dueDate, None, false)];
    }

    /** `complete_todo(task_id, user_id)`: closes the matching task at `now`, and says whether one matched. */
    method CompleteTodo(taskId: int, userId: int, now: int) returns (ok: bool)
      requires Valid()
      modifies this
      ensures Valid()
      ensures todos == CompleteTodoRows(old(todos), taskId, userId, now)
      ensures ok <==> exists x :: x in old(todos) && x.id == taskId && x.userId == userId
      ensures reminders == old(reminders) && lastReminderId == old(lastReminderId) && lastTodoId == old(lastTodoId)
    {
      ok := exists x :: x in todos && x.id == taskId && x.userId == userId;
      CompleteTodoKeepsIds(todos, taskId, userId, now, lastTodoId);
      todos := CompleteTodoRows(todos, taskId, userId, now);
    }

    /** `delete_todo(task_id, user_id)`: removes the matching task, and says whether there was one. */
    method DeleteTodo(taskId: int, userId: int) returns (deleted: bool)
      requires Valid()
      modifies this
      ensures Valid()
      ensures todos == DeleteTodoRows(old(todos), taskId, userId)
      ensures deleted <==> exists x :: x in old(todos) && x.id == taskId && x.userId == userId
      ensures reminders == old(reminders) && lastReminderId == old(lastReminderId) && lastTodoId == old(lastTodoId)
    {
      deleted := exists x :: x in todos && x.id == taskId && x.userId == userId;
      todos := DeleteTodoRows(todos, taskId, userId);
    }

    /**
     * `check_reminders`: one sweep at clock reading `now` over the rows the query selects,
     * earliest first.
     */
    method CheckReminders(messenger: Messenger, now: int)
      requires Valid()
      modifies this, messenger
      ensures Valid()
      ensures var sentRows := Deliveries(GetActiveReminders(old(reminders), None, now), now, messenger.unreachable);
        && messenger.sent == old(messenger.sent) + Notices(sentRows)
        && reminders == CompleteAll(old(reminders), Ids(sentRows))
      ensures var sentRows := Deliveries(GetActiveReminders(old(reminders), None, now), now, messenger.unreachable);
        forall i :: 0 <= i < |old(reminders)| ==>
          reminders[i] == if old(reminders)[i] in sentRows then Complete(old(reminders)[i]) else old(reminders)[i]
      ensures todos == old(todos) && lastReminderId == old(lastReminderId) && lastTodoId == old(lastTodoId)
    {
      var due := GetActiveReminders(reminders, None, now);
      SweepFrame(reminders, now, messenger.unreachable);
      DeliverDue(due, messenger, now);
    }

    /**
     * The loop of `check_reminders` over the selected rows `due`: each one due by `now` is
     * sent and then completed; a failed send ends the sweep, leaving that row and every
     * later one as they were.
     */
    method DeliverDue(due: seq<ReminderRow>, messenger: Messenger, now: int)
      requires Valid()
      modifies this, messenger
      ensures Valid()
      ensures var sentRows := Deliveries(due, now, messenger.unreachable);
        && messenger.sent == old(messenger.sent) + Notices(sentRows)
        && reminders == CompleteAll(old(reminders), Ids(sentRows))
      ensures todos == old(todos) && lastReminderId == old(lastReminderId) && lastTodoId == old(lastTodoId)
    {
      ghost var unreachable := messenger.unreachable;
      ghost var sent0, rows0 := messenger.sent, reminders;
      ghost var sentRows: seq<ReminderRow> := [];
      CompleteNone(reminders);
      var i := 0;
      while i < |due|
        invariant 0 <= i <= |due|
        invariant Valid()
        invariant Deliveries(due, now, unreachable) == sentRows + Deliveries(due[i..], now, unreachable)
        invariant messenger.sent == sent0 + Notices(sentRows)
        invariant reminders == CompleteAll(rows0, Ids(sentRows))
        invariant todos == old(todos) && lastReminderId == old(lastReminderId) && lastTodoId == old(lastTodoId)
      {
        var r := due[i];
        DeliveriesStep(due, i, now, unreachable);
        if r.time <= now {
          var ok := SendAndComplete(r, messenger, sent0, rows0, sentRows);
          if !ok {
            assert sentRows + [] == sentRows;
            break;
          }
          sentRows := sentRows + [r];
        }
        i := i + 1;
      }
      assert i == |due| ==> due[i..] == [] && sentRows + [] == sentRows;
    }

    /**
     * One delivery of the sweep: the notice of `r` is sent and, only if the send did not
     * raise, `r` is completed.  Stated against what the sweep has delivered so far.
     */
    method SendAndComplete(r: ReminderRow, messenger: Messenger, ghost before: seq<Message>,
                           ghost base: seq<ReminderRow>, ghost delivered: seq<ReminderRow>) returns (ok: bool)
      requires Valid()
      requires messenger.sent == before + Notices(delivered)
      requires reminders == CompleteAll(base, Ids(delivered))
      modifies this, messenger
      ensures Valid()
      ensures ok <==> r.chatId !in messenger.unreachable
      ensures ok ==> messenger.sent == before + Notices(delivered + [r])
      ensures ok ==> reminders == CompleteAll(base, Ids(delivered + [r]))
      ensures !ok ==> messenger.sent == old(messenger.sent) && reminders == old(reminders)
      ensures todos == old(todos) && lastReminderId == old(lastReminderId) && lastTodoId == old(lastTodoId)
    {
      ok := messenger.Send(r.chatId, Notice(r.text));
      if ok {
        var _ := CompleteReminder(r.id);
        CompleteAllAgain(base, Ids(delivered), r.id);
        RecordedSnoc(delivered, r);
        SentGrows(before, delivered, r);
      }
    }

    /**
     * `/remind` with its arguments: fewer than two is a usage error; otherwise the leading
     * time tokens are read as a time and the rest, joined by blanks, becomes the text.
     */
    method RemindCommand(args: seq<string>, chatId: int, userId: int, username: string, now: int)
      returns (outcome: RemindOutcome)
      requires Valid()
      modifies this
      ensures Valid()
      ensures |args| < 2 ==> outcome == Usage && reminders == old(reminders)
      ensures |args| >= 2 ==>
        match RemindTime(args, now)
        case None => outcome == NotRecognised && reminders == old(reminders)
        case Some(t) =>
          && outcome == Created(old(lastReminderId) + 1)
          && reminders == old(reminders) + [ReminderRow(old(lastReminderId) + 1, chatId, userId, username, RemindText(args), t, false, true)]
      ensures todos == old(todos) && lastTodoId == old(lastTodoId)
    {
      if |args| < 2 {
        return Usage;
      }
      var time, text := ReadRemindArgs(args, now);
      if time.None? {
        return NotRecognised;
      }
      var id := CreateReminder(chatId, userId, username, text, time.value);
      return Created(id);
    }
  }
}
