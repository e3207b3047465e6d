/**
 * The reminders table of the multi-module draft (telegram-bot/src/reminder.py): adding a
 * reminder from a `YYYY-MM-DD HH:MM` date, listing a user's reminders by due date, and
 * completing or deleting one by id and owner.  Completing and deleting always report
 * success, whether or not a row matched.
 */
module ReminderTable {
  import opened Common
  import opened Query
  import opened Clock

  /** A row of `reminders` (`created_at` is not modelled). */
  datatype Row = Row(id: int, userId: int, text: string, due: int, completed: bool)

  function DueOf(r: Row): int {
    r.due
  }

  /** Whether a row is the one `WHERE id = ? AND user_id = ?` selects. */
  predicate Matches(r: Row, id: int, userId: int) {
    r.id == id && r.userId == userId
  }

  /** The table after `UPDATE reminders SET completed = TRUE WHERE id = ? AND user_id = ?`. */
  function CompleteMatching(rows: seq<Row>, id: int, userId: int): (r: seq<Row>)
    ensures |r| == |rows|
    ensures forall k :: 0 <= k < |rows| ==>
      r[k] == if Matches(rows[k], id, userId) then rows[k].(completed := true) else rows[k]
  {
    if rows == [] then []
    else
      var rest := CompleteMatching(rows[1..], id, userId);
      var head := if Matches(rows[0], id, userId) then rows[0].(completed := true) else rows[0];
      assert forall k :: 1 <= k < |rows| ==> ([head] + rest)[k] == rest[k - 1];
      [head] + rest
  }

  /** The table after `DELETE FROM reminders WHERE id = ? AND user_id = ?`, in table order. */
  function DeleteMatching(rows: seq<Row>, id: int, userId: int): (r: seq<Row>)
    ensures |r| <= |rows|
    ensures forall x :: x in r <==> x in rows && !Matches(x, id, userId)
  {
    if rows == [] then []
    else if Matches(rows[0], id, userId) then DeleteMatching(rows[1..], id, userId)
    else [rows[0]] + DeleteMatching(rows[1..], id, userId)
  }

  /** Completing the same reminder twice leaves the table as completing it once. */
  lemma CompleteTwice(rows: seq<Row>, id: int, userId: int)
    ensures CompleteMatching(CompleteMatching(rows, id, userId), id, userId) == CompleteMatching(rows, id, userId)
  {
    var once := CompleteMatching(rows, id, userId);
    var twice := CompleteMatching(once, id, userId);
    assert forall k :: 0 <= k < |rows| ==> twice[k] == once[k];
  }

  /** Deleting the same reminder twice leaves the table as deleting it once. */
  lemma {:induction false} DeleteTwice(rows: seq<Row>, id: int, userId: int)
    ensures DeleteMatching(DeleteMatching(rows, id, userId), id, userId) == DeleteMatching(rows, id, userId)
  {
    if rows != [] {
      DeleteTwice(rows[1..], id, userId);
      if !Matches(rows[0], id, userId) {
        var once := DeleteMatching(rows, id, userId);
        assert once[0] == rows[0] && once[1..] == DeleteMatching(rows[1..], id, userId);
      }
    }
  }

  /** Another user's reminder with the same id survives a delete untouched. */
  lemma DeleteSparesOthers(rows: seq<Row>, id: int, userId: int, x: Row)
    requires x in rows && x.userId != userId
    ensures x in DeleteMatching(rows, id, userId)
  {
  }

  class ReminderManager {
    var rows: seq<Row>
    /** The AUTOINCREMENT counter. */
    var lastId: int

    ghost predicate Valid()
      reads this
    {
      lastId >= 0 && forall x :: x in rows ==> 0 < x.id <= lastId
    }

    constructor()
      ensures Valid() && rows == []
    {
      rows := [];
      lastId := 0;
    }

    /**
     * `add_reminder`: a date that is not `YYYY-MM-DD HH:MM` is refused and nothing is
     * inserted; any valid date, past ones included, adds one uncompleted row.
     */
    method AddReminder(userId: int, text: string, dueText: string) returns (ok: bool)
      requires Valid()
      modifies this
      ensures Valid()
      ensures ok <==> ParseDateTime(dueText).Some?
      ensures ok ==> rows == old(rows) + [Row(old(lastId) + 1, userId, text, EpochSeconds(ParseDateTime(dueText).value), false)]
      ensures !ok ==> rows == old(rows) && lastId == old(lastId)
    {
      var parsed := ParseDateTime(dueText);
      if parsed.None? {
        return false;
      }
      lastId := lastId + 1;
      rows := rows + [Row(lastId, userId, text, EpochSeconds(parsed.value), false)];
      return true;
    }

    /** `get_reminders`: this user's reminders by due date, the completed ones only when asked for. */
    function GetReminders(userId: int, showCompleted: bool): (r: seq<Row>)
      reads this
      ensures SortedBy(r, DueOf)
      ensures forall x :: x in r <==> x in rows && x.userId == userId && (showCompleted || !x.completed)
      ensures forall x :: multiset(r)[x] == if x.userId == userId && (showCompleted || !x.completed) then multiset(rows)[x] else 0
    {
      var mine := Where(rows, (x: Row) => x.userId == userId && (showCompleted || !x.completed));
      var r := SortBy(mine, DueOf);
      forall x ensures x in r <==> x in mine {
        SortByMembers(mine, DueOf, x);
      }
      r
    }

    /** `complete_reminder`: completes the row with this id and owner, if any, and reports success either way. */
    method CompleteReminder(userId: int, id: int) returns (ok: bool)
      requires Valid()
      modifies this
      ensures Valid()
      ensures ok
      ensures rows == CompleteMatching(old(rows), id, userId) && lastId == old(lastId)
    {
      rows := CompleteMatching(rows, id, userId);
      return true;
    }

    /** `delete_reminder`: removes the row with this id and owner, if any, and reports success either way. */
    method DeleteReminder(userId: int, id: int) returns (ok: bool)
      requires Valid()
      modifies this
      ensures Valid()
      ensures ok
      ensures rows == DeleteMatching(old(rows), id, userId) && lastId == old(lastId)
    {
      rows := DeleteMatching(rows, id, userId);
      return true;
    }
  }

  /** A completed reminder drops out of the default listing but stays in the full one. */
  lemma CompletedLeavesDefaultListing(m: ReminderManager, x: Row)
    requires x in m.rows && x.completed
    ensures x !in m.GetReminders(x.userId, false)
    ensures x in m.GetReminders(x.userId, true)
  {
  }
}
