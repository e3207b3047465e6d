/**
 * The subscription ledger of the multi-module draft (telegram-bot/src/database.py): users
 * keyed by Telegram id, each with a subscription end kept in SQLite as a date without a
 * time of day.  An extension adds whole 30-day months to the stored date; the admin
 * always has access.  A database error is printed and swallowed, so an operation that
 * fails leaves the table as it was.
 */
module SubscriptionStore {
  import opened Common
  import opened Clock

  /** `ADMIN_ID` when the environment does not set it. */
  const DefaultAdminId := 86458589

  /** The `subscription_end` column: empty, a `%Y-%m-%d` date (days since the epoch), or text `strptime` rejects. */
  datatype StoredDate = NoDate | Date(day: int) | Unreadable

  datatype Account = Account(username: Option<string>, firstName: Option<string>, lastName: Option<string>,
                             subscriptionEnd: StoredDate)

  /** The instant a stored date stands for once read back: its midnight. */
  function Midnight(day: int): int {
    day * Day
  }

  /** The dates a `datetime` can hold, as days since 1970-01-01: 0001-01-01 to 9999-12-31. */
  const FirstDay: int := -719162
  const LastDay: int := 2932896

  predicate DayInRange(day: int) {
    FirstDay <= day <= LastDay
  }

  /** A date is in range exactly when its midnight is an instant a `datetime` can hold. */
  lemma DayInRangeMidnight(day: int)
    ensures DayInRange(day) <==> FirstInstant <= Midnight(day) <= LastInstant
  {
    assert FirstInstant == FirstDay * Day && LastInstant == LastDay * Day + (Day - 1);
    if day < FirstDay {
      assert Midnight(day) <= (FirstDay - 1) * Day;
    } else if day > LastDay {
      assert Midnight(day) >= (LastDay + 1) * Day;
    } else {
      assert FirstDay * Day <= Midnight(day) <= LastDay * Day;
    }
  }

  /**
   * The date `update_subscription` writes, or `None` when the update raises and is
   * swallowed: reading an unreadable stored date, or adding the months beyond the dates a
   * `datetime` can hold (`OverflowError`).  A stored date moves on by 30 days per month,
   * whether or not it has passed; with no stored date the new end is the date of `now`
   * plus 30 days per month.
   */
  function NewEnd(stored: StoredDate, months: int, now: int): (r: Option<int>)
    ensures r.Some? ==> DayInRange(r.value)
    ensures stored.Unreadable? ==> r.None?
    ensures stored.Date? ==> (r.Some? <==> DayInRange(stored.day + 30 * months))
    ensures stored.Date? && r.Some? ==> r.value == stored.day + 30 * months
    ensures stored.NoDate? ==> (r.Some? <==> FirstInstant <= now + 30 * months * Day <= LastInstant)
    ensures stored.NoDate? && r.Some? ==> Midnight(r.value) <= now + 30 * months * Day < Midnight(r.value) + Day
  {
    match stored
    case Unreadable => None
    case Date(day) => if DayInRange(day + 30 * months) then Some(day + 30 * months) else None
    case NoDate =>
      var t := now + 30 * months * Day;
      if FirstInstant <= t <= LastInstant then
        var day := DayStart(t) / Day;
        assert Midnight(day) == DayStart(t);
        DayInRangeMidnight(day);
        Some(day)
      else None
  }

  /** Whether a stored end still grants access at `now`: a date whose midnight lies after `now`. */
  predicate Active(stored: StoredDate, now: int) {
    stored.Date? && Midnight(stored.day) > now
  }

  class UserStore {
    var users: map<int, Account>

    constructor()
      ensures users == map[]
    {
      users := map[];
    }

    /** `add_user`: `INSERT OR IGNORE`, so a known user keeps every field, subscription included. */
    method AddUser(userId: int, username: Option<string>, firstName: Option<string>, lastName: Option<string>)
      modifies this
      ensures users == if userId in old(users) then old(users)
                       else old(users)[userId := Account(username, firstName, lastName, NoDate)]
    {
      if userId !in users {
        users := users[userId := Account(username, firstName, lastName, NoDate)];
      }
    }

    /**
     * `update_subscription`: a known user's end becomes `NewEnd`; an unknown user is not
     * inserted (the UPDATE matches no row), and an unreadable end stays as it is.
     */
    method UpdateSubscription(userId: int, months: int, now: int)
      modifies this
      ensures userId in old(users) && NewEnd(old(users)[userId].subscriptionEnd, months, now).Some? ==>
        users == old(users)[userId := old(users)[userId].(subscriptionEnd :=
                   Date(NewEnd(old(users)[userId].subscriptionEnd, months, now).value))]
      ensures userId !in old(users) || NewEnd(old(users)[userId].subscriptionEnd, months, now).None? ==>
        users == old(users)
    {
      if userId in users {
        var account := users[userId];
        var end := NewEnd(account.subscriptionEnd, months, now);
        if end.Some? {
          users := users[userId := account.(subscriptionEnd := Date(end.value))];
        }
      }
    }

    /** `check_subscription`: the admin without looking at the table; anyone else by a stored end after `now`. */
    function CheckSubscription(userId: int, adminId: int, now: int): (r: bool)
      reads this
      ensures userId == adminId ==> r
      ensures userId != adminId ==> (r <==> userId in users && Active(users[userId].subscriptionEnd, now))
    {
      if userId == adminId then true
      else if userId !in users then false
      else
        match users[userId].subscriptionEnd
        case Date(day) => Midnight(day) > now
        case _ => false
    }
  }

  /** With at least one month, an extension that stays in range moves a stored end strictly later. */
  lemma ExtensionMovesEndLater(day: int, months: int, now: int)
    requires months >= 1 && FirstDay <= day && day + 30 * months <= LastDay
    ensures NewEnd(Date(day), months, now) == Some(day + 30 * months)
    ensures NewEnd(Date(day), months, now).value > day
  {
  }

  /**
   * An extension that would pass 9999-12-31 raises `OverflowError`, which is swallowed:
   * the stored end stays as it is, so a user whose end is that date keeps it.
   */
  lemma ExtensionBeyondLastDayKeepsEnd(store: UserStore, userId: int, months: int, now: int)
    requires userId in store.users && store.users[userId].subscriptionEnd == Date(LastDay) && months >= 1
    ensures NewEnd(store.users[userId].subscriptionEnd, months, now) == None
  {
  }

  /**
   * An end that has already passed is extended from itself, not from `now`: a user whose
   * subscription lapsed more than 30 days ago pays for a month and still has no access.
   */
  lemma LapsedExtensionStaysLapsed(day: int, now: int)
    requires FirstDay <= day && Midnight(day) + 30 * Day <= now <= LastInstant
    ensures NewEnd(Date(day), 1, now).Some?
    ensures !Active(Date(NewEnd(Date(day), 1, now).value), now)
  {
    assert Midnight(day + 30) == Midnight(day) + 30 * Day;
    DayInRangeMidnight(day + 30);
  }

  /** A first subscription of at least one month that stays in range grants access at once. */
  lemma FirstSubscriptionGrantsAccess(months: int, now: int)
    requires months >= 1 && FirstInstant <= now && now + 30 * months * Day <= LastInstant
    ensures NewEnd(NoDate, months, now).Some?
    ensures Active(Date(NewEnd(NoDate, months, now).value), now)
  {
    var end := NewEnd(NoDate, months, now).value;
    assert now + 30 * months * Day < Midnight(end) + Day;
    assert 30 * months * Day >= 30 * Day;
  }

  /** A first subscription that would end past 9999-12-31 raises, is swallowed and grants nothing. */
  lemma FirstSubscriptionBeyondRange(store: UserStore, userId: int, months: int, now: int)
    requires userId in store.users && store.users[userId].subscriptionEnd == NoDate
    requires now + 30 * months * Day > LastInstant
    ensures NewEnd(store.users[userId].subscriptionEnd, months, now) == None
    ensures !Active(store.users[userId].subscriptionEnd, now)
  {
  }

  /**
   * Only the date is kept, so a first subscription ends at a midnight up to a day before
   * `now` plus its 30-day months: access at a later instant holds exactly until that midnight.
   */
  lemma FirstSubscriptionEndsAtMidnight(months: int, now: int, later: int)
    requires FirstInstant <= now + 30 * months * Day <= LastInstant
    ensures NewEnd(NoDate, months, now).Some?
    ensures var end := NewEnd(NoDate, months, now).value;
      Active(Date(end), later) <==> later < Midnight(end)
    ensures now + 30 * months * Day - Day < Midnight(NewEnd(NoDate, months, now).value) <= now + 30 * months * Day
  {
  }

  /** The admin has access even with no row in the table. */
  lemma AdminAlwaysAdmitted(store: UserStore, adminId: int, now: int)
    requires adminId !in store.users
    ensures store.CheckSubscription(adminId, adminId, now)
  {
  }

  /** A user unknown to the table, other than the admin, has no access. */
  lemma UnknownUserRefused(store: UserStore, userId: int, adminId: int, now: int)
    requires userId !in store.users && userId != adminId
    ensures !store.CheckSubscription(userId, adminId, now)
  {
  }
}
