/**
 * How `/remind` reads a time (bot.py): `parse_reminder_time` turns a short Russian phrase
 * into a clock reading, and the `/remind` argument loop decides which leading arguments
 * form that phrase.
 */
module ReminderTime {
  import opened Common
  import opened Text
  import opened Clock

  const Through: string := "через"
  const Tomorrow: string := "завтра"

  /**
   * `parse_reminder_time(time_str)` at clock reading `now`: `None` when the phrase is not
   * recognised or a conversion inside raises.  The relative form is tried first, then
   * any phrase with a colon, then the "tomorrow" form.  Every result is a time a
   * `datetime` can hold.
   */
  function ParseReminderTime(timeStr: string, now: int): (r: Option<int>)
    ensures r.Some? ==> r.value <= LastInstant
  {
    var s := Strip(Lower(timeStr));
    if StartsWith(s, Through) then WithinRange(ParseRelative(s, now))
    else if ':' in s then
      if |s| == 5 then WithinRange(ParseTodayAt(s, now)) else ParseAbsolute(s)
    else if StartsWith(s, Tomorrow) then WithinRange(ParseTomorrow(s, now))
    else None
  }

  /** Adding to a `datetime` past its last second raises `OverflowError`, which the parser turns into `None`. */
  function WithinRange(r: Option<int>): Option<int> {
    if r.Some? && r.value > LastInstant then None else r
  }

  /** The length of the unit named anywhere in the phrase, looked for as minutes, then hours, then days. */
  function RelativeUnit(s: string): Option<int> {
    if Contains(s, "минут") then Some(Minute)
    else if Contains(s, "час") then Some(Hour)
    else if Contains(s, "день") || Contains(s, "дня") || Contains(s, "дней") then Some(Day)
    else None
  }

  /** `через N <unit>`: N is every digit of the second word run together; no unit, no second word or no digit is a failure. */
  function ParseRelative(s: string, now: int): Option<int> {
    match RelativeUnit(s)
    case None => None
    case Some(unit) =>
      match RelativeCount(s)
      case None => None
      case Some(n) => Some(now + n * unit)
  }

  /** The count of a relative phrase: the digits of its second word, if it has one with a digit. */
  function RelativeCount(s: string): Option<nat> {
    var parts := Words(s);
    if |parts| < 2 then None else DigitRunValue(parts[1])
  }

  /** `HH:MM`: that time today, or tomorrow when it is already strictly past. */
  function ParseTodayAt(s: string, now: int): (r: Option<int>)
    ensures r.Some? <==> ParseClock(s).Some?
    ensures r.Some? ==> now <= r.value < now + Day
    ensures r.Some? ==> r.value - DayStart(r.value) == SecondsOfDay(ParseClock(s).value)
    ensures r.Some? && now - DayStart(now) <= SecondsOfDay(ParseClock(s).value) ==>
      r.value == DayStart(now) + SecondsOfDay(ParseClock(s).value)
  {
    match ParseClock(s)
    case None => None
    case Some(c) =>
      var today := DayStart(now) + SecondsOfDay(c);
      MidnightPlus(DayStart(now) / Day, SecondsOfDay(c));
      MidnightPlus(DayStart(now) / Day + 1, SecondsOfDay(c));
      Some(if today < now then today + Day else today)
  }

  /** `YYYY-MM-DD HH:MM`: that moment, whether past or future. */
  function ParseAbsolute(s: string): (r: Option<int>)
    ensures r.Some? <==> ParseDateTime(s).Some?
    ensures r.Some? ==> r == Some(EpochSeconds(ParseDateTime(s).value))
    ensures r.Some? ==> r.value <= LastInstant
  {
    match ParseDateTime(s)
    case None => None
    case Some(d) =>
      EpochSecondsInRange(d);
      Some(EpochSeconds(d))
  }

  /** `завтра HH:MM`: the word removed, the rest read as a time of day tomorrow. */
  function ParseTomorrow(s: string, now: int): Option<int> {
    var part := Strip(RemoveAll(s, Tomorrow));
    if ':' in part then
      match ParseClock(part)
      case None => None
      case Some(c) => Some(DayStart(now + Day) + SecondsOfDay(c))
    else None
  }

  predicate Lowercase(s: string) {
    forall i :: 0 <= i < |s| ==> !IsUpper(s[i])
  }

  lemma LowercaseAppend(a: string, b: string)
    requires Lowercase(a) && Lowercase(b)
    ensures Lowercase(a + b)
  {
    assert forall i :: |a| <= i < |a + b| ==> (a + b)[i] == b[i - |a|];
  }

  lemma DigitsLowercase(s: string)
    requires AllDigits(s)
    ensures Lowercase(s)
  {
  }

  /** A phrase in its canonical spelling is unchanged by `lower().strip()`. */
  lemma CanonicalPhrase(s: string)
    requires Lowercase(s) && s != [] && !IsSpace(s[0]) && !IsSpace(s[|s| - 1])
    ensures Strip(Lower(s)) == s
  {
    LowerWithoutCapitals(s);
    StripUntrimmed(s);
  }

  /** Whatever follows "завтра", a phrase starting with it is never recognised: a colon sends it to the date form first. */
  lemma TomorrowNeverParses(timeStr: string, now: int)
    requires StartsWith(Strip(Lower(timeStr)), Tomorrow)
    ensures ParseReminderTime(timeStr, now) == None
  {
    var s := Strip(Lower(timeStr));
    assert s[0] == 'з';
    assert !StartsWith(s, Through) by {
      assert s[..5][0] != Through[0];
    }
    if ':' in s {
      assert |s| != 5;
      assert !IsDigit(s[..4][0]);
      assert Field(s[..4]).None?;
    } else {
      var part := Strip(RemoveAll(s, Tomorrow));
      if ':' in part {
        StripChars(RemoveAll(s, Tomorrow), ':');
        RemoveAllChars(s, Tomorrow, ':');
        assert false;
      }
    }
  }

  /** A printed time of day goes to the `HH:MM` branch and is read back as itself. */
  lemma ClockPhraseBranch(c: ClockTime, now: int)
    requires ValidClock(c)
    ensures ParseReminderTime(FormatClock(c), now) == WithinRange(ParseTodayAt(FormatClock(c), now))
    ensures ParseClock(FormatClock(c)) == Some(c)
  {
    var s := FormatClock(c);
    DigitsLowercase(Pad2(c.hour));
    DigitsLowercase(Pad2(c.minute));
    LowercaseAppend(Pad2(c.hour), ":");
    LowercaseAppend(Pad2(c.hour) + ":", Pad2(c.minute));
    CanonicalPhrase(s);
    assert s[2] == ':';
    assert !StartsWith(s, Through) by {
      assert IsDigit(s[0]);
    }
    ClockRoundTrip(c);
  }

  /** Before the last day `datetime` can hold, `HH:MM` always yields a moment in the coming day, `now` itself included, at exactly that time of day. */
  lemma ClockPhrase(c: ClockTime, now: int)
    requires ValidClock(c)
    requires now + Day <= LastInstant
    ensures ParseReminderTime(FormatClock(c), now).Some?
    ensures var r := ParseReminderTime(FormatClock(c), now).value;
      now <= r < now + Day && r - DayStart(r) == SecondsOfDay(c)
  {
    ClockPhraseBranch(c, now);
  }

  /** The boundary: `HH:MM` naming the current minute when `now` is on that minute yields `now`, not tomorrow. */
  lemma ClockPhraseAtNow(c: ClockTime, now: int)
    requires ValidClock(c)
    requires now - DayStart(now) == SecondsOfDay(c) && now <= LastInstant
    ensures ParseReminderTime(FormatClock(c), now) == Some(now)
  {
    var s := FormatClock(c);
    ClockPhraseBranch(c, now);
    TodayAtNow(s, now);
  }

  lemma TodayAtNow(s: string, now: int)
    requires ParseClock(s).Some?
    requires now - DayStart(now) == SecondsOfDay(ParseClock(s).value)
    ensures ParseTodayAt(s, now) == Some(now)
  {
  }

  /**
   * The seconds are zeroed before the comparison: `HH:MM` naming the current minute, read
   * some seconds into that minute, is already past and goes to tomorrow.
   */
  lemma ClockPhraseLateInMinute(c: ClockTime, now: int)
    requires ValidClock(c)
    requires SecondsOfDay(c) < now - DayStart(now) < SecondsOfDay(c) + Minute
    requires now + Day <= LastInstant
    ensures ParseReminderTime(FormatClock(c), now) == Some(DayStart(now) + SecondsOfDay(c) + Day)
  {
    var s := FormatClock(c);
    ClockPhraseBranch(c, now);
    TodayAtPast(s, c, now);
  }

  /**
   * On 9999-12-31, an `HH:MM` already past would move to a day `datetime` cannot hold:
   * adding the day raises, and the phrase is not recognised.
   */
  lemma ClockPhraseOnLastDay(c: ClockTime, now: int)
    requires ValidClock(c)
    requires DayStart(now) == DayStart(LastInstant) && now - DayStart(now) > SecondsOfDay(c)
    ensures ParseReminderTime(FormatClock(c), now) == None
  {
    var s := FormatClock(c);
    ClockPhraseBranch(c, now);
    TodayAtPast(s, c, now);
    LastInstantIsLastSecond();
  }

  lemma TodayAtPast(s: string, c: ClockTime, now: int)
    requires ParseClock(s) == Some(c) && ValidClock(c)
    requires now - DayStart(now) > SecondsOfDay(c)
    ensures ParseTodayAt(s, now) == Some(DayStart(now) + SecondsOfDay(c) + Day)
  {
  }

  /** `YYYY-MM-DD HH:MM` yields exactly that moment, with no check that it lies in the future. */
  lemma DateTimePhrase(d: DateTime, now: int)
    requires ValidDateTime(d)
    ensures ParseReminderTime(FormatDateTime(d), now) == Some(EpochSeconds(d))
  {
    var s := FormatDateTime(d);
    DateTimeCanonical(d);
    assert s[13] == ':';
    assert !StartsWith(s, Through) by {
      assert IsDigit(s[0]);
    }
    DateTimeRoundTrip(d);
  }

  lemma DateTimeCanonical(d: DateTime)
    requires ValidDateTime(d)
    ensures Strip(Lower(FormatDateTime(d))) == FormatDateTime(d)
  {
    var y, mo, dd, h, mi := Pad4(d.year), Pad2(d.month), Pad2(d.day), Pad2(d.hour), Pad2(d.minute);
    DigitsLowercase(y);
    DigitsLowercase(mo);
    DigitsLowercase(dd);
    DigitsLowercase(h);
    DigitsLowercase(mi);
    LowercaseAppend(y, "-");
    LowercaseAppend(y + "-", mo);
    LowercaseAppend(y + "-" + mo, "-");
    LowercaseAppend(y + "-" + mo + "-", dd);
    LowercaseAppend(y + "-" + mo + "-" + dd, " ");
    LowercaseAppend(y + "-" + mo + "-" + dd + " ", h);
    LowercaseAppend(y + "-" + mo + "-" + dd + " " + h, ":");
    LowercaseAppend(y + "-" + mo + "-" + dd + " " + h + ":", mi);
    CanonicalPhrase(FormatDateTime(d));
  }

  /** The unit words the relative form understands, with the length of the unit each selects. */
  function UnitOf(w: string): Option<int> {
    if w in {"минут", "минуту", "минуты"} then Some(Minute)
    else if w in {"час", "часа", "часов"} then Some(Hour)
    else if w in {"день", "дня", "дней"} then Some(Day)
    else None
  }

  /** `через N <unit>` spelt with single blanks yields `now` plus N units, or `None` when that lies beyond the last `datetime`. */
  lemma RelativePhrase(n: nat, w: string, unit: int, now: int)
    requires UnitOf(w) == Some(unit)
    ensures ParseReminderTime(Through + " " + NatToString(n) + " " + w, now) ==
      if now + n * unit <= LastInstant then Some(now + n * unit) else None
  {
    var ds := NatToString(n);
    DigitsOfDigits(ds);
    NatToStringValue(n);
    RelativePhraseCanonical(ds, w);
    RelativePhraseWords(ds, w);
    RelativeUnitOfPhrase(ds, w);
    RelativeParts(Through + " " + ds + " " + w, ds, now, unit, n);
  }

  lemma RelativeParts(s: string, ds: string, now: int, u: int, n: nat)
    requires Strip(Lower(s)) == s && StartsWith(s, Through)
    requires |Words(s)| >= 2 && Words(s)[1] == ds && DigitsOf(ds) == ds && ds != [] && DecimalValue(ds) == n
    requires RelativeUnit(s) == Some(u)
    ensures ParseReminderTime(s, now) == WithinRange(Some(now + n * u))
  {
    CanonicalRelative(s, now);
    RelativeValue(s, ds, now, u, n);
  }

  lemma CanonicalRelative(s: string, now: int)
    requires Strip(Lower(s)) == s && StartsWith(s, Through)
    ensures ParseReminderTime(s, now) == WithinRange(ParseRelative(s, now))
  {
  }

  lemma RelativeValue(s: string, ds: string, now: int, u: int, n: nat)
    requires |Words(s)| >= 2 && Words(s)[1] == ds && DigitRunValue(ds) == Some(n)
    requires RelativeUnit(s) == Some(u)
    ensures ParseRelative(s, now) == Some(now + n * u)
  {
    RelativeCountOfWord(s, ds, n);
    RelativeOfCount(s, now, u, n);
  }

  lemma RelativeCountOfWord(s: string, ds: string, n: nat)
    requires |Words(s)| >= 2 && Words(s)[1] == ds && DigitRunValue(ds) == Some(n)
    ensures RelativeCount(s) == Some(n)
  {
  }

  lemma RelativeOfCount(s: string, now: int, u: int, n: nat)
    requires RelativeCount(s) == Some(n) && RelativeUnit(s) == Some(u)
    ensures ParseRelative(s, now) == Some(now + n * u)
  {
  }

  lemma RelativePhraseCanonical(ds: string, w: string)
    requires AllDigits(ds) && ds != [] && UnitOf(w).Some?
    ensures var s := Through + " " + ds + " " + w;
      Strip(Lower(s)) == s && StartsWith(s, Through)
  {
    var s := Through + " " + ds + " " + w;
    assert Lowercase(w);
    DigitsLowercase(ds);
    LowercaseAppend(Through + " ", ds);
    LowercaseAppend(Through + " " + ds, " ");
    LowercaseAppend(Through + " " + ds + " ", w);
    UnitWordIsWord(w);
    assert s[|s| - 1] == w[|w| - 1];
    CanonicalPhrase(s);
    assert s[..5] == Through;
  }

  lemma UnitWordIsWord(w: string)
    requires UnitOf(w).Some?
    ensures IsWord(w)
  {
  }

  lemma DigitsAreWord(ds: string)
    requires AllDigits(ds) && ds != []
    ensures IsWord(ds)
  {
  }

  /** The phrase `через N <unit>` splits into three words, the number second. */
  lemma RelativePhraseWords(ds: string, w: string)
    requires AllDigits(ds) && ds != [] && UnitOf(w).Some?
    ensures var ws := Words(Through + " " + ds + " " + w);
      |ws| >= 2 && ws[1] == ds
  {
    assert IsWord(Through);
    DigitsAreWord(ds);
    UnitWordIsWord(w);
    WordsOfThree(Through, ds, w);
    SecondOfThree(Words(Through + " " + ds + " " + w), Through, ds, w);
  }

  lemma RelativeUnitOfPhrase(ds: string, w: string)
    requires AllDigits(ds) && UnitOf(w).Some?
    ensures RelativeUnit(Through + " " + ds + " " + w) == UnitOf(w)
  {
    var s := Through + " " + ds + " " + w;
    var tail := |s| - |w|;
    assert s[tail..tail + |w|] == w;
    assert 'м' !in ds && 'а' !in ds by {
      forall k | 0 <= k < |ds| ensures ds[k] != 'м' && ds[k] != 'а' {
        assert IsDigit(ds[k]);
      }
    }
    if w in {"минут", "минуту", "минуты"} {
      ContainsAt(s, "минут", tail);
    } else {
      assert 'м' !in s;
      NotContainsMissingChar(s, "минут", 'м');
      if w in {"час", "часа", "часов"} {
        ContainsAt(s, "час", tail);
      } else {
        assert 'а' !in s;
        NotContainsMissingChar(s, "час", 'а');
        if w == "день" {
          ContainsAt(s, "день", tail);
        } else if w == "дня" {
          ContainsAt(s, "дня", tail);
        } else {
          ContainsAt(s, "дней", tail);
        }
      }
    }
  }

  /**
   * A relative phrase is recognised exactly when it names a unit, has a second word, that
   * word holds a digit, and the moment it names is one `datetime` can hold; then it yields
   * `now` plus N units.
   */
  lemma RelativeForm(timeStr: string, now: int)
    requires StartsWith(Strip(Lower(timeStr)), Through)
    ensures var s := Strip(Lower(timeStr));
      var ws := Words(s);
      ParseReminderTime(timeStr, now).Some? <==>
        (&& RelativeUnit(s).Some? && |ws| >= 2 && DigitsOf(ws[1]) != []
         && now + DecimalValue(DigitsOf(ws[1])) * RelativeUnit(s).value <= LastInstant)
    ensures var s := Strip(Lower(timeStr));
      ParseReminderTime(timeStr, now).Some? ==>
        ParseReminderTime(timeStr, now).value == now + DecimalValue(DigitsOf(Words(s)[1])) * RelativeUnit(s).value
  {
  }

  /** An argument the `/remind` loop takes as part of the time: it holds a colon, `через` or `завтра`. */
  predicate IsTimeToken(arg: string) {
    ':' in arg || Contains(arg, Through) || Contains(arg, Tomorrow)
  }

  /**
   * How many leading arguments `/remind` takes as the time: a first time token, then a
   * second one only when the first held no colon.
   */
  function TimeTokenCount(args: seq<string>): (k: nat)
    ensures k <= 2 && k <= |args|
  {
    if |args| == 0 || !IsTimeToken(args[0]) then 0
    else if ':' in args[0] || |args| == 1 || !IsTimeToken(args[1]) then 1
    else 2
  }

  /**
   * The rule the `/remind` loop follows, stated on the split point `k`: at most two time
   * tokens, only the last of them may hold a colon, and the time part ends early only at a
   * colon or at the first argument that is not a time token.
   */
  predicate IsRemindSplit(args: seq<string>, k: nat) {
    && k <= 2 && k <= |args|
    && (forall i :: 0 <= i < k ==> IsTimeToken(args[i]))
    && (forall i :: 0 <= i < k - 1 ==> ':' !in args[i])
    && (k < |args| ==> k == 2 || !IsTimeToken(args[k]) || (k > 0 && ':' in args[k - 1]))
  }

  /** The rule admits exactly one split point, the one the loop finds. */
  lemma RemindSplitUnique(args: seq<string>, k: nat)
    ensures IsRemindSplit(args, k) <==> k == TimeTokenCount(args)
  {
  }

  /** The `/remind` argument loop: leading time tokens go to the time part, everything after the first other argument to the text. */
  method SplitRemindArgs(args: seq<string>) returns (timeParts: seq<string>, textParts: seq<string>)
    ensures timeParts == args[..TimeTokenCount(args)]
    ensures textParts == args[TimeTokenCount(args)..]
  {
    ghost var k := TimeTokenCount(args);
    timeParts, textParts := [], [];
    var timeParsed := false;
    for i := 0 to |args|
      invariant i <= k ==> timeParts == args[..i] && textParts == []
      invariant i <= k ==> (timeParsed <==> i > 0 && (':' in args[i - 1] || i >= 2))
      invariant i > k ==> timeParts == args[..k] && textParts == args[k..i] && timeParsed
    {
      var arg := args[i];
      if !timeParsed && IsTimeToken(arg) {
        timeParts := timeParts + [arg];
        if ':' in arg || |timeParts| >= 2 {
          timeParsed := true;
        }
      } else {
        textParts := textParts + [arg];
        timeParsed := true;
      }
    }
  }

  /** The time `/remind` reads from its arguments: what the leading time tokens, joined by blanks, name. */
  function RemindTime(args: seq<string>, now: int): Option<int> {
    ParseReminderTime(Join(args[..TimeTokenCount(args)], " "), now)
  }

  /** The reminder text: the arguments after the time tokens, joined by blanks. */
  function RemindText(args: seq<string>): string {
    Join(args[TimeTokenCount(args)..], " ")
  }

  /** The argument handling of `/remind`: split the arguments, then read the time and join the text. */
  method ReadRemindArgs(args: seq<string>, now: int) returns (time: Option<int>, text: string)
    ensures time == RemindTime(args, now) && text == RemindText(args)
  {
    var timeParts, textParts := SplitRemindArgs(args);
    time := ParseReminderTime(Join(timeParts, " "), now);
    text := Join(textParts, " ");
  }

  /**
   * The documented example `/remind через 2 часа ...`: only `через` is taken for the time,
   * `2` and the unit land in the text, and the lone `через` is not recognised.
   */
  lemma ThroughHoursSplit(rest: seq<string>, now: int)
    ensures var args := [Through, "2", "часа"] + rest;
      TimeTokenCount(args) == 1 && args[..1] == [Through] && args[1..] == ["2", "часа"] + rest
    ensures ParseReminderTime(Join([Through], " "), now) == None
  {
    var args := [Through, "2", "часа"] + rest;
    ThroughIsTimeToken();
    DigitIsNoTimeToken();
    SingleTimeToken(args);
    assert args[1..] == ["2", "часа"] + rest;
    assert Join([Through], " ") == Through;
    LoneThroughNotRecognised(now);
  }

  /**
   * An argument with no colon and neither keyword ends the time part before it starts:
   * the time is read from the empty string and the command is refused.
   */
  lemma PlainFirstArgNotRecognised(first: string, rest: seq<string>, now: int)
    requires ':' !in first && !Contains(first, Through) && !Contains(first, Tomorrow)
    ensures TimeTokenCount([first] + rest) == 0
    ensures RemindTime([first] + rest, now) == None
  {
    var args := [first] + rest;
    assert args[..0] == [];
    assert Join([], " ") == [];
    assert Strip(Lower([])) == [];
  }

  /** A date argument such as `2024-12-25`: digits and dashes only. */
  predicate DateLike(arg: string) {
    forall i :: 0 <= i < |arg| ==> IsDigit(arg[i]) || arg[i] == '-'
  }

  /**
   * The help text's form `/remind 2024-12-25 10:00 …` is refused: the date has no colon
   * and no keyword, so nothing is taken as the time, whatever follows.
   */
  lemma DateArgsNotRecognised(date: string, rest: seq<string>, now: int)
    requires DateLike(date)
    ensures RemindTime([date] + rest, now) == None
  {
    assert 'ч' !in date && 'з' !in date && ':' !in date by {
      forall k | 0 <= k < |date| ensures date[k] != 'ч' && date[k] != 'з' && date[k] != ':' {
        assert IsDigit(date[k]) || date[k] == '-';
      }
    }
    NotContainsMissingChar(date, Through, 'ч');
    NotContainsMissingChar(date, Tomorrow, 'з');
    PlainFirstArgNotRecognised(date, rest, now);
  }

  /** The date of the help text's example is such an argument. */
  lemma HelpDateIsDateLike()
    ensures DateLike("2024-12-25")
  {
  }

  lemma ThroughIsTimeToken()
    ensures IsTimeToken(Through) && ':' !in Through
  {
    ContainsAt(Through, Through, 0);
  }

  lemma DigitIsNoTimeToken()
    ensures !IsTimeToken("2")
  {
    NotContainsMissingChar("2", Through, 'ч');
    NotContainsMissingChar("2", Tomorrow, 'з');
  }

  lemma SingleTimeToken(args: seq<string>)
    requires |args| >= 2 && IsTimeToken(args[0]) && ':' !in args[0] && !IsTimeToken(args[1])
    ensures TimeTokenCount(args) == 1
  {
  }

  lemma LoneThroughNotRecognised(now: int)
    ensures ParseReminderTime(Through, now) == None
  {
    ThroughCanonical();
    ThroughNamesNoUnit();
    NoUnitNotRecognised(Through, now);
  }

  lemma ThroughCanonical()
    ensures Strip(Lower(Through)) == Through && StartsWith(Through, Through)
  {
    assert Lowercase(Through);
    CanonicalPhrase(Through);
  }

  lemma ThroughNamesNoUnit()
    ensures RelativeUnit(Through) == None
  {
    NoUnitWithoutLetters(Through);
  }

  lemma NoUnitWithoutLetters(t: string)
    requires 'м' !in t && 'а' !in t && 'д' !in t
    ensures RelativeUnit(t) == None
  {
    NotContainsMissingChar(t, "минут", 'м');
    NotContainsMissingChar(t, "час", 'а');
    NotContainsMissingChar(t, "день", 'д');
    NotContainsMissingChar(t, "дня", 'д');
    NotContainsMissingChar(t, "дней", 'д');
  }

  lemma NoUnitNotRecognised(t: string, now: int)
    requires Strip(Lower(t)) == t && StartsWith(t, Through) && RelativeUnit(t) == None
    ensures ParseReminderTime(t, now) == None
  {
  }
}
