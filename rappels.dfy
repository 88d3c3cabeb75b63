/** The reminder manager: reminders with a title, a message and a due date
    written "DD/MM/YYYY HH:MM", kept in a list that is saved to a JSON file
    after each change, and a sweep that sends a notification for every due
    reminder and drops it.

    The JSON file is the ghost field `file`, the desktop notifications are
    returned as a list, and the wall clock is a parameter. */
module Rappels {
  import opened Text
  import opened Wrappers

  // ---------------------------------------------------------------------
  // Dates

  /** A naive date and time to the minute (what strptime yields for the
      format "%d/%m/%Y %H:%M": seconds and microseconds are 0). */
  datatype DateTime = DateTime(year: nat, month: nat, day: nat, hour: nat, minute: nat)

  /** The wall clock as datetime.now() returns it. */
  datatype Instant = Instant(date: DateTime, second: nat, microsecond: nat)

  predicate LeapYear(y: nat)
  {
    y % 4 == 0 && (y % 100 != 0 || y % 400 == 0)
  }

  function DaysInMonth(y: nat, m: nat): nat
    requires 1 <= m <= 12
  {
    if m == 2 then (if LeapYear(y) then 29 else 28)
    else if m == 4 || m == 6 || m == 9 || m == 11 then 30
    else 31
  }

  /** What the datetime constructor accepts. */
  predicate ValidDate(d: DateTime)
  {
    && 1 <= d.year <= 9999 && 1 <= d.month <= 12
    && 1 <= d.day <= DaysInMonth(d.year, d.month)
    && d.hour < 24 && d.minute < 60
  }

  /** s before the first occurrence of c, and s after it. */
  function Split(s: string, c: char): (r: Option<(string, string)>)
    ensures r.Some? ==> s == r.value.0 + [c] + r.value.1 && c !in r.value.0
    ensures r.None? ==> c !in s
  {
    if s == [] then None
    else if s[0] == c then Some(([], s[1..]))
    else match Split(s[1..], c)
      case None => None
      case Some((a, b)) => Some(([s[0]] + a, b))
  }

  /** Whitespace as \s matches it on ASCII text. */
  predicate IsSpace(c: char)
  {
    c == ' ' || c == '\t' || c == '\n' || c == '\r' || c as int == 11 || c as int == 12
  }

  /** Number of whitespace characters at the front of s. */
  function LeadingSpaces(s: string): (k: nat)
    ensures k <= |s| && (forall i :: 0 <= i < k ==> IsSpace(s[i]))
    ensures k < |s| ==> !IsSpace(s[k])
  {
    if s != [] && IsSpace(s[0]) then 1 + LeadingSpaces(s[1..]) else 0
  }

  /** A numeric field of one or two digits whose value lies in lo..hi, as
      the %m, %H and %M patterns of strptime accept it. */
  function NumField(s: string, lo: nat, hi: nat): (r: Option<nat>)
    ensures r.Some? ==> lo <= r.value <= hi
  {
    if 1 <= |s| <= 2 && AllDigits(s) && lo <= ParseNat(s) <= hi then Some(ParseNat(s)) else None
  }

  /** The %d field: one or two digits from 1 to 31, or a space and one digit. */
  function DayField(s: string): (r: Option<nat>)
    ensures r.Some? ==> 1 <= r.value <= 31
  {
    if |s| == 2 && s[0] == ' ' && IsDigit(s[1]) && s[1] != '0' then Some(DigitValue(s[1]))
    else NumField(s, 1, 31)
  }

  /** The %Y field: exactly four digits. */
  function YearField(s: string): (r: Option<nat>)
    ensures r.Some? ==> r.value <= 9999
  {
    if |s| == 4 && AllDigits(s) then ParseNatBound(s); Some(ParseNat(s)) else None
  }

  /** datetime.strptime(s, "%d/%m/%Y %H:%M"): day "/" month "/" year, a run
      of whitespace, hour ":" minute, nothing after, and a date the
      calendar has. No field can hold '/' or ':', so each separator is the
      first one after the previous field. */
  function ParseDate(s: string): (r: Option<DateTime>)
    ensures r.Some? ==> ValidDate(r.value)
  {
    match Split(s, '/')
    case None => None
    case Some((ds, rest)) => ParseAfterDay(ds, rest)
  }

  function ParseAfterDay(ds: string, rest: string): (r: Option<DateTime>)
    ensures r.Some? ==> ValidDate(r.value)
  {
    match Split(rest, '/')
    case None => None
    case Some((ms, rest')) => ParseAfterMonth(ds, ms, rest')
  }

  function ParseAfterMonth(ds: string, ms: string, rest: string): (r: Option<DateTime>)
    ensures r.Some? ==> ValidDate(r.value)
  {
    if |rest| < 4 then None
    else
      var clock := rest[4..];
      var w := LeadingSpaces(clock);
      if w == 0 then None else ParseClock(ds, ms, rest[..4], clock[w..])
  }

  function ParseClock(ds: string, ms: string, ys: string, clock: string): (r: Option<DateTime>)
    ensures r.Some? ==> ValidDate(r.value)
  {
    match Split(clock, ':')
    case None => None
    case Some((hs, mins)) => Fields(ds, ms, ys, hs, mins)
  }

  /** The date the five field texts denote, if each field is well formed and
      the datetime constructor accepts the result. */
  function Fields(ds: string, ms: string, ys: string, hs: string, mins: string): (r: Option<DateTime>)
    ensures r.Some? ==> ValidDate(r.value)
  {
    var day, month, year := DayField(ds), NumField(ms, 1, 12), YearField(ys);
    var hour, minute := NumField(hs, 0, 23), NumField(mins, 0, 59);
    if day.Some? && month.Some? && year.Some? && hour.Some? && minute.Some?
       && year.value >= 1 && day.value <= DaysInMonth(year.value, month.value)
    then Some(DateTime(year.value, month.value, day.value, hour.value, minute.value))
    else None
  }

  /** The text day "/" month "/" year " " hour ":" minute. */
  function Layout(ds: string, ms: string, ys: string, hs: string, mins: string): string
  {
    ds + "/" + ms + "/" + ys + " " + hs + ":" + mins
  }

  /** strftime("%d/%m/%Y %H:%M"). */
  function FormatDate(d: DateTime): string
  {
    Layout(FixedDigits(d.day, 2), FixedDigits(d.month, 2), FixedDigits(d.year, 4),
           FixedDigits(d.hour, 2), FixedDigits(d.minute, 2))
  }

  /** The shape FormatDate always produces: DD/MM/YYYY HH:MM. */
  predicate Canonical(s: string)
  {
    && |s| == 16
    && s == Layout(s[..2], s[3..5], s[6..10], s[11..13], s[14..])
    && AllDigits(s[..2]) && AllDigits(s[3..5]) && AllDigits(s[6..10])
    && AllDigits(s[11..13]) && AllDigits(s[14..])
  }

  lemma DigitsLackChar(s: string, c: char)
    requires AllDigits(s) && !IsDigit(c)
    ensures c !in s
  {
  }

  /** Splitting at the first c of a + [c] + b gives a and b back when a has no c. */
  lemma {:induction false} SplitAt(a: string, c: char, b: string)
    requires c !in a
    ensures Split(a + [c] + b, c) == Some((a, b))
  {
    var s := a + [c] + b;
    if a == [] {
      assert s[1..] == b;
    } else {
      assert s[0] == a[0] && s[1..] == a[1..] + [c] + b;
      SplitAt(a[1..], c, b);
      assert [a[0]] + a[1..] == a;
    }
  }

  /** The fields of a fixed-width layout sit at fixed positions. */
  lemma LayoutSlices(ds: string, ms: string, ys: string, hs: string, mins: string)
    requires |ds| == 2 && |ms| == 2 && |ys| == 4 && |hs| == 2 && |mins| == 2
    ensures var t := Layout(ds, ms, ys, hs, mins);
      && |t| == 16 && t[..2] == ds && t[3..5] == ms && t[6..10] == ys
      && t[11..13] == hs && t[14..] == mins
  {
    var t := Layout(ds, ms, ys, hs, mins);
    assert t[..2] == ds;
    assert t[3..5] == ms;
    assert t[6..10] == ys;
    assert t[11..13] == hs;
    assert t[14..] == mins;
  }

  /** The clock part: a single space, then hour ":" minute. */
  lemma ParseClockAt(ds: string, ms: string, ys: string, hs: string, mins: string)
    requires |ys| == 4 && ':' !in hs && hs != [] && !IsSpace(hs[0])
    ensures ParseAfterMonth(ds, ms, ys + " " + hs + ":" + mins) == Fields(ds, ms, ys, hs, mins)
  {
    var clock := " " + hs + ":" + mins;
    var rest := ys + clock;
    assert rest == ys + " " + hs + ":" + mins;
    assert rest[..4] == ys && rest[4..] == clock;
    assert LeadingSpaces(clock) == 1 by {
      assert clock[1] == hs[0];
    }
    assert clock[1..] == hs + [':'] + mins;
    SplitAt(hs, ':', mins);
  }

  /** Parsing text laid out as day/month/year, one space, hour:minute. */
  lemma ParseLaidOut(ds: string, ms: string, ys: string, hs: string, mins: string)
    requires '/' !in ds && '/' !in ms && |ys| == 4 && ':' !in hs && hs != [] && !IsSpace(hs[0])
    ensures ParseDate(Layout(ds, ms, ys, hs, mins)) == Fields(ds, ms, ys, hs, mins)
  {
    var rest' := ys + " " + hs + ":" + mins;
    var rest := ms + [ '/' ] + rest';
    assert Layout(ds, ms, ys, hs, mins) == ds + ['/'] + rest;
    SplitAt(ds, '/', rest);
    SplitAt(ms, '/', rest');
    ParseClockAt(ds, ms, ys, hs, mins);
  }

  lemma NumFieldOfFixed(n: nat, lo: nat, hi: nat)
    requires lo <= n <= hi && n < 100
    ensures NumField(FixedDigits(n, 2), lo, hi) == Some(n)
  {
    ParseFixedDigits(n, 2);
  }

  /** The fixed-width fields of a valid date read back as that date. */
  lemma FieldsOfFixed(d: DateTime)
    requires ValidDate(d)
    ensures Fields(FixedDigits(d.day, 2), FixedDigits(d.month, 2), FixedDigits(d.year, 4),
                   FixedDigits(d.hour, 2), FixedDigits(d.minute, 2)) == Some(d)
  {
    NumFieldOfFixed(d.day, 1, 31);
    NumFieldOfFixed(d.month, 1, 12);
    NumFieldOfFixed(d.hour, 0, 23);
    NumFieldOfFixed(d.minute, 0, 59);
    ParseFixedDigits(d.year, 4);
  }

  /** Every valid date survives formatting and parsing. */
  lemma ParseFormatDate(d: DateTime)
    requires ValidDate(d)
    ensures ParseDate(FormatDate(d)) == Some(d)
  {
    var ds, ms, ys := FixedDigits(d.day, 2), FixedDigits(d.month, 2), FixedDigits(d.year, 4);
    var hs, mins := FixedDigits(d.hour, 2), FixedDigits(d.minute, 2);
    DigitsLackChar(ds, '/');
    DigitsLackChar(ms, '/');
    DigitsLackChar(hs, ':');
    ParseLaidOut(ds, ms, ys, hs, mins);
    FieldsOfFixed(d);
  }

  /** Digit fields that parse to a date are the fixed-width renderings of
      that date's fields. */
  lemma FixedOfFields(ds: string, ms: string, ys: string, hs: string, mins: string)
    requires |ds| == 2 && |ms| == 2 && |ys| == 4 && |hs| == 2 && |mins| == 2
    requires AllDigits(ds) && AllDigits(ms) && AllDigits(ys) && AllDigits(hs) && AllDigits(mins)
    requires Fields(ds, ms, ys, hs, mins).Some?
    ensures var d := Fields(ds, ms, ys, hs, mins).value;
      && FixedDigits(d.day, 2) == ds && FixedDigits(d.month, 2) == ms && FixedDigits(d.year, 4) == ys
      && FixedDigits(d.hour, 2) == hs && FixedDigits(d.minute, 2) == mins
  {
    FixedDigitsOfParse(ds);
    FixedDigitsOfParse(ms);
    FixedDigitsOfParse(ys);
    FixedDigitsOfParse(hs);
    FixedDigitsOfParse(mins);
  }

  /** A canonical string is exactly the formatting of the date it parses to:
      for it, parsing and formatting are inverse. */
  lemma FormatParseCanonical(s: string)
    requires Canonical(s) && ParseDate(s).Some?
    ensures FormatDate(ParseDate(s).value) == s
  {
    var ds, ms, ys, hs, mins := s[..2], s[3..5], s[6..10], s[11..13], s[14..];
    DigitsLackChar(ds, '/');
    DigitsLackChar(ms, '/');
    DigitsLackChar(hs, ':');
    ParseLaidOut(ds, ms, ys, hs, mins);
    FixedOfFields(ds, ms, ys, hs, mins);
  }

  /** Storing the formatted date normalises it once and for all: the stored
      text parses to the same date and is itself canonical. */
  lemma NormalisedDateStable(s: string)
    requires ParseDate(s).Some?
    ensures ParseDate(FormatDate(ParseDate(s).value)) == ParseDate(s)
    ensures Canonical(FormatDate(ParseDate(s).value))
  {
    var d := ParseDate(s).value;
    ParseFormatDate(d);
    FormatDateCanonical(d);
  }

  /** strftime("%d/%m/%Y %H:%M") always writes the canonical shape: two
      digits per field and four for the year, at fixed positions. */
  lemma FormatDateCanonical(d: DateTime)
    ensures Canonical(FormatDate(d))
  {
    LayoutSlices(FixedDigits(d.day, 2), FixedDigits(d.month, 2), FixedDigits(d.year, 4),
                 FixedDigits(d.hour, 2), FixedDigits(d.minute, 2));
  }

  /** Chronological order on dates: lexicographic on (year, month, day, hour, minute). */
  predicate DateLe(a: DateTime, b: DateTime)
  {
    || a.year < b.year
    || (a.year == b.year && a.month < b.month)
    || (a.year == b.year && a.month == b.month && a.day < b.day)
    || (a.year == b.year && a.month == b.month && a.day == b.day && a.hour < b.hour)
    || (a.year == b.year && a.month == b.month && a.day == b.day && a.hour == b.hour && a.minute <= b.minute)
  }

  /** datetime's `<=` between a parsed date (seconds and microseconds 0) and
      the wall clock, field by field. */
  predicate NotAfter(d: DateTime, now: Instant)
  {
    var n := now.date;
    || d.year < n.year
    || (d.year == n.year && d.month < n.month)
    || (d.year == n.year && d.month == n.month && d.day < n.day)
    || (d.year == n.year && d.month == n.month && d.day == n.day && d.hour < n.hour)
    || (d.year == n.year && d.month == n.month && d.day == n.day && d.hour == n.hour && d.minute < n.minute)
    || (d.year == n.year && d.month == n.month && d.day == n.day && d.hour == n.hour && d.minute == n.minute
        && (0 < now.second || (0 == now.second && 0 <= now.microsecond)))
  }

  /** Comparing with the wall clock only needs the clock's minute: the
      seconds of `now` never change the outcome. */
  lemma NotAfterMinute(d: DateTime, now: Instant)
    ensures NotAfter(d, now) <==> DateLe(d, now.date)
  {
  }

  lemma DateLeTotal(a: DateTime, b: DateTime)
    ensures DateLe(a, b) || DateLe(b, a)
    ensures DateLe(a, b) && DateLe(b, a) ==> a == b
  {
  }

  // ---------------------------------------------------------------------
  // Reminders

  /** One entry of the list: a dictionary with keys titre, message, date. */
  datatype Reminder = Reminder(title: string, message: string, date: string)

  /** A desktop notification as plyer shows it. */
  datatype Notification = Notification(title: string, message: string)

  datatype SweepError = InvalidStoredDate(date: string)

  /** Every stored date parses. */
  ghost predicate WellFormed(rs: seq<Reminder>)
  {
    forall i :: 0 <= i < |rs| ==> ParseDate(rs[i].date).Some?
  }

  /** Index of the first reminder whose date does not parse (|rs| if none). */
  function FirstInvalid(rs: seq<Reminder>): (k: nat)
    ensures k <= |rs|
  {
    FirstFailing(rs, (r: Reminder) => ParseDate(r.date).Some?)
  }

  /** Index of the first element that fails the test (|rs| if none). */
  function FirstFailing(rs: seq<Reminder>, ok: Reminder -> bool): (k: nat)
    ensures k <= |rs|
  {
    if rs == [] || !ok(rs[0]) then 0 else 1 + FirstFailing(rs[1..], ok)
  }

  predicate IsDue(r: Reminder, now: Instant)
  {
    ParseDate(r.date).Some? && NotAfter(ParseDate(r.date).value, now)
  }

  /** The elements of rs that pass the test, in order (a list comprehension). */
  function Filter(rs: seq<Reminder>, keep: Reminder -> bool): seq<Reminder>
  {
    if rs == [] then []
    else Filter(rs[..|rs| - 1], keep) + (if keep(rs[|rs| - 1]) then [rs[|rs| - 1]] else [])
  }

  function DueTest(now: Instant): Reminder -> bool
  {
    (r: Reminder) => IsDue(r, now)
  }

  function PendingTest(now: Instant): Reminder -> bool
  {
    (r: Reminder) => !IsDue(r, now)
  }

  /** The reminders the sweep notifies and removes, in list order. */
  function Due(rs: seq<Reminder>, now: Instant): seq<Reminder>
  {
    Filter(rs, DueTest(now))
  }

  /** The reminders the sweep keeps, in list order. */
  function Pending(rs: seq<Reminder>, now: Instant): seq<Reminder>
  {
    Filter(rs, PendingTest(now))
  }

  function DateDiffers(date: string): Reminder -> bool
  {
    (r: Reminder) => r.date != date
  }

  /** [r for r in rs if r["date"] != date]. */
  function WithoutDate(rs: seq<Reminder>, date: string): seq<Reminder>
  {
    Filter(rs, DateDiffers(date))
  }

  function Notifications(rs: seq<Reminder>): (ns: seq<Notification>)
    ensures |ns| == |rs|
    ensures forall i :: 0 <= i < |rs| ==> ns[i] == Notification(rs[i].title, rs[i].message)
  {
    seq(|rs|, i requires 0 <= i < |rs| => Notification(rs[i].title, rs[i].message))
  }

  /** list.remove: drops the first element equal to x. */
  function RemoveFirst(rs: seq<Reminder>, x: Reminder): seq<Reminder>
  {
    if rs == [] then []
    else if rs[0] == x then rs[1..]
    else [rs[0]] + RemoveFirst(rs[1..], x)
  }

  /** list.remove(x) on a list holding x: the list without its first x at
      index i, the elements before and after it kept in order. */
  lemma RemoveFirstSpec(rs: seq<Reminder>, x: Reminder) returns (i: nat)
    requires x in rs
    ensures i < |rs| && rs[i] == x && x !in rs[..i]
    ensures RemoveFirst(rs, x) == rs[..i] + rs[i + 1..]
  {
    i := 0;
    assert rs[i..] == rs;
    while rs[i] != x
      invariant i < |rs| && x !in rs[..i] && x in rs[i..]
      decreases |rs| - i
    {
      assert rs[i..] == [rs[i]] + rs[i + 1..];
      assert rs[..i + 1] == rs[..i] + [rs[i]];
      i := i + 1;
    }
    var rest := rs[i..];
    assert rs == rs[..i] + rest;
    RemoveFirstSkip(rs[..i], rest, x);
    assert rest[1..] == rs[i + 1..];
  }

  lemma {:induction false} FilterAppend(a: seq<Reminder>, b: seq<Reminder>, keep: Reminder -> bool)
    ensures Filter(a + b, keep) == Filter(a, keep) + Filter(b, keep)
  {
    if b != [] {
      var b' := b[..|b| - 1];
      assert (a + b)[..|a + b| - 1] == a + b';
      FilterAppend(a, b', keep);
    } else {
      assert a + b == a;
    }
  }

  /** What a comprehension keeps comes from the list and passes the test. */
  lemma {:induction false} FilterSound(rs: seq<Reminder>, keep: Reminder -> bool)
    ensures forall r :: r in Filter(rs, keep) <==> r in rs && keep(r)
    ensures |Filter(rs, keep)| <= |rs|
  {
    if rs != [] {
      FilterSound(rs[..|rs| - 1], keep);
      assert rs == rs[..|rs| - 1] + [rs[|rs| - 1]];
    }
  }

  /** A comprehension keeps the whole list when every element passes. */
  lemma {:induction false} FilterAll(rs: seq<Reminder>, keep: Reminder -> bool)
    requires forall i :: 0 <= i < |rs| ==> keep(rs[i])
    ensures Filter(rs, keep) == rs
  {
    if rs != [] {
      FilterAll(rs[..|rs| - 1], keep);
      assert rs == rs[..|rs| - 1] + [rs[|rs| - 1]];
    }
  }

  /** A test and its negation split the list: nothing lost, nothing duplicated. */
  lemma {:induction false} FilterPartition(rs: seq<Reminder>, keep: Reminder -> bool, drop: Reminder -> bool)
    requires forall r :: drop(r) == !keep(r)
    ensures multiset(Filter(rs, keep)) + multiset(Filter(rs, drop)) == multiset(rs)
  {
    if rs != [] {
      var init, x := rs[..|rs| - 1], rs[|rs| - 1];
      assert rs == init + [x];
      FilterPartition(init, keep, drop);
      PartitionSnoc(init, x, keep, drop);
    }
  }

  /** One more element lands in exactly one of the two comprehensions. */
  lemma PartitionSnoc(init: seq<Reminder>, x: Reminder, keep: Reminder -> bool, drop: Reminder -> bool)
    requires drop(x) == !keep(x)
    ensures multiset(Filter(init + [x], keep)) + multiset(Filter(init + [x], drop))
            == multiset(Filter(init, keep)) + multiset(Filter(init, drop)) + multiset{x}
    ensures multiset(init + [x]) == multiset(init) + multiset{x}
  {
    FilterSnoc(init, x, keep);
    FilterSnoc(init, x, drop);
    var a, b := Filter(init, keep), Filter(init, drop);
    if keep(x) {
      assert multiset(a + [x]) == multiset(a) + multiset{x};
    } else {
      assert multiset(b + [x]) == multiset(b) + multiset{x};
    }
  }

  /** The sweep splits the list in two: what it notifies and what it keeps.
      Nothing is lost or duplicated, everything notified is due and nothing
      kept is. */
  lemma DuePendingPartition(rs: seq<Reminder>, now: Instant)
    ensures multiset(Due(rs, now)) + multiset(Pending(rs, now)) == multiset(rs)
    ensures forall r :: r in Due(rs, now) <==> r in rs && IsDue(r, now)
    ensures forall r :: r in Pending(rs, now) <==> r in rs && !IsDue(r, now)
  {
    FilterPartition(rs, DueTest(now), PendingTest(now));
    FilterSound(rs, DueTest(now));
    FilterSound(rs, PendingTest(now));
  }

  /** A second sweep at the same time finds nothing more to send. */
  lemma SweepIdempotent(rs: seq<Reminder>, now: Instant)
    ensures Due(Pending(rs, now), now) == [] && Pending(Pending(rs, now), now) == Pending(rs, now)
  {
    var kept := Pending(rs, now);
    DuePendingPartition(rs, now);
    DuePendingPartition(kept, now);
    FilterAll(kept, PendingTest(now));
  }

  /** Deleting by date removes exactly the reminders with that date. */
  lemma WithoutDateSpec(rs: seq<Reminder>, date: string)
    ensures forall r :: r in WithoutDate(rs, date) <==> r in rs && r.date != date
    ensures |WithoutDate(rs, date)| <= |rs|
    ensures (forall r :: r in rs ==> r.date != date) ==> WithoutDate(rs, date) == rs
  {
    FilterSound(rs, DateDiffers(date));
    if forall r :: r in rs ==> r.date != date {
      FilterAll(rs, DateDiffers(date));
    }
  }

  lemma WellFormedPending(rs: seq<Reminder>, now: Instant)
    requires WellFormed(rs)
    ensures WellFormed(Pending(rs, now))
  {
    DuePendingPartition(rs, now);
    forall i | 0 <= i < |Pending(rs, now)| ensures ParseDate(Pending(rs, now)[i].date).Some? {
      assert Pending(rs, now)[i] in rs;
    }
  }

  lemma WellFormedWithoutDate(rs: seq<Reminder>, date: string)
    requires WellFormed(rs)
    ensures WellFormed(WithoutDate(rs, date))
  {
    WithoutDateSpec(rs, date);
    forall i | 0 <= i < |WithoutDate(rs, date)| ensures ParseDate(WithoutDate(rs, date)[i].date).Some? {
      assert WithoutDate(rs, date)[i] in rs;
    }
  }

  /** list.remove passes over a prefix that does not hold x. */
  lemma {:induction false} RemoveFirstSkip(kept: seq<Reminder>, rest: seq<Reminder>, x: Reminder)
    requires x !in kept
    ensures RemoveFirst(kept + rest, x) == kept + RemoveFirst(rest, x)
  {
    if kept != [] {
      assert (kept + rest)[1..] == kept[1..] + rest;
      RemoveFirstSkip(kept[1..], rest, x);
      assert kept == [kept[0]] + kept[1..];
    } else {
      assert kept + rest == rest;
    }
  }

  /** A comprehension over a list with its first element in front. */
  lemma FilterCons(x: Reminder, rest: seq<Reminder>, keep: Reminder -> bool)
    ensures Filter([x] + rest, keep) == (if keep(x) then [x] else []) + Filter(rest, keep)
  {
    FilterAppend([x], rest, keep);
    FilterSingle(x, keep);
  }

  lemma FilterSingle(x: Reminder, keep: Reminder -> bool)
    ensures Filter([x], keep) == if keep(x) then [x] else []
  {
    assert [x][..0] == [];
  }

  /** A comprehension over a list with one more element at the end. */
  lemma FilterSnoc(rs: seq<Reminder>, x: Reminder, keep: Reminder -> bool)
    ensures Filter(rs + [x], keep) == Filter(rs, keep) + (if keep(x) then [x] else [])
  {
    assert (rs + [x])[..|rs|] == rs;
  }

  /** The first element a comprehension keeps, and how the list and the
      comprehension split there. */
  lemma FirstKept(rs: seq<Reminder>, keep: Reminder -> bool) returns (q: nat)
    requires Filter(rs, keep) != []
    ensures q < |rs| && keep(rs[q]) && (forall t :: 0 <= t < q ==> !keep(rs[t]))
    ensures Filter(rs, keep) == [rs[q]] + Filter(rs[q + 1..], keep)
  {
    q := 0;
    while q < |rs| && !keep(rs[q])
      invariant q <= |rs| && forall t :: 0 <= t < q ==> !keep(rs[t])
      invariant Filter(rs[q..], keep) == Filter(rs, keep)
    {
      assert rs[q..] == [rs[q]] + rs[q + 1..];
      FilterCons(rs[q], rs[q + 1..], keep);
      q := q + 1;
    }
    assert rs[q..] == [rs[q]] + rs[q + 1..];
    FilterCons(rs[q], rs[q + 1..], keep);
  }

  /** Extending a prefix by elements that all pass and one that does not. */
  lemma FilterExtend(prefix: seq<Reminder>, passed: seq<Reminder>, x: Reminder, keep: Reminder -> bool)
    requires (forall t :: 0 <= t < |passed| ==> keep(passed[t])) && !keep(x)
    ensures Filter(prefix + passed + [x], keep) == Filter(prefix, keep) + passed
  {
    FilterSnoc(prefix + passed, x, keep);
    FilterAppend(prefix, passed, keep);
    FilterAll(passed, keep);
  }

  /** list.remove of x from kept + skipped + [x] + tail, where neither kept
      nor skipped holds x. */
  lemma RemoveAfter(kept: seq<Reminder>, skipped: seq<Reminder>, x: Reminder, tail: seq<Reminder>)
    requires x !in kept && x !in skipped
    ensures RemoveFirst(kept + (skipped + [x] + tail), x) == kept + skipped + tail
  {
    RemoveFirstSkip(kept, skipped + [x] + tail, x);
    assert skipped + [x] + tail == skipped + ([x] + tail);
    RemoveFirstSkip(skipped, [x] + tail, x);
    assert ([x] + tail)[1..] == tail;
  }

  /** In the list left after removing the reminders notified so far, the
      next one to remove is the first element equal to it, so list.remove
      takes exactly that one out. Stated for any test `keep` and its
      negation `drop`; the sweep uses "due" and "not due". */
  lemma RemoveNext(original: seq<Reminder>, keep: Reminder -> bool, drop: Reminder -> bool, p: nat) returns (q: nat)
    requires forall r :: drop(r) == !keep(r)
    requires p <= |original| && Filter(original[p..], keep) != []
    ensures p <= q < |original|
    ensures Filter(original[p..], keep) == [original[q]] + Filter(original[q + 1..], keep)
    ensures RemoveFirst(Filter(original[..p], drop) + original[p..], original[q])
            == Filter(original[..q + 1], drop) + original[q + 1..]
  {
    var rest := original[p..];
    var r := FirstKept(rest, keep);
    q := p + r;
    var x, skipped, tail := original[q], rest[..r], original[q + 1..];
    assert rest[r + 1..] == tail && rest == skipped + [x] + tail;
    assert original[..q + 1] == original[..p] + skipped + [x];
    var kept := Filter(original[..p], drop);
    FilterSound(original[..p], drop);
    assert forall t :: 0 <= t < |skipped| ==> drop(skipped[t]);
    RemoveAfter(kept, skipped, x, tail);
    FilterExtend(original[..p], skipped, x, drop);
  }

  class GestionnaireRappels {
    var rappels: seq<Reminder>
    /** The contents of rappels.json; None when the file does not exist. */
    ghost var file: Option<seq<Reminder>>

    /** charger_rappels: the saved list, or an empty one when there is no file. */
    constructor (stored: Option<seq<Reminder>>)
      ensures rappels == (if stored.Some? then stored.value else []) && file == stored
    {
      rappels := if stored.Some? then stored.value else [];
      file := stored;
    }

    /** sauvegarder_rappels: the file now holds the list. */
    method SauvegarderRappels()
      modifies this
      ensures rappels == old(rappels) && file == Some(rappels)
    {
      file := Some(rappels);
    }

    /** ajouter_rappel_gui: appends the reminder with its date normalised and
        saves; an unparsable date is refused and nothing changes. */
    method AjouterRappelGui(titre: string, message: string, dateStr: string) returns (outcome: Outcome<string>)
      modifies this
      ensures ParseDate(dateStr).None? ==>
                outcome == Fail("Format de date invalide!") && rappels == old(rappels) && file == old(file)
      ensures ParseDate(dateStr).Some? ==>
                && outcome == Pass
                && rappels == old(rappels) + [Reminder(titre, message, FormatDate(ParseDate(dateStr).value))]
                && file == Some(rappels)
      ensures WellFormed(old(rappels)) ==> WellFormed(rappels)
    {
      var parsed := ParseDate(dateStr);
      if parsed.None? {
        return Fail("Format de date invalide!");
      }
      var rappel := Reminder(titre, message, FormatDate(parsed.value));
      NormalisedDateStable(dateStr);
      rappels := rappels + [rappel];
      SauvegarderRappels();
      return Pass;
    }

    /** supprimer_rappel: drops every reminder with that date and saves. */
    method SupprimerRappel(dateStr: string)
      modifies this
      ensures rappels == WithoutDate(old(rappels), dateStr) && file == Some(rappels)
      ensures WellFormed(old(rappels)) ==> WellFormed(rappels)
    {
      var kept: seq<Reminder> := [];
      var i := 0;
      while i < |rappels|
        invariant 0 <= i <= |rappels| && kept == WithoutDate(rappels[..i], dateStr)
      {
        assert rappels[..i + 1][..i] == rappels[..i];
        if rappels[i].date != dateStr {
          kept := kept + [rappels[i]];
        }
        i := i + 1;
      }
      assert rappels[..i] == rappels;
      if WellFormed(rappels) {
        WellFormedWithoutDate(rappels, dateStr);
      }
      rappels := kept;
      SauvegarderRappels();
    }

    /** verifier_rappels at wall-clock time `now`: notifies every due
        reminder in list order, then removes them and saves. A stored date
        that does not parse stops the sweep there: the reminders before it
        that were due have been notified, and the list and the file are
        left as they were. */
    method VerifierRappels(now: Instant) returns (sent: seq<Notification>, outcome: Outcome<SweepError>)
      modifies this
      ensures outcome.Pass? <==> WellFormed(old(rappels))
      ensures outcome.Pass? ==>
                && sent == Notifications(Due(old(rappels), now))
                && rappels == Pending(old(rappels), now) && file == Some(rappels)
      ensures outcome.Fail? ==>
                && FirstInvalid(old(rappels)) < |old(rappels)|
                && outcome.error == InvalidStoredDate(old(rappels)[FirstInvalid(old(rappels))].date)
                && sent == Notifications(Due(old(rappels)[..FirstInvalid(old(rappels))], now))
                && rappels == old(rappels) && file == old(file)
      ensures WellFormed(old(rappels)) ==> WellFormed(rappels)
    {
      var aSupprimer;
      aSupprimer, sent, outcome := CollectDue(now);
      if outcome.Fail? {
        return;
      }
      RemoveAll(aSupprimer, now);
      WellFormedPending(old(rappels), now);
      SauvegarderRappels();
    }

    /** The first loop of verifier_rappels: notifies each due reminder and
        collects it, stopping at the first stored date that does not parse. */
    method CollectDue(now: Instant) returns (aSupprimer: seq<Reminder>, sent: seq<Notification>, outcome: Outcome<SweepError>)
      ensures outcome.Pass? <==> WellFormed(rappels)
      ensures outcome.Pass? ==> aSupprimer == Due(rappels, now)
      ensures outcome.Fail? ==>
                && FirstInvalid(rappels) < |rappels|
                && outcome.error == InvalidStoredDate(rappels[FirstInvalid(rappels)].date)
                && aSupprimer == Due(rappels[..FirstInvalid(rappels)], now)
      ensures sent == Notifications(aSupprimer)
    {
      sent, aSupprimer := [], [];
      var i := 0;
      while i < |rappels|
        invariant 0 <= i <= |rappels| && ParsedUpTo(rappels, i)
        invariant aSupprimer == Due(rappels[..i], now) && sent == Notifications(aSupprimer)
      {
        assert rappels[..i + 1] == rappels[..i] + [rappels[i]];
        FilterSnoc(rappels[..i], rappels[i], DueTest(now));
        var dateRappel := ParseDate(rappels[i].date);
        if dateRappel.None? {
          FirstInvalidAt(rappels, i);
          return aSupprimer, sent, Fail(InvalidStoredDate(rappels[i].date));
        }
        assert DueTest(now)(rappels[i]) == NotAfter(dateRappel.value, now);
        if NotAfter(dateRappel.value, now) {
          NotificationsSnoc(aSupprimer, rappels[i]);
          sent := sent + [Notification(rappels[i].title, rappels[i].message)];
          aSupprimer := aSupprimer + [rappels[i]];
        }
        ParsedStep(rappels, i);
        i := i + 1;
      }
      assert rappels[..i] == rappels;
      outcome := Pass;
    }

    /** The second loop of verifier_rappels: list.remove of each collected
        reminder leaves exactly the ones that were not due. */
    method RemoveAll(aSupprimer: seq<Reminder>, ghost now: Instant)
      requires aSupprimer == Due(rappels, now)
      modifies this
      ensures rappels == Pending(old(rappels), now) && file == old(file)
    {
      ghost var original := rappels;
      ghost var p := 0;
      Complementary(now);
      var k := 0;
      while k < |aSupprimer|
        invariant file == old(file)
        invariant Removing(original, DueTest(now), PendingTest(now), aSupprimer, k, p, rappels)
      {
        p := RemoveStep(original, DueTest(now), PendingTest(now), aSupprimer, k, p, rappels);
        rappels := RemoveFirst(rappels, aSupprimer[k]);
        k := k + 1;
      }
      RemoveDone(original, DueTest(now), PendingTest(now), aSupprimer, p, rappels);
    }
  }

  /** The state of the removal loop after k removals: the collected
      reminders still to remove are those kept by `keep` from position p
      on, and the list is the prefix up to p without them, then the rest. */
  ghost predicate Removing(original: seq<Reminder>, keep: Reminder -> bool, drop: Reminder -> bool,
                           collected: seq<Reminder>, k: int, p: int, current: seq<Reminder>)
  {
    && 0 <= k <= |collected| && 0 <= p <= |original|
    && collected[k..] == Filter(original[p..], keep)
    && current == Filter(original[..p], drop) + original[p..]
  }

  lemma RemoveStep(original: seq<Reminder>, keep: Reminder -> bool, drop: Reminder -> bool,
                   collected: seq<Reminder>, k: int, p: int, current: seq<Reminder>) returns (p': int)
    requires forall r :: drop(r) == !keep(r)
    requires Removing(original, keep, drop, collected, k, p, current) && k < |collected|
    ensures Removing(original, keep, drop, collected, k + 1, p', RemoveFirst(current, collected[k]))
  {
    var q := RemoveNext(original, keep, drop, p);
    assert collected[k] == original[q] && collected[k + 1..] == collected[k..][1..];
    p' := q + 1;
  }

  lemma RemoveDone(original: seq<Reminder>, keep: Reminder -> bool, drop: Reminder -> bool,
                   collected: seq<Reminder>, p: int, current: seq<Reminder>)
    requires forall r :: drop(r) == !keep(r)
    requires Removing(original, keep, drop, collected, |collected|, p, current)
    ensures current == Filter(original, drop)
  {
    var rest := original[p..];
    FilterSound(rest, keep);
    forall i | 0 <= i < |rest| ensures drop(rest[i]) {
      assert rest[i] in rest;
    }
    FilterAll(rest, drop);
    assert original == original[..p] + rest;
    FilterAppend(original[..p], rest, drop);
  }

  lemma NotificationsSnoc(rs: seq<Reminder>, r: Reminder)
    ensures Notifications(rs + [r]) == Notifications(rs) + [Notification(r.title, r.message)]
  {
  }

  /** "Not due" is the negation of "due". */
  lemma Complementary(now: Instant)
    ensures forall r :: PendingTest(now)(r) == !DueTest(now)(r)
  {
  }

  /** The first i stored dates parse. */
  ghost predicate ParsedUpTo(rs: seq<Reminder>, i: nat)
    requires i <= |rs|
  {
    forall t :: 0 <= t < i ==> ParseDate(rs[t].date).Some?
  }

  lemma ParsedStep(rs: seq<Reminder>, i: nat)
    requires i < |rs| && ParsedUpTo(rs, i) && ParseDate(rs[i].date).Some?
    ensures ParsedUpTo(rs, i + 1)
  {
  }

  /** The sweep stops exactly at the first reminder whose date does not parse. */
  lemma FirstInvalidAt(rs: seq<Reminder>, i: nat)
    requires i < |rs| && ParsedUpTo(rs, i) && ParseDate(rs[i].date).None?
    ensures FirstInvalid(rs) == i && !WellFormed(rs)
  {
    FirstFailingAt(rs, (r: Reminder) => ParseDate(r.date).Some?, i);
  }

  lemma {:induction false} FirstFailingAt(rs: seq<Reminder>, ok: Reminder -> bool, i: nat)
    requires i < |rs| && !ok(rs[i])
    requires forall t :: 0 <= t < i ==> ok(rs[t])
    ensures FirstFailing(rs, ok) == i
  {
    if i > 0 {
      var tail := rs[1..];
      assert tail[i - 1] == rs[i];
      assert forall t :: 0 <= t < i - 1 ==> tail[t] == rs[t + 1];
      FirstFailingAt(tail, ok, i - 1);
    }
  }

}
