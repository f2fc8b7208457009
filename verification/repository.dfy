/**
 * DayAtWorkSqlRepository: the two read queries as filters over the table
 * (they take the table and return a list, so they cannot change it) and
 * the save as `AddOrUpdate`.
 */
module Repository {
  import opened DateTimes
  import opened Records
  import opened Seqs
  import opened Upsert

  /** The row predicate of `GetAttendees(date)`: dated in `[date, date.AddDays(1))`. */
  function InDay(date: DateTime): DayAtWork -> bool {
    (x: DayAtWork) => InWindow(x.date, date)
  }

  /** `GetAttendees(date)`: every row dated in `[date, date.AddDays(1))`, whatever its type. */
  function GetAttendees(t: Table, date: DateTime): (r: seq<DayAtWork>)
    ensures forall i :: 0 <= i < |r| ==> r[i] in t && InWindow(r[i].date, date)
    ensures forall i :: 0 <= i < |t| && InWindow(t[i].date, date) ==> t[i] in r
  {
    FilterMembers(t, InDay(date));
    Filter(t, InDay(date))
  }

  /** `GetDayAtWorkList(userId)`: the user's rows dated on or after `today` (DateTime.Today). */
  function GetDayAtWorkList(t: Table, userId: string, today: DateTime): (r: seq<DayAtWork>)
    ensures forall i :: 0 <= i < |r| ==> r[i] in t && r[i].userId == userId && NotBefore(r[i].date, today)
    ensures forall i :: 0 <= i < |t| && t[i].userId == userId && NotBefore(t[i].date, today) ==> t[i] in r
  {
    var p := (x: DayAtWork) => x.userId == userId && NotBefore(x.date, today);
    FilterMembers(t, p);
    Filter(t, p)
  }

  /**
   * `Update(dayAtWork)`: the upsert keyed by `(UserId, Date)`, then SaveChanges. The
   * `PUT api/dayAtWork` handlers of the two earlier API revisions do exactly this on
   * the context directly, and answer with an empty `Ok()`.
   */
  function Update(t: Table, e: DayAtWork): (r: Table)
    ensures e in r
    ensures UniqueKeys(t) ==> UniqueKeys(r) && View(r) == View(t)[KeyOf(e) := e]
  {
    AddOrUpdateIsMapUpdate(t, e);
    AddOrUpdate(t, e)
  }

  /** Any filter of a table with unique keys has unique keys. */
  lemma {:induction false} FilterKeepsKeysUnique(t: Table, p: DayAtWork -> bool)
    requires UniqueKeys(t)
    ensures UniqueKeys(Filter(t, p))
  {
    if |t| > 0 {
      FilterKeepsKeysUnique(t[1..], p);
      FilterMembers(t[1..], p);
      if p(t[0]) {
        var r := Filter(t, p);
        forall j | 1 <= j < |r|
          ensures KeyOf(r[0]) != KeyOf(r[j])
        {
          assert r[j] in t[1..];
        }
      }
    }
  }

  /** No query result holds two rows with the same `(UserId, Date)`. */
  lemma QueriesHaveUniqueKeys(t: Table, date: DateTime, userId: string, today: DateTime)
    requires UniqueKeys(t)
    ensures UniqueKeys(GetAttendees(t, date))
    ensures UniqueKeys(GetDayAtWorkList(t, userId, today))
  {
    FilterKeepsKeysUnique(t, InDay(date));
    FilterKeepsKeysUnique(t, (x: DayAtWork) => x.userId == userId && NotBefore(x.date, today));
  }

  /** After saving `e`, the attendees of `e`'s calendar day include `e` and no other row with its key. */
  lemma AttendeesAfterUpdate(t: Table, e: DayAtWork)
    requires UniqueKeys(t)
    ensures e in GetAttendees(Update(t, e), DateOf(e.date))
    ensures forall x :: x in GetAttendees(Update(t, e), DateOf(e.date)) && KeyOf(x) == KeyOf(e) ==> x == e
  {
    var t' := Update(t, e);
    var j :| 0 <= j < |t'| && t'[j] == e;
    QueriesHaveUniqueKeys(t', DateOf(e.date), e.userId, e.date);
    var r := GetAttendees(t', DateOf(e.date));
    assert e in r;
    forall x | x in r && KeyOf(x) == KeyOf(e)
      ensures x == e
    {
      var a :| 0 <= a < |r| && r[a] == x;
      var b :| 0 <= b < |r| && r[b] == e;
    }
  }

  /** Saving a row dated outside a window leaves that window's attendees unchanged, order included. */
  lemma {:induction false} UpdateLeavesOtherWindows(t: Table, e: DayAtWork, date: DateTime)
    requires !InWindow(e.date, date)
    ensures GetAttendees(Update(t, e), date) == GetAttendees(t, date)
  {
    var p := InDay(date);
    match Find(t, KeyOf(e))
    case Some(i) =>
      assert t[i].date == e.date;
      FilterUpdateDropped(t, i, e, p);
    case None =>
      FilterAppend(t, [e], p);
  }

  /**
   * When every stored date is a midnight (the client sends dates without a time),
   * a day's attendees name each user at most once.
   */
  lemma AttendeesDistinctUsers(t: Table, date: DateTime)
    requires UniqueKeys(t) && IsMidnight(date)
    requires forall i :: 0 <= i < |t| ==> IsMidnight(t[i].date)
    ensures forall i, j :: 0 <= i < j < |GetAttendees(t, date)| ==>
              GetAttendees(t, date)[i].userId != GetAttendees(t, date)[j].userId
  {
    var r := GetAttendees(t, date);
    QueriesHaveUniqueKeys(t, date, "", date);
    forall i, j | 0 <= i < j < |r|
      ensures r[i].userId != r[j].userId
    {
      assert r[i] in t && r[j] in t;
      MidnightWindow(r[i].date, date);
      MidnightWindow(r[j].date, date);
      assert r[i].date == date == r[j].date;
      assert KeyOf(r[i]) != KeyOf(r[j]);
    }
  }
}
