/**
 * The second API revision (Api/Api.cs): reads go through the repository,
 * the day summary is computed on every request from the query date as
 * given (no `.Date`, no cache), and team events keep accepted attendees.
 */
module RepositoryApi {
  import opened DateTimes
  import opened Records
  import opened Seqs
  import opened Upsert
  import opened TeamEvents
  import Repository
  import Endpoints

  /** `GET api/dayAtWork/{userId}`: exactly the repository's list for that user. */
  function Get(t: Table, userId: string, today: DateTime): (r: seq<DayAtWork>)
    ensures forall i :: 0 <= i < |r| ==> r[i] in t && r[i].userId == userId && NotBefore(r[i].date, today)
    ensures forall i :: 0 <= i < |t| && t[i].userId == userId && NotBefore(t[i].date, today) ==> t[i] in r
  {
    Repository.GetDayAtWorkList(t, userId, today)
  }

  /** `GET api/daySummary`: the repository rows for `[date, date.AddDays(1))`, projected in order. */
  function GetDaySummary(t: Table, date: DateTime): (r: DaySummary)
    ensures r.date == date
    ensures |r.attendees| == |Repository.GetAttendees(t, date)|
    ensures forall i :: 0 <= i < |r.attendees| ==> r.attendees[i] == ToAttendee(Repository.GetAttendees(t, date)[i])
  {
    DaySummary(date, Project(Repository.GetAttendees(t, date)))
  }

  /**
   * Without normalisation a query time after midnight selects a 24-hour window over two
   * calendar days: the next day's early rows are in, the same day's earlier rows are out.
   */
  lemma UnnormalisedWindowSpansTwoDays(t: Table, date: DateTime, x: DayAtWork)
    requires x in t
    ensures x.date.day == date.day + 1 && x.date.tick < date.tick ==> x in Repository.GetAttendees(t, date)
    ensures x.date.day == date.day && x.date.tick < date.tick ==> x !in Repository.GetAttendees(t, date)
  {
    WindowSpan(x.date, date);
  }

  /** At a midnight query date this revision and the cached endpoint report the same attendees. */
  lemma AgreesWithCachedAtMidnight(t: Table, c: Endpoints.Cache, date: DateTime)
    requires Endpoints.Coherent(t, c) && IsMidnight(date)
    ensures GetDaySummary(t, date).attendees == Endpoints.GetDaySummary(t, c, date).0.attendees
  {
    assert DateOf(date) == date;
  }

  /** `GET api/teamEvents`: each event with its accepted attendees, ordered by start (stably). */
  function GetEvents(events: seq<CalendarEvent>): (r: seq<TeamEvent>)
    ensures SortedByStart(r)
    ensures multiset(r) == multiset(seq(|events|, (i: int) requires 0 <= i < |events| => ToTeamEvent(events[i])))
    ensures forall start: int :: Filter(r, StartsAt(start)) ==
              Filter(seq(|events|, (i: int) requires 0 <= i < |events| => ToTeamEvent(events[i])), StartsAt(start))
  {
    var es := seq(|events|, (i: int) requires 0 <= i < |events| => ToTeamEvent(events[i]));
    forall start: int
      ensures Filter(OrderByStart(es), StartsAt(start)) == Filter(es, StartsAt(start))
    {
      OrderByStartStable(es, start);
    }
    OrderByStartPermutes(es);
    OrderByStart(es)
  }
}
