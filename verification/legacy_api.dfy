/**
 * The first API revision (the top-level Api.cs): it queries the table
 * directly, drops Empty rows from the day summary, uses the query date
 * without normalising it, has no cache, and answers a save with an empty Ok.
 * Its DayType and AddOrUpdate copies are identical to the later ones and are
 * modelled by `DayTypes` and `Upsert.AddOrUpdate`.
 */
module LegacyApi {
  import opened DateTimes
  import opened DayTypes
  import opened Records
  import opened Seqs
  import opened Upsert
  import Repository
  import Endpoints
  import RepositoryApi

  predicate NotEmptyRow(x: DayAtWork) {
    x.dayType != Empty
  }

  predicate NotEmptyAttendee(a: DayAttendee) {
    a.dayType != Empty
  }

  /** `GET api/dayAtWork/{userId}`: that user's rows dated on or after today. */
  function Get(t: Table, userId: string, today: DateTime): (r: seq<DayAtWork>)
    ensures forall i :: 0 <= i < |r| ==> r[i] in t && r[i].userId == userId && NotBefore(r[i].date, today)
    ensures forall i :: 0 <= i < |t| && t[i].userId == userId && NotBefore(t[i].date, today) ==> t[i] in r
  {
    var p := (d: DayAtWork) => d.userId == userId && NotBefore(d.date, today);
    FilterMembers(t, p);
    Filter(t, p)
  }

  /** `GET api/daySummary`: rows in `[date, date.AddDays(1))` whose type is not Empty, projected in order. */
  function GetDaySummary(t: Table, date: DateTime): (r: DaySummary)
    ensures r.date == date
    ensures forall i :: 0 <= i < |r.attendees| ==> r.attendees[i].dayType != Empty
    ensures forall i :: 0 <= i < |t| && InWindow(t[i].date, date) && t[i].dayType != Empty ==>
              ToAttendee(t[i]) in r.attendees
    ensures forall a :: a in r.attendees ==>
              exists i :: 0 <= i < |t| && InWindow(t[i].date, date) && t[i].dayType != Empty && ToAttendee(t[i]) == a
  {
    var rows := Filter(t, Both(Repository.InDay(date), NotEmptyRow));
    FilterMembers(t, Both(Repository.InDay(date), NotEmptyRow));
    assert forall i :: 0 <= i < |rows| ==> rows[i].dayType != Empty;
    forall i | 0 <= i < |t| && InWindow(t[i].date, date) && t[i].dayType != Empty
      ensures ToAttendee(t[i]) in Project(rows)
    {
      var j :| 0 <= j < |rows| && rows[j] == t[i];
      assert Project(rows)[j] == ToAttendee(t[i]);
    }
    forall a | a in Project(rows)
      ensures exists i :: 0 <= i < |t| && InWindow(t[i].date, date) && t[i].dayType != Empty && ToAttendee(t[i]) == a
    {
      var j :| 0 <= j < |rows| && Project(rows)[j] == a;
      var i :| 0 <= i < |t| && t[i] == rows[j];
    }
    DaySummary(date, Project(rows))
  }

  /**
   * For every query date, at any time of day: this revision's attendees are the next
   * revision's attendees for the same window with the Empty ones removed, order kept.
   */
  lemma SummaryIsRepositorySummaryWithoutEmpty(t: Table, date: DateTime)
    ensures GetDaySummary(t, date).attendees == Filter(RepositoryApi.GetDaySummary(t, date).attendees, NotEmptyAttendee)
  {
    FilterFilter(t, Repository.InDay(date), NotEmptyRow);
    ProjectDropsEmpty(Repository.GetAttendees(t, date));
  }

  /** Projection commutes with dropping Empty: filter rows then project, or project then filter attendees. */
  lemma {:induction false} ProjectDropsEmpty(rs: seq<DayAtWork>)
    ensures Project(Filter(rs, NotEmptyRow)) == Filter(Project(rs), NotEmptyAttendee)
  {
    if |rs| > 0 {
      ProjectDropsEmpty(rs[1..]);
      assert Project(rs)[1..] == Project(rs[1..]);
      assert Project(rs)[0] == ToAttendee(rs[0]);
    }
  }

  /**
   * The two read policies side by side: for a midnight date, this revision's attendees
   * are the current cached summary's attendees with the Empty ones removed, order kept.
   */
  lemma SummaryIsCurrentWithoutEmpty(t: Table, c: Endpoints.Cache, date: DateTime)
    requires Endpoints.Coherent(t, c) && IsMidnight(date)
    ensures GetDaySummary(t, date).attendees ==
            Filter(Endpoints.GetDaySummary(t, c, date).0.attendees, NotEmptyAttendee)
  {
    assert DateOf(date) == date;
    FilterFilter(t, Repository.InDay(date), NotEmptyRow);
    ProjectDropsEmpty(Repository.GetAttendees(t, date));
  }
}
