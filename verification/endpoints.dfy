/**
 * The current HTTP API: the day summary memoised in a process-wide cache
 * keyed by calendar day, the range endpoint built from the same cache
 * entries, the write that drops the written day's entry, and the
 * identity-scoped reads.
 *
 * The cache is a map from key to summary. The central invariant,
 * `Coherent`, says every cached entry is the store's projection for its
 * day; reads, writes and arbitrary eviction (which stands in for sliding
 * expiry) all preserve it. Requests are taken one at a time, so every read
 * reflects every completed write. With concurrent requests this can fail: a
 * cache fill that read the rows before a write, and stores its summary after
 * that write's eviction, leaves a stale entry that sliding expiry keeps alive
 * as long as it is read within each hour.
 */
module Endpoints {
  import opened Wrappers
  import opened DateTimes
  import opened Records
  import opened Upsert
  import opened AsyncExtensions
  import opened TeamEvents
  import Repository

  /** The cache key `"summary-" + date`; every key the API builds holds a midnight. */
  datatype CacheKey = SummaryKey(date: DateTime)

  type Cache = map<CacheKey, DaySummary>

  /** `IMemoryCache.GetOrCreateAsync`: the stored entry if present, else the factory's value, now stored. */
  function GetOrCreate(c: Cache, key: CacheKey, created: DaySummary): (r: (DaySummary, Cache))
    ensures key in r.1 && r.1[key] == r.0
    ensures key in c ==> r.0 == c[key]
    ensures key !in c ==> r.0 == created
    ensures r.1.Keys == c.Keys + {key}
    ensures forall k :: k in c ==> r.1[k] == c[k]
  {
    if key in c then (c[key], c) else (created, c[key := created])
  }

  /** Every cached entry is the current store's summary for its key's day. */
  predicate Coherent(t: Table, c: Cache) {
    forall k :: k in c ==>
      && IsMidnight(k.date)
      && DateOf(c[k].date) == k.date
      && c[k].attendees == Project(Repository.GetAttendees(t, k.date))
  }

  /**
   * `GET api/daySummary?date=`: keyed by `date.Date`; on a miss the summary is
   * built from the repository rows of that calendar day but carries `date` as given.
   */
  function GetDaySummary(t: Table, c: Cache, date: DateTime): (r: (DaySummary, Cache))
    ensures SummaryKey(DateOf(date)) in r.1 && r.1[SummaryKey(DateOf(date))] == r.0
    ensures r.1.Keys == c.Keys + {SummaryKey(DateOf(date))}
    ensures forall k :: k in c ==> r.1[k] == c[k]
    ensures Coherent(t, c) ==> Coherent(t, r.1)
    ensures Coherent(t, c) ==>
              DateOf(r.0.date) == DateOf(date) && r.0.attendees == Project(Repository.GetAttendees(t, DateOf(date)))
  {
    GetOrCreate(c, SummaryKey(DateOf(date)), DaySummary(date, Project(Repository.GetAttendees(t, DateOf(date)))))
  }

  /**
   * The key depends only on the calendar day: a second request on the same day,
   * at any time, gets the summary the first one cached, its `Date` included.
   */
  lemma SameDaySameSummary(t: Table, c: Cache, d1: DateTime, d2: DateTime)
    requires DateOf(d1) == DateOf(d2)
    ensures GetDaySummary(t, GetDaySummary(t, c, d1).1, d2) == GetDaySummary(t, c, d1)
    ensures SummaryKey(DateOf(d1)) !in c ==> GetDaySummary(t, GetDaySummary(t, c, d1).1, d2).0.date == d1
  {
  }

  /** Summaries contain exactly the day's rows, including Empty ones, projected in order. */
  lemma SummaryIsProjectionOfDay(t: Table, c: Cache, date: DateTime)
    requires Coherent(t, c)
    ensures var s := GetDaySummary(t, c, date).0;
            && |s.attendees| == |Repository.GetAttendees(t, DateOf(date))|
            && (forall i :: 0 <= i < |t| && t[i].date.day == date.day ==> ToAttendee(t[i]) in s.attendees)
            && (forall a :: a in s.attendees ==>
                  exists i :: 0 <= i < |t| && t[i].date.day == date.day && ToAttendee(t[i]) == a)
  {
    var s := GetDaySummary(t, c, date).0;
    var rows := Repository.GetAttendees(t, DateOf(date));
    forall i | 0 <= i < |t| && t[i].date.day == date.day
      ensures ToAttendee(t[i]) in s.attendees
    {
      MidnightWindow(t[i].date, DateOf(date));
      var j :| 0 <= j < |rows| && rows[j] == t[i];
      assert s.attendees[j] == ToAttendee(t[i]);
    }
    forall a | a in s.attendees
      ensures exists i :: 0 <= i < |t| && t[i].date.day == date.day && ToAttendee(t[i]) == a
    {
      var j :| 0 <= j < |s.attendees| && s.attendees[j] == a;
      var i :| 0 <= i < |t| && t[i] == rows[j];
      MidnightWindow(t[i].date, DateOf(date));
    }
  }

  /** `PUT api/dayAtWork`: save the row, drop the cache entry of its calendar day, echo the row. */
  function Update(t: Table, c: Cache, e: DayAtWork): (r: (Table, Cache, DayAtWork))
    ensures r.2 == e
    ensures r.1.Keys == c.Keys - {SummaryKey(DateOf(e.date))}
    ensures forall k :: k in r.1 ==> r.1[k] == c[k]
    ensures UniqueKeys(t) ==> UniqueKeys(r.0) && View(r.0) == View(t)[KeyOf(e) := e]
  {
    (Repository.Update(t, e), c - {SummaryKey(DateOf(e.date))}, e)
  }

  /** A write keeps the cache coherent: only the written day changed, and its entry is gone. */
  lemma UpdatePreservesCoherence(t: Table, c: Cache, e: DayAtWork)
    requires Coherent(t, c)
    ensures Coherent(Update(t, c, e).0, Update(t, c, e).1)
  {
    var (t', c', _) := Update(t, c, e);
    forall k | k in c'
      ensures c'[k].attendees == Project(Repository.GetAttendees(t', k.date))
    {
      assert k.date != DateOf(e.date);
      MidnightWindow(e.date, k.date);
      Repository.UpdateLeavesOtherWindows(t, e, k.date);
    }
  }

  /** Read-your-writes: after a write, the next read of that day reflects the store that holds the written row. */
  lemma ReadAfterUpdate(t: Table, c: Cache, e: DayAtWork, date: DateTime)
    requires UniqueKeys(t) && Coherent(t, c)
    requires DateOf(date) == DateOf(e.date)
    ensures var (t', c', _) := Update(t, c, e);
            var s := GetDaySummary(t', c', date).0;
            && s == DaySummary(date, Project(Repository.GetAttendees(t', DateOf(e.date))))
            && ToAttendee(e) in s.attendees
  {
    var (t', c', _) := Update(t, c, e);
    Repository.AttendeesAfterUpdate(t, e);
    var rows := Repository.GetAttendees(t', DateOf(e.date));
    var j :| 0 <= j < |rows| && rows[j] == e;
    assert Project(rows)[j] == ToAttendee(e);
  }

  /** Entries leaving the cache (sliding expiry, memory pressure): any subset may go. */
  function Evict(c: Cache, expired: set<CacheKey>): (r: Cache)
    ensures r.Keys == c.Keys - expired
    ensures forall k :: k in r ==> r[k] == c[k]
  {
    c - expired
  }

  lemma EvictPreservesCoherence(t: Table, c: Cache, expired: set<CacheKey>)
    requires Coherent(t, c)
    ensures Coherent(t, Evict(c, expired))
  {
  }

  /** The days the range endpoint visits: `fromDate.Date.AddDays(offset)` for offset in 0..count-1. */
  function DatesToRetrieve(from: DateTime, count: nat): (ds: seq<DateTime>)
    ensures |ds| == count
    ensures forall i :: 0 <= i < count ==> IsMidnight(ds[i]) && ds[i].day == from.day + i
    ensures forall i, j :: 0 <= i < j < count ==> Before(ds[i], ds[j])
  {
    seq(count, (i: int) => AddDays(DateOf(from), i))
  }

  /** One range element: the same cache lookup as the single-day endpoint, keyed by the (midnight) date. */
  function RangeStep(t: Table): (Cache, DateTime) -> (DaySummary, Cache) {
    (c: Cache, d: DateTime) => GetOrCreate(c, SummaryKey(d), DaySummary(d, Project(Repository.GetAttendees(t, d))))
  }

  /** `Enumerable.Range(0, count)` throws for a negative count. */
  datatype RangeError = ArgumentOutOfRange

  /**
   * `GET api/daySummaryRange`: `1 + (toDate.Date - fromDate.Date).Days` summaries,
   * fetched one after another through the cache.
   */
  function GetDaySummaryRange(t: Table, c: Cache, from: DateTime, to: DateTime): (r: Result<(seq<DaySummary>, Cache), RangeError>)
    ensures r.Failure? <==> to.day < from.day - 1
    ensures r.Success? ==> |r.value.0| == 1 + to.day - from.day
  {
    SubtractMidnights(DateOf(to), DateOf(from));
    var count := 1 + SubtractDays(DateOf(to), DateOf(from));
    if count < 0 then Failure(ArgumentOutOfRange)
    else Success(SelectAsync(DatesToRetrieve(from, count), c, RangeStep(t)))
  }

  /** One range step keeps the cache coherent, never replaces an entry, and stores its result under its key. */
  lemma RangeStepCoherent(t: Table, c: Cache, d: DateTime)
    requires Coherent(t, c) && IsMidnight(d)
    ensures Coherent(t, RangeStep(t)(c, d).1)
    ensures forall k :: k in c ==> k in RangeStep(t)(c, d).1 && RangeStep(t)(c, d).1[k] == c[k]
    ensures SummaryKey(d) in RangeStep(t)(c, d).1 && RangeStep(t)(c, d).1[SummaryKey(d)] == RangeStep(t)(c, d).0
  {
  }

  /** Walking a list of midnights through the cache keeps it coherent. */
  lemma {:induction false} RangeWalkCoherent(t: Table, c: Cache, ds: seq<DateTime>)
    requires Coherent(t, c)
    requires forall i :: 0 <= i < |ds| ==> IsMidnight(ds[i])
    ensures Coherent(t, SelectAsync(ds, c, RangeStep(t)).1)
  {
    if |ds| > 0 {
      var p := ds[..|ds| - 1];
      RangeWalkCoherent(t, c, p);
      RangeStepCoherent(t, SelectAsync(p, c, RangeStep(t)).1, ds[|ds| - 1]);
    }
  }

  /** Walking a list of dates through the cache never replaces an entry. */
  lemma {:induction false} RangeWalkExtends(t: Table, c: Cache, ds: seq<DateTime>)
    ensures forall k :: k in c ==> k in SelectAsync(ds, c, RangeStep(t)).1 && SelectAsync(ds, c, RangeStep(t)).1[k] == c[k]
  {
    if |ds| > 0 {
      RangeWalkExtends(t, c, ds[..|ds| - 1]);
    }
  }

  /** After the walk, every visited date's result is what the cache holds under its key. */
  lemma {:induction false} RangeWalkStores(t: Table, c: Cache, ds: seq<DateTime>)
    ensures forall i :: 0 <= i < |ds| ==>
              SummaryKey(ds[i]) in SelectAsync(ds, c, RangeStep(t)).1 &&
              SelectAsync(ds, c, RangeStep(t)).1[SummaryKey(ds[i])] == SelectAsync(ds, c, RangeStep(t)).0[i]
  {
    if |ds| > 0 {
      var p := ds[..|ds| - 1];
      RangeWalkStores(t, c, p);
      var prev := SelectAsync(p, c, RangeStep(t));
      var whole := SelectAsync(ds, c, RangeStep(t));
      assert whole.0 == prev.0 + [RangeStep(t)(prev.1, ds[|ds| - 1]).0];
      forall i | 0 <= i < |p|
        ensures SummaryKey(ds[i]) in whole.1 && whole.1[SummaryKey(ds[i])] == whole.0[i]
      {
        assert ds[i] == p[i];
      }
    }
  }

  /**
   * Range consistency: each element is for `fromDate.Date + i` days, ascending, holds that
   * day's rows, and is exactly what the single-day endpoint returns for that day afterwards.
   */
  lemma RangeMatchesSingleDays(t: Table, c: Cache, from: DateTime, to: DateTime)
    requires Coherent(t, c)
    requires GetDaySummaryRange(t, c, from, to).Success?
    ensures var (rs, c') := GetDaySummaryRange(t, c, from, to).value;
            && Coherent(t, c')
            && (forall k :: k in c ==> k in c' && c'[k] == c[k])
            && forall i :: 0 <= i < |rs| ==>
                 && DateOf(rs[i].date) == AddDays(DateOf(from), i)
                 && rs[i].attendees == Project(Repository.GetAttendees(t, AddDays(DateOf(from), i)))
                 && GetDaySummary(t, c', AddDays(DateOf(from), i)) == (rs[i], c')
  {
    var ds := DatesToRetrieve(from, |GetDaySummaryRange(t, c, from, to).value.0|);
    RangeWalkCoherent(t, c, ds);
    RangeWalkExtends(t, c, ds);
    RangeWalkStores(t, c, ds);
  }

  /** `GET api/user`: Unauthorized exactly when the caller has no identity name. */
  datatype Response<T> = Ok(value: T) | Unauthorized

  datatype Claim = Claim(claimType: string, value: string)

  datatype User = User(userId: string, name: string, photo: string)

  /** `ClaimsPrincipal.FindFirst(type)?.Value`: the first claim of that type. */
  function FindFirst(claims: seq<Claim>, claimType: string): (r: Option<string>)
    ensures r.Some? ==> exists i :: 0 <= i < |claims| && claims[i] == Claim(claimType, r.value) &&
                          forall j :: 0 <= j < i ==> claims[j].claimType != claimType
    ensures r.None? ==> forall i :: 0 <= i < |claims| ==> claims[i].claimType != claimType
  {
    if |claims| == 0 then None
    else if claims[0].claimType == claimType then Some(claims[0].value)
    else
      var r := FindFirst(claims[1..], claimType);
      if r.Some? then
        ghost var i :| 0 <= i < |claims[1..]| && claims[1..][i] == Claim(claimType, r.value) &&
                       forall j :: 0 <= j < i ==> claims[1..][j].claimType != claimType;
        assert claims[i + 1] == Claim(claimType, r.value);
        r
      else r
  }

  /** The Graph photo claim type. */
  const PhotoClaim := "graph_photo"

  function GetUser(identityName: Option<string>, claims: seq<Claim>): (r: Response<User>)
    ensures r.Unauthorized? <==> identityName.None?
    ensures r.Ok? ==> r.value.userId == identityName.value
    ensures r.Ok? && r.value.name != "" ==>
              exists i :: 0 <= i < |claims| && claims[i] == Claim("name", r.value.name)
    ensures r.Ok? && r.value.photo != "" ==>
              exists i :: 0 <= i < |claims| && claims[i] == Claim(PhotoClaim, r.value.photo)
  {
    match identityName
    case None => Unauthorized
    case Some(name) => Ok(User(name, FindFirst(claims, "name").GetOr(""), FindFirst(claims, PhotoClaim).GetOr("")))
  }

  /** `GET api/dayAtWork`: the caller's rows from today on; Unauthorized exactly when there is no identity name. */
  function GetDayAtWorks(t: Table, identityName: Option<string>, today: DateTime): (r: Response<seq<DayAtWork>>)
    ensures r.Unauthorized? <==> identityName.None?
    ensures r.Ok? ==> forall i :: 0 <= i < |r.value| ==>
              r.value[i] in t && r.value[i].userId == identityName.value && NotBefore(r.value[i].date, today)
    ensures r.Ok? ==> forall i :: 0 <= i < |t| && t[i].userId == identityName.value && NotBefore(t[i].date, today) ==>
              t[i] in r.value
  {
    match identityName
    case None => Unauthorized
    case Some(name) => Ok(Repository.GetDayAtWorkList(t, name, today))
  }

  /** A recurrence occurrence expanded by the calendar library: event summary and period. */
  datatype Occurrence = Occurrence(summary: string, start: int, end: int)

  /** One event per occurrence, in the order the calendar library yields them, with no attendees. */
  function OccurrenceEvents(occurrences: seq<Occurrence>): seq<TeamEvent> {
    seq(|occurrences|, (i: int) requires 0 <= i < |occurrences| =>
        TeamEvent(occurrences[i].summary, occurrences[i].start, occurrences[i].end, []))
  }

  /** `GET api/teamEvents`: the occurrences' events, no attendees, ordered by start (stably). */
  function GetEvents(occurrences: seq<Occurrence>): (r: seq<TeamEvent>)
    ensures SortedByStart(r)
    ensures multiset(r) == multiset(OccurrenceEvents(occurrences))
    ensures |r| == |occurrences|
    ensures forall i :: 0 <= i < |r| ==> r[i].attendees == []
  {
    var es := OccurrenceEvents(occurrences);
    var r := OrderByStart(es);
    OrderByStartPermutes(es);
    assert |r| == |multiset(r)| == |multiset(es)|;
    assert forall i :: 0 <= i < |r| ==> r[i] in multiset(es);
    r
  }
}
