/**
 * The calendar-event projection both API revisions share: keep the accepted
 * participants of an event, and order events by start with LINQ's stable
 * `OrderBy`. Loading the feed and expanding recurrences is done by the
 * calendar library, so events arrive here already parsed.
 */
module TeamEvents {
  import opened Wrappers
  import opened Seqs

  /** An attendee as the calendar library reports it; `participationStatus` and `commonName` are nullable. */
  datatype CalendarAttendee = CalendarAttendee(participationStatus: Option<string>, commonName: Option<string>, value: string)

  /** A parsed calendar event; `start` and `end` are UTC ticks of the DateTimeOffsets. */
  datatype CalendarEvent = CalendarEvent(summary: string, start: int, end: int, attendees: seq<CalendarAttendee>)

  datatype TeamEvent = TeamEvent(name: string, start: int, end: int, attendees: seq<string>)

  predicate Accepted(a: CalendarAttendee) {
    a.participationStatus == Some("ACCEPTED")
  }

  /** `a.CommonName ?? a.Value.ToString()`. */
  function AttendeeName(a: CalendarAttendee): string {
    a.commonName.GetOr(a.value)
  }

  /** The names of the attendees whose participation status is ACCEPTED, in attendee order, in one pass. */
  function AcceptedNames(attendees: seq<CalendarAttendee>): (r: seq<string>)
    ensures |r| == |Filter(attendees, Accepted)|
    ensures forall i :: 0 <= i < |r| ==> r[i] == AttendeeName(Filter(attendees, Accepted)[i])
  {
    if |attendees| == 0 then []
    else if Accepted(attendees[0]) then [AttendeeName(attendees[0])] + AcceptedNames(attendees[1..])
    else AcceptedNames(attendees[1..])
  }

  /** `new TeamEvent(e.Summary, e.Start, e.End, accepted attendee names)`. */
  function ToTeamEvent(e: CalendarEvent): TeamEvent {
    TeamEvent(e.summary, e.start, e.end, AcceptedNames(e.attendees))
  }

  predicate SortedByStart(es: seq<TeamEvent>) {
    forall i, j :: 0 <= i < j < |es| ==> es[i].start <= es[j].start
  }

  /** Places `e` after every event that starts no later than it. */
  function InsertByStart(s: seq<TeamEvent>, e: TeamEvent): (r: seq<TeamEvent>)
    requires SortedByStart(s)
    ensures SortedByStart(r)
    ensures forall i :: 0 <= i < |r| ==> r[i].start >= e.start || (|s| > 0 && r[i].start >= s[0].start)
  {
    if |s| == 0 then [e]
    else if e.start < s[0].start then [e] + s
    else
      LeadSplit(s);
      [s[0]] + InsertByStart(s[1..], e)
  }

  /** Insertion adds exactly the one event: the result is a permutation of the input plus `e`. */
  lemma {:induction false} InsertByStartPermutes(s: seq<TeamEvent>, e: TeamEvent)
    requires SortedByStart(s)
    ensures multiset(InsertByStart(s, e)) == multiset(s) + multiset{e}
  {
    if |s| > 0 && e.start >= s[0].start {
      LeadSplit(s);
      InsertByStartPermutes(s[1..], e);
    }
  }

  lemma LeadSplit(s: seq<TeamEvent>)
    requires |s| > 0
    ensures s == [s[0]] + s[1..]
  {
  }

  /** `OrderBy(e => e.Start)`: a stable sort, built by inserting the events one by one in input order. */
  function OrderByStart(es: seq<TeamEvent>): (r: seq<TeamEvent>)
    ensures SortedByStart(r)
  {
    if |es| == 0 then []
    else InsertByStart(OrderByStart(es[..|es| - 1]), es[|es| - 1])
  }

  /** Sorting neither loses nor duplicates an event. */
  lemma {:induction false} OrderByStartPermutes(es: seq<TeamEvent>)
    ensures multiset(OrderByStart(es)) == multiset(es)
  {
    if |es| > 0 {
      var p := es[..|es| - 1];
      OrderByStartPermutes(p);
      InsertByStartPermutes(OrderByStart(p), es[|es| - 1]);
      LastSplit(es);
    }
  }

  function StartsAt(t: int): TeamEvent -> bool {
    (e: TeamEvent) => e.start == t
  }

  lemma NoneStartAt(s: seq<TeamEvent>, t: int)
    requires forall i :: 0 <= i < |s| ==> s[i].start > t
    ensures Filter(s, StartsAt(t)) == []
  {
  }

  lemma {:induction false} InsertKeepsTies(s: seq<TeamEvent>, e: TeamEvent, t: int)
    requires SortedByStart(s)
    ensures Filter(InsertByStart(s, e), StartsAt(t)) ==
            Filter(s, StartsAt(t)) + (if e.start == t then [e] else [])
  {
    if |s| == 0 {
    } else if e.start < s[0].start {
      if e.start == t {
        NoneStartAt(s, t);
      }
      assert ([e] + s)[1..] == s;
    } else {
      InsertKeepsTies(s[1..], e, t);
      assert ([s[0]] + InsertByStart(s[1..], e))[1..] == InsertByStart(s[1..], e);
    }
  }

  /** Stability: events with the same start keep their input order. */
  lemma {:induction false} OrderByStartStable(es: seq<TeamEvent>, t: int)
    ensures Filter(OrderByStart(es), StartsAt(t)) == Filter(es, StartsAt(t))
  {
    if |es| > 0 {
      var p := es[..|es| - 1];
      var x := es[|es| - 1];
      var tail := if x.start == t then [x] else [];
      calc {
        Filter(OrderByStart(es), StartsAt(t));
        Filter(InsertByStart(OrderByStart(p), x), StartsAt(t));
        { InsertKeepsTies(OrderByStart(p), x, t); }
        Filter(OrderByStart(p), StartsAt(t)) + tail;
        { OrderByStartStable(p, t); }
        Filter(p, StartsAt(t)) + tail;
        { assert Filter([x], StartsAt(t)) == tail; }
        Filter(p, StartsAt(t)) + Filter([x], StartsAt(t));
        { FilterAppend(p, [x], StartsAt(t)); assert p + [x] == es; }
        Filter(es, StartsAt(t));
      }
    }
  }
}
