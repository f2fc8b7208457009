/**
 * The attendance record, its identity key, and the per-day summary shapes
 * the API returns.
 */
module Records {
  import opened Wrappers
  import opened DateTimes
  import opened DayTypes

  /** One person's planned presence on one date; `comment` is nullable. */
  datatype DayAtWork = DayAtWork(userId: string, date: DateTime, dayType: DayType, comment: Option<string>)

  /** The composite primary key `(UserId, Date)`. */
  type Key = (string, DateTime)

  function KeyOf(r: DayAtWork): Key {
    (r.userId, r.date)
  }

  datatype DayAttendee = DayAttendee(userId: string, dayType: DayType, comment: Option<string>)

  datatype DaySummary = DaySummary(date: DateTime, attendees: seq<DayAttendee>)

  /** `new DayAttendee(a.UserId, a.Type, a.Comment)`. */
  function ToAttendee(r: DayAtWork): DayAttendee {
    DayAttendee(r.userId, r.dayType, r.comment)
  }

  /** `.Select(ToAttendee).ToList()`: one attendee per record, in record order. */
  function Project(rs: seq<DayAtWork>): (r: seq<DayAttendee>)
    ensures |r| == |rs|
    ensures forall i :: 0 <= i < |rs| ==>
              r[i].userId == rs[i].userId && r[i].dayType == rs[i].dayType && r[i].comment == rs[i].comment
  {
    if |rs| == 0 then [] else [ToAttendee(rs[0])] + Project(rs[1..])
  }

  /** Projection is a homomorphism of lists: it commutes with concatenation. */
  lemma {:induction false} ProjectAppend(a: seq<DayAtWork>, b: seq<DayAtWork>)
    ensures Project(a + b) == Project(a) + Project(b)
  {
    if |a| > 0 {
      assert (a + b)[1..] == a[1..] + b;
      ProjectAppend(a[1..], b);
    }
  }
}
