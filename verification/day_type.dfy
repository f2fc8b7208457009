/**
 * DayType: the closed attendance status enumeration (a SmartEnum in the
 * source), with its name and ordinal tables and the lookups by name and
 * by value that (de)serialisation uses.
 */
module DayTypes {
  import opened Wrappers

  datatype DayType = Full | FirstHalf | LastHalf | Empty

  /** SmartEnum.List: every variant, in declaration order. */
  const All: seq<DayType> := [Full, FirstHalf, LastHalf, Empty]

  /** SmartEnum.Name: the string written on the wire. */
  function Name(t: DayType): string {
    match t
    case Full => "FULL"
    case FirstHalf => "FIRST-HALF"
    case LastHalf => "LAST-HALF"
    case Empty => "EMPTY"
  }

  /** SmartEnum.Value: the ordinal. */
  function Value(t: DayType): int {
    match t
    case Full => 0
    case FirstHalf => 1
    case LastHalf => 2
    case Empty => 3
  }

  /** The first variant of `ts` whose name is exactly `s`. */
  function FindByName(ts: seq<DayType>, s: string): (r: Option<DayType>)
    ensures r.Some? ==> r.value in ts && Name(r.value) == s
    ensures r.None? ==> forall i :: 0 <= i < |ts| ==> Name(ts[i]) != s
  {
    if |ts| == 0 then None
    else if Name(ts[0]) == s then Some(ts[0])
    else FindByName(ts[1..], s)
  }

  /** The first variant of `ts` whose ordinal is `v`. */
  function FindByValue(ts: seq<DayType>, v: int): (r: Option<DayType>)
    ensures r.Some? ==> r.value in ts && Value(r.value) == v
    ensures r.None? ==> forall i :: 0 <= i < |ts| ==> Value(ts[i]) != v
  {
    if |ts| == 0 then None
    else if Value(ts[0]) == v then Some(ts[0])
    else FindByValue(ts[1..], v)
  }

  /** SmartEnum.FromName (case-sensitive); None stands for SmartEnumNotFoundException. */
  function FromName(s: string): Option<DayType> {
    FindByName(All, s)
  }

  /** SmartEnum.FromValue; None stands for SmartEnumNotFoundException. */
  function FromValue(v: int): Option<DayType> {
    FindByValue(All, v)
  }

  /** There are exactly four variants, listed once each. */
  lemma ExactlyFourVariants(t: DayType)
    ensures |All| == 4 && t in All
    ensures forall i, j :: 0 <= i < j < |All| ==> All[i] != All[j]
  {
  }

  /** The ordinals are 0, 1, 2, 3 in declaration order, so they are distinct. */
  lemma OrdinalsAreDeclarationOrder()
    ensures forall i :: 0 <= i < |All| ==> Value(All[i]) == i
  {
  }

  /** Distinct variants have distinct names and distinct ordinals. */
  lemma NamesAndValuesInjective(a: DayType, b: DayType)
    ensures Name(a) == Name(b) ==> a == b
    ensures Value(a) == Value(b) ==> a == b
  {
  }

  /** Serialising by name and parsing back gives the same variant, and parsing accepts only the four names. */
  lemma NameRoundTrip(t: DayType, s: string)
    ensures FromName(Name(t)) == Some(t)
    ensures FromName(s) == Some(t) <==> Name(t) == s
  {
    assert All[Value(t)] == t;
    NamesAndValuesInjective(FromName(Name(t)).value, t);
  }

  /** Serialising by ordinal and parsing back gives the same variant, and parsing accepts only 0..3. */
  lemma ValueRoundTrip(t: DayType, v: int)
    ensures FromValue(Value(t)) == Some(t)
    ensures FromValue(v).Some? <==> 0 <= v < 4
  {
    assert All[Value(t)] == t;
    NamesAndValuesInjective(FromValue(Value(t)).value, t);
    if 0 <= v < 4 {
      assert Value(All[v]) == v;
    }
  }
}
