/**
 * The DayAtWork table and the replace-or-insert save (`AddOrUpdate`).
 * The table is a list of rows in storage order; `View` reads it as the
 * map from primary key to row that the relational store guarantees.
 */
module Upsert {
  import opened Wrappers
  import opened DateTimes
  import opened DayTypes
  import opened Records

  type Table = seq<DayAtWork>

  /** The primary-key constraint: no two rows share `(UserId, Date)`. */
  predicate UniqueKeys(t: Table) {
    forall i, j :: 0 <= i < j < |t| ==> KeyOf(t[i]) != KeyOf(t[j])
  }

  predicate HasKey(t: Table, k: Key) {
    exists i :: 0 <= i < |t| && KeyOf(t[i]) == k
  }

  /** `FindAsync(key)`: the position of the first row with key `k`, if any. */
  function Find(t: Table, k: Key): (r: Option<nat>)
    ensures r.Some? ==> r.value < |t| && KeyOf(t[r.value]) == k
    ensures r.Some? ==> forall j :: 0 <= j < r.value ==> KeyOf(t[j]) != k
    ensures r.None? <==> !HasKey(t, k)
  {
    if |t| == 0 then None
    else if KeyOf(t[0]) == k then Some(0)
    else match Find(t[1..], k)
      case Some(i) => Some(i + 1)
      case None => None
  }

  /**
   * The generic upsert, used with the key selector `(UserId, Date)`.
   * A found row is detached and the entity attached as Modified, so every
   * column of the row takes the entity's value; otherwise the entity is added.
   */
  function AddOrUpdate(t: Table, e: DayAtWork): (r: Table)
    ensures e in r
    ensures |r| == if HasKey(t, KeyOf(e)) then |t| else |t| + 1
    ensures forall i :: 0 <= i < |t| && KeyOf(t[i]) != KeyOf(e) ==> r[i] == t[i]
    ensures forall i :: 0 <= i < |r| ==> r[i] == e || (i < |t| && r[i] == t[i])
    ensures UniqueKeys(t) ==> UniqueKeys(r)
  {
    match Find(t, KeyOf(e))
    case Some(i) =>
      assert t[i := e][i] == e;
      t[i := e]
    case None =>
      assert (t + [e])[|t|] == e;
      t + [e]
  }

  /** The table read as a map from key to row (a later row wins on a duplicate key). */
  function View(t: Table): (m: map<Key, DayAtWork>)
    ensures forall k :: k in m <==> HasKey(t, k)
  {
    if |t| == 0 then map[]
    else
      var m := View(t[..|t| - 1]);
      assert forall k :: HasKey(t, k) <==> HasKey(t[..|t| - 1], k) || k == KeyOf(t[|t| - 1]);
      m[KeyOf(t[|t| - 1]) := t[|t| - 1]]
  }

  /** Under the key constraint every row is what the map view holds for its key. */
  lemma {:induction false} ViewValues(t: Table)
    requires UniqueKeys(t)
    ensures forall i :: 0 <= i < |t| ==> View(t)[KeyOf(t[i])] == t[i]
  {
    if |t| > 0 {
      var p := t[..|t| - 1];
      ViewValues(p);
      forall i | 0 <= i < |t|
        ensures View(t)[KeyOf(t[i])] == t[i]
      {
        if i < |t| - 1 {
          assert KeyOf(t[i]) != KeyOf(t[|t| - 1]);
          assert p[i] == t[i];
        }
      }
    }
  }

  /** Under the key constraint the map view has one entry per row. */
  lemma {:induction false} ViewSize(t: Table)
    requires UniqueKeys(t)
    ensures |View(t)| == |t|
  {
    if |t| > 0 {
      var p := t[..|t| - 1];
      ViewSize(p);
      assert !HasKey(p, KeyOf(t[|t| - 1])) by {
        forall i | 0 <= i < |p|
          ensures KeyOf(p[i]) != KeyOf(t[|t| - 1])
        {
          assert p[i] == t[i];
        }
      }
    }
  }

  /** After a save the store holds exactly the keys it held before plus the entity's key. */
  lemma AddOrUpdateKeys(t: Table, e: DayAtWork)
    ensures forall k :: HasKey(AddOrUpdate(t, e), k) <==> HasKey(t, k) || k == KeyOf(e)
  {
    var r := AddOrUpdate(t, e);
    forall k
      ensures HasKey(r, k) <==> HasKey(t, k) || k == KeyOf(e)
    {
      if k != KeyOf(e) {
        if HasKey(t, k) {
          var i :| 0 <= i < |t| && KeyOf(t[i]) == k;
          assert r[i] == t[i];
        }
        if HasKey(r, k) {
          var i :| 0 <= i < |r| && KeyOf(r[i]) == k;
          assert r[i] != e;
          assert i < |t| && r[i] == t[i];
        }
      } else {
        var j :| 0 <= j < |r| && r[j] == e;
        assert KeyOf(r[j]) == k;
      }
    }
  }

  /** Appending a row to the table is a map update of the view. */
  lemma ViewAppend(t: Table, e: DayAtWork)
    ensures View(t + [e]) == View(t)[KeyOf(e) := e]
  {
    assert (t + [e])[..|t|] == t;
  }

  /** Updates of two different keys commute. */
  lemma UpdatesCommute(m: map<Key, DayAtWork>, a: Key, x: DayAtWork, b: Key, y: DayAtWork)
    requires a != b
    ensures m[a := x][b := y] == m[b := y][a := x]
  {
  }

  /** Overwriting the row that holds a key is a map update of the view. */
  lemma {:induction false} ViewReplace(t: Table, i: nat, e: DayAtWork)
    requires i < |t| && KeyOf(t[i]) == KeyOf(e)
    requires UniqueKeys(t)
    ensures View(t[i := e]) == View(t)[KeyOf(e) := e]
  {
    var p, x := t[..|t| - 1], t[|t| - 1];
    var r := t[i := e];
    if i == |t| - 1 {
      assert r[..|r| - 1] == p;
    } else {
      assert r[..|r| - 1] == p[i := e];
      assert p[i] == t[i];
      ViewReplace(p, i, e);
      UpdatesCommute(View(p), KeyOf(e), e, KeyOf(x), x);
    }
  }

  /** Saving is a map update of the keyed store: the key now maps to the entity, every other key is untouched. */
  lemma AddOrUpdateIsMapUpdate(t: Table, e: DayAtWork)
    ensures UniqueKeys(t) ==> View(AddOrUpdate(t, e)) == View(t)[KeyOf(e) := e]
  {
    if UniqueKeys(t) {
      match Find(t, KeyOf(e))
      case Some(i) =>
        ViewReplace(t, i, e);
      case None =>
        ViewAppend(t, e);
    }
  }

  /** Saving a new key inserts one row: the store grows by exactly one entry. */
  lemma AddOrUpdateInserts(t: Table, e: DayAtWork)
    requires UniqueKeys(t) && !HasKey(t, KeyOf(e))
    ensures AddOrUpdate(t, e) == t + [e]
    ensures |View(AddOrUpdate(t, e))| == |View(t)| + 1
  {
    ViewSize(t);
    ViewSize(AddOrUpdate(t, e));
  }

  /**
   * Saving an existing key is a full replacement: the store keeps its size and
   * the one row with that key equals the entity in every field, comment included.
   */
  lemma AddOrUpdateReplaces(t: Table, e: DayAtWork)
    requires UniqueKeys(t) && HasKey(t, KeyOf(e))
    ensures |View(AddOrUpdate(t, e))| == |View(t)|
    ensures forall i :: 0 <= i < |AddOrUpdate(t, e)| && KeyOf(AddOrUpdate(t, e)[i]) == KeyOf(e) ==>
              AddOrUpdate(t, e)[i] == e
  {
    var r := AddOrUpdate(t, e);
    ViewSize(t);
    ViewSize(r);
    forall i | 0 <= i < |r| && KeyOf(r[i]) == KeyOf(e)
      ensures r[i] == e
    {
      var j :| 0 <= j < |r| && r[j] == e;
      if i != j {
        assert KeyOf(r[i]) == KeyOf(r[j]);
      }
    }
  }

  /** Looking the key up after a save returns the entity that was saved. */
  lemma LookupAfterSave(t: Table, e: DayAtWork)
    requires UniqueKeys(t)
    ensures KeyOf(e) in View(AddOrUpdate(t, e)) && View(AddOrUpdate(t, e))[KeyOf(e)] == e
  {
    AddOrUpdateIsMapUpdate(t, e);
  }

  /** Saving the same entity twice leaves the same table as saving it once. */
  lemma AddOrUpdateIdempotent(t: Table, e: DayAtWork)
    ensures AddOrUpdate(AddOrUpdate(t, e), e) == AddOrUpdate(t, e)
  {
    var r := AddOrUpdate(t, e);
    match Find(t, KeyOf(e))
    case Some(i) =>
      assert Find(r, KeyOf(e)) == Some(i);
    case None =>
      assert Find(r, KeyOf(e)) == Some(|t|);
  }

  /**
   * Saving `(u, d, Full, "a")` and then `(u, d, Empty, null)` leaves exactly one
   * row for `(u, d)`, with status Empty and no comment: a replacement, not a merge.
   */
  lemma OverwriteClearsComment(t: Table, u: string, d: DateTime, a: string)
    requires UniqueKeys(t)
    ensures var r := AddOrUpdate(AddOrUpdate(t, DayAtWork(u, d, Full, Some(a))), DayAtWork(u, d, Empty, None));
            && (u, d) in View(r)
            && View(r)[(u, d)] == DayAtWork(u, d, Empty, None)
            && |View(r)| == |View(AddOrUpdate(t, DayAtWork(u, d, Full, Some(a))))|
  {
    var first := DayAtWork(u, d, Full, Some(a));
    var t1 := AddOrUpdate(t, first);
    LookupAfterSave(t1, DayAtWork(u, d, Empty, None));
    assert HasKey(t1, (u, d)) by {
      var j :| 0 <= j < |t1| && t1[j] == first;
    }
    AddOrUpdateReplaces(t1, DayAtWork(u, d, Empty, None));
  }
}
