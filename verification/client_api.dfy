/**
 * The client's pure data shaping (ClientApp/src/lib/api.ts): DTO to item
 * mapping and the three `reduce` calls that key results by day id. Date
 * parsing and formatting (date-fns `parseJSON`, `parse`, `formatISO`,
 * `format(date, "ddMMyy")`) are passed in as functions; HTTP calls are not
 * modelled, their response bodies are the inputs.
 */
module ClientApi {
  import opened Wrappers
  import opened DayTypes
  import opened Seqs

  /** utils.ts `map(target, mapFn)`: pipe a value into a function. */
  function Apply<A, B>(target: A, mapFn: A -> B): B {
    mapFn(target)
  }

  datatype DayAtWorkDto = DayAtWorkDto(userId: string, date: string, dayType: DayType, comment: Option<string>)

  /** `Identifiable<DayAtWork>`: a client-side record tagged with its day id. */
  datatype Item<D> = Item(id: string, date: D, userId: string, dayType: DayType, comment: Option<string>)

  /** `mapDayAtWorkItem`: parse the date, key it by day id, copy the rest. */
  function MapDayAtWorkItem<D>(dto: DayAtWorkDto, parseJson: string -> D, dayId: D -> string): (r: Item<D>)
    ensures r.date == parseJson(dto.date) && r.id == dayId(r.date)
    ensures r.userId == dto.userId && r.dayType == dto.dayType && r.comment == dto.comment
  {
    Apply(parseJson(dto.date), (date: D) =>
      Item(dayId(date), date, dto.userId, dto.dayType, dto.comment))
  }

  /** The DTO `addOrUpdateDayAtWork` sends: the date formatted as an ISO date, the rest copied. */
  function ToDto<D>(item: Item<D>, formatIsoDate: D -> string): (dto: DayAtWorkDto)
    ensures dto.userId == item.userId && dto.dayType == item.dayType && dto.comment == item.comment
    ensures dto.date == formatIsoDate(item.date)
  {
    DayAtWorkDto(item.userId, formatIsoDate(item.date), item.dayType, item.comment)
  }

  /**
   * The server's answer to a PUT: it binds the body to a `DayAtWork`, whose date is a
   * `DateTime`, and serialises that record back. `echoDate` is what becomes of the date
   * string on that trip (an ISO date comes back as a date-time); the other fields return
   * as sent.
   */
  function Echo(dto: DayAtWorkDto, echoDate: string -> string): (r: DayAtWorkDto)
    ensures r.userId == dto.userId && r.dayType == dto.dayType && r.comment == dto.comment
    ensures r.date == echoDate(dto.date)
  {
    dto.(date := echoDate(dto.date))
  }

  /** `addOrUpdateDayAtWork`: send the DTO, map the server's echo back into an item. */
  function AddOrUpdateDayAtWork<D>(item: Item<D>, formatIsoDate: D -> string, echoDate: string -> string,
                                   parseJson: string -> D, dayId: D -> string): Item<D>
  {
    MapDayAtWorkItem(Echo(ToDto(item, formatIsoDate), echoDate), parseJson, dayId)
  }

  /**
   * Saving from the client is a round trip. User, type and comment always come back as
   * saved, and the date comes back re-parsed from the server's serialisation, with its id
   * recomputed from it. When the item was keyed by its own day and the date survives
   * the trip, the very same item comes back; when only its day survives, the key does.
   */
  lemma SaveRoundTrip<D>(item: Item<D>, formatIsoDate: D -> string, echoDate: string -> string,
                         parseJson: string -> D, dayId: D -> string)
    ensures var back := AddOrUpdateDayAtWork(item, formatIsoDate, echoDate, parseJson, dayId);
            && back.userId == item.userId && back.dayType == item.dayType && back.comment == item.comment
            && back.date == parseJson(echoDate(formatIsoDate(item.date))) && back.id == dayId(back.date)
    ensures item.id == dayId(item.date) && parseJson(echoDate(formatIsoDate(item.date))) == item.date ==>
              AddOrUpdateDayAtWork(item, formatIsoDate, echoDate, parseJson, dayId) == item
    ensures item.id == dayId(item.date) && dayId(parseJson(echoDate(formatIsoDate(item.date)))) == dayId(item.date) ==>
              AddOrUpdateDayAtWork(item, formatIsoDate, echoDate, parseJson, dayId).id == item.id
  {
  }

  /** The set of keys a list of inputs produces. */
  function KeysOf<T>(xs: seq<T>, key: T -> string): (r: set<string>)
    ensures |r| <= |xs|
  {
    if |xs| == 0 then {} else KeysOf(xs[..|xs| - 1], key) + {key(xs[|xs| - 1])}
  }

  /** A key is produced exactly when some input has it. */
  lemma {:induction false} KeysOfMembers<T>(xs: seq<T>, key: T -> string, k: string)
    ensures k in KeysOf(xs, key) <==> exists i :: 0 <= i < |xs| && key(xs[i]) == k
  {
    if |xs| > 0 {
      var p := xs[..|xs| - 1];
      KeysOfMembers(p, key, k);
      if exists i :: 0 <= i < |p| && key(p[i]) == k {
        var i :| 0 <= i < |p| && key(p[i]) == k;
        assert xs[i] == p[i];
      }
      if exists i :: 0 <= i < |xs| && key(xs[i]) == k {
        var i :| 0 <= i < |xs| && key(xs[i]) == k;
        if i < |p| {
          assert p[i] == xs[i];
        }
      }
    }
  }

  /**
   * A `reduce` from the empty object that spreads a one-entry object `{key: value}`
   * over the accumulator at each input, so a later entry with the same key overwrites.
   */
  function SpreadByKey<T, V>(xs: seq<T>, key: T -> string, val: T -> V): (m: map<string, V>)
    ensures m.Keys == KeysOf(xs, key)
    ensures |m| <= |xs|
  {
    if |xs| == 0 then map[]
    else
      var x := xs[|xs| - 1];
      SpreadByKey(xs[..|xs| - 1], key, val)[key(x) := val(x)]
  }

  /** The fold depends only on the keys and values the two functions give the inputs. */
  lemma {:induction false} SpreadByKeyCongruent<T, V>(xs: seq<T>, key: T -> string, val: T -> V, key': T -> string, val': T -> V)
    requires forall i :: 0 <= i < |xs| ==> key(xs[i]) == key'(xs[i]) && val(xs[i]) == val'(xs[i])
    ensures SpreadByKey(xs, key, val) == SpreadByKey(xs, key', val')
  {
    if |xs| > 0 {
      var p := xs[..|xs| - 1];
      var x := xs[|xs| - 1];
      assert forall i :: 0 <= i < |p| ==> p[i] == xs[i];
      SpreadByKeyCongruent(p, key, val, key', val');
      assert key(x) == key'(x) && val(x) == val'(x);
      calc {
        SpreadByKey(xs, key, val);
        SpreadByKey(p, key, val)[key(x) := val(x)];
        SpreadByKey(p, key', val')[key'(x) := val'(x)];
        SpreadByKey(xs, key', val');
      }
    }
  }

  /** Every key maps to the value of the last input with that key. */
  lemma {:induction false} SpreadLastWins<T, V>(xs: seq<T>, key: T -> string, val: T -> V, k: string)
    requires k in SpreadByKey(xs, key, val)
    ensures exists i :: 0 <= i < |xs| && key(xs[i]) == k && SpreadByKey(xs, key, val)[k] == val(xs[i]) &&
                        forall j :: i < j < |xs| ==> key(xs[j]) != k
  {
    var p := xs[..|xs| - 1];
    var x := xs[|xs| - 1];
    if key(x) != k {
      SpreadLastWins(p, key, val, k);
      var i :| 0 <= i < |p| && key(p[i]) == k && SpreadByKey(p, key, val)[k] == val(p[i]) &&
               forall j :: i < j < |p| ==> key(p[j]) != k;
      LastSplit(xs);
      SpreadStep(p, x, key, val);
      assert xs[i] == p[i];
      assert forall j :: i < j < |xs| - 1 ==> xs[j] == p[j];
    }
  }

  /** One more input updates its key to its value. */
  lemma SpreadStep<T, V>(p: seq<T>, x: T, key: T -> string, val: T -> V)
    ensures SpreadByKey(p + [x], key, val) == SpreadByKey(p, key, val)[key(x) := val(x)]
  {
    assert (p + [x])[..|p|] == p;
  }

  /** The key of a DTO in `getDayAtWorkItemsForUser`: its item's id. */
  function ItemKey<D>(parseJson: string -> D, dayId: D -> string): DayAtWorkDto -> string {
    (n: DayAtWorkDto) => MapDayAtWorkItem(n, parseJson, dayId).id
  }

  function ItemOf<D>(parseJson: string -> D, dayId: D -> string): DayAtWorkDto -> Item<D> {
    (n: DayAtWorkDto) => MapDayAtWorkItem(n, parseJson, dayId)
  }

  /** `getDayAtWorkItemsForUser`: the caller's items keyed by day id. */
  function ItemsForUser<D>(dtos: seq<DayAtWorkDto>, parseJson: string -> D, dayId: D -> string): map<string, Item<D>> {
    SpreadByKey(dtos, ItemKey(parseJson, dayId), ItemOf(parseJson, dayId))
  }

  /**
   * The keys are exactly the inputs' day ids (so there are at most as many as inputs),
   * and each key holds the item of the last input with that day id, whose id is the key.
   */
  lemma ItemsForUserByDayId<D>(dtos: seq<DayAtWorkDto>, parseJson: string -> D, dayId: D -> string, k: string)
    ensures |ItemsForUser(dtos, parseJson, dayId)| <= |dtos|
    ensures k in ItemsForUser(dtos, parseJson, dayId) <==>
              exists i :: 0 <= i < |dtos| && dayId(parseJson(dtos[i].date)) == k
    ensures k in ItemsForUser(dtos, parseJson, dayId) ==>
              var item := ItemsForUser(dtos, parseJson, dayId)[k];
              && item.id == k
              && exists i :: 0 <= i < |dtos| && item == MapDayAtWorkItem(dtos[i], parseJson, dayId) &&
                             forall j :: i < j < |dtos| ==> dayId(parseJson(dtos[j].date)) != k
  {
    var m := ItemsForUser(dtos, parseJson, dayId);
    KeysOfMembers(dtos, ItemKey(parseJson, dayId), k);
    if k in m {
      SpreadLastWins(dtos, ItemKey(parseJson, dayId), ItemOf(parseJson, dayId), k);
    }
  }

  datatype PublicHolidayDto = PublicHolidayDto(date: string, localName: string)

  datatype PublicHoliday<D> = PublicHoliday(date: D, name: string)

  /** `getPublicHolidays`: holidays keyed by the day id of their parsed `yyyy-MM-dd` date. */
  function PublicHolidays<D>(dtos: seq<PublicHolidayDto>, parse: string -> D, dayId: D -> string): map<string, PublicHoliday<D>> {
    SpreadByKey(dtos, (n: PublicHolidayDto) => dayId(parse(n.date)),
                (n: PublicHolidayDto) => PublicHoliday(parse(n.date), n.localName))
  }

  /** Each day id holds the last holiday in the input with that id. */
  lemma PublicHolidaysLastWins<D>(dtos: seq<PublicHolidayDto>, parse: string -> D, dayId: D -> string, k: string)
    requires k in PublicHolidays(dtos, parse, dayId)
    ensures exists i :: 0 <= i < |dtos| && dayId(parse(dtos[i].date)) == k &&
                        PublicHolidays(dtos, parse, dayId)[k] == PublicHoliday(parse(dtos[i].date), dtos[i].localName) &&
                        forall j :: i < j < |dtos| ==> dayId(parse(dtos[j].date)) != k
  {
    SpreadLastWins(dtos, (n: PublicHolidayDto) => dayId(parse(n.date)),
                   (n: PublicHolidayDto) => PublicHoliday(parse(n.date), n.localName), k);
  }

  /**
   * A `reduce` from the empty object that replaces the bucket of each input's key by
   * the existing bucket (or an empty one when the key is new) with the input appended.
   */
  function GroupByKey<T>(xs: seq<T>, key: T -> string): (m: map<string, seq<T>>)
    ensures m.Keys == KeysOf(xs, key)
  {
    if |xs| == 0 then map[]
    else
      var p := GroupByKey(xs[..|xs| - 1], key);
      var x := xs[|xs| - 1];
      p[key(x) := (if key(x) in p then p[key(x)] else []) + [x]]
  }

  function KeyIs<T>(key: T -> string, k: string): T -> bool {
    (x: T) => key(x) == k
  }

  /** The bucket of a key holds exactly the inputs with that key, in input order. */
  lemma {:induction false} GroupBuckets<T>(xs: seq<T>, key: T -> string, k: string)
    ensures k in GroupByKey(xs, key) ==> GroupByKey(xs, key)[k] == Filter(xs, KeyIs(key, k))
    ensures k !in GroupByKey(xs, key) ==> Filter(xs, KeyIs(key, k)) == []
  {
    if |xs| > 0 {
      var p := xs[..|xs| - 1];
      var x := xs[|xs| - 1];
      LastSplit(xs);
      GroupBuckets(p, key, k);
      FilterSnoc(p, x, KeyIs(key, k));
      GroupStep(p, x, key, k);
    }
  }

  /** Appending one input changes only its key's bucket, by appending it there. */
  lemma GroupStep<T>(p: seq<T>, x: T, key: T -> string, k: string)
    ensures var m, m' := GroupByKey(p, key), GroupByKey(p + [x], key);
            && (k in m' <==> k in m || key(x) == k)
            && (k in m' ==> m'[k] == (if k in m then m[k] else []) + (if key(x) == k then [x] else []))
  {
    assert (p + [x])[..|p|] == p;
  }

  /** The total number of elements over all buckets. */
  ghost function TotalSize<T>(m: map<string, seq<T>>): nat
    decreases |m|
  {
    if |m| == 0 then 0
    else
      var k :| k in m;
      |m[k]| + TotalSize(m - {k})
  }

  lemma TotalSizeUnfold<T>(m: map<string, seq<T>>)
    requires |m| > 0
    ensures exists k :: k in m && TotalSize(m) == |m[k]| + TotalSize(m - {k})
  {
  }

  lemma RemoveTwice<T>(m: map<string, seq<T>>, a: string, b: string)
    ensures m - {a} - {b} == m - {b} - {a}
  {
    assert (m - {a} - {b}).Keys == m.Keys - {a, b} == (m - {b} - {a}).Keys;
  }

  /** The total does not depend on which bucket is counted first. */
  lemma {:induction false} TotalSizeRemove<T>(m: map<string, seq<T>>, k: string)
    requires k in m
    ensures TotalSize(m) == |m[k]| + TotalSize(m - {k})
    decreases |m|
  {
    TotalSizeUnfold(m);
    var k' :| k' in m && TotalSize(m) == |m[k']| + TotalSize(m - {k'});
    if k' != k {
      assert |m - {k'}| < |m| && |m - {k}| < |m|;
      TotalSizeRemove(m - {k'}, k);
      TotalSizeRemove(m - {k}, k');
      RemoveTwice(m, k', k);
    }
  }

  /** Replacing one bucket changes the total by the difference in that bucket's size. */
  lemma TotalSizeUpdate<T>(m: map<string, seq<T>>, k: string, b: seq<T>)
    ensures TotalSize(m[k := b]) == |b| + TotalSize(m - {k})
  {
    TotalSizeRemove(m[k := b], k);
    assert m[k := b] - {k} == m - {k};
  }

  /** Every input lands in exactly one bucket: the bucket sizes add up to the input length. */
  lemma {:induction false} GroupTotalSize<T>(xs: seq<T>, key: T -> string)
    ensures TotalSize(GroupByKey(xs, key)) == |xs|
  {
    if |xs| > 0 {
      var p := xs[..|xs| - 1];
      var x := xs[|xs| - 1];
      var m := GroupByKey(p, key);
      var b := (if key(x) in m then m[key(x)] else []) + [x];
      var m' := m[key(x) := b];
      GroupTotalSize(p, key);
      TotalSizeUpdate(m, key(x), b);
      if key(x) in m {
        TotalSizeRemove(m, key(x));
      } else {
        assert m - {key(x)} == m;
      }
    }
  }

  datatype TeamEventDto = TeamEventDto(name: string, start: string, end: string)

  datatype ClientTeamEvent<D> = ClientTeamEvent(name: string, start: D, end: D)

  /** `getTeamEvents`: events parsed and bucketed by the day id of their start. */
  function TeamEventsByDay<D>(dtos: seq<TeamEventDto>, parseJson: string -> D, dayId: D -> string): map<string, seq<ClientTeamEvent<D>>> {
    var events := seq(|dtos|, (i: int) requires 0 <= i < |dtos| =>
                      ClientTeamEvent(dtos[i].name, parseJson(dtos[i].start), parseJson(dtos[i].end)));
    GroupByKey(events, (e: ClientTeamEvent<D>) => dayId(e.start))
  }

  /** Each bucket holds exactly the events starting on that day, in input order, and no event is lost. */
  lemma TeamEventsBuckets<D>(dtos: seq<TeamEventDto>, parseJson: string -> D, dayId: D -> string, k: string)
    ensures var events := seq(|dtos|, (i: int) requires 0 <= i < |dtos| =>
                              ClientTeamEvent(dtos[i].name, parseJson(dtos[i].start), parseJson(dtos[i].end)));
            var m := TeamEventsByDay(dtos, parseJson, dayId);
            && TotalSize(m) == |dtos|
            && (k in m ==> m[k] == Filter(events, KeyIs((e: ClientTeamEvent<D>) => dayId(e.start), k)))
  {
    var events := seq(|dtos|, (i: int) requires 0 <= i < |dtos| =>
                      ClientTeamEvent(dtos[i].name, parseJson(dtos[i].start), parseJson(dtos[i].end)));
    GroupTotalSize(events, (e: ClientTeamEvent<D>) => dayId(e.start));
    GroupBuckets(events, (e: ClientTeamEvent<D>) => dayId(e.start), k);
  }
}
