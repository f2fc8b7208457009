/**
 * The first client revision (ClientApp/src/lib/api.ts): the same
 * `getDayAtWorkItemsForUser` reduce, with the item built inline from
 * `new Date(n.date)` instead of through `mapDayAtWorkItem`.
 */
module LegacyClientApi {
  import opened ClientApi

  /** The inline builder: parse the date with `new Date`, take its day id, and build the item under that id. */
  function LegacyItem<D>(newDate: string -> D, dayId: D -> string): DayAtWorkDto -> Item<D> {
    (n: DayAtWorkDto) =>
      Apply(newDate(n.date), (date: D) =>
        Apply(dayId(date), (id: string) => Item(id, date, n.userId, n.dayType, n.comment)))
  }

  function LegacyKey<D>(newDate: string -> D, dayId: D -> string): DayAtWorkDto -> string {
    (n: DayAtWorkDto) => dayId(newDate(n.date))
  }

  function ItemsForUser<D>(dtos: seq<DayAtWorkDto>, newDate: string -> D, dayId: D -> string): map<string, Item<D>> {
    SpreadByKey(dtos, LegacyKey(newDate, dayId), LegacyItem(newDate, dayId))
  }

  /** The inline builder makes exactly the item `mapDayAtWorkItem` makes with the same date parser. */
  lemma SameAsMapDayAtWorkItem<D>(dtos: seq<DayAtWorkDto>, newDate: string -> D, dayId: D -> string)
    ensures ItemsForUser(dtos, newDate, dayId) == ClientApi.ItemsForUser(dtos, newDate, dayId)
  {
    SpreadByKeyCongruent(dtos, LegacyKey(newDate, dayId), LegacyItem(newDate, dayId),
                         ItemKey(newDate, dayId), ItemOf(newDate, dayId));
  }

  /**
   * Each entry's `id` equals its key, its fields are copied from the last DTO with that
   * day id, and the keys are exactly the inputs' day ids.
   */
  lemma KeyedByDayId<D>(dtos: seq<DayAtWorkDto>, newDate: string -> D, dayId: D -> string, k: string)
    ensures k in ItemsForUser(dtos, newDate, dayId) <==>
              exists i :: 0 <= i < |dtos| && dayId(newDate(dtos[i].date)) == k
    ensures k in ItemsForUser(dtos, newDate, dayId) ==>
              var item := ItemsForUser(dtos, newDate, dayId)[k];
              && item.id == k
              && exists i :: 0 <= i < |dtos| && dayId(newDate(dtos[i].date)) == k &&
                             item.userId == dtos[i].userId && item.dayType == dtos[i].dayType &&
                             item.comment == dtos[i].comment && item.date == newDate(dtos[i].date) &&
                             forall j :: i < j < |dtos| ==> dayId(newDate(dtos[j].date)) != k
  {
    SameAsMapDayAtWorkItem(dtos, newDate, dayId);
    ItemsForUserByDayId(dtos, newDate, dayId, k);
  }
}
