# Presence: a Dafny model of the office-attendance core

Presence lets the people of an office say, day by day, whether they will be at
work (the whole day, the first half, the last half, or explicitly not), and
shows a per-day summary of who is coming. The server keeps one row per
(user, date). The `PUT api/dayAtWork` endpoint upserts that row. The summary
endpoints project a calendar day's rows into attendees, and the current
revision memoises those projections in a process-wide cache. The client folds
the server's lists into maps keyed by a day id and derives people's initials
from their names or e-mail addresses.

The model covers the following.

- `DateTimes` (`date_time.dfy`): .NET `DateTime` as a day number plus a tick
  within the day. It covers `.Date`, `AddDays`, `Subtract(...).Days`
  (truncating toward zero) and the half-open day window the repository queries.
- `DayTypes` (`day_type.dfy`): the four-member `DayType` smart enum with its
  names and values, and lookup by either one.
- `Records` (`records.dfy`): `DayAtWork`, its composite key `(UserId, Date)`,
  and the `DayAttendee`/`DaySummary` projection.
- `Seqs` (`seqs.dfy`): order-preserving filtering, i.e. LINQ `Where` and
  TypeScript `filter`.
- `Upsert` (`upsert.dfy`): the store as a list of rows with unique keys and a
  key-to-row map view, and the `AddOrUpdate` upsert. The upsert is proved to
  be a map update of that view.
- `Repository` (`repository.dfy`): `DayAtWorkSqlRepository`, i.e. the day
  window query, the per-user query from today on, and the write.
- `AsyncExtensions` (`async_extensions.dfy`): `SelectAsync` as a
  state-threading map that runs strictly one element after another, and
  `ToListAsync`.
- `TeamEvents` (`team_events.dfy`): calendar events, the accepted-attendee
  filter, and the stable `OrderBy(e => e.Start)`.
- `Endpoints` (`endpoints.dfy`): the current HTTP API. The cache is a map from
  day key to summary, and `Coherent` is its invariant. The module also holds
  the single-day and range summaries, the write that evicts, the identity
  reads, and the team events. `Endpoints.GetEvents` also models the identical
  `GetEvents` of `Api.cs:41-51`.
- `RepositoryApi` (`repository_api.dfy`): the previous, cache-less revision of
  the web API, which queries the window starting at the date as given. Its
  `PUT api/dayAtWork` (`src/Itera.Fredrikstad.Presence.Web/Api/Api.cs:37-43`) is the same upsert and commit as the
  repository's write, and is modelled by `Repository.Update`.
- `LegacyApi` (`legacy_api.dfy`): the oldest single-file API. It queries the
  database directly and drops `Empty` rows from the summary. Its write
  (`Api.cs:33-39`) is again `Repository.Update`.
- `ClientApi` and `LegacyClientApi` (`client_api.dfy`,
  `legacy_client_api.dfy`): the client's reduces into day-id keyed maps, and
  the save round trip.
- `ClientUtils` (`client_utils.dfy`): JavaScript `indexOf`/`split` on one
  character, and `getInitials`.
- `Wrappers` (`wrappers.dfy`): `Option` and `Result`.

Dates in the client (`Date`), `parseJSON`, `parse`, `formatISO` and
`getDayId` (`format(date, "ddMMyy")`) are opaque type and function
parameters. The model proves only what holds for every choice of them.

## Model

| member | source | states |
|---|---|---|
| DateTimes.BeforeIsTickOrder | src/Itera.Fredrikstad.Presence.Infrastructure/DayAtWorkSqlRepository.cs:18 | comparing two `DateTime`s is comparing their tick counts |
| DateTimes.DateOf | src/Itera.Fredrikstad.Presence.Web/Api/Endpoints/Api.cs:47 | `.Date` is a midnight, is not after the input, and the input lies before the next midnight |
| DateTimes.AddDays | src/Itera.Fredrikstad.Presence.Web/Api/Endpoints/Api.cs:64 | adding n days adds n times the ticks of a day |
| DateTimes.SpanDays | src/Itera.Fredrikstad.Presence.Web/Api/Endpoints/Api.cs:63 | `TimeSpan.Days` is the whole number of days, truncated toward zero for both signs |
| DateTimes.SubtractMidnights | src/Itera.Fredrikstad.Presence.Web/Api/Endpoints/Api.cs:63 | between two midnights, `Subtract(...).Days` is the difference of their calendar days |
| DateTimes.WindowSpan | src/Itera.Fredrikstad.Presence.Web/Api/Api.cs:28 | the window `[date, date.AddDays(1))` from an arbitrary time holds exactly the later part of that day and the earlier part of the next |
| DateTimes.MidnightWindow | src/Itera.Fredrikstad.Presence.Infrastructure/DayAtWorkSqlRepository.cs:17-19 | from a midnight the window holds a date exactly when that date's `.Date` is the midnight |
| DayTypes.FindByName | src/Itera.Fredrikstad.Presence.Core/DayType.cs:5-13 | `SmartEnum.FromName`: the member carrying that name, or nothing when no member has it |
| DayTypes.FindByValue | src/Itera.Fredrikstad.Presence.Core/DayType.cs:5-13 | `SmartEnum.FromValue`: the member carrying that value, or nothing when no member has it |
| DayTypes.ExactlyFourVariants | src/Itera.Fredrikstad.Presence.Core/DayType.cs:7-10 | there are exactly four day types, each listed once |
| DayTypes.OrdinalsAreDeclarationOrder | src/Itera.Fredrikstad.Presence.Core/DayType.cs:7-10 | the values 0..3 follow the declaration order |
| DayTypes.NamesAndValuesInjective | src/Itera.Fredrikstad.Presence.Core/DayType.cs:7-10 | distinct day types have distinct names and distinct values |
| DayTypes.NameRoundTrip | src/Itera.Fredrikstad.Presence.Web.Tests/SerializerTests.cs:41-49 | serialising a day type by name and reading it back gives the same member, and a name reads as a member exactly when it is that member's name |
| DayTypes.ValueRoundTrip | src/Itera.Fredrikstad.Presence.Core/DayType.cs:7-10 | reading a value gives a member exactly for 0..3, and that member's value round-trips |
| Records.Project | src/Itera.Fredrikstad.Presence.Web/Api/Endpoints/Api.cs:52-53 | one attendee per row, in row order, carrying the row's user, type and comment |
| Records.ProjectAppend | src/Itera.Fredrikstad.Presence.Web/Api/Endpoints/Api.cs:52-53 | projection distributes over concatenation of row lists |
| Seqs.FilterFilter | Api.cs:29 | filtering by the window and then by "not Empty" is one filter by the conjunction |
| Upsert.Find | src/Itera.Fredrikstad.Presence.Infrastructure/UpsertExtensions.cs:9 | `FindAsync` by key finds a row with that key, and finds nothing exactly when no row has it |
| Upsert.AddOrUpdate | src/Itera.Fredrikstad.Presence.Infrastructure/UpsertExtensions.cs:7-20 | after the upsert the row is stored, the size grows only on insert, every other row is unchanged, and key uniqueness is kept |
| Upsert.ViewValues | src/Itera.Fredrikstad.Presence.Infrastructure/Db.cs:17-18 | with unique `(UserId, Date)` keys, the key map holds every row under its own key and nothing else |
| Upsert.ViewSize | src/Itera.Fredrikstad.Presence.Infrastructure/Db.cs:17-18 | with unique keys, the store has as many rows as distinct keys |
| Upsert.AddOrUpdateKeys | Api.cs:64-77 | after the upsert the stored keys are exactly the previous keys plus the row's key |
| Upsert.AddOrUpdateIsMapUpdate | src/Itera.Fredrikstad.Presence.Infrastructure/UpsertExtensions.cs:9-19 | the upsert is the map update `store[key(e)] := e` of the key view |
| Upsert.AddOrUpdateInserts | src/Itera.Fredrikstad.Presence.Infrastructure/UpsertExtensions.cs:16-19 | on an absent key the store grows by one row and keeps every previous row |
| Upsert.AddOrUpdateReplaces | src/Itera.Fredrikstad.Presence.Infrastructure/UpsertExtensions.cs:11-15 | on a present key the number of keys is unchanged and the one row with that key now equals the new row in every field |
| Upsert.LookupAfterSave | src/Itera.Fredrikstad.Presence.Infrastructure/UpsertExtensions.cs:7-19 | after saving, a lookup by the row's key returns exactly that row |
| Upsert.AddOrUpdateIdempotent | src/Itera.Fredrikstad.Presence.Infrastructure/UpsertExtensions.cs:9-19 | upserting the same row twice is the same as upserting it once |
| Upsert.OverwriteClearsComment | src/Itera.Fredrikstad.Presence.Infrastructure/UpsertExtensions.cs:11-14 | a full overwrite without a comment clears the stored comment for that key |
| Repository.GetAttendees | src/Itera.Fredrikstad.Presence.Infrastructure/DayAtWorkSqlRepository.cs:15-22 | exactly the stored rows whose date lies in `[date, date.AddDays(1))` |
| Repository.GetDayAtWorkList | src/Itera.Fredrikstad.Presence.Infrastructure/DayAtWorkSqlRepository.cs:24-31 | exactly the user's stored rows dated on or after today |
| Repository.Update | src/Itera.Fredrikstad.Presence.Infrastructure/DayAtWorkSqlRepository.cs:33-37 | the write stores the row and is a map update of the key view |
| Repository.QueriesHaveUniqueKeys | src/Itera.Fredrikstad.Presence.Infrastructure/DayAtWorkSqlRepository.cs:15-31 | both query results inherit the store's key uniqueness |
| Repository.AttendeesAfterUpdate | src/Itera.Fredrikstad.Presence.Infrastructure/DayAtWorkSqlRepository.cs:15-37 | after a write, the written row is among the attendees of its calendar day |
| Repository.UpdateLeavesOtherWindows | src/Itera.Fredrikstad.Presence.Infrastructure/DayAtWorkSqlRepository.cs:15-37 | a write does not change the attendees of any window that does not hold its date |
| Repository.AttendeesDistinctUsers | src/Itera.Fredrikstad.Presence.Infrastructure/DayAtWorkSqlRepository.cs:17-19 | for a midnight, every user occurs at most once among that day's attendees when stored dates are midnights |
| AsyncExtensions.SelectAsync | src/Itera.Fredrikstad.Presence.Web/AsyncExtensions.cs:5-13 | one output per input |
| AsyncExtensions.SelectAsyncPrefix | src/Itera.Fredrikstad.Presence.Web/AsyncExtensions.cs:5-13 | the outputs for a prefix of the inputs are a prefix of the outputs |
| AsyncExtensions.SelectAsyncStep | src/Itera.Fredrikstad.Presence.Web/AsyncExtensions.cs:9-12 | each element is awaited on the state its predecessors left behind |
| AsyncExtensions.SelectAsyncSequential | src/Itera.Fredrikstad.Presence.Web/AsyncExtensions.cs:9-12 | output i is the function applied to input i in the state after inputs 0..i-1 |
| AsyncExtensions.SelectAsyncPointwise | src/Itera.Fredrikstad.Presence.Web/AsyncExtensions.cs:9-12 | with a function that ignores and keeps the state, the result is a plain pointwise map |
| AsyncExtensions.ToListAsync | src/Itera.Fredrikstad.Presence.Web/AsyncExtensions.cs:15-24 | the list holds every element in enumeration order, and is empty for an empty input |
| TeamEvents.AcceptedNames | src/Itera.Fredrikstad.Presence.Web/Api/Api.cs:49 | one name per accepted attendee in attendee order, the common name when present and the address otherwise |
| TeamEvents.InsertByStart | src/Itera.Fredrikstad.Presence.Web/Api/Api.cs:51 | inserting into a start-sorted list keeps it sorted |
| TeamEvents.InsertByStartPermutes | src/Itera.Fredrikstad.Presence.Web/Api/Api.cs:51 | insertion adds exactly the one event |
| TeamEvents.OrderByStart | src/Itera.Fredrikstad.Presence.Web/Api/Api.cs:51 | the result is sorted by start |
| TeamEvents.OrderByStartPermutes | src/Itera.Fredrikstad.Presence.Web/Api/Api.cs:51 | the result is a permutation of the input |
| TeamEvents.InsertKeepsTies | src/Itera.Fredrikstad.Presence.Web/Api/Api.cs:51 | insertion puts an event after every earlier event with the same start |
| TeamEvents.OrderByStartStable | src/Itera.Fredrikstad.Presence.Web/Api/Api.cs:51 | `OrderBy` is stable: events with equal starts keep their input order |
| Endpoints.GetOrCreate | src/Itera.Fredrikstad.Presence.Web/Api/Endpoints/Api.cs:47-54 | a hit returns the stored entry unchanged; a miss returns and stores the factory's value; no other entry changes |
| Endpoints.GetDaySummary | src/Itera.Fredrikstad.Presence.Web/Api/Endpoints/Api.cs:45-57 | the summary is cached under the calendar day and keeps the cache coherent; a coherent cache answers with that day's rows |
| Endpoints.SameDaySameSummary | src/Itera.Fredrikstad.Presence.Web/Api/Endpoints/Api.cs:47-51 | two requests on the same day share one entry, including the first request's time of day |
| Endpoints.SummaryIsProjectionOfDay | src/Itera.Fredrikstad.Presence.Web/Api/Endpoints/Api.cs:50-53 | the summary holds one attendee for every row of that calendar day, Empty rows included, and nothing else |
| Endpoints.Update | src/Itera.Fredrikstad.Presence.Web/Api/Endpoints/Api.cs:83-90 | the row is saved as a map update, only that day's entry leaves the cache, and the row is echoed |
| Endpoints.UpdatePreservesCoherence | src/Itera.Fredrikstad.Presence.Web/Api/Endpoints/Api.cs:85-87 | a write followed by the eviction of its day leaves every cached summary current |
| Endpoints.ReadAfterUpdate | src/Itera.Fredrikstad.Presence.Web/Api/Endpoints/Api.cs:83-90 | the next read of the written day reflects the write and contains the written attendee |
| Endpoints.Evict | src/Itera.Fredrikstad.Presence.Web/Api/Endpoints/Api.cs:49 | expiry removes exactly the expired entries and keeps the rest |
| Endpoints.EvictPreservesCoherence | src/Itera.Fredrikstad.Presence.Web/Api/Endpoints/Api.cs:49 | expiring any entries keeps the cache coherent |
| Endpoints.DatesToRetrieve | src/Itera.Fredrikstad.Presence.Web/Api/Endpoints/Api.cs:62-64 | `count` consecutive midnights starting at `fromDate.Date`, strictly ascending |
| Endpoints.GetDaySummaryRange | src/Itera.Fredrikstad.Presence.Web/Api/Endpoints/Api.cs:59-81 | fails exactly when `toDate` is two or more days before `fromDate`, and otherwise returns `1 + toDate - fromDate` days of summaries |
| Endpoints.RangeStepCoherent | src/Itera.Fredrikstad.Presence.Web/Api/Endpoints/Api.cs:67-77 | one range element keeps the cache coherent, replaces nothing, and is what is cached under its day |
| Endpoints.RangeWalkCoherent | src/Itera.Fredrikstad.Presence.Web/Api/Endpoints/Api.cs:66-78 | walking any list of midnights through the cache keeps it coherent |
| Endpoints.RangeWalkExtends | src/Itera.Fredrikstad.Presence.Web/Api/Endpoints/Api.cs:66-78 | the walk never replaces an existing entry |
| Endpoints.RangeWalkStores | src/Itera.Fredrikstad.Presence.Web/Api/Endpoints/Api.cs:66-78 | after the walk, each element is what the cache holds under its date |
| Endpoints.RangeMatchesSingleDays | src/Itera.Fredrikstad.Presence.Web/Api/Endpoints/Api.cs:62-78 | element i is the summary of `fromDate.Date + i` days, with that day's rows, and equals what the single-day endpoint then returns |
| Endpoints.FindFirst | src/Itera.Fredrikstad.Presence.Web/Api/Endpoints/Api.cs:28 | the value of the first claim of the type, or nothing when no claim has the type |
| Endpoints.GetUser | src/Itera.Fredrikstad.Presence.Web/Api/Endpoints/Api.cs:24-32 | Unauthorized exactly without an identity name; otherwise the name is the user id, and non-empty name or photo come from claims of those types |
| Endpoints.GetDayAtWorks | src/Itera.Fredrikstad.Presence.Web/Api/Endpoints/Api.cs:34-42 | Unauthorized exactly without an identity name; otherwise exactly the caller's rows from today on |
| Endpoints.GetEvents | src/Itera.Fredrikstad.Presence.Web/Api/Endpoints/Api.cs:92-102 | a start-sorted permutation of the occurrences' events, each with no attendees |
| RepositoryApi.Get | src/Itera.Fredrikstad.Presence.Web/Api/Api.cs:20-24 | exactly that user's stored rows from today on |
| RepositoryApi.GetDaySummary | src/Itera.Fredrikstad.Presence.Web/Api/Api.cs:26-35 | the summary carries the date as given and one attendee per window row, in order |
| RepositoryApi.UnnormalisedWindowSpansTwoDays | src/Itera.Fredrikstad.Presence.Web/Api/Api.cs:28 | a query at a non-midnight time includes earlier-time rows of the next day and excludes earlier-time rows of its own day |
| RepositoryApi.AgreesWithCachedAtMidnight | src/Itera.Fredrikstad.Presence.Web/Api/Api.cs:26-35 | at a midnight this revision reports the same attendees as the cached endpoint |
| RepositoryApi.GetEvents | src/Itera.Fredrikstad.Presence.Web/Api/Api.cs:45-52 | a start-sorted permutation of the events, and events with the same start keep their calendar order |
| LegacyApi.Get | Api.cs:24-25 | exactly that user's stored rows from today on |
| LegacyApi.GetDaySummary | Api.cs:27-31 | the date as given; every non-Empty row of the window `[date, date.AddDays(1))` gives an attendee, and every attendee comes from such a row |
| LegacyApi.SummaryIsRepositorySummaryWithoutEmpty | Api.cs:27-31 | for every query date and time, the attendees are the next revision's one-per-row, in-order projection of the same window with Empty attendees removed |
| LegacyApi.ProjectDropsEmpty | Api.cs:29-30 | dropping Empty rows and then projecting equals projecting and then dropping Empty attendees |
| LegacyApi.SummaryIsCurrentWithoutEmpty | Api.cs:27-31 | at a midnight the legacy summary is the cached summary with Empty attendees removed |
| ClientApi.MapDayAtWorkItem | src/Itera.Fredrikstad.Presence.Web/ClientApp/src/lib/api.ts:27-38 | the item's id is the day id of its parsed date, and user, type and comment are copied |
| ClientApi.ToDto | src/Itera.Fredrikstad.Presence.Web/ClientApp/src/lib/api.ts:62-67 | the DTO sent carries the item's user, type and comment unchanged and its date formatted as an ISO date |
| ClientApi.Echo | src/Itera.Fredrikstad.Presence.Web/Api/Endpoints/Api.cs:83-90 | the server answers with the record it bound: user, type and comment as sent, the date after the server's parse-and-serialise trip |
| ClientApi.SaveRoundTrip | src/Itera.Fredrikstad.Presence.Web/ClientApp/src/lib/api.ts:61-72 | saving gives back user, type and comment unchanged and the date re-parsed from the server's serialisation, keyed by its day id; the same item when its date survives the trip, and the same key when its day does |
| ClientApi.SpreadByKey | src/Itera.Fredrikstad.Presence.Web/ClientApp/src/lib/api.ts:44-49 | the object spread fold has exactly the keys of the inputs |
| ClientApi.SpreadLastWins | src/Itera.Fredrikstad.Presence.Web/ClientApp/src/lib/api.ts:44-49 | each key holds the value of the last input with that key |
| ClientApi.SpreadByKeyCongruent | src/Itera.Fredrikstad.Presence.Web/ClientApp/src/lib/api.ts:44-49 | the fold depends only on the keys and values given to the inputs |
| ClientApi.ItemsForUserByDayId | src/Itera.Fredrikstad.Presence.Web/ClientApp/src/lib/api.ts:40-50 | a day id is present exactly when some row has it, holds the last such row's item, and there are no more entries than rows |
| ClientApi.PublicHolidaysLastWins | src/Itera.Fredrikstad.Presence.Web/ClientApp/src/lib/api.ts:86-91 | each day id holds the last holiday of that day with its local name and parsed date |
| ClientApi.GroupByKey | src/Itera.Fredrikstad.Presence.Web/ClientApp/src/lib/api.ts:109-117 | the grouping has a bucket for exactly the keys of the inputs |
| ClientApi.GroupBuckets | src/Itera.Fredrikstad.Presence.Web/ClientApp/src/lib/api.ts:109-117 | each bucket is exactly the inputs with that key, in input order |
| ClientApi.GroupTotalSize | src/Itera.Fredrikstad.Presence.Web/ClientApp/src/lib/api.ts:109-117 | every input lands in exactly one bucket: the bucket sizes add up to the input count |
| ClientApi.TeamEventsBuckets | src/Itera.Fredrikstad.Presence.Web/ClientApp/src/lib/api.ts:107-118 | each day's bucket is exactly the events starting that day, in input order, and none is lost |
| LegacyClientApi.SameAsMapDayAtWorkItem | ClientApp/src/lib/api.ts:13-31 | the older inline builder produces the same map as `mapDayAtWorkItem` with the same date parser |
| LegacyClientApi.KeyedByDayId | ClientApp/src/lib/api.ts:13-31 | a day id is present exactly when some row has it, and holds the last such row's item |
| ClientUtils.IndexOf | src/Itera.Fredrikstad.Presence.Web/ClientApp/src/lib/utils.ts:13 | the first position of the character, or -1 exactly when it does not occur |
| ClientUtils.SplitJoin | src/Itera.Fredrikstad.Presence.Web/ClientApp/src/lib/utils.ts:19 | joining the parts with the separator gives back the string |
| ClientUtils.SplitPartsFree | src/Itera.Fredrikstad.Presence.Web/ClientApp/src/lib/utils.ts:19 | no part contains the separator |
| ClientUtils.SplitCount | src/Itera.Fredrikstad.Presence.Web/ClientApp/src/lib/utils.ts:19 | there is more than one part exactly when the separator occurs |
| ClientUtils.SplitFirst | src/Itera.Fredrikstad.Presence.Web/ClientApp/src/lib/utils.ts:24 | the first part is everything before the first separator, or the whole string |
| ClientUtils.SplitLast | src/Itera.Fredrikstad.Presence.Web/ClientApp/src/lib/utils.ts:20 | the last part is everything after the last separator |
| ClientUtils.ToUpper | src/Itera.Fredrikstad.Presence.Web/ClientApp/src/lib/utils.ts:20 | lower-case ASCII letters map to their one upper-case letter, other ASCII is unchanged, and any other character goes through the Unicode case table, which may lengthen it |
| ClientUtils.InitialsOf | src/Itera.Fredrikstad.Presence.Web/ClientApp/src/lib/utils.ts:20 | the TypeError exactly when the first or last part is empty; otherwise the two upper-cased first characters, which for ASCII initials are two characters, neither a lower-case letter |
| ClientUtils.InitialsOfSplit | src/Itera.Fredrikstad.Presence.Web/ClientApp/src/lib/utils.ts:19-20 | splitting succeeds exactly when the text is non-empty and neither starts nor ends with the separator, and the initials are the upper-cased first characters of the text and of the part after the last separator |
| ClientUtils.NameInitials | src/Itera.Fredrikstad.Presence.Web/ClientApp/src/lib/utils.ts:12-21 | a name without `@` succeeds exactly when it is non-empty and neither starts nor ends with a space, and then gives the initials of its first and last space-separated words |
| ClientUtils.SingleWordRepeatsInitial | src/Itera.Fredrikstad.Presence.Web/ClientApp/src/lib/utils.ts:19-20 | a single word gives its initial twice |
| ClientUtils.EmailInitials | src/Itera.Fredrikstad.Presence.Web/ClientApp/src/lib/utils.ts:23-27 | an address with `@` succeeds exactly when the user name before the first `@` is non-empty and neither starts nor ends with a dot, and then gives the initials of its first and last dot-separated parts |

## Left out

- HTTP routing, model binding, JSON serialisation, authentication middleware
  and axios calls are left out. Each endpoint is a function of its inputs:
  the store, the cache, the identity, and today's date as a parameter.
- Entity Framework change tracking, `AsNoTracking`, `Detach`/`Attach` and
  `SaveChangesAsync` are left out. The store is the committed list of rows,
  and a write is the upsert followed by an immediate commit. The row order of
  a query is the store's order, one admissible order for an unordered SQL
  query.
- Concurrency between requests is left out. Every request runs to completion
  atomically, so a write racing a cache fill is not modelled. In the program
  a fill that read the rows before a write and stores its summary after the
  write's eviction leaves a stale entry. Sliding expiry keeps it alive while
  it is read at least once an hour. `Endpoints.UpdatePreservesCoherence`
  holds only for requests taken one at a time.
- Sliding expiry after 60 minutes is left out. `Endpoints.Evict` removes an
  arbitrary set of entries instead, so every proof holds for any expiry
  schedule.
- Cache factories are evaluated eagerly. Repository reads are pure in the
  model, so this cannot change a result.
- `Endpoints.GetEvents` and `RepositoryApi.GetEvents` do not model calendar
  download, ICS parsing or `GetOccurrences` recurrence expansion (network and
  a foreign library). The occurrences and events are inputs.
- `Endpoints.GetEvents` does not state stability for the occurrence list,
  because the order the calendar library yields occurrences in is not
  modelled. `RepositoryApi.GetEvents` states it.
- `Endpoints.GetUser` does not model the claims principal or the Graph photo
  lookup. The identity name and the claim list are inputs.
- DateTime covers neither its year range 1..9999 (`AddDays` overflow) nor
  `DateTimeKind`, nor `DateTimeOffset` offsets. Event starts are plain
  integers.
- The cache key string `"summary-" + date` is modelled as its date. Distinct
  dates format distinctly, so the string formatting is left out.
- The empty `Ok()` answer of the two earlier revisions' write carries no data,
  so it is not modelled. Their write is `Repository.Update`.
- `ClientUtils.ToUpper` maps ASCII itself and takes the rest of Unicode case
  mapping as the parameter `upperOther`, a foreign table. So for non-ASCII
  initials such as 'ø' the model says only what that table gives.
- `ClientUtils.InitialsOf` takes the first Unicode character of a part, where
  JavaScript's `[0]` takes the first UTF-16 code unit. Strings are sequences
  of Unicode scalar values here. For a part starting outside the Basic
  Multilingual Plane (an emoji, say) the program upper-cases half a surrogate
  pair, and the model does not show that.
- `Upsert.Find` compares keys by exact string and date equality, and so do
  `Repository.GetDayAtWorkList` and the `Get` endpoints on `UserId`. The
  program runs on SQL Server, whose default collation compares the key and
  the `=` filter case-insensitively and ignores trailing spaces. So user ids
  differing only in case or in trailing spaces are one row in the program
  and two in the model. The collation belongs to the database, not to the
  source.
- `ClientApi.SaveRoundTrip` treats an absent comment as one value, `None`.
  In the program the client sends `undefined` and the server answers
  `"comment": null`, so a comment-less item comes back with `null`, not the
  same JavaScript value. JavaScript's two kinds of absence are not modelled.
- `ClientApi.Echo` leaves the server's date round trip (JSON date binding,
  then `DateTime` serialisation) as the parameter `echoDate`. It is .NET
  serializer behaviour.
- `ClientUtils.Split` models `split` with a one-character separator, the only
  form the source uses. Its own contract states only that there is at least
  one part; the split lemmas state the rest.
- `emphasizeEmojis` (`utils.ts:29-31`) is left out. It is a regular
  expression replacement driven by the `emoji-regex` package.
- Client `Date` values, `parseJSON`, `parse`, `formatISO` and `getDayId` are
  left abstract. They are parameters, so "ddMMyy" collisions a century apart
  are neither excluded nor shown.
- `ClientApi.GroupTotalSize` counts with a ghost function, because the total
  size of a map's buckets is a proof device and not program data.
- Program startup, dependency injection (`Program.cs`,
  `ServiceCollectionExtensions.cs`), the `PresenceDbContext`/`Db` migrations
  configuration, the front-end components and the test harness are left out.
  The serializer test's day-type round trip is modelled as
  `DayTypes.NameRoundTrip`.
