# gtfs-sqljs-departures in Dafny

A model of the data logic of a browser departure board for GTFS public
transport feeds, with proofs about it. It covers:

- the departure pass of the departures hook. Today's stop-time rows of the
  monitored stops are filtered against the current time and resolved to
  their trip and route. They are grouped by route and direction, given
  distinct headsigns, sorted by time, and the last departure of each
  group is flagged. The groups are then ordered by sort order and short
  name;
- the service-alert filter of the alerts hook;
- the reading of the board configuration from the query string;
- the rewriting of remote feed URLs onto the CORS proxy;
- the stop search and stop selection of the stop picker;
- the dataset filter, dataset search and URL extraction of the dataset
  picker;
- the URL builder: the query it writes, the configuration it previews,
  its presets and its validity test.

The schedule store is given as data: agency time zones, stop times per
stop, and trips and routes by id. "Now" is the current `HH:mm:ss` string
together with the instant of today's local midnight, in integer seconds.
Query strings are maps from parameter name to value. URL parsing is an
input: the parts of the parsed URL, or `None` when parsing throws.

Files:

- `wrappers.dfy`: `Option`.
- `text.dfy`: ASCII string operations. This covers `trim`, `toLowerCase`,
  `includes`, `split` and `join`, code-point string order, and decimal
  `parseInt`.
- `lists.dfy`: `filter`, `map` and `slice(0, n)` on sequences, with their
  subsequence facts.
- `sorting.dfy`: the stable sort. It is stated as a function on sequences
  and carried out in place on an array.
- `departures.dfy`: the departure pass. `FetchDepartures` has the
  source's loops and mutable map. It is proved equal to the function
  `Aggregate`.
- `departure_properties.dfy` and `departure_counts.dfy`: what the pass
  guarantees.
- `alerts.dfy`, `url_params.dfy`, `url_builder.dfy`, `proxy.dfy`,
  `stop_selector.dfy` and `dataset_search.dfy`: one file per source
  file.

Where the source behaves in a surprising way, the model keeps that
behaviour and a lemma states it:

- A `24:xx` or later departure stays on today's date with 24 hours taken
  off (`ServiceDayHourStaysOnToday`).
- A zero delay alone does not make a departure realtime, and the delay
  never moves the departure time (`RealtimeAndDelay`).
- Two routes can share a group key when a direction id is negative
  (`GroupKeyCollision`).
- A refresh interval typed as `0` shows 20 in the preview, but the built
  URL gives the board 0 (`ZeroIntervalDiverges`).

## Model

| member | source | states |
|---|---|---|
| Departures.UseDepartures | src/hooks/useDepartures.ts:21-139 | without a store or without stops there are no groups and the time zone is kept; otherwise the groups are those of the pass and the time zone is the first agency's when it has one; a throw while reading the agencies keeps the previous groups and time zone, and a throw in a later query keeps the previous groups with the time zone already set |
| Departures.FetchDepartures | src/hooks/useDepartures.ts:41-132 | the nested loops over stops and rows, followed by the per-group sort, the last flag and the group sort, return exactly `Aggregate` of the inputs |
| Departures.CollectStop | src/hooks/useDepartures.ts:44-109 | after the rows of one stop, the key list and the map are those built from all entries seen so far, the new ones being the resolved future rows of that stop |
| Departures.AddRow | src/hooks/useDepartures.ts:51-61 | a past row, or one whose trip or route is missing, changes nothing; any other row is added to what was seen |
| Departures.AddDeparture | src/hooks/useDepartures.ts:63-107 | the group of the key is created on first sight, the headsign is recorded once, and the departure is appended; the map stays the one built entry by entry |
| Departures.JoinGroup | src/hooks/useDepartures.ts:79-107 | a non-empty headsign the group does not list yet is appended, so the headsigns stay free of repeats; the row's departure is appended after the group's earlier ones |
| Departures.SortGroups | src/hooks/useDepartures.ts:112-132 | when the map holds, under every key, the group of that key's entries, the result is the finished groups in key order, stably sorted by `GroupBefore` |
| Departures.FinalizeAll | src/hooks/useDepartures.ts:114-124 | one finished group per key, in the map's key order |
| Departures.FinalizeGroup | src/hooks/useDepartures.ts:116-121 | the group's departures are sorted in place on an array by time and the last one is flagged |
| Departures.FlagLast | src/hooks/useDepartures.ts:118-121 | only the last departure, if there is one, gets flagged as last; the others are left as they are |
| Departures.TableCollected | src/hooks/useDepartures.ts:63-107 | the map built entry by entry lists the keys in first-seen order and holds, under every key, the group built from exactly the entries with that key |
| Departures.TableDomain | src/hooks/useDepartures.ts:65-66 | the map has a group for exactly the keys seen |
| Departures.CollectedStep | src/hooks/useDepartures.ts:65-107 | one row added to its group, creating the group when the key is new, keeps the map in step with the entries seen |
| Departures.WithKeyNonEmpty | src/hooks/useDepartures.ts:65-77 | a key is listed exactly when some entry carries it |
| Sorting.SortInPlace | src/hooks/useDepartures.ts:116 | the in-place sort leaves the array holding the stable insertion sort of its old contents |
| Sorting.InsertInPlace | src/hooks/useDepartures.ts:116 | one insertion step on the array puts the element after every element not strictly after it |
| Sorting.SortedRearrangement | src/hooks/useDepartures.ts:116-132 | for a consistent comparator, the sorted sequence is sorted and is a permutation of the input, with the same length and the same members |
| Sorting.InsertionSortedIsSorted | src/hooks/useDepartures.ts:116-132 | a consistent comparator leaves the result in order |
| Sorting.InsertionSortedPermutes | src/hooks/useDepartures.ts:116-132 | sorting only reorders, as a multiset |
| Sorting.SortKeepsTieOrder | src/hooks/useDepartures.ts:116-132 | the sort is stable: the elements that rank equal to any given one keep their input order |
| Sorting.InsertTies | src/hooks/useDepartures.ts:116 | after one insertion step, the elements that rank equal to any given one are those of before, in the same order, followed by the new element when it ranks equal too |
| DepartureProperties.ResolvedRowsIff | src/hooks/useDepartures.ts:51-61 | an entry comes from a stop's rows exactly when it is one of those rows, is not in the past, and its trip and route are the ones the store resolves |
| DepartureProperties.QualifyingIff | src/hooks/useDepartures.ts:44-61 | an entry is kept exactly when its stop is monitored, its row is one of that stop's rows, the row is not in the past, and its trip and route resolve |
| DepartureProperties.PastRowsIgnored | src/hooks/useDepartures.ts:53-55 | a row that departs before the current time is never kept |
| DepartureProperties.GroupKeyInjective | src/hooks/useDepartures.ts:63 | with absent or non-negative direction ids, equal keys mean the same route and the same direction |
| DepartureProperties.GroupKeyCollision | src/hooks/useDepartures.ts:63 | route `7` with direction -1 and route `7-` with direction 1 get the same key |
| DepartureProperties.DirectionTextInjective | src/hooks/useDepartures.ts:63 | the key text of an absent or non-negative direction determines the direction |
| DepartureProperties.DashFree | src/hooks/useDepartures.ts:63 | the key text of an absent or non-negative direction holds no dash |
| DepartureProperties.WithKeyIff | src/hooks/useDepartures.ts:63-79 | a group collects exactly the kept entries with its key |
| DepartureProperties.KeysOfDistinct | src/hooks/useDepartures.ts:63-77 | keys are listed once each, and exactly the keys of kept entries are listed |
| DepartureProperties.GroupBeforeTotalPreorder | src/hooks/useDepartures.ts:127-132 | the group comparator (sort order, then short name) is total and transitive |
| DepartureProperties.AggregateIsGroups | src/hooks/useDepartures.ts:112-132 | the board holds one group per key of the kept rows and no other group, ascending by sort order and then by short name |
| DepartureProperties.FinalGroupsMembers | src/hooks/useDepartures.ts:114-124 | the finished groups are exactly the groups of the listed keys |
| DepartureProperties.DeparturesOfIff | src/hooks/useDepartures.ts:92-107 | the departures built for a group are exactly the departures of its entries |
| DepartureProperties.DeparturesOfLength | src/hooks/useDepartures.ts:92-107 | one departure is built per entry |
| DepartureProperties.DeparturesOfUnflagged | src/hooks/useDepartures.ts:105 | every departure is pushed with the last flag off |
| DepartureProperties.MarkLastFacts | src/hooks/useDepartures.ts:118-121 | flagging the last departure keeps the length and the order, flags exactly the last position, and changes nothing else |
| DepartureProperties.GroupDepartures | src/hooks/useDepartures.ts:114-121 | a finished group has one departure per entry of its key, at least one, sorted by time; exactly the final one is flagged last; apart from that flag they are a permutation of the departures built from its entries |
| DepartureProperties.DepartureProvenance | src/hooks/useDepartures.ts:92-107 | every departure of a group is, apart from the last flag, the departure of an entry with the group's key |
| DepartureProperties.GroupSharesRoute | src/hooks/useDepartures.ts:63-107 | with absent or non-negative direction ids, every departure of a group has the group's route and direction |
| DepartureProperties.HeadsignsDistinct | src/hooks/useDepartures.ts:81-84 | a group's headsigns are pairwise distinct, are exactly the non-empty headsigns of its trips, and come in the order in which each first appears among the rows |
| DepartureProperties.FirstSeen | src/hooks/useDepartures.ts:81-84 | the position found holds the headsign and no earlier row does, or is the end when no row has it |
| DepartureProperties.ClockSecondsOfFields | src/hooks/useDepartures.ts:87-89 | `hh:mm:ss` is placed `h * 3600 + m * 60 + s` seconds after midnight, with 24 taken off an hour of 24 or more |
| DepartureProperties.ServiceDayHourStaysOnToday | src/hooks/useDepartures.ts:89 | hour `h + 24` lands on the same instant as hour `h` of today; no day is added |
| DepartureCounts.NoRowLost | src/hooks/useDepartures.ts:44-132 | the groups returned hold, together, exactly one departure per kept row |
| DepartureCounts.RowsUnderAllKeys | src/hooks/useDepartures.ts:63-79 | every kept entry is counted under exactly one listed key |
| DepartureCounts.TotalOfFirstGroups | src/hooks/useDepartures.ts:114-124 | the finished groups of the first `n` keys hold as many departures as those keys have entries |
| DepartureCounts.TotalSorted | src/hooks/useDepartures.ts:127-132 | sorting the groups keeps the number of departures |
| DepartureCounts.OnlyFutureRowsShown | src/hooks/useDepartures.ts:51-107 | every departure of a group on the board comes from a monitored row at or after the current time, at that row's clock time; every headsign of a group is non-empty and is the headsign of such a row |
| DepartureCounts.ShownDepartures | src/hooks/useDepartures.ts:92-107 | every departure of a key's group comes from a monitored future row, at that row's clock time and stop |
| DepartureCounts.ShownHeadsigns | src/hooks/useDepartures.ts:81-84 | every headsign of a key's group is non-empty and comes from a monitored future row |
| DepartureCounts.MetadataFromFirstRow | src/hooks/useDepartures.ts:65-77 | a group's metadata is that of the first kept row with its key: short name falling back to long name and then id, colour to CCCCCC, sort order to 999999, direction to 0 |
| DepartureCounts.GroupOfMetadata | src/hooks/useDepartures.ts:65-77 | the finished group keeps the metadata of the group literal made for the first entry of its key |
| DepartureCounts.WithKeyStartsAtFirst | src/hooks/useDepartures.ts:65-79 | the first entry a group collects is the first kept entry with its key |
| DepartureCounts.RealtimeAndDelay | src/hooks/useDepartures.ts:103-104 | realtime holds exactly for a non-zero delay or a non-zero time; the delay is recorded as given and never changes the departure time; a zero delay without a time is not realtime |
| Alerts.UseAlerts | src/hooks/useAlerts.ts:23-62 | without a store, or when reading the alerts throws, there are no alerts; otherwise the selected alerts |
| Alerts.RelevantAlerts | src/hooks/useAlerts.ts:29-58 | the loop pushes exactly the normalised included alerts, in feed order |
| Alerts.SomeEntityMentions | src/hooks/useAlerts.ts:35-43 | the early-returning scan finds a mention exactly when `.some` holds |
| Alerts.AnyMentionsIff | src/hooks/useAlerts.ts:35-43 | `.some` holds exactly when some entity names a displayed route or stop by a non-empty id |
| Alerts.IncludedIff | src/hooks/useAlerts.ts:35-45 | an alert is shown exactly when its entities are missing or empty, or one of them has a non-empty route id among the routes or a non-empty stop id among the stops |
| Alerts.IncludedMonotone | src/hooks/useAlerts.ts:35-45 | displaying more routes or stops never hides an alert |
| Alerts.SelectedIsSubsequence | src/hooks/useAlerts.ts:33-56 | the shown alerts are the normalised included alerts, picked by strictly increasing feed positions that cover every included alert, and are never more than the feed |
| Alerts.HeaderFallback | src/hooks/useAlerts.ts:51 | the header is empty only when it is the empty string itself; a missing or translated header is never empty |
| Alerts.EffectTextRoundTrip | src/hooks/useAlerts.ts:53 | the effect text is empty exactly for a falsy effect, and a non-zero numeric effect reads back as its number |
| UrlParams.ListsClean | src/utils/urlParams.ts:7-15 | the stop and realtime lists hold no empty item, no item with surrounding white space and no comma, and are empty when the parameter is missing or empty |
| UrlParams.ListsFromPieces | src/utils/urlParams.ts:7-15 | a present stops or realtime parameter gives exactly its comma-separated pieces, trimmed, with the blank ones dropped, in order |
| UrlParams.ListOfPieces | src/utils/urlParams.ts:8 | the `j`-th list item is the trimmed piece at the `j`-th position whose piece is not blank |
| UrlParams.KeptPieces | src/utils/urlParams.ts:8 | the positions kept increase and are exactly those whose piece is not blank after trimming |
| UrlParams.ListOfJoin | src/utils/urlParams.ts:8 | splitting a list that was joined with `", "` gives the items back when each is non-empty, trimmed and comma-free |
| UrlParams.GtfsUrlPresence | src/utils/urlParams.ts:11 | the feed URL is absent exactly when the parameter is missing or empty, and is the parameter otherwise |
| UrlParams.FlagsExact | src/utils/urlParams.ts:18-25 | the alerts flag and the technical-details flag hold exactly when their parameter is `true` |
| UrlParams.RefreshInterval | src/utils/urlParams.ts:21-22 | the interval is 20 without a parameter or when the parameter is empty or does not start with an integer, the parsed integer when one parses, and any integer written in decimal reads back as itself |
| UrlParams.ColorDefaults | src/utils/urlParams.ts:28-29 | the colours are never empty, default to `3b82f6` and `f97316`, and are the parameters when those are non-empty |
| UrlBuilder.BuildUrl | src/components/URLBuilder.tsx:31-40 | the query holds each non-empty text field under its name, the alerts flag only when on, and nothing else |
| UrlBuilder.ApplyPreset | src/components/URLBuilder.tsx:50-56 | a field the preset leaves out, or gives as an empty URL or a zero interval, keeps its value; a changed URL is the preset's |
| UrlBuilder.PresetRoundTrip | src/components/URLBuilder.tsx:42-56 | previewing after a preset gives back its URL when non-empty, its lists when their items are clean, its alerts flag, and its interval when non-zero |
| UrlBuilder.BuiltUrlMatchesPreview | src/components/URLBuilder.tsx:31-48 | the board opened from the built query shows the preview's URLs, stops and alerts flag, and its interval unless the typed interval reads as zero; the other settings take their defaults |
| UrlBuilder.ZeroIntervalDiverges | src/components/URLBuilder.tsx:47 | an interval typed as `0` previews as 20, but the board reads 0 |
| UrlBuilder.PresetsPreviewThemselves | src/components/URLBuilder.tsx:10-56 | the Car Jaune preset sets every field, and applied to any form it gives a valid form whose preview is exactly the preset's configuration |
| UrlBuilder.ValidMeansBothParameters | src/components/URLBuilder.tsx:71 | the form is valid exactly when the built query gives the board a feed URL and a stops parameter; a preview with stops needs a non-empty stops field |
| UrlBuilder.ValidWithoutStops | src/components/URLBuilder.tsx:45-71 | a stops field of `,` makes the form valid but yields no stop |
| Proxy.ProxyUrl | src/utils/proxy.ts:3-19 | the result is the input or starts with the proxy base; a local path is never rewritten; a rewrite happens only for a parsed HTTP(S) URL |
| Proxy.RemoteTargetRecoverable | src/utils/proxy.ts:10-13 | an HTTP(S) URL becomes the proxy base followed by its host, path and query |
| Proxy.NonWebUntouched | src/utils/proxy.ts:12-18 | text that does not parse, or parses with another protocol, is returned unchanged |
| Proxy.SchemeForgotten | src/utils/proxy.ts:11-12 | the same target behind `http:` and behind `https:` goes to the same proxied URL |
| Proxy.ProxyTwiceNests | src/utils/proxy.ts:1-13 | a proxied URL is proxied again and grows: rewriting is not idempotent |
| StopSelector.SearchStops | src/components/StopSelector.tsx:52-66 | a blank query lists every stop, and a non-blank one lists at most 100 |
| StopSelector.SearchIsFirstMatches | src/components/StopSelector.tsx:58-65 | for a non-blank query, the list is the first matching stops in the original order: up to 100 of them, all of them when fewer |
| StopSelector.SearchMembers | src/components/StopSelector.tsx:58-64 | every listed stop has a name, id or code containing the lower-cased query, and every such stop is listed when at most 100 match |
| StopSelector.SearchIgnoresCase | src/components/StopSelector.tsx:58 | the query's case does not change the list |
| StopSelector.Selection.constructor | src/components/StopSelector.tsx:24 | the selection starts empty |
| StopSelector.Selection.Toggle | src/components/StopSelector.tsx:68-76 | the new selection is the old one with the stop removed when present and appended when absent, built as a new value |
| StopSelector.Selection.Confirm | src/components/StopSelector.tsx:78-81 | the confirmed ids are the selection reached by the clicks so far |
| StopSelector.ToggledMembers | src/components/StopSelector.tsx:68-75 | toggling flips the stop's membership, leaves every other stop as it was, and keeps the selection free of duplicates |
| StopSelector.ToggleTwice | src/components/StopSelector.tsx:68-75 | toggling twice restores the set, and restores the sequence when the stop was absent |
| StopSelector.SelectedMembers | src/components/StopSelector.tsx:68-79 | a stop is confirmed exactly when it was clicked an odd number of times, and at most once |
| StopSelector.SelectedInClickOrder | src/components/StopSelector.tsx:78-79 | the confirmed stops come in the order of their last click |
| DatasetSearch.OfferedIff | src/components/TransportDatasetSearch.tsx:58-64 | an entry is offered exactly when it is a public-transit entry whose resource list has an available GTFS feed |
| DatasetSearch.SearchDatasets | src/components/TransportDatasetSearch.tsx:79-91 | a blank query lists every offered entry |
| DatasetSearch.SearchIff | src/components/TransportDatasetSearch.tsx:83-88 | for a non-blank query, an entry is listed exactly when its title, publisher name or some covered area contains the lower-cased query |
| DatasetSearch.SearchIgnoresCase | src/components/TransportDatasetSearch.tsx:83 | the query's case does not change the list |
| DatasetSearch.FirstGtfs | src/components/TransportDatasetSearch.tsx:101 | a resource found is one of the resources and an available GTFS feed |
| DatasetSearch.FirstGtfsIsFirst | src/components/TransportDatasetSearch.tsx:101 | nothing is found exactly when there is no available GTFS feed, and otherwise the first one is found |
| DatasetSearch.ResourceUrlPrefersOriginal | src/components/TransportDatasetSearch.tsx:102-108 | a resource's URL is its non-empty original URL, else its URL, else empty |
| DatasetSearch.ConfirmSelection | src/components/TransportDatasetSearch.tsx:97-112 | nothing happens exactly when no entry is selected |
| DatasetSearch.ConfirmedGtfsUrl | src/components/TransportDatasetSearch.tsx:101-102 | the feed URL confirmed is the URL of the first available GTFS resource |
| DatasetSearch.ConfirmedRealtimeUrls | src/components/TransportDatasetSearch.tsx:105-108 | a URL is confirmed as realtime exactly when it is non-empty and is the URL of an available realtime resource |
| DatasetSearch.ConfirmedRealtimeOrder | src/components/TransportDatasetSearch.tsx:105-108 | the realtime URLs follow the resource order, one per available realtime resource with a non-empty URL |
| Text.Trim | src/components/StopSelector.tsx:53 | the trimmed text neither starts nor ends with white space, and only white space is cut from either side |
| Text.BlankIff | src/components/StopSelector.tsx:53 | a text trims to nothing exactly when it is all white space |
| Text.ToLower | src/components/StopSelector.tsx:58 | lower-casing keeps the length, leaves no upper-case ASCII letter, moves each upper-case letter to its lower-case letter 32 code points on, and keeps every other character |
| Text.Split | src/utils/urlParams.ts:8 | the pieces hold no separator and join back to the text |
| UrlParams.NonEmptyTrimmedIsFilter | src/utils/urlParams.ts:8 | dropping blank pieces after trimming is `filter(Boolean)` over the trimmed pieces |
| Text.SplitTrimmedOfJoin | src/components/URLBuilder.tsx:45-53 | splitting, trimming and dropping empties undoes a join with `", "` of clean items |
| Text.StrLeqTotalOrder | src/hooks/useDepartures.ts:53 | the string order used for clock times and short names is a total order |
| Text.ParseIntOfIntToString | src/components/URLBuilder.tsx:55 | an integer written in decimal parses back to itself |
| Lists.FilterIsSubsequence | src/components/TransportDatasetSearch.tsx:84-89 | a filtered sequence is picked by strictly increasing positions, which are exactly the positions whose element passes |
| Lists.FilterCons | src/components/TransportDatasetSearch.tsx:84-89 | filtering an element followed by a sequence keeps the element when it passes, then filters the rest |
| Lists.FilterOfMap | src/utils/urlParams.ts:8 | filtering mapped elements keeps the images at strictly increasing positions, exactly those whose image passes |
| Lists.TakeOfFilter | src/components/StopSelector.tsx:59-65 | the first `n` filtered elements are the first `n` passing elements of the input, in order |

## Left out

- React state, effects and their dependency lists. Each hook and component is modelled as a function or method of its inputs.
- The schedule store (`getAgencies`, `getStopTimes`, `getTrips`, `getRoutes`, `getAlerts`, loading a zip). It is foreign code and its answers are given as data.
- The clock, date-fns `format`, `new Date` and `setHours`, time zones and daylight saving time. The current `HH:mm:ss` string and today's local midnight are parameters, and instants are integer seconds.
- Timers and the refresh cadence of the board, which are about timing and concurrency.
- Network loading of feeds and of the dataset catalogue (`fetch`), and its errors and progress.
- The random id given to an alert without one. The model records `None` there.
- Unicode case mapping and white space, and `localeCompare`. The model uses ASCII lower-casing, ASCII white space and code-point order.
- Departures.ClockSeconds: reads only plain digit fields, and reads any other hour or minute field, or a missing minute field, as 0. `Number` also accepts surrounding white space, a sign, exponents and `0x` hexadecimal, and gives `NaN` for other text. A `NaN` or missing hour or minute makes the departure an invalid date; the model has no invalid dates. A non-numeric second field gives 0 in both, through `|| 0`.
- JavaScript numbers are doubles, exact only up to 2^53. `Text.ParseInt`, `Departures.FieldValue` and the sort orders are exact integers, so the model does not round very large values as the source would.
- UrlBuilder.IntervalOf: `parseInt` without a radix also reads `0x` hexadecimal text. The model reads decimal only, as the board's own parameter parsing does.
- The encoding of the query by `URLSearchParams`, the page origin, `window.location`, the clipboard and navigation. The query is a map from name to value.
- URL parsing itself. Its outcome is passed in.
- `buildExampleUrl` of the parameter file. It only joins fixed values onto the page address, which is not modelled.
- Trip short names, stop descriptions, the QR code, the logo, the colour contrast computation and all presentation.
