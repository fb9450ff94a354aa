# Bird detection display, modelled in Dafny

This project models the data path of a bird-detection dashboard. A backfill
job reads a BirdWeather station's cumulative species totals for each of the
last 31 days and writes one `daily_counts` row per (species, day). A second
ingestion job reads the raw detections of the last 14 days, drops invalid
ones and turns the rest into `detections` rows. An Express server answers
`/api/detections/recent` and `/api/detections/rare` from `daily_counts`. The
browser page then computes a shared sparkline scale and a "new" badge, and
renders two card grids and a counts table.

The modules follow the source files:

- `DailyCounts` covers `fetchDailyCounts.js`: the paged read of cumulative
  totals, the master species set and the per-day rows.
- `Detections` covers `fetchDetections.js`: the offset-paged read, the
  validity filter and the transform.
- `Server` covers the two handlers of `server.js`: the exhaustive paged read,
  grouping by species, day-to-day frequencies, and the rare filter and sort.
- `Dashboard` covers `app.js`, and `DetectionCard` covers `detectionCard.js`.
- Shared pieces:
  - `JsObject` is a plain JS object used as a dictionary. Keys keep their
    insertion order.
  - `Sorting` is JavaScript's stable `Array.prototype.sort` on a numeric key,
    plus `filter` and `slice`.
  - `Store` holds the `daily_counts` row.
  - `Calendar` builds the lists of past days.
  - `Numbers` converts numbers to decimal strings.
  - `Basics` holds `Option`, `Result`, sums and the "later timestamp" rule.

Every network or database answer is a parameter. A paged read receives the
sequence of replies its successive requests would get. The model then states
what the loop does with them: which pages it asks for, where it stops, and
what it keeps. Loops that update variables in the source are methods with
loop invariants. Each is proved equal to a recursive specification function,
and the properties are lemmas about those functions.

## Model

| member | source | states |
|---|---|---|
| DailyCounts.FetchCumulativeTotals | src/backend/scripts/fetchDailyCounts.js:21-41 | Paging returns exactly `Cumulative(replies)`: a thrown fetch propagates, and otherwise every record read is stored under its id. The page count is `PagesRead`. |
| DailyCounts.Paged | src/backend/scripts/fetchDailyCounts.js:25-39 | What paging reads from one page on. A thrown fetch or parse gives Thrown. A failed, non-array or empty page gives nothing more. A usable page's records come first in what is read. |
| DailyCounts.PagesReadMeaning | src/backend/scripts/fetchDailyCounts.js:25-39 | Paging requests at least one page and stops at the first reply that ends it: every earlier reply was a full, successful page. |
| DailyCounts.Cumulative | src/backend/scripts/fetchDailyCounts.js:31-36 | The result is thrown exactly when the paged read throws, and a successful result is a well-formed object. |
| Basics.Prepend | src/backend/scripts/fetchDailyCounts.js:35-37 | A full page's items go in front of the later pages' items, as in both paged reads. A thrown later page makes the whole read thrown. |
| DailyCounts.CumulativeStoresLastRead | src/backend/scripts/fetchDailyCounts.js:35 | An id is stored exactly when some record read carries it. What is stored under it is the last record read with that id. |
| DailyCounts.PutAllKeys | src/backend/scripts/fetchDailyCounts.js:35 | After `all[sp.id] = sp` over a page, the stored ids are the old ones plus the page's ids. |
| DailyCounts.KeySetMembers | src/backend/scripts/fetchDailyCounts.js:35 | The page's id set holds exactly the keys of its records. |
| DailyCounts.PutAllLastWins | src/backend/scripts/fetchDailyCounts.js:35 | A record with no later record of the same id is the one stored under its id. |
| DailyCounts.PutAllAppend | src/backend/scripts/fetchDailyCounts.js:25-39 | Storing page after page equals storing their concatenation. |
| DailyCounts.StorePage | src/backend/scripts/fetchDailyCounts.js:35 | The `for … of` loop over one page stores the page into the object. |
| DailyCounts.KeysDiffer | src/backend/scripts/fetchDailyCounts.js:35 | Different numeric ids become different object keys. |
| DailyCounts.AddKeys | src/backend/scripts/fetchDailyCounts.js:79-83 | The inner loop over one day's entries keeps the master object well formed. |
| DailyCounts.AddKeysShape | src/backend/scripts/fetchDailyCounts.js:79-83 | An id already in the master set keeps its record. A new id enters with that day's record. No other id enters. |
| DailyCounts.MasterOf | src/backend/scripts/fetchDailyCounts.js:76-84 | The master set built over all days is a well-formed object. |
| DailyCounts.BuildMaster | src/backend/scripts/fetchDailyCounts.js:76-84 | The nested loop builds exactly `MasterOf(snapshots)`. |
| DailyCounts.MasterKeys | src/backend/scripts/fetchDailyCounts.js:76-84 | An id is in the master set exactly when some day's totals hold it. |
| DailyCounts.MasterValue | src/backend/scripts/fetchDailyCounts.js:80-82 | The master record of an id is the one from the oldest day that holds it. |
| DailyCounts.MasterFirstWins | src/backend/scripts/fetchDailyCounts.js:76-84 | Both of the above together: membership and "first day wins". |
| DailyCounts.MetaOf | src/backend/scripts/fetchDailyCounts.js:112-118 | Common name and URLs are copied as they are. An empty scientific name or colour becomes null. |
| DailyCounts.BuildRow | src/backend/scripts/fetchDailyCounts.js:91-126 | A species absent that day gets zero counts, a null timestamp and the master metadata. A present one gets its counts (a missing count is 0), its timestamp and that day's metadata. |
| DailyCounts.DailyRows | src/backend/scripts/fetchDailyCounts.js:86-131 | One batch per day, and one row per master species in each batch. |
| DailyCounts.BuildDailyRows | src/backend/scripts/fetchDailyCounts.js:86-131 | The nested loop builds exactly `DailyRows`. |
| DailyCounts.DailyRowsShape | src/backend/scripts/fetchDailyCounts.js:86-131 | Each day's batch has unique (species, date) keys and covers every master species, each on that date. Its total is that day's upstream cumulative total, or 0 for an absent species. |
| DailyCounts.Snapshots | src/backend/scripts/fetchDailyCounts.js:70-74 | When no read throws, there is one well-formed snapshot per day. |
| DailyCounts.ThrownStaysThrown | src/backend/scripts/fetchDailyCounts.js:72-74 | A thrown read on an earlier day aborts the whole backfill, whatever the later days return. |
| DailyCounts.Backfill | src/backend/scripts/fetchDailyCounts.js:46-132 | Purging is below `today - days`. Without an error, there is one batch per day, and batch `i` holds only rows dated `today - days + i`. |
| Calendar.PastDays | src/backend/scripts/fetchDailyCounts.js:62-67 | The list of past days is strictly increasing, lies entirely before today, and ends yesterday. |
| Calendar.DaysBefore | src/backend/scripts/fetchDailyCounts.js:62-67 | The countdown `for (i = days; i >= 1; i--)`: `days` entries, and entry `k` is `days - k` days before today. |
| Calendar.WindowShape | src/backend/server.js:70-75 | The window of `days` past days starts at `today - days`, ends at `today - 1` and increases. |
| Numbers.NatToString | src/backend/scripts/fetchDetections.js:107 | Decimal digits, with no leading zero. |
| Numbers.ParseNatToString | src/backend/scripts/fetchDetections.js:107 | Decimal printing of a natural number can be parsed back to the number. |
| Numbers.IntToString | src/backend/scripts/fetchDetections.js:107 | The string starts with `-` exactly for negative numbers. |
| Numbers.IntToStringInjective | src/backend/scripts/fetchDailyCounts.js:35 | Different numbers print differently. |
| JsObject.Dict.Put | src/backend/scripts/fetchDailyCounts.js:35 | `obj[k] = v` updates the entry. An existing key keeps its place and a new key goes last, so keys stay distinct and listed. |
| JsObject.Dict.Values | src/backend/server.js:107 | `Object.values` lists the entries in key order. |
| JsObject.PutPut | src/backend/scripts/fetchDailyCounts.js:35 | Writing a key twice equals writing the second value once. |
| JsObject.ValuesListEveryEntry | src/backend/server.js:181 | Every stored entry appears in `Object.values`. |
| Server.ReadAllRows | src/backend/server.js:45-60 | The do-while reads exactly `PagedRead`. It stops at the first reply that is an error or is not a full page of 1000 rows. |
| Server.PagedRead | src/backend/server.js:49-60 | What the do-while reads. A store error on the first page throws. A first page that is not full is the whole result. |
| Server.ReadCoversTable | src/backend/server.js:49-60 | When the store answers page `p` with rows `p*1000` to `p*1000+999` of a table, the read returns the whole table, in order. |
| Server.GroupBySpecies | src/backend/server.js:79-104 | The `forEach` builds exactly `GroupRows(rows)`. |
| Server.UpdateEntry | src/backend/server.js:95-103 | One row's update of an existing group is `Absorb`. |
| Server.Absorb | src/backend/server.js:95-103 | One row adds its total to its date: `!dateMap[date]` overwriting a 0 or missing entry is the same as adding. It applies the later-timestamp rule and keeps code and metadata. |
| Server.Lookup | src/backend/server.js:112 | `dateMap[date] \|\| 0`: zero exactly when the date is missing or holds 0, and otherwise the stored value. |
| Server.AddRow | src/backend/server.js:80-103 | Grouping one more row keeps the object well formed. |
| Server.AddRowOther | src/backend/server.js:80-103 | A row leaves the groups of other species untouched. |
| Server.AddRowSame | src/backend/server.js:80-103 | A row adds its total to its date and may move the last-detected time forward. Code and metadata stay. |
| Server.GroupRows | src/backend/server.js:79-104 | The grouped object is well formed. |
| Server.GroupRowsKeys | src/backend/server.js:79-104 | A species has a group exactly when it has a row. A species without a group has zero totals. |
| Server.GroupRowsMeta | src/backend/server.js:82-94 | A group's metadata is its species' first row's. |
| Server.GroupRowsLast | src/backend/server.js:92-103 | `last_detected` is the latest timestamp of the species' rows when the first row has one, and null otherwise. |
| Server.GroupRowsTotals | src/backend/server.js:96-100 | A group's value on a date is the sum of that species' totals on that date. |
| Server.GroupRowsShape | src/backend/server.js:79-104 | All of the grouping properties together. |
| Basics.LastDetectedIsLatest | src/backend/server.js:101-103 | The "later" rule keeps the maximum timestamp, and it never replaces a null first value. |
| Basics.LastDetectedSnoc | src/backend/server.js:101-103 | One more row applies the rule once more. |
| Basics.Later | src/backend/server.js:101 | JavaScript `>` on nullable timestamps: never true when either side is null, and otherwise the numeric comparison. |
| Basics.Bump | src/backend/server.js:101-103 | One step of the `last_detected` update. It keeps one of the two values, never replaces a null, never goes backwards, and reaches at least the candidate when both are set. |
| Server.AlignTotals | src/backend/server.js:110-113 | One total per window date, and 0 for a date with no rows. |
| Server.Frequency | src/backend/server.js:116-121 | The last entry is the last total. Each earlier entry is the drop to the next day's total, floored at 0. |
| Server.FrequencyTelescopes | src/backend/server.js:116-123 | The frequencies sum to the oldest total plus every rise between consecutive days. |
| Server.RisesZeroIff | src/backend/server.js:116-121 | There are no rises exactly when the totals never increase. |
| Server.TotalIsOldestCumulative | src/backend/server.js:116-123 | `total_detections` equals the oldest cumulative total exactly when the totals never increase from day to day. |
| Server.TotalPositiveIff | src/backend/server.js:123-151 | `total_detections > 0` exactly when some window day has a positive total. |
| Server.FrequencyExamples | src/backend/server.js:116-123 | Worked values: totals `[10,7,7]` give `[3,0,7]`, summing to 10. |
| Server.Aggregate | src/backend/server.js:107-147 | A species' frequencies are the day-to-day drops of its aligned window totals, and `total_detections` is their sum. It keeps its group's metadata, and its total is positive exactly when some window date has detections. |
| Server.AggregateAll | src/backend/server.js:107-147 | One response entry per group. |
| Server.RecentList | src/backend/server.js:150-152 | The list is sorted by total, descending. It is a permutation of the species with a positive total. |
| Server.RecentMembership | src/backend/server.js:150-152 | A species is listed exactly when it has detections on some window date. |
| Server.HandleRecent | src/backend/server.js:37-160 | A store error gives 500. Otherwise the body is sorted, has positive totals and holds 31 frequencies per species. |
| Server.RareRows | src/backend/server.js:167-172 | The rare read keeps at most the first 5000 rows. |
| Server.AddRareRow | src/backend/server.js:174-179 | Grouping one more row keeps the object well formed. |
| Server.GroupForRare | src/backend/server.js:174-179 | The grouped object is well formed. |
| Server.CollectRare | src/backend/server.js:174-179 | The `reduce` builds exactly `GroupForRare(rows)`. |
| Server.AddRareRowOther | src/backend/server.js:174-179 | A row leaves the groups of other species untouched. |
| Server.IsRare | src/backend/server.js:182 | Rare exactly when the last stored value is below 5. An empty list is never rare, since `undefined < 5` is false. |
| Server.SeenKey | src/backend/server.js:183 | `new Date(last_detected)` as a sort key: a null timestamp is the epoch 0, and any other is its own time. |
| Server.RareGroupShape | src/backend/server.js:174-179 | A species has a group exactly when it has a row. The group keeps the first row, the list of totals in row order, and the latest timestamp. |
| Server.RareList | src/backend/server.js:180-184 | At most 12 entries, all rare (last value below 5), sorted by last detection descending. It is a sub-multiset of the groups, and it is shorter than 12 only when fewer are rare. |
| Server.RareKeepsLatest | src/backend/server.js:182-184 | A rare species cut by the limit was not seen later than any species kept. |
| Server.HandleRare | src/backend/server.js:162-190 | 500 exactly on a store error. Otherwise at most 12 rare species, sorted by last detection. |
| Store.RowsOf | src/backend/server.js:80-81 | A species' rows are rows of that species, in read order. |
| Store.RowsOfNonEmpty | src/backend/server.js:80-82 | A species has rows exactly when some row carries its code. |
| Sorting.SortDesc | src/backend/server.js:152 | Sorting is a permutation. |
| Sorting.SortDescSorted | src/backend/server.js:152 | The sorted list is non-increasing in the key. |
| Sorting.SortDescMembers | src/backend/server.js:152 | Sorting keeps exactly the same elements. |
| Sorting.SortIsStable | src/frontend/js/app.js:64-71 | Elements with equal keys keep their relative order. |
| Sorting.InsertSorted | src/backend/server.js:152 | Inserting into a sorted list keeps it sorted. |
| Sorting.Insert | src/backend/server.js:152 | Insertion adds exactly one element. |
| Sorting.InsertWithKey | src/frontend/js/app.js:64-71 | Insertion puts the element in front of the others with its key. |
| Sorting.WithKeyAppend | src/frontend/js/app.js:64-71 | Picking one key's elements distributes over concatenation. |
| Sorting.Take | src/backend/server.js:184 | `slice(0, n)` is a prefix of at most `n` elements, and the whole list when it is short enough. |
| Sorting.TakeSorted | src/backend/server.js:183-184 | A prefix of a sorted list is sorted and a sub-multiset. |
| Sorting.Filter | src/backend/server.js:151 | `filter` keeps exactly the elements that pass. |
| Sorting.FilterCounts | src/backend/server.js:151 | `filter` keeps every passing element as often as it occurs, and no failing one. |
| Sorting.FilterAppend | src/backend/server.js:151 | Filtering distributes over concatenation. |
| Detections.FetchDetectionsForDate | src/backend/scripts/fetchDetections.js:10-47 | Returns exactly `DayDetections`. Offsets are 0, 100, 200, …; the loop stops at the first failed, invalid or short page; every full page before it is kept. |
| Detections.DayDetections | src/backend/scripts/fetchDetections.js:19-45 | What one day's loop reads. A failed or invalid first reply gives nothing. A reply that ends paging contributes its own items and stops the read. |
| Detections.FetchRecentDetections | src/backend/scripts/fetchDetections.js:77-90 | Reads the days today, today-1, …, today-13 and concatenates their detections. |
| Detections.IsValid | src/backend/scripts/fetchDetections.js:96 | A detection is skipped exactly when its species is missing, its id is missing or 0, or its common name is missing or empty. |
| Detections.ValidDetections | src/backend/scripts/fetchDetections.js:95-101 | Keeps exactly the detections with a species, a non-zero id and a non-empty common name, each as often as it occurs. |
| Detections.ConfidenceOrZero | src/backend/scripts/fetchDetections.js:112 | A missing or zero confidence becomes 0, and any other is kept. |
| Detections.ToRow | src/backend/scripts/fetchDetections.js:104-118 | The species code is the decimal id. Empty optional fields become null. The row is not rare and carries the station id. |
| Detections.SpeciesCodeIdentifies | src/backend/scripts/fetchDetections.js:107 | Two rows share a species code exactly when their detections share a species id. |
| Detections.Transform | src/backend/scripts/fetchDetections.js:104-118 | One row per valid detection, in order. |
| Detections.Ingest | src/backend/scripts/fetchDetections.js:120-146 | Nothing is stored exactly when no detection is valid. Otherwise the clear starts 14 days before now and the rows are non-empty. |
| Detections.IngestRowsAreValidDetections | src/backend/scripts/fetchDetections.js:95-123 | The stored rows are exactly the transforms of the valid detections, and each valid detection's row is among them. |
| Detections.FetchAndStoreDetections | src/backend/scripts/fetchDetections.js:73-123 | The job's plan is `Ingest` of everything read over the 14 days. |
| Dashboard.AllValues | src/frontend/js/app.js:36 | The flattened values are exactly the values of all frequencies. |
| Dashboard.MaxOf | src/frontend/js/app.js:37 | `Math.max` is a member and bounds every value. |
| Dashboard.GlobalMax | src/frontend/js/app.js:36-37 | The scale is 1 when there are no values. Otherwise it is some item's value and bounds every value of both lists. |
| Dashboard.BadgeSplit | src/frontend/js/app.js:49-50 | `slice(-7)` takes the last 7 values, or all of a shorter history. |
| Dashboard.ShowNewBadge | src/frontend/js/app.js:47-55 | "New" exactly when some day has detections and none before the last 7 days does. |
| Dashboard.NewBadgeMeaning | src/frontend/js/app.js:49-55 | The two sums of the badge rule, the last 7 entries positive and the earlier ones zero, read entry by entry. |
| Dashboard.WithBadges | src/frontend/js/app.js:47-61 | Each item is paired with its badge decision, in order. |
| Dashboard.BadgeSortPartition | src/frontend/js/app.js:64-71 | The stable sort puts the new items first and the others after, each group in its original order. |
| Dashboard.InsertPastBadged | src/frontend/js/app.js:64-71 | An unbadged item is inserted after all badged ones. |
| Dashboard.InsertBadgedFront | src/frontend/js/app.js:64-71 | A badged item is inserted at the front. |
| Dashboard.SortByBadge | src/frontend/js/app.js:64-71 | A permutation in which no unbadged item precedes a badged one. |
| Dashboard.RecentGrid | src/frontend/js/app.js:40-79 | A placeholder exactly when the list is empty, and otherwise one card per item. |
| Dashboard.RecentGridCard | src/frontend/js/app.js:74-77 | Card `i` renders the `i`-th sorted item with the shared scale and its badge. |
| Dashboard.RecentGridBadgesFirst | src/frontend/js/app.js:63-77 | A badged card is never preceded by an unbadged one. |
| Dashboard.RecentGridShowsRecent | src/frontend/js/app.js:47-77 | Every card shows one of the recent items with its own badge decision. |
| Dashboard.RenderRecentGrid | src/frontend/js/app.js:40-79 | The rendering loop builds exactly `RecentGrid`. |
| Dashboard.RareGrid | src/frontend/js/app.js:82-92 | A placeholder exactly when the list is empty. Otherwise one RARE-badged card per item, in order. |
| Dashboard.RenderRareGrid | src/frontend/js/app.js:82-92 | The rendering loop builds exactly `RareGrid`. |
| Dashboard.BuildTable | src/frontend/js/app.js:95-114 | Columns are the 31 past days. There is one row per recent item, with its name and its frequencies unchanged. |
| Dashboard.UpdateDisplay | src/frontend/js/app.js:28-130 | A failed fetch shows the error message. Otherwise both grids use the shared scale and the table lists the recent items. |
| Basics.SumAppend | src/frontend/js/app.js:52-53 | A sum over a concatenation is the sum of the sums. |
| Basics.SumZeroIff | src/frontend/js/app.js:53-55 | A sum of counts is 0 exactly when every count is 0. |
| Basics.SumBoundsEach | src/backend/server.js:123 | Each count is at most the sum. |
| Basics.OrNull | src/backend/scripts/fetchDetections.js:109-111 | `x \|\| null` keeps a non-empty string and nulls an empty or missing one. |
| DetectionCard.DisplayData | src/frontend/js/components/detectionCard.js:12-18 | Always 31 values: a short history is left-padded with zeros, and a long one keeps its newest 31. |
| DetectionCard.DisplayDataKeepsShortTotals | src/frontend/js/components/detectionCard.js:14-15 | Padding does not change the total of a short history. |
| DetectionCard.StyleFor | src/frontend/js/components/detectionCard.js:55-57 | Grey with a stroke exactly for a zero value, and gold otherwise. |
| DetectionCard.HeightFor | src/frontend/js/components/detectionCard.js:37-47 | The minimum height exactly when the value or the scale is not positive. |
| DetectionCard.BarFor | src/frontend/js/components/detectionCard.js:32-65 | A bar carries its value and the "`n` detections" title. It has the minimum height exactly when the value or the scale is not positive, and the grey style exactly for a zero value. |
| DetectionCard.Bars | src/frontend/js/components/detectionCard.js:11-65 | Always 31 bars. |
| DetectionCard.BuildBars | src/frontend/js/components/detectionCard.js:11-65 | One bar per displayed value, in order. Grey exactly for zeros, and minimum height exactly for zeros or a non-positive scale. |
| DetectionCard.PositiveBarsScale | src/frontend/js/components/detectionCard.js:41-47 | Under a scale that bounds the data, every positive value is drawn log-scaled. |
| DetectionCard.Upper | src/frontend/js/components/detectionCard.js:94 | `toUpperCase` maps each character, keeping the length. |
| DetectionCard.BadgeFor | src/frontend/js/components/detectionCard.js:91-96 | A badge exactly for a non-empty badge type, with class `badge-<type>` and upper-cased text. |
| DetectionCard.BadgeTexts | src/frontend/js/components/detectionCard.js:91-96 | The two badges read NEW and RARE. |
| DetectionCard.ImageSource | src/frontend/js/components/detectionCard.js:81 | `image_url \|\| thumbnail_url \|\| placeholder`: never empty, and the placeholder exactly when neither URL is set or the chosen one is the placeholder itself. |
| DetectionCard.CardFor | src/frontend/js/components/detectionCard.js:71-109 | A card shows the common name and the chosen image. It has a badge exactly for a non-empty badge type, with upper-cased text, and 31 bars holding the normalised history. |
| DetectionCard.RenderDetectionCard | src/frontend/js/components/detectionCard.js:71-109 | Rendering builds exactly `CardFor`. |

## Left out

- Supabase, HTTP and `node-fetch` are out. Each answer is a parameter (a
  reply, or a sequence of page replies).
- Also out: the 300 ms and 500 ms delays, `dotenv`, the station-id check and
  `process.exit`, `cron`, Express routing and CORS, the initial and scheduled
  backfill calls, and all console logging, including the "Eastern Bluebird"
  debug output.
- The storage steps of `fetchAndStoreDetections` are out, and the model
  stops at the plan of what to clear and insert. Those steps are the table
  check (which calls `create_detections_table` when the table is missing),
  the connection test, the delete, the insert and the final count. A failed
  check or create, a failed connection test, a failed delete and a failed
  insert throw. An error from the final count is only logged.
- The random suffix of detection ids (`Math.random`) is left out.
- Upsert and purge errors in the backfill are logged and ignored in the
  source. The model records the purge bound and the batches, not the store's
  answers.
- Dates are abstract day numbers and timestamps abstract ordered numbers.
  ISO formatting, time zones, `setHours` and the local-versus-UTC day
  boundary are not modelled.
- `toLocaleTimeString`, SVG geometry, the logarithmic bar height and its
  floating-point value are out. A bar records only which height rule applies.
- DOM building, the image `onerror` and `onload` handlers, the QR code
  (`qrCode.js` is not part of this model), the timestamp, the sanctuary name,
  `showError`'s timer and the `visibilitychange` handler are out.
- `debug.js` is not part of this model.
- JsObject.Dict.Put, JsObject.Dict.Values, Server.RareList: JavaScript
  enumerates integer-like object keys, such as numeric species ids, in
  ascending numeric order before other keys. The model keeps insertion order
  for every key. That changes the order of the master species set and the
  tie order of the stable sorts. In `/api/detections/rare` the tie order
  feeds `.slice(0, 12)`. So when rare species tie at twelfth place (for
  example several with a null `last_detected`, which all sort as epoch 0),
  key order decides which of them are returned at all, and the model may
  pick different ones than the server does.
- DailyCounts.FetchCumulativeTotals: the source loops forever when every page
  is full, so the model requires that the replies end with one that stops
  paging. Reply `i` answers the request for page `i + 1`. The method returns
  how many pages were requested, not the page numbers themselves.
- Server.ReadAllRows, Detections.FetchDetectionsForDate: the same
  requirement applies. The replies end with one that stops the loop.
- Detections.FetchDetectionsForDate: the length of the result is stated only
  as a lower bound. It is at least 100 per full page read.
- Detections.ConfidenceOrZero: `NaN` confidence is not modelled. Confidence
  is a real number or missing.
- DetectionCard.Upper: only ASCII letters are upper-cased. Unicode case
  mapping is not modelled.
- Numbers.IntToString: huge ids printed in exponent notation are not
  modelled. Every id prints as plain decimal digits.
- Dashboard.WithBadges: a missing `frequency`, which `|| []` would treat as
  empty, is not modelled. Every item carries a frequency list, as both
  endpoints always send one.
- A JSON body of `null` and other non-array responses of the endpoints are
  out. The dashboard receives either a list or a failed fetch.
- DailyCounts.Backfill: `days` is a parameter. The default of 31 is not
  built in.
- The backfill stores the upstream cumulative total "since" each day as that
  day's `total_detections`, with nothing subtracted. The recent endpoint
  turns these into per-day values by differencing consecutive days
  (`Server.Frequency`). The model follows the code. A description that calls
  the stored values per-day deltas does not match it.
