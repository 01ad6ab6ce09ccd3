# Fitness and smoking tracker: the browser data layer, in Dafny

This project models the browser-side data layer of a personal tracker. The tracker logs daily
workouts and the cigarettes smoked during a 12-week reduction plan. It keeps both logs in the
browser's `localStorage` and mirrors them into a "cloud" snapshot. The model covers three parts:

- **The entry store** (`lib/storage.ts`):
  - upsert-by-date of workouts and smoking entries;
  - lookups by date and by week;
  - the workout and smoking statistics and the weekly smoking progress;
  - `autoSync` behind its `syncInProgress` flag, and `manualSync`;
  - export and import of both collections.
- **The sync engine** (`lib/cloud-storage.ts`):
  - the `CloudStorage` object and its user id;
  - saving and loading the snapshot under the `cloud_backup` key;
  - the three paths of `syncData`;
  - the date-keyed merge in which the cloud copy wins.
- **The reduction plan** (`components/smoking-tracker.tsx`):
  - the week number of a date;
  - the taper table and the target looked up from it;
  - the on-target check.

Modules and files:

- `entries.dfy` (`Entries`) defines the records. A date is a day number. Workout and smoking
  entries share one generic `Entry<P>`, so every date-keyed operation is written once.
- `lookup.dfy` (`Lookup`) holds `findIndex`/`find` by date, `filter` by week, and the upsert.
- `sorted.dfy` (`Sorted`) lists a finite set of integers in order, and proves that listing
  unique.
- `merge.dfy` (`Merge`) defines the merge as a function, proves its properties, and implements
  it as the source runs it, with loops.
- `stats.dfy` (`Stats`) holds the three aggregates. Averages are exact `real` quotients.
  `getSmokingProgress` is a method with the source's dictionary-filling loop.
- `browser.dfy` (`Browser`) is the `localStorage` class with one typed field per key.
- `cloud.dfy` (`Cloud`) is the `CloudStorage` class, plus the pure outcome of a sync and its
  lemmas.
- `storage.dfy` (`Storage`) is the module state of `lib/storage.ts` as a `Tracker` class,
  plus the import/export functions and their lemmas.
- `plan.dfy` (`Plan`) holds the week number, the taper and the on-target check.

The read-only functions of `lib/storage.ts` (`getWorkoutByDate`, `getWorkoutsByWeek`,
`getWorkoutStats` and the rest) read a collection from storage and compute on it. They are
modelled as functions of that collection.

Three behaviours of the code worth knowing:

- `manualSync` has no `syncInProgress` guard (`lib/storage.ts:212-230`). It syncs even while
  an automatic sync holds the flag.
- `cloud-storage.ts` never reports `synced: false` outside the exception path. A failed save
  inside `syncData` is ignored, and the sync still reports success.
- `getUserId` regenerates the id when the stored id is the empty string, not only when the
  key is absent, because the test is JavaScript falsiness (`lib/cloud-storage.ts:26`).

## Model

| member | source | states |
|---|---|---|
| Lookup.FirstIndexWithDate | lib/storage.ts:61 | `findIndex` by date: a found index holds the date with no earlier entry holding it; not found exactly when the date is absent |
| Lookup.FindByDate | lib/storage.ts:82-85 | `getWorkoutByDate`: nothing exactly when no entry has the date, otherwise the entry at the first index with that date |
| Lookup.FilterByWeek | lib/storage.ts:87-90 | `getWorkoutsByWeek`: every returned entry is stored and has the week, and every stored entry with the week is returned |
| Lookup.FilterByWeekAppend | lib/storage.ts:150-153 | `getSmokingByWeek`: filtering distributes over concatenation, so the result keeps stored order |
| Lookup.Upsert | lib/storage.ts:61-69 | for a known date, the entry overwrites the first index holding that date and every other position, later same-date entries included, keeps its entry; for a new date, the entry is appended and nothing else changes |
| Lookup.UpsertDates | lib/storage.ts:57-71 | an upsert adds the entry's date and no other; the length grows by one for a new date and stays the same for an existing one |
| Lookup.UpsertThenFind | lib/storage.ts:57-85 | after saving an entry, looking its date up returns exactly that entry |
| Lookup.UpsertKeepsOtherDates | lib/storage.ts:120-148 | saving an entry leaves the lookup of every other date unchanged |
| Lookup.UpsertKeepsDistinct | lib/storage.ts:120-134 | if dates were pairwise distinct before an upsert, they still are after it |
| Storage.Tracker.SaveWorkout | lib/storage.ts:57-71 | the first entry with the date is replaced in place, or the entry is appended; lookup finds it; date set, length and distinctness as above; other keys untouched |
| Storage.Tracker.SaveSmoking | lib/storage.ts:120-134 | the same upsert on the smoking entries, leaving the workouts untouched |
| Merge.Assign | lib/cloud-storage.ts:117-123 | folding a list into the map adds exactly the list's dates to its keys |
| Merge.MergeMap | lib/cloud-storage.ts:116-124 | the keys of `mergedMap` after both loops are the dates of the local and the cloud list |
| Merge.Merge | lib/cloud-storage.ts:116-138 | the merged collection is strictly newest first and has one entry per distinct date of the two inputs |
| Merge.AssignSpec | lib/cloud-storage.ts:117-123 | the `forEach`/`set` fold adds exactly the dates of the list; each of them ends up holding the list's last entry with that date, and every other key keeps its value |
| Merge.LastIndexWithDate | lib/cloud-storage.ts:123 | the index of the last entry with a date: it holds the date, no later entry does, and none exists exactly when the date is absent |
| Merge.MergeDates | lib/cloud-storage.ts:116-126 | the dates of the merged collection are the union of the local and cloud dates |
| Merge.MergeIsNewestFirst | lib/cloud-storage.ts:125 | the merge is strictly descending by date, has no repeated date, and has one entry per distinct date of the two inputs |
| Merge.MergeCloudWins | lib/cloud-storage.ts:119-123 | a date present in the cloud carries the last cloud entry with it; a local-only date carries the last local entry with it |
| Merge.MergeIdempotent | lib/cloud-storage.ts:116-126 | merging the result again with the same cloud copy gives the same result |
| Merge.MergeSelf | lib/cloud-storage.ts:128-138 | a newest-first collection with one entry per date merges with itself to itself |
| Merge.NewestFirstValuesSpec | lib/cloud-storage.ts:125 | sorting the map's values by date lists every value once, under its own date, strictly newest first |
| Merge.ListingIsUnique | lib/cloud-storage.ts:137 | there is only one newest-first listing of a date-keyed map, so the sort's result is determined |
| Merge.MergeByDate | lib/cloud-storage.ts:116-138 | the two `forEach` loops and the sort compute exactly the merge above |
| Sorted.AscendingSpec | lib/storage.ts:208 | the ascending listing of a set of week numbers has each element once, strictly increasing |
| Sorted.IncreasingUnique | lib/storage.ts:208 | two strictly increasing listings with the same elements are equal |
| Stats.WeekOrderIsDetermined | lib/storage.ts:197-208 | any strictly increasing listing of the weeks that occur is the ascending listing, and the progress rows follow it row by row, so the sort by week has one possible outcome |
| Stats.SumBounds | lib/storage.ts:167 | a sum of values in `[lo, hi]` lies between `n * lo` and `n * hi` |
| Stats.Mean | lib/storage.ts:99-103 | the average times the count equals the sum, and it is 0 for an empty list |
| Stats.MeanBetween | lib/storage.ts:167-169 | the mean of a non-empty list lies between any bounds of its values |
| Stats.MinOf | lib/storage.ts:168 | `Math.min`: one of the values, and at most each of them |
| Stats.MaxOf | lib/storage.ts:169 | `Math.max`: one of the values, and at least each of them |
| Stats.CountCompleted | lib/storage.ts:96 | the completed count is at most the total; it equals the total exactly when every workout is done, and is 0 exactly when none is, so a single workout counts 1 exactly when done |
| Stats.CountCompletedAppend | lib/storage.ts:96 | the count adds up over any split of the workouts, so with the one-workout case it is the number of done workouts |
| Stats.CompletedValues | lib/storage.ts:98-108 | the averaged values number at most the completed workouts and are all non-zero: falsy values are left out |
| Stats.CompletedValuesAppend | lib/storage.ts:98-108 | the filter-and-map of the completed workouts distributes over concatenation, so it keeps the stored order |
| Stats.CompletedValuesCovers | lib/storage.ts:98-108 | every completed workout with a truthy field contributes its value to the average |
| Stats.CompletedValuesFrom | lib/storage.ts:98-108 | each averaged value is the field of some completed workout |
| Stats.GetWorkoutStats | lib/storage.ts:92-117 | the total is the length; completed is the number of done workouts (`CountCompleted`), at most the total, and is 0 exactly when no workout is done; each average is the mean of the truthy values of completed workouts, and 0 when there are none |
| Stats.AverageEnergyInRange | lib/storage.ts:105-109 | with ratings in 1..5, the average energy is 0 or lies in [1, 5] |
| Stats.GetSmokingStats | lib/storage.ts:155-178 | an empty log gives four zeros; the total is the sum; the average times the count is the total; the best and worst day are values of the log that bound all of them; best <= average <= worst |
| Stats.SmokingProgress | lib/storage.ts:180-209 | the progress list has one row per distinct week number |
| Stats.SmokingProgressWeeks | lib/storage.ts:197-208 | the rows are strictly ascending by week and their weeks are exactly the weeks of the entries |
| Stats.SmokingProgressGroups | lib/storage.ts:186-206 | each row's two averages are the means over a non-empty group: that week's entries |
| Stats.SmokingProgressSpec | lib/storage.ts:180-209 | one row per distinct week, strictly ascending by week; each row's two averages are the means over exactly that week's entries, and that group is never empty |
| Stats.SmokingProgressEmpty | lib/storage.ts:180-209 | an empty log gives no rows |
| Stats.BucketOfAppend | lib/storage.ts:186-194 | visiting an entry appends its two numbers to its own week's bucket and leaves every other bucket alone |
| Stats.CollectStep | lib/storage.ts:186-194 | one step of the `forEach` keeps the dictionary equal to the buckets of the entries visited so far |
| Stats.GetSmokingProgress | lib/storage.ts:180-209 | the `forEach` grouping, the averaging and the sort compute exactly the progress rows specified above |
| Stats.RowsInWeekOrder | lib/storage.ts:197-208 | one row per dictionary key, averaged from that key's bucket, in ascending order of week |
| Cloud.Load | lib/cloud-storage.ts:58-71 | a snapshot is returned exactly when the key holds a parsed, truthy value; a missing key and unparsable text give null; a stored falsy value, which `loadFromCloud` returns as it is, is folded into null too, because `syncData` tests `!cloudData` (lib/cloud-storage.ts:84) and treats it as no snapshot |
| Cloud.SyncOutcome | lib/cloud-storage.ts:73-114 | a sync reports `synced` exactly when there is no snapshot or both its fields are arrays; when it fails, or there is no snapshot, it returns the local collections |
| Cloud.SyncOutcomeSpec | lib/cloud-storage.ts:73-114 | a sync fails exactly when a snapshot holds a field that is not an array, and then returns the local collections; with no snapshot the local collections come back as they are; with a snapshot, each result is newest first, one entry per date, holds the dates of both sides and takes the cloud entry on a shared date |
| Cloud.ResyncIsStable | lib/cloud-storage.ts:94-105 | syncing again right after a merging sync returns the same collections, whichever write of the push failed |
| Cloud.CloudStorage.constructor | lib/cloud-storage.ts:19-22 | the user id is read or generated once, at construction, as `getUserId` does |
| Cloud.CloudStorage.GetUserId | lib/cloud-storage.ts:24-31 | a truthy stored id is returned unchanged; otherwise the fresh id is returned and written; no other key changes |
| Cloud.CloudStorage.SaveToCloud | lib/cloud-storage.ts:37-56 | reports true exactly when both writes succeed; writes the snapshot of both collections with the time and user id unless that write throws; writes the sync time only after it |
| Cloud.CloudStorage.SyncData | lib/cloud-storage.ts:73-114 | returns the sync outcome above; a successful sync pushes exactly what it returns, unless the write of the snapshot throws; a failed one writes nothing; the local collections are not written |
| Storage.Tracker.AutoSync | lib/storage.ts:32-54 | while the flag is set nothing changes; otherwise the collections are replaced only when the sync reports `synced`, `cloud_backup` and `last_cloud_sync` then hold what the push wrote, a failed sync leaves them alone, and the flag ends cleared |
| Storage.Tracker.ManualSync | lib/storage.ts:212-230 | returns the sync's `synced` flag and replaces the collections exactly when it is true; `cloud_backup` and `last_cloud_sync` then hold what the push wrote, and are untouched otherwise |
| Storage.Tracker.ExportData | lib/storage.ts:241-249 | the exported document, once parsed and imported, succeeds and leaves both collections as they are |
| Storage.Import | lib/storage.ts:251-271 | the import reports success exactly on a parsed non-null document, and a failed import leaves the collections as they were |
| Storage.ImportSpec | lib/storage.ts:251-271 | import succeeds exactly on a parsed non-null document; a collection changes only to the document's array, verbatim, and every array present is taken; a failure changes nothing |
| Storage.Tracker.ImportData | lib/storage.ts:251-271 | the result and the new collections are those of `Import`; the cloud keys and the user id are untouched |
| Storage.ImportExportRoundTrip | lib/storage.ts:241-271 | `importData(exportData())` returns true and leaves both collections unchanged |
| Storage.ImportIdempotent | lib/storage.ts:251-271 | importing the same text twice has the effect of importing it once |
| Plan.CeilDiv | components/smoking-tracker.tsx:35-36 | `Math.ceil(a / b)`: the smallest whole number of `b`s covering `a` |
| Plan.WeekNumber | components/smoking-tracker.tsx:31-37 | the millisecond distance rounds back to the exact day count, so the week is `ceil(\|days from 2024-01-01\| / 7)` |
| Plan.WeekNumberBounds | components/smoking-tracker.tsx:31-37 | week `w` is 0 exactly on the start date; otherwise `7(w - 1) < \|days from 2024-01-01\| <= 7w` |
| Plan.WeekNumberSymmetric | components/smoking-tracker.tsx:34 | dates `k` days before and after the start get the same week |
| Plan.FirstWeeks | components/smoking-tracker.tsx:31-37 | the start date is week 0, days 1-7 are week 1, days 8-14 are week 2 |
| Plan.CurrentTarget | components/smoking-tracker.tsx:29 | the table entry for weeks 1..12, and 0 for every other week |
| Plan.TaperShape | components/smoking-tracker.tsx:16 | the table has 12 entries, never rises, starts at 18 and ends at 0 |
| Plan.TargetNeverRises | components/smoking-tracker.tsx:16-29 | from week 1 on, a later week's target is at most an earlier week's, and every target is in 0..18 |
| Plan.TargetOfDay | components/smoking-tracker.tsx:29-37 | the start date and dates more than 84 days away get target 0; the next seven days get 18 |
| Plan.IsOnTarget | components/smoking-tracker.tsx:81 | an empty count reads as 0; on target exactly when the count is at most the target |
| Plan.OnTargetByWeek | components/smoking-tracker.tsx:73-81 | an empty count is always on target; more than 18 never is; past week 12 only a count of at most 0 is |

## Left out

- Timers: the `setTimeout(autoSync, 1000)` calls after a save or an import are not modelled. `AutoSync` is a separate operation. Each operation is one atomic step; the `await`s are not interleaved.
- JSON: the text is not modelled. Each key holds a typed value. Stored arrays round-trip verbatim, and `ImportPayload` and `CloudBackup` say what a parse yields.
- Entries are taken to be well formed. A stored array holding malformed records is not modelled.
- Dates are well-formed `YYYY-MM-DD` strings, modelled as day numbers. Invalid dates, which compare as NaN, are not modelled.
- Clocks and randomness are parameters: `now` stands for `new Date().toISOString()`, and `freshId` for `generateUserId`. `saveToCloud` reads the clock twice; the model uses one `now` for both.
- Storage.Tracker.AutoSync, Storage.Tracker.ManualSync, Storage.Tracker.SaveWorkout, Storage.Tracker.SaveSmoking and Storage.Tracker.ImportData do not model a `localStorage.setItem` that throws. Only the two writes inside `saveToCloud` can fail, through `SaveFault`.
- `getLastSyncTime`, `getUserIdForSharing` and the `getUserId` export read one key or field each. They are not modelled separately.
- `generateId`/`generateUserId` produce opaque ids. Their format is not modelled.
- `Number.parseInt` of the form fields is not modelled: counts and weeks are integers.
- The form, the toast and the React state around the on-target check are not modelled.
- The SQLite variant (`lib/database.ts`, `lib/db.ts`, `lib/actions.ts`, the API route) is not part of this model.
- The insertion order of the JavaScript `Map` is not modelled. The merge sorts by date and dates are unique keys, so the order cannot affect the result.
- Numbers are unbounded integers and exact reals. Floating-point rounding of the averages is not modelled.
