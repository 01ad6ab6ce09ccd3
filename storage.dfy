/** `lib/storage.ts`: the module that saves entries, syncs them with the cloud snapshot and
    exports and imports both collections. The pure queries and aggregates it offers are the
    functions of `Lookup` and `Stats`, applied to the stored collections. */
module Storage {
  import opened Entries
  import opened Browser
  import opened Cloud
  import Lookup

  /** The document `exportData` serialises. */
  datatype ExportDoc = ExportDoc(
    workouts: seq<WorkoutEntry>,
    smoking: seq<SmokingEntry>,
    exportDate: Timestamp,
    userId: string)

  /** What `JSON.parse` makes of the text given to `importData`. `Unparsable` text throws;
      `null` parses, but reading a field of it throws; any other value is a `Document`, whose
      field is `None` when it is missing, falsy or not an array. */
  datatype ImportPayload =
    | Unparsable
    | NullDocument
    | Document(workouts: Option<seq<WorkoutEntry>>, smoking: Option<seq<SmokingEntry>>)

  /** Both stored collections. */
  datatype Collections = Collections(workouts: seq<WorkoutEntry>, smoking: seq<SmokingEntry>)

  /** What `JSON.parse(exportData())` reads back: the stored arrays round-trip verbatim and
      `[]` is truthy, so both fields are present. */
  function Reparse(doc: ExportDoc): ImportPayload {
    Document(Some(doc.workouts), Some(doc.smoking))
  }

  /** What `importData` does to the collections `c`: whether it returns true, and the
      collections after it. */
  function Import(c: Collections, p: ImportPayload): (r: (bool, Collections))
    ensures r.0 <==> p.Document?
    ensures !r.0 ==> r.1 == c
  {
    match p
    case Document(workouts, smoking) =>
      (true, Collections(if workouts.Some? then workouts.value else c.workouts,
                         if smoking.Some? then smoking.value else c.smoking))
    case _ => (false, c)
  }

  /** `importData` succeeds exactly on text that parses to something other than `null`;
      it replaces a collection exactly when the document holds an array for it, verbatim,
      and leaves it alone otherwise; a failed import changes nothing. */
  lemma ImportSpec(c: Collections, p: ImportPayload)
    ensures var (ok, after) := Import(c, p);
      && (ok <==> p.Document?)
      && (!ok ==> after == c)
      && (after.workouts != c.workouts ==> p.Document? && p.workouts == Some(after.workouts))
      && (after.smoking != c.smoking ==> p.Document? && p.smoking == Some(after.smoking))
      && (p.Document? && p.workouts.Some? ==> after.workouts == p.workouts.value)
      && (p.Document? && p.smoking.Some? ==> after.smoking == p.smoking.value)
  {
  }

  /** Importing what was just exported succeeds and leaves both collections as they were,
      whatever the export date and user id. */
  lemma ImportExportRoundTrip(c: Collections, now: Timestamp, userId: string)
    ensures Import(c, Reparse(ExportDoc(c.workouts, c.smoking, now, userId))) == (true, c)
  {
  }

  /** Importing the same text twice has the effect of importing it once. */
  lemma ImportIdempotent(c: Collections, p: ImportPayload)
    ensures Import(Import(c, p).1, p) == Import(c, p)
  {
  }

  /** The module state of `lib/storage.ts`: the browser storage, the `cloudStorage`
      singleton over it, and the `syncInProgress` flag. */
  class Tracker {
    const store: LocalStorage
    const cloud: CloudStorage
    var syncInProgress: bool

    /** The module as it is loaded: the flag starts cleared. */
    constructor(cloud: CloudStorage)
      ensures this.cloud == cloud && store == cloud.store
      ensures !syncInProgress
    {
      this.cloud := cloud;
      store := cloud.store;
      syncInProgress := false;
    }

    /** `saveWorkout`: replaces the first workout with the same date, in place, or appends
        the workout when its date is new, and writes the collection back. Afterwards a
        lookup of its date finds it, and one entry per date stays one entry per date. */
    method SaveWorkout(workout: WorkoutEntry)
      modifies store
      ensures store.workouts == Lookup.Upsert(old(store.workouts), workout)
      ensures Lookup.FindByDate(store.workouts, workout.date) == Some(workout)
      ensures Dates(store.workouts) == Dates(old(store.workouts)) + {workout.date}
      ensures |store.workouts| == if workout.date in Dates(old(store.workouts)) then |old(store.workouts)| else |old(store.workouts)| + 1
      ensures DistinctDates(old(store.workouts)) ==> DistinctDates(store.workouts)
      ensures store.smoking == old(store.smoking) && store.cloudBackup == old(store.cloudBackup)
      ensures store.lastCloudSync == old(store.lastCloudSync) && store.fitnessUserId == old(store.fitnessUserId)
    {
      var workouts := store.workouts;
      var existingIndex := Lookup.FirstIndexWithDate(workouts, workout.date);
      if existingIndex.Some? {
        workouts := workouts[existingIndex.value := workout];
      } else {
        workouts := workouts + [workout];
      }
      Lookup.UpsertThenFind(store.workouts, workout);
      Lookup.UpsertDates(store.workouts, workout);
      if DistinctDates(store.workouts) {
        Lookup.UpsertKeepsDistinct(store.workouts, workout);
      }
      store.workouts := workouts;
    }

    /** `saveSmoking`: the same upsert by date on the smoking entries. */
    method SaveSmoking(entry: SmokingEntry)
      modifies store
      ensures store.smoking == Lookup.Upsert(old(store.smoking), entry)
      ensures Lookup.FindByDate(store.smoking, entry.date) == Some(entry)
      ensures Dates(store.smoking) == Dates(old(store.smoking)) + {entry.date}
      ensures |store.smoking| == if entry.date in Dates(old(store.smoking)) then |old(store.smoking)| else |old(store.smoking)| + 1
      ensures DistinctDates(old(store.smoking)) ==> DistinctDates(store.smoking)
      ensures store.workouts == old(store.workouts) && store.cloudBackup == old(store.cloudBackup)
      ensures store.lastCloudSync == old(store.lastCloudSync) && store.fitnessUserId == old(store.fitnessUserId)
    {
      var smokingEntries := store.smoking;
      var existingIndex := Lookup.FirstIndexWithDate(smokingEntries, entry.date);
      if existingIndex.Some? {
        smokingEntries := smokingEntries[existingIndex.value := entry];
      } else {
        smokingEntries := smokingEntries + [entry];
      }
      Lookup.UpsertThenFind(store.smoking, entry);
      Lookup.UpsertDates(store.smoking, entry);
      if DistinctDates(store.smoking) {
        Lookup.UpsertKeepsDistinct(store.smoking, entry);
      }
      store.smoking := smokingEntries;
    }

    /** `autoSync`: does nothing while a sync is in progress; otherwise raises the flag, syncs
        the stored collections, stores what the sync returned only when it reports `synced`,
        and clears the flag again. */
    method AutoSync(now: Timestamp, fault: SaveFault)
      requires cloud.store == store
      modifies this, store
      ensures old(syncInProgress) ==>
        syncInProgress && store.workouts == old(store.workouts) && store.smoking == old(store.smoking)
        && store.cloudBackup == old(store.cloudBackup) && store.lastCloudSync == old(store.lastCloudSync)
      ensures !old(syncInProgress) ==>
        var r := SyncOutcome(old(store.workouts), old(store.smoking), old(store.cloudBackup));
        && !syncInProgress
        && store.workouts == (if r.synced then r.workouts else old(store.workouts))
        && store.smoking == (if r.synced then r.smoking else old(store.smoking))
        && store.cloudBackup == (if r.synced
             then BackupAfterSave(old(store.cloudBackup), r.workouts, r.smoking, now, cloud.userId, fault)
             else old(store.cloudBackup))
        && store.lastCloudSync == (if r.synced then StampAfterSave(old(store.lastCloudSync), now, fault) else old(store.lastCloudSync))
      ensures store.fitnessUserId == old(store.fitnessUserId)
    {
      if syncInProgress {
        return;
      }
      syncInProgress := true;
      var result := cloud.SyncData(store.workouts, store.smoking, now, fault);
      if result.synced {
        store.workouts := result.workouts;
        store.smoking := result.smoking;
      }
      syncInProgress := false;
    }

    /** `manualSync`: the same sync without the flag, returning whether it synced. */
    method ManualSync(now: Timestamp, fault: SaveFault) returns (ok: bool)
      requires cloud.store == store
      modifies store
      ensures var r := SyncOutcome(old(store.workouts), old(store.smoking), old(store.cloudBackup));
        && ok == r.synced
        && store.workouts == (if r.synced then r.workouts else old(store.workouts))
        && store.smoking == (if r.synced then r.smoking else old(store.smoking))
        && store.cloudBackup == (if r.synced
             then BackupAfterSave(old(store.cloudBackup), r.workouts, r.smoking, now, cloud.userId, fault)
             else old(store.cloudBackup))
        && store.lastCloudSync == (if r.synced then StampAfterSave(old(store.lastCloudSync), now, fault) else old(store.lastCloudSync))
      ensures store.fitnessUserId == old(store.fitnessUserId)
    {
      var result := cloud.SyncData(store.workouts, store.smoking, now, fault);
      if result.synced {
        store.workouts := result.workouts;
        store.smoking := result.smoking;
        return true;
      }
      return false;
    }

    /** `exportData`: both stored collections, the export time and the user id. */
    function ExportData(now: Timestamp): (doc: ExportDoc)
      reads store, cloud
      ensures Import(Collections(store.workouts, store.smoking), Reparse(doc)) ==
        (true, Collections(store.workouts, store.smoking))
    {
      ImportExportRoundTrip(Collections(store.workouts, store.smoking), now, cloud.userId);
      ExportDoc(store.workouts, store.smoking, now, cloud.userId)
    }

    /** `importData`: replaces each collection the parsed document holds an array for, and
        reports whether the text parsed to something other than `null`. */
    method ImportData(payload: ImportPayload) returns (ok: bool)
      modifies store
      ensures (ok, Collections(store.workouts, store.smoking)) ==
        Import(Collections(old(store.workouts), old(store.smoking)), payload)
      ensures store.cloudBackup == old(store.cloudBackup) && store.lastCloudSync == old(store.lastCloudSync)
      ensures store.fitnessUserId == old(store.fitnessUserId)
    {
      match payload
      case Document(workouts, smoking) =>
        if workouts.Some? {
          store.workouts := workouts.value;
        }
        if smoking.Some? {
          store.smoking := smoking.value;
        }
        ok := true;
      case _ =>
        ok := false;
    }
  }
}
