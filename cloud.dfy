/** `lib/cloud-storage.ts`: the `CloudStorage` object that keeps a snapshot of both
    collections under the `cloud_backup` key and reconciles it with the local collections. */
module Cloud {
  import opened Entries
  import opened Browser
  import Merge

  /** Which `localStorage.setItem` inside `saveToCloud` throws (a full quota, say):
      neither, the write of the snapshot, or the later write of the sync time. */
  datatype SaveFault = NoFault | BackupRejected | StampRejected

  /** What `syncData` resolves to. */
  datatype SyncResult = SyncResult(
    workouts: seq<WorkoutEntry>,
    smoking: seq<SmokingEntry>,
    synced: bool)

  /** A stored id is reused only when it is truthy: present and not the empty string. */
  predicate ReusableId(stored: Option<string>) {
    stored.Some? && stored.value != ""
  }

  /** The snapshot `saveToCloud` serialises under `cloud_backup`. */
  function Snapshot(workouts: seq<WorkoutEntry>, smoking: seq<SmokingEntry>, now: Timestamp, userId: string): CloudBackup {
    Stored(CloudData(Some(workouts), Some(smoking), Some(now), Some(userId)))
  }

  /** `cloud_backup` after `saveToCloud`: the new snapshot, unless writing it threw. */
  function BackupAfterSave(before: CloudBackup, workouts: seq<WorkoutEntry>, smoking: seq<SmokingEntry>,
                           now: Timestamp, userId: string, fault: SaveFault): CloudBackup {
    if fault == BackupRejected then before else Snapshot(workouts, smoking, now, userId)
  }

  /** `last_cloud_sync` after `saveToCloud`: the time of the save when both writes went
      through. */
  function StampAfterSave(before: Option<Timestamp>, now: Timestamp, fault: SaveFault): Option<Timestamp> {
    if fault == NoFault then Some(now) else before
  }

  /** `loadFromCloud` as `syncData` reads it: the parsed snapshot, or `null` when the key is
      missing or does not parse (the parse error is caught). A stored falsy value is returned
      as it is, and `syncData`'s `!cloudData` treats it like `null`, so it is `None` here. */
  function Load(b: CloudBackup): (r: Option<CloudData>)
    ensures r.Some? <==> b.Stored?
    ensures b.Stored? ==> r == Some(b.data)
  {
    match b
    case Stored(data) => Some(data)
    case _ => None
  }

  /** What `syncData` returns. With no snapshot it returns the local collections; with a
      snapshot whose two fields are arrays it returns both merges; a field that is not an
      array makes the merge throw on `forEach`, and the catch returns the local collections
      with `synced` false. */
  ghost function SyncOutcome(localWorkouts: seq<WorkoutEntry>, localSmoking: seq<SmokingEntry>, b: CloudBackup): (r: SyncResult)
    ensures !r.synced || !b.Stored? ==> r.workouts == localWorkouts && r.smoking == localSmoking
    ensures r.synced <==> !b.Stored? || (b.data.workouts.Some? && b.data.smoking.Some?)
  {
    match Load(b)
    case None => SyncResult(localWorkouts, localSmoking, true)
    case Some(d) =>
      if d.workouts.Some? && d.smoking.Some?
      then SyncResult(Merge.Merge(localWorkouts, d.workouts.value), Merge.Merge(localSmoking, d.smoking.value), true)
      else SyncResult(localWorkouts, localSmoking, false)
  }

  /** The three paths of `syncData`. A sync fails exactly when a snapshot is present and one
      of its fields is not an array, and then returns the local collections untouched. With
      no snapshot the local collections come back as they are. With a snapshot, each returned
      collection is newest first, one entry per date, holds the dates of both sides and
      takes the snapshot's entry on a shared date. */
  lemma SyncOutcomeSpec(localWorkouts: seq<WorkoutEntry>, localSmoking: seq<SmokingEntry>, b: CloudBackup)
    ensures var r := SyncOutcome(localWorkouts, localSmoking, b);
      && (!r.synced <==> b.Stored? && (b.data.workouts.None? || b.data.smoking.None?))
      && (!r.synced || !b.Stored? ==> r.workouts == localWorkouts && r.smoking == localSmoking)
    ensures b.Stored? && b.data.workouts.Some? && b.data.smoking.Some? ==>
      var r := SyncOutcome(localWorkouts, localSmoking, b);
      var cloudWorkouts, cloudSmoking := b.data.workouts.value, b.data.smoking.value;
      && NewestFirst(r.workouts) && DistinctDates(r.workouts)
      && NewestFirst(r.smoking) && DistinctDates(r.smoking)
      && Dates(r.workouts) == Dates(localWorkouts) + Dates(cloudWorkouts)
      && Dates(r.smoking) == Dates(localSmoking) + Dates(cloudSmoking)
      && (forall i :: 0 <= i < |r.workouts| && r.workouts[i].date in Dates(cloudWorkouts) ==>
            r.workouts[i] == Merge.LastWithDate(cloudWorkouts, r.workouts[i].date))
      && (forall i :: 0 <= i < |r.smoking| && r.smoking[i].date in Dates(cloudSmoking) ==>
            r.smoking[i] == Merge.LastWithDate(cloudSmoking, r.smoking[i].date))
  {
    if b.Stored? && b.data.workouts.Some? && b.data.smoking.Some? {
      var cloudWorkouts, cloudSmoking := b.data.workouts.value, b.data.smoking.value;
      Merge.MergeIsNewestFirst(localWorkouts, cloudWorkouts);
      Merge.MergeDates(localWorkouts, cloudWorkouts);
      Merge.MergeCloudWins(localWorkouts, cloudWorkouts);
      Merge.MergeIsNewestFirst(localSmoking, cloudSmoking);
      Merge.MergeDates(localSmoking, cloudSmoking);
      Merge.MergeCloudWins(localSmoking, cloudSmoking);
    }
  }

  /** Syncing again right after a sync that merged gives the same collections back, whichever
      write of the push failed: a pushed snapshot merges with its own copy to itself, and a
      snapshot left in place merges again to the same result. */
  lemma ResyncIsStable(localWorkouts: seq<WorkoutEntry>, localSmoking: seq<SmokingEntry>, b: CloudBackup,
                       now: Timestamp, userId: string, fault: SaveFault)
    requires b.Stored? && b.data.workouts.Some? && b.data.smoking.Some?
    ensures var r := SyncOutcome(localWorkouts, localSmoking, b);
      SyncOutcome(r.workouts, r.smoking, BackupAfterSave(b, r.workouts, r.smoking, now, userId, fault)) == r
  {
    var cloudWorkouts, cloudSmoking := b.data.workouts.value, b.data.smoking.value;
    var r := SyncOutcome(localWorkouts, localSmoking, b);
    if fault == BackupRejected {
      Merge.MergeIdempotent(localWorkouts, cloudWorkouts);
      Merge.MergeIdempotent(localSmoking, cloudSmoking);
    } else {
      Merge.MergeIsNewestFirst(localWorkouts, cloudWorkouts);
      Merge.MergeIsNewestFirst(localSmoking, cloudSmoking);
      Merge.MergeSelf(r.workouts);
      Merge.MergeSelf(r.smoking);
    }
  }

  /** The `CloudStorage` singleton, over the browser storage it writes to. */
  class CloudStorage {
    const store: LocalStorage
    var userId: string

    /** `new CloudStorage()`: the user id is read or generated once, at construction.
        `freshId` stands for what `generateUserId` would return. */
    constructor(store: LocalStorage, freshId: string)
      modifies store
      ensures this.store == store
      ensures ReusableId(old(store.fitnessUserId)) ==>
        userId == old(store.fitnessUserId).value && store.fitnessUserId == old(store.fitnessUserId)
      ensures !ReusableId(old(store.fitnessUserId)) ==>
        userId == freshId && store.fitnessUserId == Some(freshId)
      ensures store.workouts == old(store.workouts) && store.smoking == old(store.smoking)
      ensures store.cloudBackup == old(store.cloudBackup) && store.lastCloudSync == old(store.lastCloudSync)
    {
      this.store := store;
      userId := "";
      new;
      userId := GetUserId(freshId);
    }

    /** `getUserId`: the id under `fitness_user_id` when it is truthy; otherwise `freshId`,
        which is also written under that key. */
    method GetUserId(freshId: string) returns (id: string)
      modifies store
      ensures ReusableId(old(store.fitnessUserId)) ==>
        id == old(store.fitnessUserId).value && store.fitnessUserId == old(store.fitnessUserId)
      ensures !ReusableId(old(store.fitnessUserId)) ==>
        id == freshId && store.fitnessUserId == Some(freshId)
      ensures store.workouts == old(store.workouts) && store.smoking == old(store.smoking)
      ensures store.cloudBackup == old(store.cloudBackup) && store.lastCloudSync == old(store.lastCloudSync)
    {
      var stored := store.fitnessUserId;
      if !ReusableId(stored) {
        id := freshId;
        store.fitnessUserId := Some(id);
      } else {
        id := stored.value;
      }
    }

    /** `saveToCloud`: writes the snapshot, then the time of the save, and reports whether
        both writes went through; a throwing write is caught and ends the save. */
    method SaveToCloud(workouts: seq<WorkoutEntry>, smoking: seq<SmokingEntry>, now: Timestamp, fault: SaveFault)
      returns (ok: bool)
      modifies store
      ensures ok <==> fault == NoFault
      ensures store.cloudBackup == BackupAfterSave(old(store.cloudBackup), workouts, smoking, now, userId, fault)
      ensures store.lastCloudSync == StampAfterSave(old(store.lastCloudSync), now, fault)
      ensures store.workouts == old(store.workouts) && store.smoking == old(store.smoking)
      ensures store.fitnessUserId == old(store.fitnessUserId)
    {
      if fault == BackupRejected {
        return false;
      }
      store.cloudBackup := Snapshot(workouts, smoking, now, userId);
      if fault == StampRejected {
        return false;
      }
      store.lastCloudSync := Some(now);
      ok := true;
    }

    /** `syncData`: loads the snapshot, merges when there is one, and pushes what it returns.
        The result of the push is not looked at: a sync that reaches it reports `synced`.
        A failed sync writes nothing. */
    method SyncData(localWorkouts: seq<WorkoutEntry>, localSmoking: seq<SmokingEntry>, now: Timestamp, fault: SaveFault)
      returns (result: SyncResult)
      modifies store
      ensures result == SyncOutcome(localWorkouts, localSmoking, old(store.cloudBackup))
      ensures result.synced ==>
        && store.cloudBackup == BackupAfterSave(old(store.cloudBackup), result.workouts, result.smoking, now, userId, fault)
        && store.lastCloudSync == StampAfterSave(old(store.lastCloudSync), now, fault)
      ensures !result.synced ==>
        store.cloudBackup == old(store.cloudBackup) && store.lastCloudSync == old(store.lastCloudSync)
      ensures store.workouts == old(store.workouts) && store.smoking == old(store.smoking)
      ensures store.fitnessUserId == old(store.fitnessUserId)
    {
      var cloudData := Load(store.cloudBackup);
      if cloudData.None? {
        var _ := SaveToCloud(localWorkouts, localSmoking, now, fault);
        return SyncResult(localWorkouts, localSmoking, true);
      }
      var d := cloudData.value;
      if d.workouts.None? || d.smoking.None? {
        return SyncResult(localWorkouts, localSmoking, false);
      }
      var mergedWorkouts := Merge.MergeByDate(localWorkouts, d.workouts.value);
      var mergedSmoking := Merge.MergeByDate(localSmoking, d.smoking.value);
      var _ := SaveToCloud(mergedWorkouts, mergedSmoking, now, fault);
      result := SyncResult(mergedWorkouts, mergedSmoking, true);
    }
  }
}
