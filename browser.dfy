/** The browser's `localStorage` as the tracker uses it: five keys, each holding a typed
    value instead of JSON text. */
module Browser {
  import opened Entries

  /** An ISO timestamp, `new Date().toISOString()`. */
  type Timestamp = string

  /** The object `saveToCloud` writes under `cloud_backup` (`CloudData`), as it reads back
      after `JSON.parse`. A field that is missing or is not an array is `None`. */
  datatype CloudData = CloudData(
    workouts: Option<seq<WorkoutEntry>>,
    smoking: Option<seq<SmokingEntry>>,
    lastSync: Option<Timestamp>,
    userId: Option<string>)

  /** What the `cloud_backup` key holds. `Falsy` is an empty string or JSON text that parses
      to a falsy value (`null`, `false`, `0`, `""`); `Unparsable` is text `JSON.parse`
      rejects; `Stored` is text that parses to a truthy value. */
  datatype CloudBackup = Missing | Falsy | Unparsable | Stored(data: CloudData)

  /** The keys `workouts`, `smoking`, `cloud_backup`, `last_cloud_sync` and
      `fitness_user_id`. A missing `workouts` or `smoking` key reads as `[]`, so it is the
      empty sequence here. */
  class LocalStorage {
    var workouts: seq<WorkoutEntry>
    var smoking: seq<SmokingEntry>
    var cloudBackup: CloudBackup
    var lastCloudSync: Option<Timestamp>
    var fitnessUserId: Option<string>

    /** A browser profile in which the tracker has never run. */
    constructor()
      ensures workouts == [] && smoking == []
      ensures cloudBackup == Missing && lastCloudSync == None && fitnessUserId == None
    {
      workouts := [];
      smoking := [];
      cloudBackup := Missing;
      lastCloudSync := None;
      fitnessUserId := None;
    }
  }
}
