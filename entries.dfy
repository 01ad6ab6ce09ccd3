/** The two record kinds the tracker stores, and the date-keyed vocabulary shared by every
    operation on them. */
module Entries {

  datatype Option<+T> = None | Some(value: T)

  /** A calendar date `YYYY-MM-DD`, as the number of days since 1970-01-01. A date-only ISO
      string parses to UTC midnight, so string equality of well-formed dates, equality of
      day numbers and the order of `new Date(date).getTime()` all agree with this number. */
  type Date = int

  /** Fields common to both record kinds (`id`, `date`, `week_number`), plus the kind's own. */
  datatype Entry<P> = Entry(id: string, date: Date, weekNumber: int, data: P)

  /** The fields of a `WorkoutEntry` beyond the common ones; absent optionals are `None`. */
  datatype Workout = Workout(
    workoutDone: bool,
    duration: Option<int>,
    energy: Option<int>,
    notes: Option<string>)

  /** The fields of a `SmokingEntry` beyond the common ones. */
  datatype Smoking = Smoking(
    cigarettesSmoked: int,
    target: int,
    firstCigTime: Option<string>,
    cravingIntensity: Option<int>,
    notes: Option<string>)

  type WorkoutEntry = Entry<Workout>
  type SmokingEntry = Entry<Smoking>

  /** The set of dates that occur in a collection. */
  function Dates<P>(s: seq<Entry<P>>): set<Date> {
    set i | 0 <= i < |s| :: s[i].date
  }

  /** At most one entry per date: the invariant upsert-by-date is meant to keep. */
  ghost predicate DistinctDates<P>(s: seq<Entry<P>>) {
    forall i, j :: 0 <= i < j < |s| ==> s[i].date != s[j].date
  }

  /** Strictly descending by date: the order a merged collection is returned in. */
  ghost predicate NewestFirst<P>(s: seq<Entry<P>>) {
    forall i, j :: 0 <= i < j < |s| ==> s[i].date > s[j].date
  }
}
