/** The per-collection queries and the upsert of `lib/storage.ts`, written once for both
    record kinds: `findIndex`/`find` by date, `filter` by week, and insert-or-replace by date. */
module Lookup {
  import opened Entries

  /** `findIndex(e => e.date === d)`, with the not-found `-1` as `None`. */
  function FirstIndexWithDate<P>(s: seq<Entry<P>>, d: Date): (r: Option<nat>)
    ensures r.Some? ==> r.value < |s| && s[r.value].date == d
    ensures r.Some? ==> forall j :: 0 <= j < r.value ==> s[j].date != d
    ensures r.None? <==> d !in Dates(s)
  {
    if s == [] then None
    else if s[0].date == d then Some(0)
    else
      match FirstIndexWithDate(s[1..], d)
      case None => assert Dates(s) == {s[0].date} + Dates(s[1..]); None
      case Some(i) => Some(i + 1)
  }

  /** `find(e => e.date === d)`: the entry `getWorkoutByDate`/`getSmokingByDate` return. */
  function FindByDate<P>(s: seq<Entry<P>>, d: Date): (r: Option<Entry<P>>)
    ensures r.None? <==> d !in Dates(s)
    ensures r.Some? ==> FirstIndexWithDate(s, d).Some? && r.value == s[FirstIndexWithDate(s, d).value]
  {
    if s == [] then None
    else if s[0].date == d then Some(s[0])
    else
      assert Dates(s) == {s[0].date} + Dates(s[1..]);
      FindByDate(s[1..], d)
  }

  /** `filter(e => e.week_number === w)`: what `getWorkoutsByWeek`/`getSmokingByWeek` return. */
  function FilterByWeek<P>(s: seq<Entry<P>>, w: int): (r: seq<Entry<P>>)
    ensures |r| <= |s|
    ensures forall k :: 0 <= k < |r| ==> r[k] in s && r[k].weekNumber == w
    ensures forall k :: 0 <= k < |s| && s[k].weekNumber == w ==> s[k] in r
  {
    if s == [] then []
    else
      var last := s[|s| - 1];
      assert s == s[..|s| - 1] + [last];
      FilterByWeek(s[..|s| - 1], w) + (if last.weekNumber == w then [last] else [])
  }

  /** Filtering distributes over concatenation: together with the ensures of `FilterByWeek`
      on a one-element collection, this pins down that the filter keeps stored order. */
  lemma {:induction false} FilterByWeekAppend<P>(a: seq<Entry<P>>, b: seq<Entry<P>>, w: int)
    ensures FilterByWeek(a + b, w) == FilterByWeek(a, w) + FilterByWeek(b, w)
    decreases |b|
  {
    if b != [] {
      var last := b[|b| - 1];
      assert (a + b)[..|a + b| - 1] == a + b[..|b| - 1];
      FilterByWeekAppend(a, b[..|b| - 1], w);
    } else {
      assert a + b == a;
    }
  }

  /** The collection after `saveWorkout`/`saveSmoking`: the entry overwrites the first entry
      with its date, in place, or is pushed at the end when no entry has that date. */
  function Upsert<P>(s: seq<Entry<P>>, e: Entry<P>): (r: seq<Entry<P>>)
    ensures e in r
    ensures |s| <= |r| <= |s| + 1
    ensures forall j :: 0 <= j < |s| && s[j].date != e.date ==> r[j] == s[j]
    ensures e.date in Dates(s) ==>
      var i := FirstIndexWithDate(s, e.date).value;
      && |r| == |s| && r[i] == e
      && forall j :: 0 <= j < |s| && j != i ==> r[j] == s[j]
    ensures e.date !in Dates(s) ==> r == s + [e]
  {
    match FirstIndexWithDate(s, e.date)
    case Some(i) =>
      assert s[i := e][i] == e;
      s[i := e]
    case None =>
      assert (s + [e])[|s|] == e;
      s + [e]
  }

  /** Upserting an entry adds its date and no other, and grows the collection by exactly one
      entry when the date is new and by none otherwise. */
  lemma UpsertDates<P>(s: seq<Entry<P>>, e: Entry<P>)
    ensures Dates(Upsert(s, e)) == Dates(s) + {e.date}
    ensures |Upsert(s, e)| == if e.date in Dates(s) then |s| else |s| + 1
  {
    var r := Upsert(s, e);
    match FirstIndexWithDate(s, e.date)
    case Some(i) =>
      forall d | d in Dates(s) ensures d in Dates(r) {
        var j :| 0 <= j < |s| && s[j].date == d;
        assert r[j].date == d;
      }
      assert r[i].date == e.date;
    case None =>
      assert r[|s|] == e;
      forall d | d in Dates(s) ensures d in Dates(r) {
        var j :| 0 <= j < |s| && s[j].date == d;
        assert r[j] == s[j];
      }
  }

  /** `FirstIndexWithDate` is determined by its contract: an index holding the date with no
      earlier occurrence is the first index. */
  lemma FirstIndexIs<P>(s: seq<Entry<P>>, d: Date, k: nat)
    requires k < |s| && s[k].date == d
    requires forall j :: 0 <= j < k ==> s[j].date != d
    ensures FirstIndexWithDate(s, d) == Some(k)
  {
    assert d in Dates(s);
  }

  /** After an upsert, looking the entry's date up yields exactly that entry. */
  lemma UpsertThenFind<P>(s: seq<Entry<P>>, e: Entry<P>)
    ensures FindByDate(Upsert(s, e), e.date) == Some(e)
  {
    var r := Upsert(s, e);
    match FirstIndexWithDate(s, e.date)
    case Some(i) =>
      FirstIndexIs(r, e.date, i);
    case None =>
      FirstIndexIs(r, e.date, |s|);
  }

  /** An upsert leaves the lookup of every other date as it was. */
  lemma UpsertKeepsOtherDates<P>(s: seq<Entry<P>>, e: Entry<P>, d: Date)
    requires d != e.date
    ensures FindByDate(Upsert(s, e), d) == FindByDate(s, d)
  {
    var r := Upsert(s, e);
    UpsertDates(s, e);
    match FirstIndexWithDate(s, d)
    case Some(k) =>
      FirstIndexIs(r, d, k);
    case None =>
      assert d !in Dates(r);
  }

  /** Upsert keeps the one-entry-per-date invariant. */
  lemma UpsertKeepsDistinct<P>(s: seq<Entry<P>>, e: Entry<P>)
    requires DistinctDates(s)
    ensures DistinctDates(Upsert(s, e))
  {
    var r := Upsert(s, e);
    match FirstIndexWithDate(s, e.date)
    case Some(i) =>
      forall j, k | 0 <= j < k < |r| ensures r[j].date != r[k].date {
        if j != i && k != i {
          assert r[j] == s[j] && r[k] == s[k];
        } else if j == i {
          assert r[k] == s[k];
        } else {
          assert r[j] == s[j];
        }
      }
    case None =>
      forall j, k | 0 <= j < k < |r| ensures r[j].date != r[k].date {
        if k == |s| {
          assert r[j] == s[j];
          assert s[j].date in Dates(s);
        } else {
          assert r[j] == s[j] && r[k] == s[k];
        }
      }
  }
}
