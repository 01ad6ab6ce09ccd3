/** The merge engine of `lib/cloud-storage.ts` (`mergeWorkouts`, `mergeSmoking`): a date-keyed
    map filled with the local entries and then the cloud entries, returned newest first. */
module Merge {
  import opened Entries
  import Sorted

  /** The map after `s.forEach(e => merged.set(e.date, e))`, starting from `m`. */
  function Assign<P>(m: map<Date, Entry<P>>, s: seq<Entry<P>>): (r: map<Date, Entry<P>>)
    ensures r.Keys == m.Keys + Dates(s)
    decreases |s|
  {
    if s == [] then m
    else
      assert Dates(s) == Dates(s[..|s| - 1]) + {s[|s| - 1].date} by {
        assert s == s[..|s| - 1] + [s[|s| - 1]];
      }
      Assign(m, s[..|s| - 1])[s[|s| - 1].date := s[|s| - 1]]
  }

  /** Index of the last entry of `s` with date `d`, if any. */
  function LastIndexWithDate<P>(s: seq<Entry<P>>, d: Date): (r: Option<nat>)
    ensures r.Some? ==> r.value < |s| && s[r.value].date == d
    ensures r.Some? ==> forall j :: r.value < j < |s| ==> s[j].date != d
    ensures r.None? <==> d !in Dates(s)
    decreases |s|
  {
    if s == [] then None
    else if s[|s| - 1].date == d then Some(|s| - 1)
    else
      assert s == s[..|s| - 1] + [s[|s| - 1]];
      assert Dates(s) == Dates(s[..|s| - 1]) + {s[|s| - 1].date};
      LastIndexWithDate(s[..|s| - 1], d)
  }

  /** The entry of `s` that the fold leaves under date `d`: its last entry with that date. */
  function LastWithDate<P>(s: seq<Entry<P>>, d: Date): (e: Entry<P>)
    requires d in Dates(s)
    ensures e.date == d
  {
    s[LastIndexWithDate(s, d).value]
  }

  /** Every value of the map is filed under its own date. */
  ghost predicate WellKeyed<P>(m: map<Date, Entry<P>>) {
    forall d :: d in m ==> m[d].date == d
  }

  /** Folding `s` into `m` adds exactly the dates of `s`; a date of `s` ends up holding the last
      entry of `s` with that date, every other date keeps its value from `m`. */
  lemma {:induction false} AssignSpec<P>(m: map<Date, Entry<P>>, s: seq<Entry<P>>)
    ensures Assign(m, s).Keys == m.Keys + Dates(s)
    ensures forall d :: d in Assign(m, s) ==>
      Assign(m, s)[d] == if d in Dates(s) then LastWithDate(s, d) else m[d]
    decreases |s|
  {
    if s != [] {
      var init, last := s[..|s| - 1], s[|s| - 1];
      assert s == init + [last];
      assert Dates(s) == Dates(init) + {last.date};
      AssignSpec(m, init);
      forall d | d in Assign(m, s)
        ensures Assign(m, s)[d] == if d in Dates(s) then LastWithDate(s, d) else m[d]
      {
        if d != last.date && d in Dates(init) {
          assert LastIndexWithDate(s, d) == LastIndexWithDate(init, d);
        }
      }
    }
  }

  /** The date-keyed map built by `mergeWorkouts`/`mergeSmoking`: local entries first, then
      cloud entries, so that on a shared date the cloud entry overwrites the local one. */
  function MergeMap<P>(local: seq<Entry<P>>, cloud: seq<Entry<P>>): (m: map<Date, Entry<P>>)
    ensures m.Keys == Dates(local) + Dates(cloud)
  {
    Assign(Assign(map[], local), cloud)
  }

  /** The values of a map, listed by decreasing key. */
  ghost function NewestFirstValues<P>(m: map<Date, Entry<P>>): seq<Entry<P>>
    decreases m.Keys
  {
    if m.Keys == {} then []
    else
      var k := Sorted.Greatest(m.Keys);
      [m[k]] + NewestFirstValues(m - {k})
  }

  /** The result of `mergeWorkouts(local, cloud)` and `mergeSmoking(local, cloud)`:
      `Array.from(merged.values())` sorted by `new Date(b.date).getTime() - new Date(a.date).getTime()`. */
  ghost function Merge<P>(local: seq<Entry<P>>, cloud: seq<Entry<P>>): (r: seq<Entry<P>>)
    ensures NewestFirst(r)
    ensures |r| == |Dates(local) + Dates(cloud)|
  {
    MergeMapWellKeyed(local, cloud);
    NewestFirstValuesSpec(MergeMap(local, cloud));
    NewestFirstValues(MergeMap(local, cloud))
  }

  /** A listing whose entries are exactly the values of `m`, each under its own date. */
  ghost predicate Lists<P>(r: seq<Entry<P>>, m: map<Date, Entry<P>>) {
    && Dates(r) == m.Keys
    && forall i :: 0 <= i < |r| ==> r[i].date in m && r[i] == m[r[i].date]
  }

  /** Every entry of the listing is a value of the map, filed under its date. */
  lemma {:induction false} NewestFirstValuesFrom<P>(m: map<Date, Entry<P>>)
    requires WellKeyed(m)
    ensures forall i :: 0 <= i < |NewestFirstValues(m)| ==>
      var e := NewestFirstValues(m)[i]; e.date in m && e == m[e.date]
    decreases m.Keys
  {
    if m.Keys != {} {
      var k := Sorted.Greatest(m.Keys);
      var rest := m - {k};
      NewestFirstValuesFrom(rest);
      var t := NewestFirstValues(rest);
      var r := NewestFirstValues(m);
      assert r == [m[k]] + t;
      forall i | 1 <= i < |r| ensures r[i].date in m && r[i] == m[r[i].date] {
        assert r[i] == t[i - 1];
      }
    }
  }

  /** The listing is strictly newest first. */
  lemma {:induction false} NewestFirstValuesOrdered<P>(m: map<Date, Entry<P>>)
    requires WellKeyed(m)
    ensures NewestFirst(NewestFirstValues(m))
    decreases m.Keys
  {
    if m.Keys != {} {
      var k := Sorted.Greatest(m.Keys);
      var rest := m - {k};
      NewestFirstValuesOrdered(rest);
      NewestFirstValuesFrom(rest);
      var t := NewestFirstValues(rest);
      var r := NewestFirstValues(m);
      assert r == [m[k]] + t;
      forall i | 0 <= i < |t| ensures t[i].date < k {
        assert t[i].date in rest;
      }
    }
  }

  /** The listing has one entry per key, and every key occurs. */
  lemma {:induction false} NewestFirstValuesCovers<P>(m: map<Date, Entry<P>>)
    requires WellKeyed(m)
    ensures |NewestFirstValues(m)| == |m.Keys|
    ensures m.Keys <= Dates(NewestFirstValues(m))
    decreases m.Keys
  {
    if m.Keys != {} {
      var k := Sorted.Greatest(m.Keys);
      var rest := m - {k};
      assert rest.Keys == m.Keys - {k};
      NewestFirstValuesCovers(rest);
      var t := NewestFirstValues(rest);
      var r := NewestFirstValues(m);
      assert r == [m[k]] + t;
      forall d | d in m.Keys ensures d in Dates(r) {
        if d != k {
          assert d in Dates(t);
          var j :| 0 <= j < |t| && t[j].date == d;
          assert r[j + 1].date == d;
        } else {
          assert r[0].date == d;
        }
      }
    }
  }

  /** Listing the values of a well-keyed map newest first lists each value once, by
      strictly decreasing date. */
  lemma NewestFirstValuesSpec<P>(m: map<Date, Entry<P>>)
    requires WellKeyed(m)
    ensures Lists(NewestFirstValues(m), m)
    ensures NewestFirst(NewestFirstValues(m))
    ensures |NewestFirstValues(m)| == |m.Keys|
  {
    var r := NewestFirstValues(m);
    NewestFirstValuesFrom(m);
    NewestFirstValuesOrdered(m);
    NewestFirstValuesCovers(m);
    forall d | d in Dates(r) ensures d in m.Keys {
      var j :| 0 <= j < |r| && r[j].date == d;
    }
  }

  /** A newest-first listing of a map starts with the value under the greatest key. */
  lemma ListingHead<P>(r: seq<Entry<P>>, m: map<Date, Entry<P>>)
    requires m.Keys != {}
    requires Lists(r, m) && NewestFirst(r)
    ensures r != [] && r[0].date == Sorted.Greatest(m.Keys)
  {
    var k := Sorted.Greatest(m.Keys);
    assert k in Dates(r);
    var j :| 0 <= j < |r| && r[j].date == k;
    assert r[0].date in m.Keys;
  }

  /** Dropping the head of a listing lists the map without the head's key. */
  lemma ListingTail<P>(r: seq<Entry<P>>, m: map<Date, Entry<P>>)
    requires r != [] && Lists(r, m) && NewestFirst(r)
    ensures Lists(r[1..], m - {r[0].date}) && NewestFirst(r[1..])
  {
    var k := r[0].date;
    var rest := m - {k};
    var t := r[1..];
    forall i | 0 <= i < |t| ensures t[i].date in rest && t[i] == rest[t[i].date] {
      assert t[i] == r[i + 1];
    }
    forall d | d in rest.Keys ensures d in Dates(t) {
      assert d in Dates(r);
      var i :| 0 <= i < |r| && r[i].date == d;
      assert t[i - 1].date == d;
    }
    forall d | d in Dates(t) ensures d in rest.Keys {
      var i :| 0 <= i < |t| && t[i].date == d;
      assert r[i + 1].date == d;
    }
  }

  /** A newest-first listing of the values of a well-keyed map is unique. */
  lemma {:induction false} ListingIsUnique<P>(r: seq<Entry<P>>, m: map<Date, Entry<P>>)
    requires WellKeyed(m)
    requires Lists(r, m) && NewestFirst(r)
    ensures r == NewestFirstValues(m)
    decreases |r|
  {
    if m.Keys != {} {
      ListingHead(r, m);
      ListingTail(r, m);
      ListingIsUnique(r[1..], m - {r[0].date});
      assert r == [r[0]] + r[1..];
    }
  }

  /** Folding a listing of a well-keyed map into the empty map rebuilds that map. */
  lemma ListingRebuildsMap<P>(r: seq<Entry<P>>, m: map<Date, Entry<P>>)
    requires WellKeyed(m) && Lists(r, m)
    ensures Assign(map[], r) == m
  {
    AssignSpec(map[], r);
    forall d | d in m ensures Assign(map[], r)[d] == m[d] {
      var i := LastIndexWithDate(r, d).value;
      assert r[i] == m[r[i].date];
    }
  }

  lemma MergeMapWellKeyed<P>(local: seq<Entry<P>>, cloud: seq<Entry<P>>)
    ensures WellKeyed(MergeMap(local, cloud))
    ensures MergeMap(local, cloud).Keys == Dates(local) + Dates(cloud)
  {
    AssignSpec(map[], local);
    AssignSpec(Assign(map[], local), cloud);
  }

  /** The merged collection holds exactly the dates found locally or in the cloud. */
  lemma MergeDates<P>(local: seq<Entry<P>>, cloud: seq<Entry<P>>)
    ensures Dates(Merge(local, cloud)) == Dates(local) + Dates(cloud)
  {
    MergeMapWellKeyed(local, cloud);
    NewestFirstValuesSpec(MergeMap(local, cloud));
  }

  /** Newest first with no repeated date, one entry per distinct date of the two inputs. */
  lemma MergeIsNewestFirst<P>(local: seq<Entry<P>>, cloud: seq<Entry<P>>)
    ensures NewestFirst(Merge(local, cloud))
    ensures DistinctDates(Merge(local, cloud))
    ensures |Merge(local, cloud)| == |Dates(local) + Dates(cloud)|
  {
    MergeMapWellKeyed(local, cloud);
    NewestFirstValuesSpec(MergeMap(local, cloud));
  }

  /** Cloud wins: a date present in the cloud carries the last cloud entry with that date; a
      date only present locally carries the last local entry with that date. */
  lemma MergeCloudWins<P>(local: seq<Entry<P>>, cloud: seq<Entry<P>>)
    ensures forall i :: 0 <= i < |Merge(local, cloud)| ==>
      var e := Merge(local, cloud)[i];
      if e.date in Dates(cloud) then e == LastWithDate(cloud, e.date)
      else e.date in Dates(local) && e == LastWithDate(local, e.date)
  {
    var m := MergeMap(local, cloud);
    MergeMapWellKeyed(local, cloud);
    NewestFirstValuesSpec(m);
    AssignSpec(map[], local);
    AssignSpec(Assign(map[], local), cloud);
  }

  /** Folding the same collection in twice changes nothing the second time. */
  lemma AssignTwice<P>(m: map<Date, Entry<P>>, s: seq<Entry<P>>)
    ensures Assign(Assign(m, s), s) == Assign(m, s)
  {
    var once := Assign(m, s);
    AssignSpec(m, s);
    AssignSpec(once, s);
    forall d | d in once ensures Assign(once, s)[d] == once[d] {
    }
  }

  /** Re-syncing against the same cloud copy is a no-op. */
  lemma MergeIdempotent<P>(local: seq<Entry<P>>, cloud: seq<Entry<P>>)
    ensures Merge(Merge(local, cloud), cloud) == Merge(local, cloud)
  {
    var m := MergeMap(local, cloud);
    var r := Merge(local, cloud);
    MergeMapWellKeyed(local, cloud);
    NewestFirstValuesSpec(m);
    ListingRebuildsMap(r, m);
    AssignTwice(Assign(map[], local), cloud);
    assert MergeMap(r, cloud) == m;
  }

  /** A collection that is already newest first with one entry per date merges with itself
      to itself. */
  lemma MergeSelf<P>(s: seq<Entry<P>>)
    requires NewestFirst(s)
    ensures Merge(s, s) == s
  {
    var m := MergeMap(s, s);
    MergeMapWellKeyed(s, s);
    AssignSpec(map[], s);
    AssignTwice(map[], s);
    forall i | 0 <= i < |s| ensures s[i].date in m && s[i] == m[s[i].date] {
      assert s[i].date in Dates(s);
      var k := LastIndexWithDate(s, s[i].date).value;
      assert k == i;
    }
    ListingIsUnique(s, m);
  }

  /** `mergeWorkouts`/`mergeSmoking` as the source runs them: two `forEach` loops filling the
      map, then the values listed newest first. */
  method MergeByDate<P>(local: seq<Entry<P>>, cloud: seq<Entry<P>>) returns (merged: seq<Entry<P>>)
    ensures merged == Merge(local, cloud)
  {
    var m: map<Date, Entry<P>> := map[];
    for i := 0 to |local|
      invariant m == Assign(map[], local[..i])
    {
      assert local[..i + 1][..i] == local[..i];
      m := m[local[i].date := local[i]];
    }
    assert local[..|local|] == local;
    ghost var fromLocal := m;
    for i := 0 to |cloud|
      invariant m == Assign(fromLocal, cloud[..i])
    {
      assert cloud[..i + 1][..i] == cloud[..i];
      m := m[cloud[i].date := cloud[i]];
    }
    assert cloud[..|cloud|] == cloud;

    merged := ListNewestFirst(m);
  }

  /** `Array.from(merged.values()).sort(...)`: the values of the map, newest date first. */
  method ListNewestFirst<P>(m: map<Date, Entry<P>>) returns (merged: seq<Entry<P>>)
    ensures merged == NewestFirstValues(m)
  {
    var rest := m;
    merged := [];
    while rest.Keys != {}
      invariant NewestFirstValues(m) == merged + NewestFirstValues(rest)
      decreases rest.Keys
    {
      assert Sorted.Greatest(rest.Keys) in rest;
      var k :| k in rest && forall j :: j in rest ==> j <= k;
      assert k == Sorted.Greatest(rest.Keys);
      merged := merged + [rest[k]];
      rest := rest - {k};
    }
  }
}
