/** The read-only aggregates of `lib/storage.ts`: `getWorkoutStats`, `getSmokingStats` and
    `getSmokingProgress`. Averages are exact `real` quotients of integer sums. */
module Stats {
  import opened Entries
  import Lookup
  import Sorted

  /** `reduce((sum, x) => sum + x, 0)`. */
  function Sum(xs: seq<int>): int {
    if xs == [] then 0 else Sum(xs[..|xs| - 1]) + xs[|xs| - 1]
  }

  /** A sum of values in `[lo, hi]` lies between `n * lo` and `n * hi`. */
  lemma {:induction false} SumBounds(xs: seq<int>, lo: int, hi: int)
    requires forall i :: 0 <= i < |xs| ==> lo <= xs[i] <= hi
    ensures |xs| * lo <= Sum(xs) <= |xs| * hi
  {
    if xs != [] {
      SumBounds(xs[..|xs| - 1], lo, hi);
    }
  }

  /** `avg` is the average of `xs`: the value that, times the count, gives the sum; `0` when
      there is nothing to average. */
  predicate IsMeanOf(avg: real, xs: seq<int>) {
    if xs == [] then avg == 0.0 else avg * (|xs| as real) == Sum(xs) as real
  }

  /** The average the source computes as `sum / length`, with its explicit `0` when there is
      nothing to average. */
  function Mean(xs: seq<int>): (r: real)
    ensures IsMeanOf(r, xs)
  {
    if |xs| > 0 then Sum(xs) as real / |xs| as real else 0.0
  }

  /** Dividing by a positive count preserves the bounds `lo * n <= total <= hi * n`. */
  lemma QuotientBetween(total: real, n: real, lo: real, hi: real)
    requires n > 0.0
    requires lo * n <= total <= hi * n
    ensures lo <= total / n <= hi
  {
    var q := total / n;
    assert q * n == total;
    assert (q - lo) * n >= 0.0;
    assert (hi - q) * n >= 0.0;
  }

  lemma ProductAsReal(n: int, x: int)
    ensures (n * x) as real == x as real * n as real
  {
  }

  /** The mean of values in `[lo, hi]` lies in `[lo, hi]`. */
  lemma MeanBetween(xs: seq<int>, lo: int, hi: int)
    requires xs != []
    requires forall i :: 0 <= i < |xs| ==> lo <= xs[i] <= hi
    ensures lo as real <= Mean(xs) <= hi as real
  {
    SumBounds(xs, lo, hi);
    var n := |xs|;
    ProductAsReal(n, lo);
    ProductAsReal(n, hi);
    QuotientBetween(Sum(xs) as real, n as real, lo as real, hi as real);
  }

  /** `Math.min(...xs)` on a non-empty list. */
  function MinOf(xs: seq<int>): (r: int)
    requires xs != []
    ensures exists i :: 0 <= i < |xs| && xs[i] == r
    ensures forall i :: 0 <= i < |xs| ==> r <= xs[i]
  {
    if |xs| == 1 then xs[0]
    else
      var m := MinOf(xs[1..]);
      assert xs[1..][0] == xs[1];
      if xs[0] <= m then xs[0] else m
  }

  /** `Math.max(...xs)` on a non-empty list. */
  function MaxOf(xs: seq<int>): (r: int)
    requires xs != []
    ensures exists i :: 0 <= i < |xs| && xs[i] == r
    ensures forall i :: 0 <= i < |xs| ==> xs[i] <= r
  {
    if |xs| == 1 then xs[0]
    else
      var m := MaxOf(xs[1..]);
      assert xs[1..][0] == xs[1];
      if xs[0] >= m then xs[0] else m
  }

  // ---------------------------------------------------------------- workouts

  /** The two optional numeric fields of a workout that `getWorkoutStats` averages. */
  datatype Field = Duration | Energy

  function FieldOf(w: Workout, f: Field): Option<int> {
    match f
    case Duration => w.duration
    case Energy => w.energy
  }

  /** JavaScript truthiness of an optional number: present and not zero. */
  predicate Truthy(o: Option<int>) {
    o.Some? && o.value != 0
  }

  /** `filter(w => w.workout_done).length`. */
  function CountCompleted(ws: seq<WorkoutEntry>): (n: nat)
    ensures n <= |ws|
    ensures n == |ws| <==> forall i :: 0 <= i < |ws| ==> ws[i].data.workoutDone
    ensures n == 0 <==> forall i :: 0 <= i < |ws| ==> !ws[i].data.workoutDone
  {
    if ws == [] then 0
    else
      var n := CountCompleted(ws[1..]);
      assert forall i :: 1 <= i < |ws| ==> ws[i] == ws[1..][i - 1];
      if ws[0].data.workoutDone then n + 1 else n
  }

  /** The completed count adds up over a split of the workouts; with the one-workout cases
      fixed above (1 when done, 0 when not), it is the number of done workouts. */
  lemma {:induction false} CountCompletedAppend(a: seq<WorkoutEntry>, b: seq<WorkoutEntry>)
    ensures CountCompleted(a + b) == CountCompleted(a) + CountCompleted(b)
    decreases |a|
  {
    if a == [] {
      assert a + b == b;
    } else {
      assert (a + b)[0] == a[0];
      assert (a + b)[1..] == a[1..] + b;
      CountCompletedAppend(a[1..], b);
    }
  }

  /** The values `field` holds in the completed workouts where it is truthy: the operands of
      the average in `getWorkoutStats` (`filter(w => w.workout_done && w.duration)`, and the
      same with `energy`). */
  function CompletedValues(ws: seq<WorkoutEntry>, field: Field): (xs: seq<int>)
    ensures |xs| <= CountCompleted(ws)
    ensures forall k :: 0 <= k < |xs| ==> xs[k] != 0
  {
    if ws == [] then []
    else
      var rest := CompletedValues(ws[1..], field);
      var w := ws[0].data;
      if w.workoutDone && Truthy(FieldOf(w, field)) then [FieldOf(w, field).value] + rest else rest
  }

  /** Every averaged value is the field of some completed workout. */
  lemma {:induction false} CompletedValuesFrom(ws: seq<WorkoutEntry>, field: Field, k: int)
    requires 0 <= k < |CompletedValues(ws, field)|
    ensures exists i :: 0 <= i < |ws| && ws[i].data.workoutDone && FieldOf(ws[i].data, field) == Some(CompletedValues(ws, field)[k])
  {
    var w := ws[0].data;
    var rest := CompletedValues(ws[1..], field);
    if w.workoutDone && Truthy(FieldOf(w, field)) {
      if k == 0 {
        assert FieldOf(ws[0].data, field) == Some(CompletedValues(ws, field)[0]);
      } else {
        CompletedValuesFrom(ws[1..], field, k - 1);
        var i :| 0 <= i < |ws[1..]| && ws[1..][i].data.workoutDone && FieldOf(ws[1..][i].data, field) == Some(rest[k - 1]);
        assert ws[i + 1] == ws[1..][i];
      }
    } else {
      CompletedValuesFrom(ws[1..], field, k);
      var i :| 0 <= i < |ws[1..]| && ws[1..][i].data.workoutDone && FieldOf(ws[1..][i].data, field) == Some(rest[k]);
      assert ws[i + 1] == ws[1..][i];
    }
  }


  /** The averaged values of two stretches of workouts are those of the first followed by
      those of the second: every completed workout with a truthy field contributes its value,
      once, in stored order. */
  lemma {:induction false} CompletedValuesAppend(a: seq<WorkoutEntry>, b: seq<WorkoutEntry>, field: Field)
    ensures CompletedValues(a + b, field) == CompletedValues(a, field) + CompletedValues(b, field)
    decreases |a|
  {
    if a == [] {
      assert a + b == b;
    } else {
      assert (a + b)[0] == a[0];
      assert (a + b)[1..] == a[1..] + b;
      CompletedValuesAppend(a[1..], b, field);
    }
  }

  /** Every completed workout whose field is truthy has its value among the averaged ones. */
  lemma CompletedValuesCovers(ws: seq<WorkoutEntry>, field: Field, i: int)
    requires 0 <= i < |ws| && ws[i].data.workoutDone && Truthy(FieldOf(ws[i].data, field))
    ensures FieldOf(ws[i].data, field).value in CompletedValues(ws, field)
  {
    var v := FieldOf(ws[i].data, field).value;
    assert ws == ws[..i] + ([ws[i]] + ws[i + 1..]);
    CompletedValuesAppend(ws[..i], [ws[i]] + ws[i + 1..], field);
    CompletedValuesAppend([ws[i]], ws[i + 1..], field);
    assert [ws[i]][1..] == [];
    assert CompletedValues([ws[i]], field) == [v];
  }

  datatype WorkoutStats = WorkoutStats(
    totalWorkouts: nat,
    completedWorkouts: nat,
    avgDuration: real,
    avgEnergy: real)

  /** `getWorkoutStats` over the stored workouts `ws`. */
  function GetWorkoutStats(ws: seq<WorkoutEntry>): (r: WorkoutStats)
    ensures r.totalWorkouts == |ws|
    ensures r.completedWorkouts == CountCompleted(ws)
    ensures r.completedWorkouts <= r.totalWorkouts
    ensures r.completedWorkouts == 0 <==> forall i :: 0 <= i < |ws| ==> !ws[i].data.workoutDone
    ensures IsMeanOf(r.avgDuration, CompletedValues(ws, Duration))
    ensures IsMeanOf(r.avgEnergy, CompletedValues(ws, Energy))
  {
    var avgDuration, avgEnergy := Mean(CompletedValues(ws, Duration)), Mean(CompletedValues(ws, Energy));
    WorkoutStats(|ws|, CountCompleted(ws), avgDuration, avgEnergy)
  }

  /** With every stored energy rating in 1..5, the average energy is 0 (no rated completed
      workout) or lies in [1, 5]. */
  lemma AverageEnergyInRange(ws: seq<WorkoutEntry>)
    requires forall i :: 0 <= i < |ws| && ws[i].data.energy.Some? ==> 1 <= ws[i].data.energy.value <= 5
    ensures var avg := GetWorkoutStats(ws).avgEnergy;
      avg == 0.0 || 1.0 <= avg <= 5.0
  {
    var xs := CompletedValues(ws, Energy);
    if xs != [] {
      forall k | 0 <= k < |xs| ensures 1 <= xs[k] <= 5 {
        CompletedValuesFrom(ws, Energy, k);
        var i :| 0 <= i < |ws| && ws[i].data.workoutDone && FieldOf(ws[i].data, Energy) == Some(xs[k]);
      }
      MeanBetween(xs, 1, 5);
    }
  }

  // ---------------------------------------------------------------- smoking

  /** `map(e => e.cigarettes_smoked)`. */
  function Cigarettes(ss: seq<SmokingEntry>): (xs: seq<int>)
    ensures |xs| == |ss|
    ensures forall i :: 0 <= i < |ss| ==> xs[i] == ss[i].data.cigarettesSmoked
  {
    seq(|ss|, i requires 0 <= i < |ss| => ss[i].data.cigarettesSmoked)
  }

  /** `map(e => e.target)`. */
  function Targets(ss: seq<SmokingEntry>): (xs: seq<int>)
    ensures |xs| == |ss|
    ensures forall i :: 0 <= i < |ss| ==> xs[i] == ss[i].data.target
  {
    seq(|ss|, i requires 0 <= i < |ss| => ss[i].data.target)
  }

  datatype SmokingStats = SmokingStats(
    avgDaily: real,
    bestDay: int,
    worstDay: int,
    totalSmoked: int)

  /** `getSmokingStats` over the stored smoking entries `ss`. */
  function GetSmokingStats(ss: seq<SmokingEntry>): (r: SmokingStats)
    ensures ss == [] ==> r == SmokingStats(0.0, 0, 0, 0)
    ensures r.totalSmoked == Sum(Cigarettes(ss))
    ensures IsMeanOf(r.avgDaily, Cigarettes(ss))
    ensures ss != [] ==> r.bestDay as real <= r.avgDaily <= r.worstDay as real
    ensures ss != [] ==> exists i :: 0 <= i < |ss| && Cigarettes(ss)[i] == r.bestDay
    ensures ss != [] ==> exists i :: 0 <= i < |ss| && Cigarettes(ss)[i] == r.worstDay
    ensures forall i :: 0 <= i < |ss| ==> r.bestDay <= Cigarettes(ss)[i] <= r.worstDay
  {
    if |ss| == 0 then SmokingStats(0.0, 0, 0, 0)
    else
      var xs := Cigarettes(ss);
      var best, worst := MinOf(xs), MaxOf(xs);
      MeanBetween(xs, best, worst);
      SmokingStats(Mean(xs), best, worst, Sum(xs))
  }

  // ---------------------------------------------------------------- weekly progress

  /** One element of `getSmokingProgress`. */
  datatype WeekProgress = WeekProgress(weekNumber: int, avgCigarettes: real, avgTarget: real)

  /** The week numbers that occur among the entries. */
  function Weeks(ss: seq<SmokingEntry>): set<int> {
    set i | 0 <= i < |ss| :: ss[i].weekNumber
  }

  /** The per-week lists `getSmokingProgress` accumulates in its `weeklyData` dictionary. */
  datatype Bucket = Bucket(cigarettes: seq<int>, targets: seq<int>)

  /** The bucket of week `w` once every entry of `s` has been visited. */
  function BucketOf(s: seq<SmokingEntry>, w: int): Bucket {
    var group := Lookup.FilterByWeek(s, w);
    Bucket(Cigarettes(group), Targets(group))
  }

  /** The row the source builds from the bucket of week `w`. */
  function RowOf(w: int, b: Bucket): WeekProgress {
    WeekProgress(w, Mean(b.cigarettes), Mean(b.targets))
  }

  /** The row for week `w`: the means over that week's entries. */
  function WeekRow(ss: seq<SmokingEntry>, w: int): WeekProgress {
    RowOf(w, BucketOf(ss, w))
  }

  /** What `getSmokingProgress` returns: one row per week, ascending by week number. */
  ghost function SmokingProgress(ss: seq<SmokingEntry>): (rows: seq<WeekProgress>)
    ensures |rows| == |Weeks(ss)|
  {
    Sorted.AscendingLength(Weeks(ss));
    var weeks := Sorted.Ascending(Weeks(ss));
    seq(|weeks|, k requires 0 <= k < |weeks| => WeekRow(ss, weeks[k]))
  }

  /** Row `k` of the progress list is the row of the `k`-th smallest week. */
  lemma SmokingProgressWeeks(ss: seq<SmokingEntry>)
    ensures var rows := SmokingProgress(ss);
      && (forall j, k :: 0 <= j < k < |rows| ==> rows[j].weekNumber < rows[k].weekNumber)
      && (forall w :: w in Weeks(ss) <==> exists k :: 0 <= k < |rows| && rows[k].weekNumber == w)
  {
    var weeks := Sorted.Ascending(Weeks(ss));
    Sorted.AscendingSpec(Weeks(ss));
    var rows := SmokingProgress(ss);
    assert forall k :: 0 <= k < |rows| ==> rows[k].weekNumber == weeks[k];
    forall w | w in Weeks(ss) ensures exists k :: 0 <= k < |rows| && rows[k].weekNumber == w {
      var k :| 0 <= k < |weeks| && weeks[k] == w;
      assert rows[k].weekNumber == w;
    }
  }

  /** Every row of the progress list averages a non-empty group: that week's entries. */
  lemma SmokingProgressGroups(ss: seq<SmokingEntry>)
    ensures var rows := SmokingProgress(ss);
      forall k :: 0 <= k < |rows| ==>
        var group := Lookup.FilterByWeek(ss, rows[k].weekNumber);
        && group != []
        && IsMeanOf(rows[k].avgCigarettes, Cigarettes(group))
        && IsMeanOf(rows[k].avgTarget, Targets(group))
  {
    var weeks := Sorted.Ascending(Weeks(ss));
    Sorted.AscendingElements(Weeks(ss));
    var rows := SmokingProgress(ss);
    forall k | 0 <= k < |rows| ensures Lookup.FilterByWeek(ss, rows[k].weekNumber) != [] {
      var w := weeks[k];
      assert rows[k].weekNumber == w;
      assert w in Weeks(ss);
      var i :| 0 <= i < |ss| && ss[i].weekNumber == w;
      assert ss[i] in Lookup.FilterByWeek(ss, w);
    }
  }

  /** The sort by week has only one possible outcome: any strictly increasing listing of the
      weeks that occur is the one the progress rows follow. */
  lemma WeekOrderIsDetermined(ss: seq<SmokingEntry>, weeks: seq<int>)
    requires Sorted.StrictlyIncreasing(weeks)
    requires forall w :: w in weeks <==> w in Weeks(ss)
    ensures weeks == Sorted.Ascending(Weeks(ss))
    ensures |weeks| == |SmokingProgress(ss)|
    ensures forall k :: 0 <= k < |weeks| ==> SmokingProgress(ss)[k] == WeekRow(ss, weeks[k])
  {
    Sorted.AscendingSpec(Weeks(ss));
    Sorted.IncreasingUnique(weeks, Sorted.Ascending(Weeks(ss)));
  }

  /** The progress list has one row per distinct week, strictly ascending by week, and each
      row averages the cigarettes and targets of exactly that week's entries. */
  lemma SmokingProgressSpec(ss: seq<SmokingEntry>)
    ensures var rows := SmokingProgress(ss);
      && |rows| == |Weeks(ss)|
      && (forall j, k :: 0 <= j < k < |rows| ==> rows[j].weekNumber < rows[k].weekNumber)
      && (forall w :: w in Weeks(ss) <==> exists k :: 0 <= k < |rows| && rows[k].weekNumber == w)
      && (forall k :: 0 <= k < |rows| ==>
            var group := Lookup.FilterByWeek(ss, rows[k].weekNumber);
            && group != []
            && IsMeanOf(rows[k].avgCigarettes, Cigarettes(group))
            && IsMeanOf(rows[k].avgTarget, Targets(group)))
  {
    SmokingProgressWeeks(ss);
    SmokingProgressGroups(ss);
  }

  /** No entries, no rows. */
  lemma SmokingProgressEmpty()
    ensures SmokingProgress([]) == []
  {
    SmokingProgressSpec([]);
  }

  /** Visiting one more entry adds one week number. */
  lemma WeeksAppend(s: seq<SmokingEntry>, e: SmokingEntry)
    ensures Weeks(s + [e]) == Weeks(s) + {e.weekNumber}
  {
    var t := s + [e];
    assert t[|s|] == e;
    forall w | w in Weeks(s) ensures w in Weeks(t) {
      var i :| 0 <= i < |s| && s[i].weekNumber == w;
      assert t[i] == s[i];
    }
  }

  /** Visiting one more entry appends its two numbers to its own week's bucket and leaves
      every other bucket as it was. */
  lemma BucketOfAppend(s: seq<SmokingEntry>, e: SmokingEntry, w: int)
    ensures BucketOf(s + [e], w) ==
      if e.weekNumber == w
      then Bucket(BucketOf(s, w).cigarettes + [e.data.cigarettesSmoked], BucketOf(s, w).targets + [e.data.target])
      else BucketOf(s, w)
  {
    Lookup.FilterByWeekAppend(s, [e], w);
    var a := Lookup.FilterByWeek(s, w);
    var tail := Lookup.FilterByWeek([e], w);
    assert [e][..0] == [];
    assert tail == if e.weekNumber == w then [e] else [];
    if e.weekNumber == w {
      CigarettesTargetsAppend(a, e);
    } else {
      assert a + tail == a;
    }
  }

  /** Mapping a list with one more entry gives one more number at the end. */
  lemma CigarettesTargetsAppend(a: seq<SmokingEntry>, e: SmokingEntry)
    ensures Cigarettes(a + [e]) == Cigarettes(a) + [e.data.cigarettesSmoked]
    ensures Targets(a + [e]) == Targets(a) + [e.data.target]
  {
    var t := a + [e];
    assert forall i :: 0 <= i < |a| ==> t[i] == a[i];
    assert t[|a|] == e;
  }

  /** A week that no entry carries has an empty bucket. */
  lemma BucketOfAbsent(s: seq<SmokingEntry>, w: int)
    ensures w !in Weeks(s) ==> BucketOf(s, w) == Bucket([], [])
  {
    var group := Lookup.FilterByWeek(s, w);
    if group != [] {
      assert group[0] in s;
      var i :| 0 <= i < |s| && s[i] == group[0];
      assert w in Weeks(s);
    }
  }

  /** `weeklyData` holds exactly the buckets of the entries of `s`. */
  ghost predicate Collected(weeklyData: map<int, Bucket>, s: seq<SmokingEntry>) {
    && weeklyData.Keys == Weeks(s)
    && forall w :: w in weeklyData ==> weeklyData[w] == BucketOf(s, w)
  }

  /** One step of the `forEach` that fills `weeklyData` keeps it the buckets of the entries
      visited so far. */
  lemma CollectStep(weeklyData: map<int, Bucket>, s: seq<SmokingEntry>, e: SmokingEntry)
    requires Collected(weeklyData, s)
    ensures var bucket := if e.weekNumber in weeklyData then weeklyData[e.weekNumber] else Bucket([], []);
      Collected(weeklyData[e.weekNumber :=
        Bucket(bucket.cigarettes + [e.data.cigarettesSmoked], bucket.targets + [e.data.target])], s + [e])
  {
    WeeksAppend(s, e);
    forall w ensures BucketOf(s + [e], w) ==
      if e.weekNumber == w
      then Bucket(BucketOf(s, w).cigarettes + [e.data.cigarettesSmoked], BucketOf(s, w).targets + [e.data.target])
      else BucketOf(s, w)
    {
      BucketOfAppend(s, e, w);
    }
    BucketOfAbsent(s, e.weekNumber);
  }

  /** `getSmokingProgress` as the source runs it: a `forEach` filling the per-week buckets,
      then one averaged row per bucket, ascending by week. */
  method GetSmokingProgress(ss: seq<SmokingEntry>) returns (rows: seq<WeekProgress>)
    ensures rows == SmokingProgress(ss)
  {
    var weeklyData: map<int, Bucket> := map[];
    for i := 0 to |ss|
      invariant Collected(weeklyData, ss[..i])
    {
      var e := ss[i];
      assert ss[..i + 1] == ss[..i] + [e];
      CollectStep(weeklyData, ss[..i], e);
      var bucket := if e.weekNumber in weeklyData then weeklyData[e.weekNumber] else Bucket([], []);
      weeklyData := weeklyData[e.weekNumber :=
        Bucket(bucket.cigarettes + [e.data.cigarettesSmoked], bucket.targets + [e.data.target])];
    }
    assert ss[..|ss|] == ss;

    rows := RowsInWeekOrder(weeklyData);
    assert forall k :: 0 <= k < |rows| ==> rows[k] == WeekRow(ss, Sorted.Ascending(weeklyData.Keys)[k]);
  }

  /** The second half of `getSmokingProgress`: `Object.entries(weeklyData)` turned into one
      row per week and sorted by week. The model visits the weeks smallest first. */
  method RowsInWeekOrder(weeklyData: map<int, Bucket>) returns (rows: seq<WeekProgress>)
    ensures var weeks := Sorted.Ascending(weeklyData.Keys);
      && |rows| == |weeks|
      && forall k :: 0 <= k < |weeks| ==> weeks[k] in weeklyData && rows[k] == RowOf(weeks[k], weeklyData[weeks[k]])
  {
    ghost var weeks := weeklyData.Keys;
    var rest := weeklyData.Keys;
    ghost var taken: seq<int> := [];
    rows := [];
    while rest != {}
      invariant rest <= weeks
      invariant Sorted.Ascending(weeks) == taken + Sorted.Ascending(rest)
      invariant |rows| == |taken|
      invariant forall k :: 0 <= k < |taken| ==> taken[k] in weeklyData && rows[k] == RowOf(taken[k], weeklyData[taken[k]])
      decreases rest
    {
      assert Sorted.Least(rest) in rest;
      var w :| w in rest && forall j :: j in rest ==> w <= j;
      assert w == Sorted.Least(rest);
      ghost var later := Sorted.Ascending(rest - {w});
      assert Sorted.Ascending(rest) == [w] + later;
      ConcatAssoc(taken, [w], later);
      var data := weeklyData[w];
      rows := rows + [RowOf(w, data)];
      taken := taken + [w];
      rest := rest - {w};
    }
    assert taken == Sorted.Ascending(weeks);
  }

  lemma ConcatAssoc(a: seq<int>, b: seq<int>, c: seq<int>)
    ensures a + (b + c) == (a + b) + c
  {
  }
}
