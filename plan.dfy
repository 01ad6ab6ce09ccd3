/** The reduction plan of `components/smoking-tracker.tsx`: the week a date falls in, the
    12-week taper of daily targets, and the on-target check made when an entry is logged. */
module Plan {
  import opened Entries

  /** Milliseconds per day, `1000 * 60 * 60 * 24`. */
  const MsPerDay: nat := 86_400_000

  /** `2024-01-01`, the plan's start, as a day number (days since 1970-01-01). */
  const StartDay: Date := 19723

  /** The daily targets for weeks 1..12, `smokingTargets`. */
  const SmokingTargets: seq<int> := [18, 16, 14, 12, 10, 8, 6, 4, 2, 1, 1, 0]

  /** `Math.ceil(a / b)` for a non-negative numerator and positive denominator. */
  function CeilDiv(a: nat, b: nat): (q: nat)
    requires b > 0
    ensures q * b >= a
    ensures q == 0 || (q - 1) * b < a
  {
    (a + b - 1) / b
  }

  function Abs(x: int): nat {
    if x < 0 then -x else x
  }

  /** `calculateWeekNumber`: the absolute distance from the start in milliseconds, turned
      into whole days and then into whole weeks, each rounded up. */
  function WeekNumber(day: Date): (w: nat)
    ensures w == CeilDiv(Abs(day - StartDay), 7)
  {
    var diffTime := Abs(day - StartDay) * MsPerDay;
    var diffDays := CeilDiv(diffTime, MsPerDay);
    assert diffDays == Abs(day - StartDay) by {
      var n := Abs(day - StartDay);
      assert diffDays * MsPerDay >= n * MsPerDay;
      if diffDays > 0 {
        assert (diffDays - 1) * MsPerDay < n * MsPerDay;
      }
    }
    CeilDiv(diffDays, 7)
  }

  /** Dates are whole days, so the day count is exact and the week is `ceil(|days| / 7)`:
      week `w > 0` holds exactly the days `7(w - 1) + 1 .. 7w` away from the start, and only
      the start day itself is week 0. */
  lemma WeekNumberBounds(day: Date)
    ensures var w := WeekNumber(day);
      && (w == 0 <==> day == StartDay)
      && 7 * (w - 1) < Abs(day - StartDay) <= 7 * w
  {
  }

  /** The week is the same whether a date lies `k` days after or `k` days before the start:
      dates before 2024-01-01 also get positive weeks. */
  lemma WeekNumberSymmetric(k: int)
    ensures WeekNumber(StartDay + k) == WeekNumber(StartDay - k)
  {
    assert Abs(StartDay + k - StartDay) == Abs(StartDay - k - StartDay);
  }

  /** The start date is week 0, its next seven days week 1, the seven after them week 2. */
  lemma FirstWeeks(k: int)
    ensures k == 0 ==> WeekNumber(StartDay + k) == 0
    ensures 1 <= k <= 7 ==> WeekNumber(StartDay + k) == 1
    ensures 8 <= k <= 14 ==> WeekNumber(StartDay + k) == 2
  {
    WeekNumberBounds(StartDay + k);
  }

  /** `smokingTargets[week - 1] || 0`: the taper entry for weeks 1..12; an index outside the
      table reads `undefined`, and `|| 0` turns that (and the table's own 0) into 0. */
  function CurrentTarget(week: int): (t: int)
    ensures 1 <= week <= |SmokingTargets| ==> t == SmokingTargets[week - 1]
    ensures !(1 <= week <= |SmokingTargets|) ==> t == 0
  {
    if 1 <= week <= |SmokingTargets| && SmokingTargets[week - 1] != 0 then SmokingTargets[week - 1]
    else 0
  }

  /** The taper: twelve weekly targets, never rising, from 18 down to 0. */
  lemma TaperShape()
    ensures |SmokingTargets| == 12
    ensures SmokingTargets[0] == 18 && SmokingTargets[11] == 0
    ensures forall i, j :: 0 <= i <= j < |SmokingTargets| ==> SmokingTargets[j] <= SmokingTargets[i]
  {
  }

  /** From week 1 on, every target is in `0..18` and a later week never asks for more than an
      earlier one. (Week 0, before the taper, has target 0.) */
  lemma TargetNeverRises(week: int, later: int)
    requires 1 <= week <= later
    ensures 0 <= CurrentTarget(later) <= CurrentTarget(week) <= 18
  {
    TaperShape();
  }

  /** The target a date gets: the start date itself (week 0) and every date more than 84 days
      from the start get 0. */
  lemma TargetOfDay(day: Date)
    ensures day == StartDay ==> CurrentTarget(WeekNumber(day)) == 0
    ensures Abs(day - StartDay) > 84 ==> CurrentTarget(WeekNumber(day)) == 0
    ensures 1 <= Abs(day - StartDay) <= 7 ==> CurrentTarget(WeekNumber(day)) == 18
  {
    WeekNumberBounds(day);
  }

  /** `isOnTarget`: the cigarette count, read as 0 when the field is empty, is at most the
      target. */
  predicate IsOnTarget(smoked: Option<int>, target: int)
    ensures smoked.None? ==> (IsOnTarget(smoked, target) <==> 0 <= target)
    ensures smoked.Some? ==> (IsOnTarget(smoked, target) <==> smoked.value <= target)
  {
    (if smoked.Some? then smoked.value else 0) <= target
  }

  /** An empty count is on target for every week, since no target is negative; a count above
      18 is on target for no week, and past week 12 only a count of at most 0 is. */
  lemma OnTargetByWeek(smoked: Option<int>, week: int)
    ensures smoked.None? ==> IsOnTarget(smoked, CurrentTarget(week))
    ensures smoked.Some? && smoked.value > 18 ==> !IsOnTarget(smoked, CurrentTarget(week))
    ensures week > 12 ==> (IsOnTarget(smoked, CurrentTarget(week)) <==> smoked.None? || smoked.value <= 0)
  {
    if 1 <= week <= 12 {
      TargetNeverRises(1, week);
    }
  }
}
