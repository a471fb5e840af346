/** The derived columns of the modelling table (`f1_data_preparation.py`).

    Each column is a function of the merged rows in the order the script has
    them when it computes that column: the race calendar in (year, round)
    order for the day gaps, the rows in (driverId, year, round) order for the
    next-race shift, and in (driverId, raceId) order for the expanding means.
    A missing value (NaN after a left join or a shift) is None. */
module Features {
  import opened Wrappers

  /** One merged row: the result, its race's circuit and season, and the
      driver's standing position after the race when the join found one. */
  datatype Row = Row(driverId: int, raceId: int, constructorId: int, circuitId: int,
                     year: int, round: int, grid: int, position: int, standing: Option<int>)

  // ----- Race calendar -----

  /** `date_diff`: days since the previous race of the calendar, across
      seasons; the first race has none. Dates are day numbers. */
  function DateDiff(days: seq<int>, i: nat): (d: Option<int>)
    requires i < |days|
    ensures d.None? <==> i == 0
    ensures d.Some? ==> days[i - 1] + d.value == days[i]
  {
    if i == 0 then None else Some(days[i] - days[i - 1])
  }

  /** `is_round_1`. */
  function IsRound1(round: int): (b: nat)
    ensures b <= 1
    ensures b == 1 <==> round == 1
  {
    if round == 1 then 1 else 0
  }

  /** The sum of the day gaps of the first n races. */
  function GapSum(days: seq<int>, n: nat): int
    requires n <= |days|
  {
    if n <= 1 then 0 else GapSum(days, n - 1) + DateDiff(days, n - 1).value
  }

  /** The day gaps add up to the span from the first race to the last. */
  lemma {:induction false} GapsTelescope(days: seq<int>, n: nat)
    requires 1 <= n <= |days|
    ensures GapSum(days, n) == days[n - 1] - days[0]
  {
    if n > 1 {
      GapsTelescope(days, n - 1);
    }
  }

  // ----- Movement -----

  /** `grid_end_diff`: places between grid slot and finishing position. */
  function GridEndDiff(r: Row): (d: nat)
    ensures d == r.position - r.grid || d == r.grid - r.position
    ensures d >= r.position - r.grid && d >= r.grid - r.position
  {
    if r.position >= r.grid then r.position - r.grid else r.grid - r.position
  }

  /** `grid_end_diff_overtakes`: the signed difference clipped below at 0. */
  function Overtakes(r: Row): (o: nat)
    ensures o == 0 || o == r.position - r.grid
    ensures o >= r.position - r.grid
  {
    if r.position - r.grid > 0 then r.position - r.grid else 0
  }

  /** `grid_end_diff_defense`: the signed difference clipped above at 0. */
  function Defense(r: Row): (d: int)
    ensures d <= 0
    ensures d == 0 || d == r.position - r.grid
    ensures d <= r.position - r.grid
  {
    if r.position - r.grid < 0 then r.position - r.grid else 0
  }

  /** The two clipped halves rebuild the signed difference, and their
      magnitudes rebuild the absolute one. */
  lemma {:induction false} MovementSplit(r: Row)
    ensures Overtakes(r) + Defense(r) == r.position - r.grid
    ensures Overtakes(r) - Defense(r) == GridEndDiff(r)
    ensures Overtakes(r) == 0 || Defense(r) == 0
  {
  }

  // ----- Circuit overtaking rate -----

  /** The rows among the first n at circuit c from a season before y. */
  predicate Prior(r: Row, c: int, y: int) {
    r.circuitId == c && r.year < y
  }

  function PriorCount(rows: seq<Row>, c: int, y: int, n: nat): (k: nat)
    requires n <= |rows|
    ensures k <= n
  {
    if n == 0 then 0 else PriorCount(rows, c, y, n - 1) + (if Prior(rows[n - 1], c, y) then 1 else 0)
  }

  function PriorSum(rows: seq<Row>, c: int, y: int, n: nat): (s: int)
    requires n <= |rows|
    ensures s >= 0
  {
    if n == 0 then 0 else PriorSum(rows, c, y, n - 1) + (if Prior(rows[n - 1], c, y) then GridEndDiff(rows[n - 1]) else 0)
  }

  /** The mean `grid_end_diff` at circuit c over the seasons before y, when
      there is any such row. */
  function PriorMean(rows: seq<Row>, c: int, y: int): (m: Option<real>)
    ensures m.None? <==> PriorCount(rows, c, y, |rows|) == 0
    ensures m.Some? ==> m.value >= 0.0
    ensures m.Some? ==> m.value * PriorCount(rows, c, y, |rows|) as real == PriorSum(rows, c, y, |rows|) as real
  {
    var k := PriorCount(rows, c, y, |rows|);
    if k == 0 then None else Some(PriorSum(rows, c, y, |rows|) as real / k as real)
  }

  /** `overtakes_per_track` of row i. */
  function OvertakesPerTrack(rows: seq<Row>, i: nat): Option<real>
    requires i < |rows|
  {
    PriorMean(rows, rows[i].circuitId, rows[i].year)
  }

  lemma {:induction false} PriorPrefix(rows: seq<Row>, ext: seq<Row>, c: int, y: int, n: nat)
    requires n <= |rows|
    ensures PriorCount(rows + ext, c, y, n) == PriorCount(rows, c, y, n)
    ensures PriorSum(rows + ext, c, y, n) == PriorSum(rows, c, y, n)
  {
    if n > 0 {
      PriorPrefix(rows, ext, c, y, n - 1);
      assert (rows + ext)[n - 1] == rows[n - 1];
    }
  }

  /** Counts and sums over a concatenation add up. */
  lemma {:induction false} PriorConcat(a: seq<Row>, b: seq<Row>, c: int, y: int, n: nat)
    requires n <= |b|
    ensures PriorCount(a + b, c, y, |a| + n) == PriorCount(a, c, y, |a|) + PriorCount(b, c, y, n)
    ensures PriorSum(a + b, c, y, |a| + n) == PriorSum(a, c, y, |a|) + PriorSum(b, c, y, n)
  {
    if n == 0 {
      PriorPrefix(a, b, c, y, |a|);
    } else {
      PriorConcat(a, b, c, y, n - 1);
      assert (a + b)[|a| + n - 1] == b[n - 1];
    }
  }

  /** Rows of season y or later count nothing towards the season-y rate. */
  lemma {:induction false} LaterSeasonsCountNothing(ext: seq<Row>, c: int, y: int, n: nat)
    requires n <= |ext|
    requires forall j :: 0 <= j < |ext| ==> ext[j].year >= y
    ensures PriorCount(ext, c, y, n) == 0 && PriorSum(ext, c, y, n) == 0
  {
    if n > 0 {
      LaterSeasonsCountNothing(ext, c, y, n - 1);
    }
  }

  /** No look-ahead: rows from season y or later, wherever they are inserted,
      leave the season-y rate unchanged. */
  lemma {:induction false} RateIgnoresLaterSeasons(a: seq<Row>, ext: seq<Row>, b: seq<Row>, c: int, y: int)
    requires forall j :: 0 <= j < |ext| ==> ext[j].year >= y
    ensures PriorMean(a + ext + b, c, y) == PriorMean(a + b, c, y)
  {
    LaterSeasonsCountNothing(ext, c, y, |ext|);
    PriorConcat(a, ext, c, y, |ext|);
    PriorConcat(a + ext, b, c, y, |b|);
    PriorConcat(a, b, c, y, |b|);
  }

  /** A season with no earlier season at its circuit has no rate; in
      particular the earliest season of the table has none. */
  lemma {:induction false} NoRateWithoutHistory(rows: seq<Row>, c: int, y: int, n: nat)
    requires n <= |rows|
    requires forall j :: 0 <= j < |rows| ==> !Prior(rows[j], c, y)
    ensures PriorCount(rows, c, y, n) == 0
  {
    if n > 0 {
      NoRateWithoutHistory(rows, c, y, n - 1);
    }
  }

  lemma {:induction false} EarliestSeasonHasNoRate(rows: seq<Row>, i: nat)
    requires i < |rows|
    requires forall j :: 0 <= j < |rows| ==> rows[i].year <= rows[j].year
    ensures OvertakesPerTrack(rows, i).None?
  {
    NoRateWithoutHistory(rows, rows[i].circuitId, rows[i].year, |rows|);
  }

  /** Two earlier visits with 2 and 5 places of movement give 3.5 the next season. */
  lemma RateExample()
    ensures var rows := [Row(1, 10, 1, 7, 2020, 3, 4, 2, None), Row(2, 10, 1, 7, 2020, 3, 1, 6, None),
                         Row(1, 20, 1, 7, 2021, 3, 1, 1, None)];
            OvertakesPerTrack(rows, 2) == Some(3.5) && OvertakesPerTrack(rows, 0).None?
  {
    var rows := [Row(1, 10, 1, 7, 2020, 3, 4, 2, None), Row(2, 10, 1, 7, 2020, 3, 1, 6, None),
                 Row(1, 20, 1, 7, 2021, 3, 1, 1, None)];
    assert PriorCount(rows, 7, 2021, 3) == 2;
    assert PriorSum(rows, 7, 2021, 3) == 7;
    assert PriorCount(rows, 7, 2020, 3) == 0;
  }

  // ----- Next-race shift and labels -----

  /** The index of the driver's next row after i, or None after their last
      row: `groupby('driverId').shift(-1)`. */
  function NextOfDriver(rows: seq<Row>, i: nat): (n: Option<nat>)
    requires i < |rows|
    ensures n.Some? ==> i < n.value < |rows| && rows[n.value].driverId == rows[i].driverId
    ensures n.Some? ==> forall k :: i < k < n.value ==> rows[k].driverId != rows[i].driverId
    ensures n.None? <==> forall k :: i < k < |rows| ==> rows[k].driverId != rows[i].driverId
  {
    NextFrom(rows, rows[i].driverId, i + 1)
  }

  function NextFrom(rows: seq<Row>, d: int, start: nat): (n: Option<nat>)
    requires start <= |rows|
    ensures n.Some? ==> start <= n.value < |rows| && rows[n.value].driverId == d
    ensures n.Some? ==> forall k :: start <= k < n.value ==> rows[k].driverId != d
    ensures n.None? <==> forall k :: start <= k < |rows| ==> rows[k].driverId != d
    decreases |rows| - start
  {
    if start == |rows| then None
    else if rows[start].driverId == d then Some(start)
    else NextFrom(rows, d, start + 1)
  }

  /** Rows sorted by driver keep each driver's rows together. */
  predicate SortedByDriver(rows: seq<Row>) {
    forall a, b :: 0 <= a < b < |rows| ==> rows[a].driverId <= rows[b].driverId
  }

  /** In rows sorted by driver the next row of the driver is the adjacent one. */
  lemma {:induction false} NextIsAdjacent(rows: seq<Row>, i: nat)
    requires i < |rows| && SortedByDriver(rows)
    ensures NextOfDriver(rows, i) ==
            if i + 1 < |rows| && rows[i + 1].driverId == rows[i].driverId then Some(i + 1) else None
  {
    if i + 1 < |rows| && rows[i + 1].driverId != rows[i].driverId {
      assert forall k :: i < k < |rows| ==> rows[k].driverId != rows[i].driverId by {
        forall k | i < k < |rows| ensures rows[k].driverId != rows[i].driverId {
          assert rows[i + 1].driverId <= rows[k].driverId;
        }
      }
    }
  }

  /** The `_t1` columns of one row and what is derived from them. */
  datatype NextRace = NextRace(
    gridT1: Option<int>,
    positionT1Num: Option<int>,
    overtakesPerTrackT1: Option<real>,
    diffGridStanding: Option<int>,
    top1: nat, top2: nat, top3: nat)

  /** `results_position_t1_top<k>`: 1 when the next finishing position is
      at most k, else 0, also when there is no next race (`np.select`'s
      default). */
  function TopLabel(p: Option<int>, k: int): (b: nat)
    ensures b <= 1
    ensures b == 1 <==> p.Some? && p.value <= k
  {
    if p.Some? && p.value <= k then 1 else 0
  }

  /** A finish in the top k is a finish in every wider top. */
  lemma {:induction false} TopLabelMonotone(p: Option<int>, k: int, k2: int)
    requires k <= k2
    ensures TopLabel(p, k) <= TopLabel(p, k2)
  {
  }

  /** `grid_t1 - driverstandings_position`, missing when either is. */
  function DiffGridStanding(gridT1: Option<int>, standing: Option<int>): (d: Option<int>)
    ensures d.Some? <==> gridT1.Some? && standing.Some?
    ensures d.Some? ==> d.value + standing.value == gridT1.value
  {
    if gridT1.Some? && standing.Some? then Some(gridT1.value - standing.value) else None
  }

  /** The next-race columns of row i; `results_position_t1` itself ends up
      holding the top-3 label. */
  function Shifted(rows: seq<Row>, i: nat): (r: NextRace)
    requires i < |rows|
    ensures var n := NextOfDriver(rows, i);
            (n.None? ==> r.gridT1.None? && r.positionT1Num.None? && r.overtakesPerTrackT1.None?) &&
            (n.Some? ==> r.gridT1 == Some(rows[n.value].grid) && r.positionT1Num == Some(rows[n.value].position) &&
                         r.overtakesPerTrackT1 == OvertakesPerTrack(rows, n.value))
    ensures r.diffGridStanding == DiffGridStanding(r.gridT1, rows[i].standing)
    ensures r.top1 == TopLabel(r.positionT1Num, 1) && r.top2 == TopLabel(r.positionT1Num, 2) &&
            r.top3 == TopLabel(r.positionT1Num, 3)
  {
    var n := NextOfDriver(rows, i);
    var gridT1 := if n.Some? then Some(rows[n.value].grid) else None;
    var posT1 := if n.Some? then Some(rows[n.value].position) else None;
    var rateT1 := if n.Some? then OvertakesPerTrack(rows, n.value) else None;
    NextRace(gridT1, posT1, rateT1, DiffGridStanding(gridT1, rows[i].standing),
             TopLabel(posT1, 1), TopLabel(posT1, 2), TopLabel(posT1, 3))
  }

  /** A driver's last row has no next race, so all its labels are 0. */
  lemma {:induction false} LastRowLabels(rows: seq<Row>, i: nat)
    requires i < |rows|
    requires forall k :: i < k < |rows| ==> rows[k].driverId != rows[i].driverId
    ensures var r := Shifted(rows, i);
            r.gridT1.None? && r.diffGridStanding.None? && r.top1 == 0 && r.top2 == 0 && r.top3 == 0
  {
  }

  /** A win next time sets all three labels; a fourth place sets none. */
  lemma {:induction false} LabelsOfNextFinish(rows: seq<Row>, i: nat)
    requires i < |rows| && NextOfDriver(rows, i).Some?
    ensures var r := Shifted(rows, i);
            var p := rows[NextOfDriver(rows, i).value].position;
            (p == 1 ==> r.top1 == 1 && r.top2 == 1 && r.top3 == 1) &&
            (p >= 4 ==> r.top1 == 0 && r.top2 == 0 && r.top3 == 0)
  {
  }

  // ----- Teammate values -----

  /** The rows share a constructor and a race. */
  predicate Teammates(a: Row, b: Row) {
    a.constructorId == b.constructorId && a.raceId == b.raceId
  }

  /** The sum over the first n rows of i's (constructorId, raceId) group of the
      present values (`transform('sum')` skips NaN). */
  function GroupSum(rows: seq<Row>, vals: seq<Option<real>>, i: nat, n: nat): real
    requires |vals| == |rows| && i < |rows| && n <= |rows|
  {
    if n == 0 then 0.0
    else GroupSum(rows, vals, i, n - 1) +
         (if Teammates(rows[n - 1], rows[i]) && vals[n - 1].Some? then vals[n - 1].value else 0.0)
  }

  /** The group sum minus the row's own value; missing when its own value is. */
  function TeammateValue(rows: seq<Row>, vals: seq<Option<real>>, i: nat): (t: Option<real>)
    requires |vals| == |rows| && i < |rows|
    ensures t.Some? <==> vals[i].Some?
    ensures t.Some? ==> t.value + vals[i].value == GroupSum(rows, vals, i, |rows|)
  {
    if vals[i].None? then None else Some(GroupSum(rows, vals, i, |rows|) - vals[i].value)
  }

  lemma {:induction false} PairSum(rows: seq<Row>, vals: seq<Option<real>>, i: nat, k: nat, n: nat)
    requires |vals| == |rows| && i < |rows| && k < |rows| && i != k && n <= |rows|
    requires vals[i].Some? && vals[k].Some? && Teammates(rows[k], rows[i])
    requires forall j :: 0 <= j < |rows| && Teammates(rows[j], rows[i]) ==> j == i || j == k
    ensures GroupSum(rows, vals, i, n) == (if i < n then vals[i].value else 0.0) + (if k < n then vals[k].value else 0.0)
  {
    if n > 0 {
      PairSum(rows, vals, i, k, n - 1);
    }
  }

  /** In a two-car team each driver's teammate value is the other's value. */
  lemma {:induction false} TwoCarTeam(rows: seq<Row>, vals: seq<Option<real>>, i: nat, k: nat)
    requires |vals| == |rows| && i < |rows| && k < |rows| && i != k
    requires vals[i].Some? && vals[k].Some? && Teammates(rows[k], rows[i])
    requires forall j :: 0 <= j < |rows| && Teammates(rows[j], rows[i]) ==> j == i || j == k
    ensures TeammateValue(rows, vals, i) == vals[k]
  {
    PairSum(rows, vals, i, k, |rows|);
  }

  lemma {:induction false} SoloSum(rows: seq<Row>, vals: seq<Option<real>>, i: nat, n: nat)
    requires |vals| == |rows| && i < |rows| && n <= |rows| && vals[i].Some?
    requires forall j :: 0 <= j < |rows| && Teammates(rows[j], rows[i]) ==> j == i
    ensures GroupSum(rows, vals, i, n) == if i < n then vals[i].value else 0.0
  {
    if n > 0 {
      SoloSum(rows, vals, i, n - 1);
    }
  }

  /** A driver without a teammate in the race gets 0. */
  lemma {:induction false} NoTeammate(rows: seq<Row>, vals: seq<Option<real>>, i: nat)
    requires |vals| == |rows| && i < |rows| && vals[i].Some?
    requires forall j :: 0 <= j < |rows| && Teammates(rows[j], rows[i]) ==> j == i
    ensures TeammateValue(rows, vals, i) == Some(0.0)
  {
    SoloSum(rows, vals, i, |rows|);
  }

  // ----- Expanding means -----

  /** The per-row quantity an expanding mean is taken of. */
  datatype Measure = Overtaking | Defending

  function Measured(m: Measure, r: Row): int {
    match m
    case Overtaking => Overtakes(r)
    case Defending => Defense(r)
  }

  /** The sum and count of the driver's values over rows 0..n-1 up to i. */
  function DriverSum(rows: seq<Row>, m: Measure, i: nat, n: nat): int
    requires i < |rows| && n <= |rows|
  {
    if n == 0 then 0
    else DriverSum(rows, m, i, n - 1) +
         (if n - 1 <= i && rows[n - 1].driverId == rows[i].driverId then Measured(m, rows[n - 1]) else 0)
  }

  function DriverCount(rows: seq<Row>, i: nat, n: nat): (k: nat)
    requires i < |rows| && n <= |rows|
    ensures k <= n
    ensures n > i ==> k >= 1
  {
    if n == 0 then 0
    else DriverCount(rows, i, n - 1) + (if n - 1 <= i && rows[n - 1].driverId == rows[i].driverId then 1 else 0)
  }

  /** `groupby('driverId').expanding().mean()` at row i: the mean of the
      driver's values up to and including row i. */
  function ExpandingMean(rows: seq<Row>, m: Measure, i: nat): (mean: real)
    requires i < |rows|
    ensures mean * DriverCount(rows, i, |rows|) as real == DriverSum(rows, m, i, |rows|) as real
  {
    DriverSum(rows, m, i, |rows|) as real / DriverCount(rows, i, |rows|) as real
  }

  /** `drivers_takeover_chance`. */
  function TakeoverChance(rows: seq<Row>, i: nat): real
    requires i < |rows|
  {
    ExpandingMean(rows, Overtaking, i)
  }

  /** `drivers_defense`. */
  function DefenseMean(rows: seq<Row>, i: nat): real
    requires i < |rows|
  {
    ExpandingMean(rows, Defending, i)
  }

  lemma {:induction false} DriverSumSigns(rows: seq<Row>, m: Measure, i: nat, n: nat)
    requires i < |rows| && n <= |rows|
    ensures (forall j :: 0 <= j < |rows| ==> Measured(m, rows[j]) >= 0) ==> DriverSum(rows, m, i, n) >= 0
    ensures (forall j :: 0 <= j < |rows| ==> Measured(m, rows[j]) <= 0) ==> DriverSum(rows, m, i, n) <= 0
  {
    if n > 0 {
      DriverSumSigns(rows, m, i, n - 1);
    }
  }

  /** The takeover mean is never negative and the defense mean never positive. */
  lemma {:induction false} MeanSigns(rows: seq<Row>, i: nat)
    requires i < |rows|
    ensures TakeoverChance(rows, i) >= 0.0
    ensures DefenseMean(rows, i) <= 0.0
  {
    DriverSumSigns(rows, Overtaking, i, |rows|);
    DriverSumSigns(rows, Defending, i, |rows|);
    var k := DriverCount(rows, i, |rows|) as real;
    assert k >= 1.0;
    var sUp := DriverSum(rows, Overtaking, i, |rows|) as real;
    var sDown := DriverSum(rows, Defending, i, |rows|) as real;
    assert TakeoverChance(rows, i) == sUp / k;
    assert DefenseMean(rows, i) == sDown / k;
  }

  lemma {:induction false} DriverPrefix(rows: seq<Row>, ext: seq<Row>, m: Measure, i: nat, n: nat)
    requires i < |rows| && n <= |rows|
    ensures DriverSum(rows + ext, m, i, n) == DriverSum(rows, m, i, n)
    ensures DriverCount(rows + ext, i, n) == DriverCount(rows, i, n)
  {
    if n > 0 {
      DriverPrefix(rows, ext, m, i, n - 1);
      assert (rows + ext)[n - 1] == rows[n - 1] && (rows + ext)[i] == rows[i];
    }
  }

  lemma {:induction false} DriverAfter(rows: seq<Row>, m: Measure, i: nat, n: nat)
    requires i < n <= |rows|
    ensures DriverSum(rows, m, i, n) == DriverSum(rows, m, i, i + 1)
    ensures DriverCount(rows, i, n) == DriverCount(rows, i, i + 1)
  {
    if n > i + 1 {
      DriverAfter(rows, m, i, n - 1);
    }
  }

  /** Rows placed after row i in the (driverId, raceId) order do not change row i's expanding mean. */
  lemma {:induction false} MeanIgnoresLaterRows(rows: seq<Row>, ext: seq<Row>, m: Measure, i: nat)
    requires i < |rows|
    ensures ExpandingMean(rows + ext, m, i) == ExpandingMean(rows, m, i)
  {
    DriverAfter(rows + ext, m, i, |rows| + |ext|);
    DriverAfter(rows, m, i, |rows|);
    DriverPrefix(rows, ext, m, i, i + 1);
  }

  lemma {:induction false} NoEarlierRowOfDriver(rows: seq<Row>, m: Measure, i: nat, n: nat)
    requires i < |rows| && n <= i
    requires forall j :: 0 <= j < i ==> rows[j].driverId != rows[i].driverId
    ensures DriverSum(rows, m, i, n) == 0 && DriverCount(rows, i, n) == 0
  {
    if n > 0 {
      NoEarlierRowOfDriver(rows, m, i, n - 1);
    }
  }

  /** A driver's first row has its own value as its mean. */
  lemma {:induction false} FirstRowMean(rows: seq<Row>, m: Measure, i: nat)
    requires i < |rows|
    requires forall j :: 0 <= j < i ==> rows[j].driverId != rows[i].driverId
    ensures ExpandingMean(rows, m, i) == Measured(m, rows[i]) as real
  {
    NoEarlierRowOfDriver(rows, m, i, i);
    DriverAfter(rows, m, i, |rows|);
  }

  /** The per-row values a teammate sum is taken of. */
  function StandingValues(rows: seq<Row>): (v: seq<Option<real>>)
    ensures |v| == |rows|
    ensures forall j :: 0 <= j < |rows| ==> (v[j].Some? <==> rows[j].standing.Some?)
    ensures forall j :: 0 <= j < |rows| && v[j].Some? ==> v[j].value == rows[j].standing.value as real
  {
    seq(|rows|, j requires 0 <= j < |rows| =>
      if rows[j].standing.Some? then Some(rows[j].standing.value as real) else None)
  }

  function MeanValues(rows: seq<Row>, m: Measure): (v: seq<Option<real>>)
    ensures |v| == |rows|
    ensures forall j :: 0 <= j < |rows| ==> v[j] == Some(ExpandingMean(rows, m, j))
  {
    seq(|rows|, j requires 0 <= j < |rows| => Some(ExpandingMean(rows, m, j)))
  }

  /** `teammates_driverstanding`: missing exactly when the row's own
      standing is, and otherwise the standings of the (constructorId, raceId)
      group without the row's own. */
  function TeammatesStanding(rows: seq<Row>, i: nat): (t: Option<real>)
    requires i < |rows|
    ensures t.Some? <==> rows[i].standing.Some?
    ensures t.Some? ==> t.value + rows[i].standing.value as real == GroupSum(rows, StandingValues(rows), i, |rows|)
  {
    TeammateValue(rows, StandingValues(rows), i)
  }

  /** In a two-car team where both standings are known, the teammate
      standing is the other driver's standing. */
  lemma {:induction false} TwoCarStanding(rows: seq<Row>, i: nat, k: nat)
    requires i < |rows| && k < |rows| && i != k
    requires rows[i].standing.Some? && rows[k].standing.Some? && Teammates(rows[k], rows[i])
    requires forall j :: 0 <= j < |rows| && Teammates(rows[j], rows[i]) ==> j == i || j == k
    ensures TeammatesStanding(rows, i) == Some(rows[k].standing.value as real)
  {
    TwoCarTeam(rows, StandingValues(rows), i, k);
  }

  /** `teammates_takeover_chance` and `teammates_defense`: always present,
      since the means they are built from are. */
  function TeammatesMean(rows: seq<Row>, m: Measure, i: nat): (t: real)
    requires i < |rows|
    ensures t + ExpandingMean(rows, m, i) == GroupSum(rows, MeanValues(rows, m), i, |rows|)
  {
    TeammateValue(rows, MeanValues(rows, m), i).value
  }
}
