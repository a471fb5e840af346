/** Driver and constructor standings (`update_standings`).

    Race and Sprint results are tagged, concatenated (Race rows first) and
    joined with the races table for their season and round. Sorting the
    stream by (year, round) is stable, so an event precedes another of the
    same (year, round) exactly when it comes earlier in the concatenated
    stream; running totals are taken in that order. Points run per (driver,
    year) over both event types, wins per (driver, year, type). Only Race
    rows are output, ranked within their race by the dense method on points,
    highest first; constructor rows are the per-(race, constructor) sums of
    the driver rows, ranked the same way. */
module Standings {
  import opened Wrappers
  import opened Seqs
  import opened Ranks

  datatype EventType = Race | Sprint

  /** One result row: `raceId`, `driverId`, `constructorId`, `positionOrder`, `points`. */
  datatype Entry = Entry(raceId: int, driverId: int, constructorId: int, positionOrder: int, points: int)

  datatype RaceInfo = RaceInfo(raceId: int, year: int, round: int)

  datatype Slot = Slot(year: int, round: int)

  /** A tagged result row after the join; `slot` is None when its race is unknown. */
  datatype Event = Event(kind: EventType, entry: Entry, win: nat, slot: Option<Slot>)

  /** A running total before ranking: `holder` is a driver or a constructor. */
  datatype Total = Total(raceId: int, holder: int, points: int, wins: nat)

  datatype Standing = Standing(raceId: int, holder: int, points: int, wins: nat, position: nat)

  /** A Race row whose race is missing from the races table gets a NaN
      running total, and casting its rank to an integer raises. */
  datatype StandingsError = UnknownRace

  /** The `win` column. */
  function Win(e: Entry): (w: nat)
    ensures w <= 1
    ensures w == 1 <==> e.positionOrder == 1
  {
    if e.positionOrder == 1 then 1 else 0
  }

  /** The season and round of a race, from the first races row carrying its id. */
  function LookupSlot(races: seq<RaceInfo>, raceId: int): (s: Option<Slot>)
    ensures s.None? <==> forall j :: 0 <= j < |races| ==> races[j].raceId != raceId
    ensures s.Some? ==> exists j :: 0 <= j < |races| && races[j].raceId == raceId &&
                                    s.value == Slot(races[j].year, races[j].round)
  {
    if |races| == 0 then None
    else if races[0].raceId == raceId then Some(Slot(races[0].year, races[0].round))
    else
      var s := LookupSlot(races[1..], raceId);
      assert forall j :: 1 <= j < |races| ==> races[j] == races[1..][j - 1];
      assert s.Some? ==> exists j :: 1 <= j < |races| && races[j].raceId == raceId &&
                                     s.value == Slot(races[j].year, races[j].round) by {
        if s.Some? {
          var j :| 0 <= j < |races[1..]| && races[1..][j].raceId == raceId &&
                   s.value == Slot(races[1..][j].year, races[1..][j].round);
          assert races[j + 1] == races[1..][j];
        }
      }
      s
  }

  function Tagged(kind: EventType, rows: seq<Entry>, races: seq<RaceInfo>): (r: seq<Event>)
    ensures |r| == |rows|
  {
    seq(|rows|, i requires 0 <= i < |rows| =>
      Event(kind, rows[i], Win(rows[i]), LookupSlot(races, rows[i].raceId)))
  }

  /** The concatenated, joined stream: Race rows, then Sprint rows. */
  function Combined(results: seq<Entry>, sprints: seq<Entry>, races: seq<RaceInfo>): (r: seq<Event>)
    ensures |r| == |results| + |sprints|
  {
    Tagged(Race, results, races) + Tagged(Sprint, sprints, races)
  }

  /** Event j counts toward the running points of event i: same driver, both
      races known, same year, and j is not after i in the stable
      (year, round) order. */
  predicate Counts(evs: seq<Event>, j: nat, i: nat)
    requires j < |evs| && i < |evs|
  {
    evs[j].entry.driverId == evs[i].entry.driverId &&
    evs[j].slot.Some? && evs[i].slot.Some? &&
    evs[j].slot.value.year == evs[i].slot.value.year &&
    (evs[j].slot.value.round < evs[i].slot.value.round ||
     (evs[j].slot.value.round == evs[i].slot.value.round && j <= i))
  }

  /** The points of the events among the first n that count toward event i. */
  function PointsOver(evs: seq<Event>, i: nat, n: nat): int
    requires i < |evs| && n <= |evs|
  {
    if n == 0 then 0
    else PointsOver(evs, i, n - 1) + (if Counts(evs, n - 1, i) then evs[n - 1].entry.points else 0)
  }

  /** The wins of the events among the first n that count toward event i and
      are of its own type. */
  function WinsOver(evs: seq<Event>, i: nat, n: nat): nat
    requires i < |evs| && n <= |evs|
  {
    if n == 0 then 0
    else WinsOver(evs, i, n - 1) + (if Counts(evs, n - 1, i) && evs[n - 1].kind == evs[i].kind then evs[n - 1].win else 0)
  }

  /** `cumulative_points` of event i. */
  function CumulativePoints(evs: seq<Event>, i: nat): int
    requires i < |evs|
  {
    PointsOver(evs, i, |evs|)
  }

  /** `cumulative_wins` of event i. */
  function CumulativeWins(evs: seq<Event>, i: nat): nat
    requires i < |evs|
  {
    WinsOver(evs, i, |evs|)
  }

  /** The points of one race's rows. */
  function RacePoints(rows: seq<Total>, raceId: int): (r: seq<int>)
    ensures |r| <= |rows|
    ensures forall j :: 0 <= j < |rows| && rows[j].raceId == raceId ==> rows[j].points in r
    ensures forall v :: v in r ==> exists j :: 0 <= j < |rows| && rows[j].raceId == raceId && rows[j].points == v
  {
    if |rows| == 0 then []
    else
      var rest := RacePoints(rows[1..], raceId);
      assert forall j :: 1 <= j < |rows| ==> rows[j] == rows[1..][j - 1];
      (if rows[0].raceId == raceId then [rows[0].points] else []) + rest
  }

  /** Each row ranked within its race: one plus the number of distinct point
      values above its own. */
  function DenseRanked(rows: seq<Total>): (r: seq<Standing>)
    ensures |r| == |rows|
    ensures forall i :: 0 <= i < |r| ==>
              r[i].raceId == rows[i].raceId && r[i].holder == rows[i].holder &&
              r[i].points == rows[i].points && r[i].wins == rows[i].wins
    ensures forall i :: 0 <= i < |r| ==> r[i].position == 1 + |ValuesAbove(RacePoints(rows, rows[i].raceId), rows[i].points)|
  {
    seq(|rows|, i requires 0 <= i < |rows| =>
      Standing(rows[i].raceId, rows[i].holder, rows[i].points, rows[i].wins,
               DenseRankDesc(RacePoints(rows, rows[i].raceId), rows[i].points)))
  }

  /** Some Race row's race is missing from the races table. */
  predicate HasUnknownRace(results: seq<Entry>, races: seq<RaceInfo>) {
    exists i :: 0 <= i < |results| && LookupSlot(races, results[i].raceId).None?
  }

  /** The running totals of the Race rows, held by driver or by constructor. */
  function RaceTotals(results: seq<Entry>, sprints: seq<Entry>, races: seq<RaceInfo>, byConstructor: bool): (r: seq<Total>)
    ensures |r| == |results|
    ensures forall i :: 0 <= i < |r| ==>
              var evs := Combined(results, sprints, races);
              r[i].raceId == results[i].raceId &&
              r[i].holder == (if byConstructor then results[i].constructorId else results[i].driverId) &&
              r[i].points == CumulativePoints(evs, i) && r[i].wins == CumulativeWins(evs, i)
  {
    var evs := Combined(results, sprints, races);
    seq(|results|, i requires 0 <= i < |results| =>
      Total(results[i].raceId, if byConstructor then results[i].constructorId else results[i].driverId,
            CumulativePoints(evs, i), CumulativeWins(evs, i)))
  }

  /** The driver standings table: one row per Race row, in stream order. */
  function DriverStandings(results: seq<Entry>, sprints: seq<Entry>, races: seq<RaceInfo>): (r: Result<seq<Standing>, StandingsError>)
    ensures r.Failure? <==> HasUnknownRace(results, races)
    ensures r.Success? ==> |r.value| == |results|
    ensures r.Success? ==> forall i :: 0 <= i < |results| ==>
              var evs := Combined(results, sprints, races);
              r.value[i].raceId == results[i].raceId && r.value[i].holder == results[i].driverId &&
              r.value[i].points == CumulativePoints(evs, i) && r.value[i].wins == CumulativeWins(evs, i)
    // the position is the dense rank of the driver's points among the totals of that race
    ensures r.Success? ==> forall i :: 0 <= i < |r.value| ==>
              r.value[i].position == DenseRankDesc(RacePoints(RaceTotals(results, sprints, races, false), r.value[i].raceId), r.value[i].points)
  {
    if HasUnknownRace(results, races) then Failure(UnknownRace)
    else Success(DenseRanked(RaceTotals(results, sprints, races, false)))
  }

  function TotalKey(t: Total): (int, int) { (t.raceId, t.holder) }

  function StandingKey(s: Standing): (int, int) { (s.raceId, s.holder) }

  /** The constructor table's key of a results row. */
  function ConstructorKey(e: Entry): (int, int) { (e.raceId, e.constructorId) }

  /** The points of the rows with key k. */
  function SumPoints(rows: seq<Total>, k: (int, int)): int {
    if |rows| == 0 then 0
    else SumPoints(rows[..|rows| - 1], k) + (if TotalKey(rows[|rows| - 1]) == k then rows[|rows| - 1].points else 0)
  }

  /** The wins of the rows with key k. */
  function SumWins(rows: seq<Total>, k: (int, int)): nat {
    if |rows| == 0 then 0
    else SumWins(rows[..|rows| - 1], k) + (if TotalKey(rows[|rows| - 1]) == k then rows[|rows| - 1].wins else 0)
  }

  /** `groupby(['raceId', 'constructorId']).sum()`: one row per key, in order
      of first appearance, holding the sums of the key's rows. */
  function GroupSums(rows: seq<Total>): (r: seq<Total>)
    ensures forall i, j :: 0 <= i < j < |r| ==> TotalKey(r[i]) != TotalKey(r[j])
    ensures KeySet(r, TotalKey) == KeySet(rows, TotalKey)
    ensures forall i :: 0 <= i < |r| ==>
              r[i].points == SumPoints(rows, TotalKey(r[i])) && r[i].wins == SumWins(rows, TotalKey(r[i]))
  {
    var firsts := DropDuplicates(rows, TotalKey);
    var r := seq(|firsts|, i requires 0 <= i < |firsts| =>
      var k := TotalKey(firsts[i]);
      Total(k.0, k.1, SumPoints(rows, k), SumWins(rows, k)));
    assert forall i :: 0 <= i < |r| ==> TotalKey(r[i]) == TotalKey(firsts[i]);
    KeySetsAgree(firsts, TotalKey, r, TotalKey);
    r
  }

  /** The constructor standings table. */
  function ConstructorStandings(results: seq<Entry>, sprints: seq<Entry>, races: seq<RaceInfo>): (r: Result<seq<Standing>, StandingsError>)
    ensures r.Failure? <==> HasUnknownRace(results, races)
    // one row per (raceId, constructorId) of a Race row, and no other row, ...
    ensures r.Success? ==> forall i, j :: 0 <= i < j < |r.value| ==> StandingKey(r.value[i]) != StandingKey(r.value[j])
    ensures r.Success? ==> KeySet(r.value, StandingKey) == KeySet(results, ConstructorKey)
    // ... summing its drivers' totals
    ensures r.Success? ==> forall c :: 0 <= c < |r.value| ==>
              var ts := RaceTotals(results, sprints, races, true);
              r.value[c].points == SumPoints(ts, StandingKey(r.value[c])) &&
              r.value[c].wins == SumWins(ts, StandingKey(r.value[c]))
    // ... and placed by the dense rank of its sum among the constructor sums of that race
    ensures r.Success? ==> forall c :: 0 <= c < |r.value| ==>
              r.value[c].position == DenseRankDesc(RacePoints(GroupSums(RaceTotals(results, sprints, races, true)), r.value[c].raceId), r.value[c].points)
  {
    if HasUnknownRace(results, races) then Failure(UnknownRace)
    else
      var ts := RaceTotals(results, sprints, races, true);
      assert forall j :: 0 <= j < |ts| ==> TotalKey(ts[j]) == ConstructorKey(results[j]);
      KeySetsAgree(ts, TotalKey, results, ConstructorKey);
      Success(GroupedStandings(ts))
  }

  /** One standing per key of `rows`, in first-appearance order, carrying the
      key's summed points and wins, ranked within its race. */
  function GroupedStandings(rows: seq<Total>): (r: seq<Standing>)
    ensures forall i, j :: 0 <= i < j < |r| ==> StandingKey(r[i]) != StandingKey(r[j])
    ensures KeySet(r, StandingKey) == KeySet(rows, TotalKey)
    ensures forall c :: 0 <= c < |r| ==>
              r[c].points == SumPoints(rows, StandingKey(r[c])) && r[c].wins == SumWins(rows, StandingKey(r[c]))
    ensures forall c :: 0 <= c < |r| ==> r[c].position == DenseRankDesc(RacePoints(GroupSums(rows), r[c].raceId), r[c].points)
  {
    var sums := GroupSums(rows);
    var ranked := DenseRanked(sums);
    assert forall c :: 0 <= c < |ranked| ==> StandingKey(ranked[c]) == TotalKey(sums[c]);
    KeySetsAgree(sums, TotalKey, ranked, StandingKey);
    ranked
  }

  /** Event e is of the same driver and season as x and from an earlier round. */
  predicate EarlierInSeason(e: Event, x: Event) {
    e.entry.driverId == x.entry.driverId && e.slot.Some? && x.slot.Some? &&
    e.slot.value.year == x.slot.value.year && e.slot.value.round < x.slot.value.round
  }

  /** Running totals over a prefix do not look at what follows it. */
  lemma {:induction false} OverPrefix(evs: seq<Event>, ext: seq<Event>, i: nat, n: nat)
    requires i < |evs| && n <= |evs|
    ensures PointsOver(evs + ext, i, n) == PointsOver(evs, i, n)
    ensures WinsOver(evs + ext, i, n) == WinsOver(evs, i, n)
  {
    if n > 0 {
      OverPrefix(evs, ext, i, n - 1);
      assert (evs + ext)[n - 1] == evs[n - 1] && (evs + ext)[i] == evs[i];
    }
  }

  /** Appended events from the same or a later round leave every running total unchanged. */
  lemma {:induction false} LaterEventsIgnored(evs: seq<Event>, ext: seq<Event>, i: nat)
    requires i < |evs|
    requires forall j :: 0 <= j < |ext| ==> !EarlierInSeason(ext[j], evs[i])
    ensures CumulativePoints(evs + ext, i) == CumulativePoints(evs, i)
    ensures CumulativeWins(evs + ext, i) == CumulativeWins(evs, i)
  {
    var all := evs + ext;
    forall n | |evs| <= n <= |all|
      ensures PointsOver(all, i, n) == CumulativePoints(evs, i)
      ensures WinsOver(all, i, n) == CumulativeWins(evs, i)
    {
      LaterEventsIgnoredUpTo(evs, ext, i, n);
    }
  }

  lemma {:induction false} LaterEventsIgnoredUpTo(evs: seq<Event>, ext: seq<Event>, i: nat, n: nat)
    requires i < |evs| && |evs| <= n <= |evs| + |ext|
    requires forall j :: 0 <= j < |ext| ==> !EarlierInSeason(ext[j], evs[i])
    ensures PointsOver(evs + ext, i, n) == CumulativePoints(evs, i)
    ensures WinsOver(evs + ext, i, n) == CumulativeWins(evs, i)
    decreases n
  {
    var all := evs + ext;
    if n == |evs| {
      OverPrefix(evs, ext, i, n);
    } else {
      LaterEventsIgnoredUpTo(evs, ext, i, n - 1);
      assert all[n - 1] == ext[n - 1 - |evs|] && all[i] == evs[i];
      assert !Counts(all, n - 1, i);
    }
  }

  /** An appended event from an earlier round of the season adds its points. */
  lemma {:induction false} EarlierEventCounted(evs: seq<Event>, e: Event, i: nat)
    requires i < |evs| && EarlierInSeason(e, evs[i])
    ensures CumulativePoints(evs + [e], i) == CumulativePoints(evs, i) + e.entry.points
  {
    OverPrefix(evs, [e], i, |evs|);
    assert (evs + [e])[|evs|] == e && (evs + [e])[i] == evs[i];
  }

  lemma {:induction false} CombinedSnoc(results: seq<Entry>, sprints: seq<Entry>, s: Entry, races: seq<RaceInfo>)
    ensures Combined(results, sprints + [s], races)
         == Combined(results, sprints, races) + [Event(Sprint, s, Win(s), LookupSlot(races, s.raceId))]
  {
    assert Tagged(Sprint, sprints + [s], races)
        == Tagged(Sprint, sprints, races) + [Event(Sprint, s, Win(s), LookupSlot(races, s.raceId))];
  }

  /** A sprint of the same round as a race is not in that race's running
      points (it sorts after the Race row), while a sprint of an earlier round
      of the season is. */
  lemma {:induction false} SprintTiming(results: seq<Entry>, sprints: seq<Entry>, s: Entry, races: seq<RaceInfo>, i: nat)
    requires i < |results| && s.driverId == results[i].driverId
    requires LookupSlot(races, results[i].raceId).Some? && LookupSlot(races, s.raceId).Some?
    ensures var before := Combined(results, sprints, races);
            var after := Combined(results, sprints + [s], races);
            var sr := LookupSlot(races, s.raceId).value;
            var rr := LookupSlot(races, results[i].raceId).value;
            (sr == rr ==> CumulativePoints(after, i) == CumulativePoints(before, i)) &&
            (sr.year == rr.year && sr.round < rr.round ==> CumulativePoints(after, i) == CumulativePoints(before, i) + s.points)
  {
    var before := Combined(results, sprints, races);
    var e := Event(Sprint, s, Win(s), LookupSlot(races, s.raceId));
    CombinedSnoc(results, sprints, s, races);
    assert before[i] == Tagged(Race, results, races)[i];
    if EarlierInSeason(e, before[i]) {
      EarlierEventCounted(before, e, i);
    } else {
      LaterEventsIgnored(before, [e], i);
    }
  }

  /** Sprint wins never enter a Race row's win count. */
  lemma {:induction false} SprintWinsIgnored(results: seq<Entry>, sprints: seq<Entry>, races: seq<RaceInfo>, i: nat)
    requires i < |results|
    ensures CumulativeWins(Combined(results, sprints, races), i) == CumulativeWins(Tagged(Race, results, races), i)
  {
    var rs := Tagged(Race, results, races);
    var all := rs + Tagged(Sprint, sprints, races);
    forall n | |rs| <= n <= |all| ensures WinsOver(all, i, n) == CumulativeWins(rs, i) {
      SprintWinsIgnoredUpTo(rs, Tagged(Sprint, sprints, races), i, n);
    }
  }

  lemma {:induction false} SprintWinsIgnoredUpTo(rs: seq<Event>, ss: seq<Event>, i: nat, n: nat)
    requires i < |rs| && rs[i].kind == Race && |rs| <= n <= |rs| + |ss|
    requires forall j :: 0 <= j < |ss| ==> ss[j].kind == Sprint
    ensures WinsOver(rs + ss, i, n) == CumulativeWins(rs, i)
    decreases n
  {
    if n == |rs| {
      OverPrefix(rs, ss, i, n);
    } else {
      SprintWinsIgnoredUpTo(rs, ss, i, n - 1);
      assert (rs + ss)[n - 1] == ss[n - 1 - |rs|] && (rs + ss)[i] == rs[i];
    }
  }

  /** Counting is transitive: what counts toward an earlier event of the same
      driver and season counts toward the later one. */
  lemma {:induction false} CountsTransitive(evs: seq<Event>, j: nat, i: nat, k: nat)
    requires j < |evs| && i < |evs| && k < |evs|
    requires Counts(evs, j, i) && Counts(evs, i, k)
    ensures Counts(evs, j, k)
  {
  }

  /** With non-negative points a driver's running points never fall within a season. */
  lemma {:induction false} PointsGrow(evs: seq<Event>, i: nat, k: nat, n: nat)
    requires i < |evs| && k < |evs| && n <= |evs| && Counts(evs, i, k)
    requires forall j :: 0 <= j < |evs| ==> evs[j].entry.points >= 0
    ensures PointsOver(evs, i, n) <= PointsOver(evs, k, n)
  {
    if n > 0 {
      PointsGrow(evs, i, k, n - 1);
      if Counts(evs, n - 1, i) {
        CountsTransitive(evs, n - 1, i, k);
      }
    }
  }

  /** Within one race a higher total means a better position, equal totals
      share a position, and the converse holds. */
  lemma {:induction false} StandingOrder(rows: seq<Total>, i: nat, k: nat)
    requires i < |rows| && k < |rows| && rows[i].raceId == rows[k].raceId
    ensures var r := DenseRanked(rows);
            (rows[i].points == rows[k].points ==> r[i].position == r[k].position) &&
            (rows[i].points > rows[k].points <==> r[i].position < r[k].position)
  {
    var xs := RacePoints(rows, rows[i].raceId);
    assert rows[i].points in xs && rows[k].points in xs;
    if rows[i].points > rows[k].points {
      DenseRankStrict(xs, rows[i].points, rows[k].points);
    } else if rows[i].points < rows[k].points {
      DenseRankStrict(xs, rows[k].points, rows[i].points);
    }
  }

  /** Four drivers on 30, 30, 20 and 10 points are placed 1, 1, 2, 3. */
  lemma StandingExample()
    ensures var r := DenseRanked([Total(5, 1, 30, 0), Total(5, 2, 30, 1), Total(5, 3, 20, 0), Total(5, 4, 10, 0)]);
            r[0].position == 1 && r[1].position == 1 && r[2].position == 2 && r[3].position == 3
  {
    var rows := [Total(5, 1, 30, 0), Total(5, 2, 30, 1), Total(5, 3, 20, 0), Total(5, 4, 10, 0)];
    assert rows[1..][1..][1..][1..] == [];
    assert RacePoints(rows, 5) == [30, 30, 20, 10];
    DenseRankExample();
  }

  function TotalPoints(rows: seq<Total>): int {
    if |rows| == 0 then 0 else TotalPoints(rows[..|rows| - 1]) + rows[|rows| - 1].points
  }

  /** The key sums over a list of keys. */
  function SumOverKeys(rows: seq<Total>, ks: seq<(int, int)>): int {
    if |ks| == 0 then 0 else SumPoints(rows, ks[0]) + SumOverKeys(rows, ks[1..])
  }

  lemma {:induction false} SumOverKeysSnoc(rows: seq<Total>, x: Total, ks: seq<(int, int)>)
    requires forall i, j :: 0 <= i < j < |ks| ==> ks[i] != ks[j]
    ensures SumOverKeys(rows + [x], ks) == SumOverKeys(rows, ks) + (if TotalKey(x) in ks then x.points else 0)
  {
    if |ks| > 0 {
      assert (rows + [x])[..|rows|] == rows;
      SumOverKeysSnoc(rows, x, ks[1..]);
      assert TotalKey(x) in ks <==> TotalKey(x) == ks[0] || TotalKey(x) in ks[1..];
      if TotalKey(x) == ks[0] {
        assert TotalKey(x) !in ks[1..];
      }
    }
  }

  /** Summing per key over distinct keys that cover every row gives the grand total. */
  lemma {:induction false} SumOverKeysTotal(rows: seq<Total>, ks: seq<(int, int)>)
    requires forall i, j :: 0 <= i < j < |ks| ==> ks[i] != ks[j]
    requires forall j :: 0 <= j < |rows| ==> TotalKey(rows[j]) in ks
    ensures SumOverKeys(rows, ks) == TotalPoints(rows)
  {
    if |rows| == 0 {
      SumOverKeysZero(ks);
    } else {
      var init := rows[..|rows| - 1];
      assert init + [rows[|rows| - 1]] == rows;
      SumOverKeysTotal(init, ks);
      SumOverKeysSnoc(init, rows[|rows| - 1], ks);
    }
  }

  lemma {:induction false} SumOverKeysZero(ks: seq<(int, int)>)
    ensures SumOverKeys([], ks) == 0
  {
    if |ks| > 0 {
      SumOverKeysZero(ks[1..]);
    }
  }

  lemma {:induction false} TotalPointsAsKeySums(r: seq<Total>, rows: seq<Total>)
    requires forall i :: 0 <= i < |r| ==> r[i].points == SumPoints(rows, TotalKey(r[i]))
    ensures TotalPoints(r) == SumOverKeys(rows, seq(|r|, i requires 0 <= i < |r| => TotalKey(r[i])))
  {
    var ks := seq(|r|, i requires 0 <= i < |r| => TotalKey(r[i]));
    if |r| > 0 {
      var tail := r[1..];
      TotalPointsAsKeySums(tail, rows);
      assert ks[1..] == seq(|tail|, i requires 0 <= i < |tail| => TotalKey(tail[i]));
      TotalPointsFront(r);
    }
  }

  lemma {:induction false} TotalPointsFront(r: seq<Total>)
    requires |r| > 0
    ensures TotalPoints(r) == r[0].points + TotalPoints(r[1..])
    decreases |r|
  {
    if |r| > 1 {
      var init := r[..|r| - 1];
      TotalPointsFront(init);
      assert init[1..] == r[1..][..|r[1..]| - 1];
    } else {
      assert r[..0] == [];
    }
  }

  /** The constructor sums add up to the driver totals they were built from. */
  lemma {:induction false} GroupSumsConserve(rows: seq<Total>)
    ensures TotalPoints(GroupSums(rows)) == TotalPoints(rows)
  {
    var r := GroupSums(rows);
    var ks := seq(|r|, i requires 0 <= i < |r| => TotalKey(r[i]));
    TotalPointsAsKeySums(r, rows);
    forall j | 0 <= j < |rows| ensures TotalKey(rows[j]) in ks {
      KeyAtPosition(rows, TotalKey, j);
      var c := KeyPosition(r, TotalKey, TotalKey(rows[j]));
      assert ks[c] == TotalKey(rows[j]);
    }
    SumOverKeysTotal(rows, ks);
  }

  /** In the driver table, within one race, more points means a better
      position and equal points the same position. */
  lemma {:induction false} DriverPositions(results: seq<Entry>, sprints: seq<Entry>, races: seq<RaceInfo>, i: nat, k: nat)
    requires DriverStandings(results, sprints, races).Success?
    requires i < |results| && k < |results| && results[i].raceId == results[k].raceId
    ensures var r := DriverStandings(results, sprints, races).value;
            (r[i].points == r[k].points ==> r[i].position == r[k].position) &&
            (r[i].points > r[k].points <==> r[i].position < r[k].position)
  {
    StandingOrder(RaceTotals(results, sprints, races, false), i, k);
  }

  /** The same order in the constructor table. */
  lemma {:induction false} ConstructorPositions(results: seq<Entry>, sprints: seq<Entry>, races: seq<RaceInfo>, i: nat, k: nat)
    ensures var c := ConstructorStandings(results, sprints, races);
            c.Success? && i < |c.value| && k < |c.value| && c.value[i].raceId == c.value[k].raceId ==>
              var r := c.value;
              (r[i].points == r[k].points ==> r[i].position == r[k].position) &&
              (r[i].points > r[k].points <==> r[i].position < r[k].position)
  {
    var c := ConstructorStandings(results, sprints, races);
    if c.Success? && i < |c.value| && k < |c.value| && c.value[i].raceId == c.value[k].raceId {
      var sums := GroupSums(RaceTotals(results, sprints, races, true));
      assert c.value == DenseRanked(sums);
      StandingOrder(sums, i, k);
    }
  }
}
