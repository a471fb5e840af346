/** The aggregation part of `update_laps`: laps without a lap time are
    dropped, then per (raceId, driverId) the fastest lap (the first row with
    the minimum milliseconds) and the laps driven (the largest lap number) are
    taken, and each fastest lap is ranked within its race by the "min"
    method. Groups come out in order of first appearance; rows whose raceId
    or driverId did not join are left out of every group, as groupby does. */
module LapAggregates {
  import opened Wrappers
  import opened Seqs
  import opened Ranks

  /** A lap row after the driver and race joins; a join miss or a NaN lap time is None. */
  datatype Lap = Lap(raceId: Option<int>, driverId: Option<int>, lap: int, ms: Option<int>)

  /** A lap that takes part in the aggregation: timed, with both keys present. */
  datatype TimedLap = TimedLap(raceId: int, driverId: int, lap: int, ms: int)

  datatype FastestLap = FastestLap(raceId: int, driverId: int, fastestLap: int, ms: int, rank: nat)

  datatype LapsDriven = LapsDriven(raceId: int, driverId: int, laps: int)

  predicate Usable(x: Lap) {
    x.ms.Some? && x.raceId.Some? && x.driverId.Some?
  }

  function ToTimed(x: Lap): TimedLap
    requires Usable(x)
  {
    TimedLap(x.raceId.value, x.driverId.value, x.lap, x.ms.value)
  }

  function Key(t: TimedLap): (int, int) { (t.raceId, t.driverId) }

  /** The laps that survive dropping untimed rows and rows with a missing key, in order. */
  function Timed(laps: seq<Lap>): (r: seq<TimedLap>)
    ensures forall t :: t in r <==> exists x :: x in laps && Usable(x) && ToTimed(x) == t
  {
    if |laps| == 0 then []
    else
      assert forall x :: x in laps <==> x == laps[0] || x in laps[1..];
      (if Usable(laps[0]) then [ToTimed(laps[0])] else []) + Timed(laps[1..])
  }

  /** Dropping untimed laps commutes with concatenation: the kept laps stay in order. */
  lemma {:induction false} TimedConcat(a: seq<Lap>, b: seq<Lap>)
    ensures Timed(a + b) == Timed(a) + Timed(b)
  {
    if |a| == 0 {
      assert a + b == b;
    } else {
      var head := if Usable(a[0]) then [ToTimed(a[0])] else [];
      assert (a + b)[0] == a[0];
      assert (a + b)[1..] == a[1..] + b;
      calc {
        Timed(a + b);
        head + Timed(a[1..] + b);
        { TimedConcat(a[1..], b); }
        head + (Timed(a[1..]) + Timed(b));
        (head + Timed(a[1..])) + Timed(b);
        Timed(a) + Timed(b);
      }
    }
  }

  /** A single lap is kept, as its timed form, exactly when it is usable. */
  lemma TimedSingle(x: Lap)
    ensures Timed([x]) == if Usable(x) then [ToTimed(x)] else []
  {
    assert [x][1..] == [];
  }

  /** A key that occurs has a row at some index. */
  lemma KeyOccurs(ts: seq<TimedLap>, k: (int, int))
    requires k in KeySet(ts, Key)
    ensures exists j :: 0 <= j < |ts| && Key(ts[j]) == k
  {
    var t :| t in ts && Key(t) == k;
    var j :| 0 <= j < |ts| && ts[j] == t;
  }

  /** The group keys, each once, in order of first appearance. */
  function GroupKeys(ts: seq<TimedLap>): (r: seq<(int, int)>)
    ensures forall i, j :: 0 <= i < j < |r| ==> r[i] != r[j]
    ensures forall k :: k in r <==> k in KeySet(ts, Key)
  {
    var firsts := DropDuplicates(ts, Key);
    var r := seq(|firsts|, i requires 0 <= i < |firsts| => Key(firsts[i]));
    assert forall k :: k in r ==> k in KeySet(firsts, Key) by {
      forall k | k in r ensures k in KeySet(firsts, Key) {
        var i :| 0 <= i < |r| && r[i] == k;
        assert firsts[i] in firsts;
      }
    }
    assert forall k :: k in KeySet(firsts, Key) ==> k in r by {
      forall k | k in KeySet(firsts, Key) ensures k in r {
        var f :| f in firsts && Key(f) == k;
        var i :| 0 <= i < |firsts| && firsts[i] == f;
        assert r[i] == k;
      }
    }
    r
  }

  /** The first row from `start` on with the least milliseconds in group `k`,
      or |ts| when the group has no row from `start` on (pandas `idxmin`). */
  function FastestFrom(ts: seq<TimedLap>, k: (int, int), start: nat): (b: nat)
    requires start <= |ts|
    ensures start <= b <= |ts|
    ensures b == |ts| <==> forall j :: start <= j < |ts| ==> Key(ts[j]) != k
    ensures b < |ts| ==> Key(ts[b]) == k
    ensures b < |ts| ==> forall j :: start <= j < |ts| && Key(ts[j]) == k ==> ts[b].ms <= ts[j].ms
    ensures b < |ts| ==> forall j :: start <= j < b && Key(ts[j]) == k ==> ts[j].ms > ts[b].ms
    decreases |ts| - start
  {
    if start == |ts| then |ts|
    else
      var rest := FastestFrom(ts, k, start + 1);
      if Key(ts[start]) != k then rest
      else if rest < |ts| && ts[rest].ms < ts[start].ms then rest
      else start
  }

  /** A row from `start` on with the largest lap number in group `k`, or |ts|
      when the group has no row from `start` on. */
  function LongestFrom(ts: seq<TimedLap>, k: (int, int), start: nat): (b: nat)
    requires start <= |ts|
    ensures start <= b <= |ts|
    ensures b == |ts| <==> forall j :: start <= j < |ts| ==> Key(ts[j]) != k
    ensures b < |ts| ==> Key(ts[b]) == k
    ensures b < |ts| ==> forall j :: start <= j < |ts| && Key(ts[j]) == k ==> ts[j].lap <= ts[b].lap
    decreases |ts| - start
  {
    if start == |ts| then |ts|
    else
      var rest := LongestFrom(ts, k, start + 1);
      if Key(ts[start]) != k then rest
      else if rest < |ts| && ts[rest].lap > ts[start].lap then rest
      else start
  }

  /** The fastest row of a group that occurs: `idxmin` over the group. */
  function FastestOf(ts: seq<TimedLap>, k: (int, int)): (b: nat)
    requires k in KeySet(ts, Key)
    ensures b < |ts| && Key(ts[b]) == k
    ensures forall j :: 0 <= j < |ts| && Key(ts[j]) == k ==> ts[b].ms <= ts[j].ms
    ensures forall j :: 0 <= j < b && Key(ts[j]) == k ==> ts[j].ms > ts[b].ms
  {
    KeyOccurs(ts, k);
    FastestFrom(ts, k, 0)
  }

  /** The row with the largest lap number of a group that occurs. */
  function LongestOf(ts: seq<TimedLap>, k: (int, int)): (b: nat)
    requires k in KeySet(ts, Key)
    ensures b < |ts| && Key(ts[b]) == k
    ensures forall j :: 0 <= j < |ts| && Key(ts[j]) == k ==> ts[j].lap <= ts[b].lap
  {
    KeyOccurs(ts, k);
    LongestFrom(ts, k, 0)
  }

  /** Every group key has its index in the key list. */
  lemma KeyIndex(ts: seq<TimedLap>, ks: seq<(int, int)>, j: nat) returns (i: nat)
    requires ks == GroupKeys(ts) && j < |ts|
    ensures i < |ks| && ks[i] == Key(ts[j])
  {
    assert Key(ts[j]) in ks;
    i :| 0 <= i < |ks| && ks[i] == Key(ts[j]);
  }

  /** A table with one row per group key, in key order, covers every row's group. */
  lemma {:induction false} KeysCovered<R>(ts: seq<TimedLap>, ks: seq<(int, int)>, r: seq<R>, key: R -> (int, int))
    requires ks == GroupKeys(ts) && |r| == |ks|
    requires forall i :: 0 <= i < |r| ==> key(r[i]) == ks[i]
    ensures forall j :: 0 <= j < |ts| ==> Key(ts[j]) in KeySet(r, key)
  {
    forall j | 0 <= j < |ts| ensures Key(ts[j]) in KeySet(r, key) {
      var i := KeyIndex(ts, ks, j);
      assert r[i] in r;
    }
  }

  /** One fastest row per group, in group-key order. */
  function FastestRows(ts: seq<TimedLap>): (r: seq<TimedLap>)
    ensures forall i, j :: 0 <= i < j < |r| ==> Key(r[i]) != Key(r[j])
    ensures forall j :: 0 <= j < |ts| ==> Key(ts[j]) in KeySet(r, Key)
    ensures forall i :: 0 <= i < |r| ==> r[i] in ts
    ensures forall i, j :: 0 <= i < |r| && 0 <= j < |ts| && Key(ts[j]) == Key(r[i]) ==> r[i].ms <= ts[j].ms
    // ties go to the group's first row with the least time
    ensures forall i :: 0 <= i < |r| ==> Key(r[i]) in KeySet(ts, Key) && r[i] == ts[FastestOf(ts, Key(r[i]))]
  {
    var ks := GroupKeys(ts);
    var r := seq(|ks|, i requires 0 <= i < |ks| => ts[FastestOf(ts, ks[i])]);
    forall i | 0 <= i < |r|
      ensures Key(r[i]) == ks[i] && r[i] in ts
      ensures Key(r[i]) in KeySet(ts, Key) && r[i] == ts[FastestOf(ts, Key(r[i]))]
      ensures forall j :: 0 <= j < |ts| && Key(ts[j]) == Key(r[i]) ==> r[i].ms <= ts[j].ms
    {
      var b := FastestOf(ts, ks[i]);
      assert r[i] == ts[b];
    }
    KeysCovered(ts, ks, r, Key);
    r
  }

  /** The lap times of one race's rows. */
  function RaceTimes(rows: seq<TimedLap>, raceId: int): (r: seq<int>)
    ensures |r| <= |rows|
    ensures forall j :: 0 <= j < |rows| && rows[j].raceId == raceId ==> rows[j].ms in r
    ensures forall v :: v in r ==> exists j :: 0 <= j < |rows| && rows[j].raceId == raceId && rows[j].ms == v
  {
    if |rows| == 0 then []
    else
      var rest := RaceTimes(rows[1..], raceId);
      assert forall j :: 1 <= j < |rows| ==> rows[j] == rows[1..][j - 1];
      (if rows[0].raceId == raceId then [rows[0].ms] else []) + rest
  }

  /** The min-method rank of each row within its race. */
  function RankWithinRace(rows: seq<TimedLap>): (r: seq<FastestLap>)
    ensures |r| == |rows|
    ensures forall i :: 0 <= i < |r| ==>
              r[i].raceId == rows[i].raceId && r[i].driverId == rows[i].driverId &&
              r[i].fastestLap == rows[i].lap && r[i].ms == rows[i].ms
    // one plus the number of strictly faster rows in the same race
    ensures forall i :: 0 <= i < |r| ==> r[i].rank == 1 + CountBelow(RaceTimes(rows, rows[i].raceId), rows[i].ms)
  {
    seq(|rows|, i requires 0 <= i < |rows| =>
      FastestLap(rows[i].raceId, rows[i].driverId, rows[i].lap, rows[i].ms,
                 MinRank(RaceTimes(rows, rows[i].raceId), rows[i].ms)))
  }

  /** `update_laps`' fastest-lap table over the timed laps. */
  function FastestLaps(laps: seq<Lap>): (r: seq<FastestLap>)
    // one row per (raceId, driverId)
    ensures forall i, j :: 0 <= i < j < |r| ==> (r[i].raceId, r[i].driverId) != (r[j].raceId, r[j].driverId)
    // each row reports a usable lap of the laps table, with a rank of at least 1
    ensures forall i :: 0 <= i < |r| ==>
              TimedLap(r[i].raceId, r[i].driverId, r[i].fastestLap, r[i].ms) in Timed(laps) && r[i].rank >= 1
    // row i is group i's first lap with the least time (`idxmin`), ...
    ensures |r| == |FastestRows(Timed(laps))|
    ensures forall i :: 0 <= i < |r| ==>
              TimedLap(r[i].raceId, r[i].driverId, r[i].fastestLap, r[i].ms) == FastestRows(Timed(laps))[i]
    // ... ranked "min" among the fastest laps of its race
    ensures forall i :: 0 <= i < |r| ==>
              r[i].rank == 1 + CountBelow(RaceTimes(FastestRows(Timed(laps)), r[i].raceId), r[i].ms)
  {
    var rows := FastestRows(Timed(laps));
    var r := RankWithinRace(rows);
    assert |r| == |rows|;
    forall i | 0 <= i < |r|
      ensures TimedLap(r[i].raceId, r[i].driverId, r[i].fastestLap, r[i].ms) == rows[i]
      ensures r[i].rank == 1 + CountBelow(RaceTimes(rows, r[i].raceId), r[i].ms)
    {
    }
    r
  }

  function DrivenKey(d: LapsDriven): (int, int) { (d.raceId, d.driverId) }
  function KeyLap(t: TimedLap): (int, int, int) { (t.raceId, t.driverId, t.lap) }

  /** Per group the largest timed lap number, in group-key order. */
  function LapsDrivenOf(ts: seq<TimedLap>): (r: seq<LapsDriven>)
    ensures forall i, j :: 0 <= i < j < |r| ==> DrivenKey(r[i]) != DrivenKey(r[j])
    ensures forall j :: 0 <= j < |ts| ==> Key(ts[j]) in KeySet(r, DrivenKey)
    // the count is a lap the group drove, and no lap of the group is higher
    ensures forall i :: 0 <= i < |r| ==> (r[i].raceId, r[i].driverId, r[i].laps) in KeySet(ts, KeyLap)
    ensures forall i, j :: 0 <= i < |r| && 0 <= j < |ts| && Key(ts[j]) == DrivenKey(r[i]) ==> ts[j].lap <= r[i].laps
  {
    var ks := GroupKeys(ts);
    var r := seq(|ks|, i requires 0 <= i < |ks| => LapsDriven(ks[i].0, ks[i].1, ts[LongestOf(ts, ks[i])].lap));
    forall i | 0 <= i < |r|
      ensures DrivenKey(r[i]) == ks[i]
      ensures (r[i].raceId, r[i].driverId, r[i].laps) in KeySet(ts, KeyLap)
      ensures forall j :: 0 <= j < |ts| && Key(ts[j]) == DrivenKey(r[i]) ==> ts[j].lap <= r[i].laps
    {
      var b := LongestOf(ts, ks[i]);
      assert KeyLap(ts[b]) == (r[i].raceId, r[i].driverId, r[i].laps);
      KeyAtPosition(ts, KeyLap, b);
    }
    KeysCovered(ts, ks, r, DrivenKey);
    r
  }

  /** `update_laps`' laps-driven table. */
  function LapsDrivenTable(laps: seq<Lap>): (r: seq<LapsDriven>)
    // one row per (raceId, driverId), covering every usable lap's group
    ensures forall i, j :: 0 <= i < j < |r| ==> DrivenKey(r[i]) != DrivenKey(r[j])
    ensures forall x :: x in laps && Usable(x) ==> (x.raceId.value, x.driverId.value) in KeySet(r, DrivenKey)
    // each count is the number of a usable lap of its group
    ensures forall i :: 0 <= i < |r| ==> (r[i].raceId, r[i].driverId, r[i].laps) in KeySet(Timed(laps), KeyLap)
  {
    var ts := Timed(laps);
    var r := LapsDrivenOf(ts);
    forall x | x in laps && Usable(x)
      ensures (x.raceId.value, x.driverId.value) in KeySet(r, DrivenKey)
    {
      assert ToTimed(x) in ts;
      var j :| 0 <= j < |ts| && ts[j] == ToTimed(x);
      assert Key(ts[j]) == (x.raceId.value, x.driverId.value);
    }
    r
  }

  /** No usable lap of a driver in a race is faster than that driver's
      fastest-lap row for the race. */
  lemma {:induction false} FastestLapIsMinimum(laps: seq<Lap>, i: nat, x: Lap)
    requires x in laps && Usable(x)
    ensures var f := FastestLaps(laps);
            i < |f| && (x.raceId.value, x.driverId.value) == (f[i].raceId, f[i].driverId) ==>
              f[i].ms <= x.ms.value
  {
    var f := FastestLaps(laps);
    if i < |f| && (x.raceId.value, x.driverId.value) == (f[i].raceId, f[i].driverId) {
      var ts := Timed(laps);
      var rows := FastestRows(ts);
      var t := ToTimed(x);
      assert t in ts;
      var j :| 0 <= j < |ts| && ts[j] == t;
      assert Key(ts[j]) == Key(rows[i]);
    }
  }

  /** Every usable lap's driver has a fastest-lap row in that race. */
  lemma {:induction false} FastestLapsCoverUsable(laps: seq<Lap>, x: Lap)
    requires x in laps && Usable(x)
    ensures exists i :: 0 <= i < |FastestLaps(laps)| &&
              (FastestLaps(laps)[i].raceId, FastestLaps(laps)[i].driverId) == (x.raceId.value, x.driverId.value)
  {
    var rows := FastestRows(Timed(laps));
    var i := FastestRowOf(laps, x);
    var r := RankWithinRace(rows);
    assert r == FastestLaps(laps);
    assert 0 <= i < |r| && (r[i].raceId, r[i].driverId) == (x.raceId.value, x.driverId.value);
  }

  lemma {:induction false} FastestRowOf(laps: seq<Lap>, x: Lap) returns (i: nat)
    requires x in laps && Usable(x)
    ensures i < |FastestRows(Timed(laps))| && Key(FastestRows(Timed(laps))[i]) == Key(ToTimed(x))
  {
    var ts := Timed(laps);
    var rows := FastestRows(ts);
    var t := ToTimed(x);
    assert t in ts;
    var j := Position(ts, t);
    assert Key(ts[j]) in KeySet(rows, Key);
    i := KeyPosition(rows, Key, Key(t));
  }

  lemma {:induction false} Position(ts: seq<TimedLap>, t: TimedLap) returns (j: nat)
    requires t in ts
    ensures j < |ts| && ts[j] == t
  {
    j :| 0 <= j < |ts| && ts[j] == t;
  }

  /** Within one race equal times share a rank and a strictly faster time has
      a strictly better rank. */
  lemma {:induction false} RankOrder(rows: seq<TimedLap>, i: nat, j: nat)
    requires i < |rows| && j < |rows| && rows[i].raceId == rows[j].raceId
    ensures var r := RankWithinRace(rows);
            (rows[i].ms == rows[j].ms ==> r[i].rank == r[j].rank) &&
            (rows[i].ms < rows[j].ms ==> r[i].rank < r[j].rank)
  {
    var xs := RaceTimes(rows, rows[i].raceId);
    if rows[i].ms < rows[j].ms {
      assert rows[i].ms in xs;
      MinRankGap(xs, rows[i].ms, rows[j].ms);
    }
  }

  /** Two drivers tied on 1:30.000 and one on 1:31.000 in one race rank 1, 1, 3. */
  lemma RankExample()
    ensures var r := RankWithinRace([TimedLap(7, 1, 40, 90000), TimedLap(7, 2, 41, 90000), TimedLap(7, 3, 12, 91000)]);
            r[0].rank == 1 && r[1].rank == 1 && r[2].rank == 3
  {
    var rows := [TimedLap(7, 1, 40, 90000), TimedLap(7, 2, 41, 90000), TimedLap(7, 3, 12, 91000)];
    assert rows[1..][1..][1..] == [];
    assert RaceTimes(rows, 7) == [90000, 90000, 91000];
    MinRankExample();
  }

  /** The laps-driven count is the lap number of some usable lap of the group,
      and no usable lap of the group has a higher number. */
  lemma {:induction false} LapsDrivenIsMaximum(laps: seq<Lap>, i: nat, x: Lap)
    requires i < |LapsDrivenTable(laps)| && x in laps && Usable(x)
    requires (x.raceId.value, x.driverId.value) == DrivenKey(LapsDrivenTable(laps)[i])
    ensures x.lap <= LapsDrivenTable(laps)[i].laps
  {
    var ts := Timed(laps);
    var t := ToTimed(x);
    assert t in ts;
    var j :| 0 <= j < |ts| && ts[j] == t;
  }

  lemma {:induction false} LapsDrivenAttained(laps: seq<Lap>, i: nat)
    requires i < |LapsDrivenTable(laps)|
    ensures var d := LapsDrivenTable(laps)[i];
            exists x :: x in laps && Usable(x) && x.raceId == Some(d.raceId) &&
                        x.driverId == Some(d.driverId) && x.lap == d.laps
  {
    var ts := Timed(laps);
    var d := LapsDrivenTable(laps)[i];
    var j := KeyPosition(ts, KeyLap, (d.raceId, d.driverId, d.laps));
    TimedOrigin(laps, ts[j]);
  }

  /** A timed lap comes from a usable lap row with the same race, driver and lap number. */
  lemma TimedOrigin(laps: seq<Lap>, t: TimedLap)
    requires t in Timed(laps)
    ensures exists x :: x in laps && Usable(x) && x.raceId == Some(t.raceId) &&
                        x.driverId == Some(t.driverId) && x.lap == t.lap
  {
    var x :| x in laps && Usable(x) && ToTimed(x) == t;
    assert x.raceId == Some(t.raceId);
  }
}
