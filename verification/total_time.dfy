/** Total race time per classified driver (`calculate_total_times`), applied
    to the rows of one race. The timing feed reports the winner's elapsed time
    and, for everybody else, the gap to the winner; the reconstruction adds the
    gap to the winner's time. A missing time (NaT) compares unequal to
    everything and propagates through the addition, which `None` models here.
    Times are whole milliseconds. */
module TotalTime {
  import opened Wrappers

  datatype Classified = Classified(position: int, time: Option<int>)

  datatype TotalTimeError = NoLeader  // `.values[0]` of an empty selection raises IndexError

  /** The index of the first row whose Position is 1, or |rows| when there is none. */
  function FirstLeader(rows: seq<Classified>): (l: nat)
    ensures l <= |rows|
    ensures forall j :: 0 <= j < l ==> rows[j].position != 1
    ensures l < |rows| ==> rows[l].position == 1
  {
    if |rows| == 0 || rows[0].position == 1 then 0
    else
      assert forall j :: 1 <= j < |rows| ==> rows[j] == rows[1..][j - 1];
      1 + FirstLeader(rows[1..])
  }

  /** One row's total: the leader's own time is kept, any other time is a gap. */
  function TotalOf(leader: Option<int>, time: Option<int>): (r: Option<int>)
    ensures r.Some? <==> leader.Some? && time.Some?
    ensures r.Some? && time.value == leader.value ==> r.value == leader.value
    ensures r.Some? && time.value != leader.value ==> r.value - leader.value == time.value
  {
    if leader.Some? && time.Some? then
      if leader.value == time.value then leader else Some(leader.value + time.value)
    else None
  }

  /** The milliseconds column of one race's rows. */
  function CalculateTotalTimes(rows: seq<Classified>): (r: Result<seq<Option<int>>, TotalTimeError>)
    ensures r.Failure? <==> forall j :: 0 <= j < |rows| ==> rows[j].position != 1
    ensures r.Success? ==> |r.value| == |rows|
    // with the first Position-1 row's time as the reference
    ensures r.Success? ==>
              var lead := rows[FirstLeader(rows)].time;
              forall i :: 0 <= i < |rows| ==> r.value[i] == TotalOf(lead, rows[i].time)
  {
    var l := FirstLeader(rows);
    if l == |rows| then Failure(NoLeader)
    else
      var lead := rows[l].time;
      Success(seq(|rows|, i requires 0 <= i < |rows| => TotalOf(lead, rows[i].time)))
  }

  /** A timed row that is not the leader's reads back its gap as its total
      minus the leader's total. */
  lemma {:induction false} GapRecovery(rows: seq<Classified>, i: nat)
    requires CalculateTotalTimes(rows).Success? && i < |rows|
    requires var lead := rows[FirstLeader(rows)].time;
             lead.Some? && rows[i].time.Some? && rows[i].time != lead
    ensures var t := CalculateTotalTimes(rows).value;
            var l := FirstLeader(rows);
            t[i].Some? && t[l].Some? && t[i].value - t[l].value == rows[i].time.value
  {
  }

  /** With positive gaps nobody's total is below the leader's. */
  lemma {:induction false} LeaderIsFastest(rows: seq<Classified>)
    requires CalculateTotalTimes(rows).Success?
    requires forall j :: 0 <= j < |rows| && rows[j].time.Some? ==> rows[j].time.value > 0
    ensures var t := CalculateTotalTimes(rows).value;
            var l := FirstLeader(rows);
            forall i :: 0 <= i < |rows| && t[i].Some? ==> t[l].Some? && t[l].value <= t[i].value
  {
  }

  /** A leader time missing makes every total missing. */
  lemma {:induction false} MissingLeaderTime(rows: seq<Classified>)
    requires CalculateTotalTimes(rows).Success?
    requires rows[FirstLeader(rows)].time.None?
    ensures forall i :: 0 <= i < |rows| ==> CalculateTotalTimes(rows).value[i].None?
  {
  }

  /** A 90-minute winner and a 1.2-second gap. */
  lemma TotalTimeExample()
    ensures CalculateTotalTimes([Classified(1, Some(5400000)), Classified(2, Some(1200)), Classified(3, None)])
         == Success([Some(5400000), Some(5401200), None])
  {
    var rows := [Classified(1, Some(5400000)), Classified(2, Some(1200)), Classified(3, None)];
    assert FirstLeader(rows) == 0;
    var t := CalculateTotalTimes(rows).value;
    assert t[0] == Some(5400000) && t[1] == Some(5401200) && t[2] == None;
    assert t == [Some(5400000), Some(5401200), None];
  }
}
