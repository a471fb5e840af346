/** The older dimension upserts `add_new_drivers`, `add_new_constructors` and
    `add_new_races`. They differ from the generic upsert in granularity:
    candidates are filtered against the table only (no de-duplication within
    the batch), and races are filtered by season year rather than by
    (year, round). Only the key column is checked up front; the other
    columns are looked up after filtering, so their absence surfaces as a
    KeyError, and only when something survived. */
module LegacyUpsert {
  import opened Wrappers
  import opened Seqs
  import opened DimensionUpsert

  /** A row of the older races schema. */
  datatype LegacyRace = LegacyRace(year: int, round: int, raceName: string, date: Date)

  const DriverProjected: seq<Column> := [DriverNumber, Abbreviation, FirstName, LastName]
  const ConstructorProjected: seq<Column> := [TeamName]
  const RaceProjected: seq<Column> := [EventName]

  /** The shared tail: no survivors returns the table itself; otherwise the
      projected columns must exist and the survivors are numbered from max+1. */
  function AppendSurvivors<A>(table: seq<DimRow<A>>, survivors: seq<A>, projected: seq<Column>, columns: set<Column>)
    : (r: Result<seq<DimRow<A>>, UpsertError>)
    ensures |survivors| == 0 ==> r == Success(table)
    ensures r.Failure? ==>
              |survivors| > 0 &&
              ((r.error.KeyError? && forall c :: c in r.error.missing <==> c in projected && c !in columns) ||
               (r.error == NoExistingIds && |table| == 0))
    ensures r.Success? ==>
              var t := r.value;
              |t| == |table| + |survivors| && t[..|table|] == table && AttrsOf(t[|table|..]) == survivors
    ensures r.Success? && |survivors| > 0 ==>
              |table| > 0 &&
              forall j :: |table| <= j < |r.value| ==> r.value[j].id == MaxId(table) + 1 + (j - |table|)
  {
    if |survivors| == 0 then Success(table)
    else
      var missing := MissingColumns(projected, columns);
      if |missing| > 0 then Failure(KeyError(missing))
      else if |table| == 0 then Failure(NoExistingIds)
      else
        var t := table + Allocate(MaxId(table) + 1, survivors);
        assert AttrsOf(t[|table|..]) == survivors;
        Success(t)
  }

  /** After appending the survivors (shaped into the table's schema with the
      same key), every candidate's key is in the table. */
  lemma SurvivorsCovered<C, A, K>(table: seq<DimRow<A>>, rows: seq<C>, keyC: C -> K, keyA: A -> K, t: seq<DimRow<A>>)
    requires |t| >= |table| && t[..|table|] == table
    requires var s := WithoutKeys(rows, keyC, ExistingKeys(table, keyA));
             |t| == |table| + |s| && forall k :: 0 <= k < |s| ==> keyA(t[|table| + k].attrs) == keyC(s[k])
    ensures forall c :: c in rows ==> keyC(c) in ExistingKeys(t, keyA)
  {
    var n := |table|;
    var s := WithoutKeys(rows, keyC, ExistingKeys(table, keyA));
    forall c | c in rows
      ensures keyC(c) in ExistingKeys(t, keyA)
    {
      if keyC(c) in ExistingKeys(table, keyA) {
        var x :| x in table && keyA(x.attrs) == keyC(c);
        var i :| 0 <= i < n && table[i] == x;
        assert t[i] == x;
      } else {
        assert c in s;
        var k :| 0 <= k < |s| && s[k] == c;
        assert t[n + k] in t;
      }
    }
  }

  /** When candidates already have the table's schema: appended rows carry new
      keys only, and afterwards every candidate's key is in the table. */
  lemma SameSchemaAppended<A, K>(table: seq<DimRow<A>>, rows: seq<A>, key: A -> K, t: seq<DimRow<A>>)
    requires var s := WithoutKeys(rows, key, ExistingKeys(table, key));
             |t| == |table| + |s| && t[..|table|] == table && AttrsOf(t[|table|..]) == s
    ensures forall j :: |table| <= j < |t| ==> key(t[j].attrs) !in ExistingKeys(table, key)
    ensures forall c :: c in rows ==> key(c) in ExistingKeys(t, key)
  {
    var s := WithoutKeys(rows, key, ExistingKeys(table, key));
    assert forall j :: |table| <= j < |t| ==> t[j].attrs == s[j - |table|];
    SurvivorsCovered(table, rows, key, key, t);
  }

  function AddNewDrivers(table: seq<DimRow<Driver>>, batch: Batch<Driver>): (r: Result<seq<DimRow<Driver>>, UpsertError>)
    ensures DriverId !in batch.columns ==> r == Failure(SchemaError([DriverId]))
    // nothing new: the input table is returned unchanged
    ensures DriverId in batch.columns && (forall d :: d in batch.rows ==> d.driverRef in ExistingKeys(table, DriverRef))
            ==> r == Success(table)
    // appended rows carry new refs only, one per surviving candidate, in input order
    ensures r.Success? ==>
              var t := r.value;
              |t| >= |table| && t[..|table|] == table &&
              AttrsOf(t[|table|..]) == WithoutKeys(batch.rows, DriverRef, ExistingKeys(table, DriverRef)) &&
              forall j :: |table| <= j < |t| ==> t[j].attrs.driverRef !in ExistingKeys(table, DriverRef)
    // afterwards every candidate's ref is in the table
    ensures r.Success? ==> forall d :: d in batch.rows ==> d.driverRef in ExistingKeys(r.value, DriverRef)
  {
    if DriverId !in batch.columns then Failure(SchemaError([DriverId]))
    else
      var existing := ExistingKeys(table, DriverRef);
      var survivors := WithoutKeys(batch.rows, DriverRef, existing);
      WithoutKeysEmpty(batch.rows, DriverRef, existing);
      var r := AppendSurvivors(table, survivors, DriverProjected, batch.columns);
      if r.Success? then
        SameSchemaAppended(table, batch.rows, DriverRef, r.value);
        r
      else r
  }

  function AddNewConstructors(table: seq<DimRow<Constructor>>, batch: Batch<Constructor>)
    : (r: Result<seq<DimRow<Constructor>>, UpsertError>)
    ensures TeamId !in batch.columns ==> r == Failure(SchemaError([TeamId]))
    ensures TeamId in batch.columns && (forall c :: c in batch.rows ==> c.constructorRef in ExistingKeys(table, ConstructorRef))
            ==> r == Success(table)
    ensures r.Success? ==>
              var t := r.value;
              |t| >= |table| && t[..|table|] == table &&
              AttrsOf(t[|table|..]) == WithoutKeys(batch.rows, ConstructorRef, ExistingKeys(table, ConstructorRef)) &&
              forall j :: |table| <= j < |t| ==> t[j].attrs.constructorRef !in ExistingKeys(table, ConstructorRef)
    ensures r.Success? ==> forall c :: c in batch.rows ==> c.constructorRef in ExistingKeys(r.value, ConstructorRef)
  {
    if TeamId !in batch.columns then Failure(SchemaError([TeamId]))
    else
      var existing := ExistingKeys(table, ConstructorRef);
      var survivors := WithoutKeys(batch.rows, ConstructorRef, existing);
      WithoutKeysEmpty(batch.rows, ConstructorRef, existing);
      var r := AppendSurvivors(table, survivors, ConstructorProjected, batch.columns);
      if r.Success? then
        SameSchemaAppended(table, batch.rows, ConstructorRef, r.value);
        r
      else r
  }

  function CandidateYear(c: RaceCandidate): int { c.eventDate.year }
  function LegacyYear(r: LegacyRace): int { r.year }

  function ToLegacyRace(c: RaceCandidate): LegacyRace {
    LegacyRace(c.eventDate.year, c.round, c.eventName, c.eventDate)
  }

  function AsLegacyRaces(rows: seq<RaceCandidate>): (r: seq<LegacyRace>)
    ensures |r| == |rows|
    ensures forall k :: 0 <= k < |rows| ==> r[k].year == rows[k].eventDate.year
  {
    if |rows| == 0 then [] else [ToLegacyRace(rows[0])] + AsLegacyRaces(rows[1..])
  }

  /** Races are filtered by season: any year already in the table blocks
      every candidate of that year, whatever its round. */
  function AddNewRaces(table: seq<DimRow<LegacyRace>>, batch: Batch<RaceCandidate>)
    : (r: Result<seq<DimRow<LegacyRace>>, UpsertError>)
    ensures RoundNumber !in batch.columns ==> r == Failure(SchemaError([RoundNumber]))
    ensures RoundNumber in batch.columns && EventDate !in batch.columns ==> r == Failure(KeyError([EventDate]))
    ensures RoundNumber in batch.columns && EventDate in batch.columns &&
            (forall c :: c in batch.rows ==> c.eventDate.year in ExistingKeys(table, LegacyYear))
            ==> r == Success(table)
    ensures r.Success? ==>
              var t := r.value;
              |t| >= |table| && t[..|table|] == table &&
              forall j :: |table| <= j < |t| ==> t[j].attrs.year !in ExistingKeys(table, LegacyYear)
    ensures r.Success? ==> forall c :: c in batch.rows ==> c.eventDate.year in ExistingKeys(r.value, LegacyYear)
  {
    if RoundNumber !in batch.columns then Failure(SchemaError([RoundNumber]))
    else if EventDate !in batch.columns then Failure(KeyError([EventDate]))
    else
      var existing := ExistingKeys(table, LegacyYear);
      var survivors := WithoutKeys(batch.rows, CandidateYear, existing);
      WithoutKeysEmpty(batch.rows, CandidateYear, existing);
      var shaped := AsLegacyRaces(survivors);
      var r := AppendSurvivors(table, shaped, RaceProjected, batch.columns);
      if r.Success? then
        LegacyRacesAppended(table, batch.rows, r.value);
        r
      else r
  }

  /** The season-level facts about a table extended with the shaped survivors. */
  lemma LegacyRacesAppended(table: seq<DimRow<LegacyRace>>, rows: seq<RaceCandidate>, t: seq<DimRow<LegacyRace>>)
    requires var s := WithoutKeys(rows, CandidateYear, ExistingKeys(table, LegacyYear));
             |t| == |table| + |s| && t[..|table|] == table && AttrsOf(t[|table|..]) == AsLegacyRaces(s)
    ensures forall j :: |table| <= j < |t| ==> t[j].attrs.year !in ExistingKeys(table, LegacyYear)
    ensures forall c :: c in rows ==> c.eventDate.year in ExistingKeys(t, LegacyYear)
  {
    var s := WithoutKeys(rows, CandidateYear, ExistingKeys(table, LegacyYear));
    var shaped := AsLegacyRaces(s);
    var n := |table|;
    forall j | n <= j < |t|
      ensures t[j].attrs.year == s[j - n].eventDate.year
    {
      assert AttrsOf(t[n..])[j - n] == t[j].attrs;
    }
    SurvivorsCovered(table, rows, CandidateYear, LegacyYear, t);
  }

  lemma AddNewDriversUnfold(table: seq<DimRow<Driver>>, batch: Batch<Driver>)
    requires DriverId in batch.columns
    ensures AddNewDrivers(table, batch)
         == AppendSurvivors(table, WithoutKeys(batch.rows, DriverRef, ExistingKeys(table, DriverRef)), DriverProjected, batch.columns)
  {
  }

  lemma AddNewConstructorsUnfold(table: seq<DimRow<Constructor>>, batch: Batch<Constructor>)
    requires TeamId in batch.columns
    ensures AddNewConstructors(table, batch)
         == AppendSurvivors(table, WithoutKeys(batch.rows, ConstructorRef, ExistingKeys(table, ConstructorRef)),
                            ConstructorProjected, batch.columns)
  {
  }

  lemma AddNewRacesUnfold(table: seq<DimRow<LegacyRace>>, batch: Batch<RaceCandidate>)
    requires RoundNumber in batch.columns && EventDate in batch.columns
    ensures AddNewRaces(table, batch)
         == AppendSurvivors(table, AsLegacyRaces(WithoutKeys(batch.rows, CandidateYear, ExistingKeys(table, LegacyYear))),
                            RaceProjected, batch.columns)
  {
  }

  /** The older variants number appended rows max+1, max+2, ... in input order. */
  lemma {:induction false} DriversFreshIds(table: seq<DimRow<Driver>>, batch: Batch<Driver>)
    ensures var r := AddNewDrivers(table, batch);
            r.Success? && |r.value| > |table| ==>
              |table| > 0 && forall j :: |table| <= j < |r.value| ==> r.value[j].id == MaxId(table) + 1 + (j - |table|)
  {
    if DriverId in batch.columns {
      AddNewDriversUnfold(table, batch);
    }
  }

  lemma {:induction false} ConstructorsFreshIds(table: seq<DimRow<Constructor>>, batch: Batch<Constructor>)
    ensures var r := AddNewConstructors(table, batch);
            r.Success? && |r.value| > |table| ==>
              |table| > 0 && forall j :: |table| <= j < |r.value| ==> r.value[j].id == MaxId(table) + 1 + (j - |table|)
  {
    if TeamId in batch.columns {
      AddNewConstructorsUnfold(table, batch);
    }
  }

  lemma {:induction false} RacesFreshIds(table: seq<DimRow<LegacyRace>>, batch: Batch<RaceCandidate>)
    ensures var r := AddNewRaces(table, batch);
            r.Success? && |r.value| > |table| ==>
              |table| > 0 && forall j :: |table| <= j < |r.value| ==> r.value[j].id == MaxId(table) + 1 + (j - |table|)
  {
    if RoundNumber in batch.columns && EventDate in batch.columns {
      AddNewRacesUnfold(table, batch);
    }
  }

  /** The new races are the candidates of unseen seasons, in input order. */
  lemma {:induction false} LegacyRacesInOrder(table: seq<DimRow<LegacyRace>>, batch: Batch<RaceCandidate>)
    ensures var r := AddNewRaces(table, batch);
            r.Success? ==>
              |table| <= |r.value| &&
              AttrsOf(r.value[|table|..]) == AsLegacyRaces(WithoutKeys(batch.rows, CandidateYear, ExistingKeys(table, LegacyYear)))
  {
    if RoundNumber in batch.columns && EventDate in batch.columns {
      AddNewRacesUnfold(table, batch);
    }
  }

  lemma WithoutKeysRepeated(d: Driver, existing: set<string>)
    requires d.driverRef !in existing
    ensures WithoutKeys([d, d], DriverRef, existing) == [d, d]
  {
    assert [d, d][1..] == [d];
    assert WithoutKeys([d], DriverRef, existing) == [d];
  }

  /** Without within-batch de-duplication a new ref listed twice gets two ids. */
  lemma RepeatedNewDriverGetsTwoIds(table: seq<DimRow<Driver>>, d: Driver, columns: set<Column>)
    requires |table| > 0
    requires DriverId in columns && forall c :: c in DriverProjected ==> c in columns
    requires d.driverRef !in ExistingKeys(table, DriverRef)
    ensures var r := AddNewDrivers(table, Batch(columns, [d, d]));
            r.Success? && |r.value| == |table| + 2 &&
            r.value[|table|] == DimRow(MaxId(table) + 1, d) &&
            r.value[|table| + 1] == DimRow(MaxId(table) + 2, d)
  {
    var batch := Batch(columns, [d, d]);
    AddNewDriversUnfold(table, batch);
    WithoutKeysRepeated(d, ExistingKeys(table, DriverRef));
    NoneMissing(DriverProjected, columns);
    DriversFreshIds(table, batch);
    var t := AddNewDrivers(table, batch).value;
    var n := |table|;
    assert AttrsOf(t[n..])[0] == t[n].attrs;
    assert AttrsOf(t[n..])[1] == t[n + 1].attrs;
  }

  /** A second identical call is a no-op. */
  lemma AddNewDriversIdempotent(table: seq<DimRow<Driver>>, batch: Batch<Driver>)
    ensures var r := AddNewDrivers(table, batch);
            r.Success? ==> AddNewDrivers(r.value, batch) == r
  {
  }

  lemma AddNewConstructorsIdempotent(table: seq<DimRow<Constructor>>, batch: Batch<Constructor>)
    ensures var r := AddNewConstructors(table, batch);
            r.Success? ==> AddNewConstructors(r.value, batch) == r
  {
  }

  lemma AddNewRacesIdempotent(table: seq<DimRow<LegacyRace>>, batch: Batch<RaceCandidate>)
    ensures var r := AddNewRaces(table, batch);
            r.Success? ==> AddNewRaces(r.value, batch) == r
  {
  }
}
