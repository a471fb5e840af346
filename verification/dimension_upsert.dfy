/** The dimension upsert engine (`Dim_Updater.add_new_entries` and its
    drivers / constructors / races configurations): candidate rows whose
    natural key is new are de-duplicated keep-first, given contiguous fresh
    surrogate ids above the table's maximum, and appended after the existing
    rows. Persisting the table is modelled by returning it. */
module DimensionUpsert {
  import opened Wrappers
  import opened Seqs

  /** A dimension row: surrogate id plus the entity's attributes. */
  datatype DimRow<A> = DimRow(id: int, attrs: A)

  /** The source column names the upserts check or look up. */
  datatype Column =
    | DriverId | DriverNumber | Abbreviation | FirstName | LastName
    | TeamId | TeamName
    | RoundNumber | EventName | EventDate | YearColumn | DateColumn | CircuitShortName

  /** Incoming candidate rows together with the column names they carry. */
  datatype Batch<C> = Batch(columns: set<Column>, rows: seq<C>)

  datatype UpsertError =
    | SchemaError(missing: seq<Column>)  // the explicit required-column check (ValueError)
    | KeyError(missing: seq<Column>)     // a pandas lookup of an absent column
    | NoExistingIds                      // max() of an empty id column is NaN; range() rejects it

  /** The required columns absent from `columns`, in their listed order. */
  function MissingColumns(required: seq<Column>, columns: set<Column>): (r: seq<Column>)
    ensures forall c :: c in r <==> c in required && c !in columns
  {
    Filter(required, c => c !in columns)
  }

  lemma {:induction false} NoneMissing(required: seq<Column>, columns: set<Column>)
    requires forall c :: c in required ==> c in columns
    ensures MissingColumns(required, columns) == []
  {
    if |required| > 0 {
      assert forall c :: c in required[1..] ==> c in required;
      NoneMissing(required[1..], columns);
      assert Filter(required, c => c !in columns) == Filter(required[1..], c => c !in columns);
    }
  }

  /** The largest surrogate id of a non-empty table. */
  function MaxId<A>(table: seq<DimRow<A>>): (m: int)
    requires |table| > 0
    ensures forall i :: 0 <= i < |table| ==> table[i].id <= m
    ensures exists i :: 0 <= i < |table| && table[i].id == m
  {
    if |table| == 1 then table[0].id
    else
      var rest := MaxId(table[1..]);
      assert forall i :: 1 <= i < |table| ==> table[i] == table[1..][i - 1];
      if table[0].id >= rest then table[0].id else rest
  }

  /** Rows `rows` numbered `start`, `start + 1`, ... in order. */
  function Allocate<A>(start: int, rows: seq<A>): seq<DimRow<A>> {
    seq(|rows|, k requires 0 <= k < |rows| => DimRow(start + k, rows[k]))
  }

  function AttrsOf<A>(rows: seq<DimRow<A>>): seq<A> {
    seq(|rows|, k requires 0 <= k < |rows| => rows[k].attrs)
  }

  /** The natural keys already present in the table. */
  function ExistingKeys<A(==), K>(table: seq<DimRow<A>>, key: A -> K): set<K> {
    set r | r in table :: key(r.attrs)
  }

  /** Candidates whose natural key is not in the table, de-duplicated keep-first. */
  function NewEntries<A(==), K(==)>(table: seq<DimRow<A>>, rows: seq<A>, key: A -> K): seq<A> {
    DropDuplicates(WithoutKeys(rows, key, ExistingKeys(table, key)), key)
  }

  predicate UniqueNaturalKeys<A, K(==)>(table: seq<DimRow<A>>, key: A -> K) {
    forall i, j :: 0 <= i < j < |table| ==> key(table[i].attrs) != key(table[j].attrs)
  }

  predicate UniqueIds<A>(table: seq<DimRow<A>>) {
    forall i, j :: 0 <= i < j < |table| ==> table[i].id != table[j].id
  }

  /** The generic upsert: check columns, select new keys, number and append. */
  function Upsert<A(==), K(==)>(table: seq<DimRow<A>>, batch: Batch<A>, required: seq<Column>, key: A -> K)
    : (r: Result<seq<DimRow<A>>, UpsertError>)
    // a missing required column fails before anything else, naming exactly the missing ones
    ensures (exists c :: c in required && c !in batch.columns) <==> r.Failure? && r.error.SchemaError?
    ensures r.Failure? && r.error.SchemaError? ==>
              forall c :: c in r.error.missing <==> c in required && c !in batch.columns
    // the only other failure: new rows but no existing id to count from
    ensures r.Failure? && !r.error.SchemaError? ==> r.error == NoExistingIds && |table| == 0 && |batch.rows| > 0
    // existing rows are an unchanged prefix
    ensures r.Success? ==> |r.value| >= |table| && r.value[..|table|] == table
  {
    var missing := MissingColumns(required, batch.columns);
    if |missing| > 0 then
      assert missing[0] in missing;
      Failure(SchemaError(missing))
    else
      var added := NewEntries(table, batch.rows, key);
      if |added| == 0 then Success(table)
      else if |table| == 0 then Failure(NoExistingIds)
      else Success(table + Allocate(MaxId(table) + 1, added))
  }

  /** The two successful outcomes of an upsert, for the lemmas below. */
  lemma UpsertShape<A, K>(table: seq<DimRow<A>>, batch: Batch<A>, required: seq<Column>, key: A -> K)
    requires Upsert(table, batch, required, key).Success?
    ensures var t := Upsert(table, batch, required, key).value;
            var added := NewEntries(table, batch.rows, key);
            (|added| == 0 && t == table) ||
            (|added| > 0 && |table| > 0 && t == table + Allocate(MaxId(table) + 1, added))
  {
  }

  /** New ids are max+1 .. max+n in order: contiguous, unique and above every existing id. */
  lemma UpsertFreshIds<A, K>(table: seq<DimRow<A>>, batch: Batch<A>, required: seq<Column>, key: A -> K)
    requires Upsert(table, batch, required, key).Success?
    ensures var t := Upsert(table, batch, required, key).value;
            |t| > |table| ==>
              |table| > 0 &&
              (forall j :: |table| <= j < |t| ==> t[j].id == MaxId(table) + 1 + (j - |table|)) &&
              (forall i, j :: 0 <= i < |table| <= j < |t| ==> t[i].id < t[j].id)
  {
    UpsertShape(table, batch, required, key);
  }

  /** No appended key was present before, and no two appended rows share a key. */
  lemma UpsertNoDuplicateKeys<A, K>(table: seq<DimRow<A>>, batch: Batch<A>, required: seq<Column>, key: A -> K)
    requires Upsert(table, batch, required, key).Success?
    ensures var t := Upsert(table, batch, required, key).value;
            (forall j :: |table| <= j < |t| ==> key(t[j].attrs) !in ExistingKeys(table, key)) &&
            UniqueNaturalKeys(t[|table|..], key)
  {
    UpsertShape(table, batch, required, key);
    var t := Upsert(table, batch, required, key).value;
    var added := NewEntries(table, batch.rows, key);
    if |added| > 0 {
      var tail := Allocate(MaxId(table) + 1, added);
      assert t[|table|..] == tail;
      forall j | |table| <= j < |t|
        ensures key(t[j].attrs) !in ExistingKeys(table, key)
      {
        assert t[j].attrs == added[j - |table|];
      }
    }
  }

  /** After a successful upsert every candidate's natural key is in the table. */
  lemma UpsertCoversBatch<A, K>(table: seq<DimRow<A>>, batch: Batch<A>, required: seq<Column>, key: A -> K)
    requires Upsert(table, batch, required, key).Success?
    ensures var t := Upsert(table, batch, required, key).value;
            forall c :: c in batch.rows ==> key(c) in ExistingKeys(t, key)
  {
    UpsertShape(table, batch, required, key);
    var t := Upsert(table, batch, required, key).value;
    var existing := ExistingKeys(table, key);
    var kept := WithoutKeys(batch.rows, key, existing);
    var added := NewEntries(table, batch.rows, key);
    assert KeySet(added, key) == KeySet(kept, key);
    forall c | c in batch.rows
      ensures key(c) in ExistingKeys(t, key)
    {
      if key(c) in existing {
        var r :| r in table && key(r.attrs) == key(c);
        assert r in t;
      } else {
        assert key(c) in KeySet(kept, key);
        var x :| x in added && key(x) == key(c);
        var k :| 0 <= k < |added| && added[k] == x;
        assert t[|table| + k].attrs == x;
        assert t[|table| + k] in t;
      }
    }
  }

  /** Dropping existing keys and then de-duplicating is keep-first
      de-duplication with the existing keys counted as taken. */
  lemma {:induction false} WithoutKeysThenKeepFirst<T, K>(s: seq<T>, key: T -> K, existing: set<K>, seen: set<K>)
    ensures KeepFirst(WithoutKeys(s, key, existing), key, seen) == KeepFirst(s, key, seen + existing)
  {
    if |s| > 0 {
      var w := WithoutKeys(s[1..], key, existing);
      if key(s[0]) in existing {
        assert WithoutKeys(s, key, existing) == w;
        WithoutKeysThenKeepFirst(s[1..], key, existing, seen);
      } else {
        assert WithoutKeys(s, key, existing) == [s[0]] + w;
        assert ([s[0]] + w)[1..] == w;
        if key(s[0]) in seen {
          WithoutKeysThenKeepFirst(s[1..], key, existing, seen);
        } else {
          WithoutKeysThenKeepFirst(s[1..], key, existing, seen + {key(s[0])});
          assert seen + {key(s[0])} + existing == seen + existing + {key(s[0])};
        }
      }
    }
  }

  /** The appended rows are exactly the candidates whose key is neither in the
      table nor carried by an earlier candidate, in input order. */
  lemma AppendedAreFirstNewOccurrences<A, K>(table: seq<DimRow<A>>, batch: Batch<A>, required: seq<Column>, key: A -> K)
    requires Upsert(table, batch, required, key).Success?
    ensures var t := Upsert(table, batch, required, key).value;
            AttrsOf(t[|table|..]) == FirstOccurrences(batch.rows, key, ExistingKeys(table, key))
  {
    UpsertShape(table, batch, required, key);
    var existing := ExistingKeys(table, key);
    WithoutKeysThenKeepFirst(batch.rows, key, existing, {});
    assert {} + existing == existing;
    KeepFirstMatchesReference(batch.rows, key, existing);
    var t := Upsert(table, batch, required, key).value;
    var added := NewEntries(table, batch.rows, key);
    if |added| > 0 {
      assert AttrsOf(t[|table|..]) == added;
    } else {
      assert AttrsOf(t[|table|..]) == [];
    }
  }

  /** Nothing new in the batch: the table comes back unchanged. */
  lemma UpsertNoOp<A, K>(table: seq<DimRow<A>>, batch: Batch<A>, required: seq<Column>, key: A -> K)
    requires forall c :: c in required ==> c in batch.columns
    requires forall c :: c in batch.rows ==> key(c) in ExistingKeys(table, key)
    ensures Upsert(table, batch, required, key) == Success(table)
  {
  }

  /** Running the same batch again against the updated table changes nothing. */
  lemma UpsertIdempotent<A, K>(table: seq<DimRow<A>>, batch: Batch<A>, required: seq<Column>, key: A -> K)
    requires Upsert(table, batch, required, key).Success?
    ensures var t := Upsert(table, batch, required, key).value;
            Upsert(t, batch, required, key) == Success(t)
  {
    UpsertCoversBatch(table, batch, required, key);
    UpsertNoOp(Upsert(table, batch, required, key).value, batch, required, key);
  }

  /** Appending rows with fresh keys and ids above every stored id keeps both unique. */
  lemma {:induction false} FreshAppendUnique<A, K>(table: seq<DimRow<A>>, t: seq<DimRow<A>>, key: A -> K)
    requires |t| >= |table| && t[..|table|] == table
    requires UniqueNaturalKeys(table, key) && UniqueIds(table)
    requires forall j :: |table| <= j < |t| ==> key(t[j].attrs) !in ExistingKeys(table, key)
    requires UniqueNaturalKeys(t[|table|..], key)
    requires forall i, j :: |table| <= i < j < |t| ==> t[i].id < t[j].id
    requires forall i, j :: 0 <= i < |table| <= j < |t| ==> t[i].id < t[j].id
    ensures UniqueNaturalKeys(t, key) && UniqueIds(t)
  {
    var n := |table|;
    forall i, j | 0 <= i < j < |t|
      ensures key(t[i].attrs) != key(t[j].attrs) && t[i].id != t[j].id
    {
      if j >= n {
        if i < n {
          assert t[i] == table[i];
          assert t[i] in table;
        } else {
          assert t[n..][i - n] == t[i] && t[n..][j - n] == t[j];
        }
      } else {
        assert t[i] == table[i] && t[j] == table[j];
      }
    }
  }

  /** An upsert keeps natural keys and surrogate ids unique. */
  lemma UpsertPreservesUniqueness<A, K>(table: seq<DimRow<A>>, batch: Batch<A>, required: seq<Column>, key: A -> K)
    requires Upsert(table, batch, required, key).Success?
    requires UniqueNaturalKeys(table, key) && UniqueIds(table)
    ensures UniqueNaturalKeys(Upsert(table, batch, required, key).value, key)
    ensures UniqueIds(Upsert(table, batch, required, key).value)
  {
    UpsertFreshIds(table, batch, required, key);
    UpsertNoDuplicateKeys(table, batch, required, key);
    FreshAppendUnique(table, Upsert(table, batch, required, key).value, key);
  }

  // ---- configurations -------------------------------------------------------

  /** Calendar date of an event (pandas Timestamp reduced to its date). */
  datatype Date = Date(year: int, month: int, day: int)

  datatype Driver = Driver(driverRef: string, number: string, code: string, forename: string, surname: string)
  datatype Constructor = Constructor(constructorRef: string, name: string)
  /** A races row in the stored table's columns (`year`, `round`, `name`, `date`,
      `circuitId`). The code as written appends `EventDate` and `CircuitId`
      instead of `date` and `circuitId`; this record follows the corrected
      labelling that RaceSchema describes. */
  datatype Race = Race(year: int, round: int, name: string, date: Date, circuitId: string)

  /** A schedule row as retrieved: the year is derived from its event date. */
  datatype RaceCandidate = RaceCandidate(round: int, eventName: string, eventDate: Date, circuitShortName: string)

  const DriverColumns: seq<Column> := [DriverId, DriverNumber, Abbreviation, FirstName, LastName]
  const ConstructorColumns: seq<Column> := [TeamId, TeamName]
  const RaceColumns: seq<Column> := [RoundNumber, EventName, EventDate, YearColumn, CircuitShortName]

  function DriverRef(d: Driver): string { d.driverRef }
  function ConstructorRef(c: Constructor): string { c.constructorRef }
  function RaceKey(r: Race): (int, int) { (r.year, r.round) }

  /** A schedule row as a races row under the corrected labelling: `year` and
      `date` come from EventDate and the circuit short name fills `circuitId`
      (see RaceSchema for the labels the code as written produces). */
  function ToRace(c: RaceCandidate): Race {
    Race(c.eventDate.year, c.round, c.eventName, c.eventDate, c.circuitShortName)
  }

  function AsRaces(rows: seq<RaceCandidate>): (r: seq<Race>)
    ensures |r| == |rows|
    ensures forall c :: c in rows ==> ToRace(c) in r
  {
    if |rows| == 0 then []
    else
      assert forall c :: c in rows ==> c == rows[0] || c in rows[1..];
      [ToRace(rows[0])] + AsRaces(rows[1..])
  }

  function UpdateDrivers(table: seq<DimRow<Driver>>, batch: Batch<Driver>): (r: Result<seq<DimRow<Driver>>, UpsertError>)
    ensures DriverId !in batch.columns ==> r.Failure? && r.error.SchemaError? && DriverId in r.error.missing
    ensures r.Success? ==> forall d :: d in batch.rows ==> d.driverRef in ExistingKeys(r.value, DriverRef)
    ensures r.Success? ==> |r.value| >= |table| && r.value[..|table|] == table
  {
    var r := Upsert(table, batch, DriverColumns, DriverRef);
    if r.Success? then UpsertCoversBatch(table, batch, DriverColumns, DriverRef); r else r
  }

  function UpdateConstructors(table: seq<DimRow<Constructor>>, batch: Batch<Constructor>)
    : (r: Result<seq<DimRow<Constructor>>, UpsertError>)
    ensures TeamId !in batch.columns ==> r.Failure? && r.error.SchemaError? && TeamId in r.error.missing
    ensures r.Success? ==> forall c :: c in batch.rows ==> c.constructorRef in ExistingKeys(r.value, ConstructorRef)
    ensures r.Success? ==> |r.value| >= |table| && r.value[..|table|] == table
  {
    var r := Upsert(table, batch, ConstructorColumns, ConstructorRef);
    if r.Success? then UpsertCoversBatch(table, batch, ConstructorColumns, ConstructorRef); r else r
  }

  /** Races need EventDate before the required-column check, because the
      year and date columns are derived from it first. */
  function UpdateRaces(table: seq<DimRow<Race>>, batch: Batch<RaceCandidate>): (r: Result<seq<DimRow<Race>>, UpsertError>)
    ensures EventDate !in batch.columns ==> r == Failure(KeyError([EventDate]))
    ensures EventDate in batch.columns && RoundNumber !in batch.columns ==>
              r.Failure? && r.error.SchemaError? && RoundNumber in r.error.missing
    ensures r.Success? ==>
              forall c :: c in batch.rows ==> (c.eventDate.year, c.round) in ExistingKeys(r.value, RaceKey)
    ensures r.Success? ==> |r.value| >= |table| && r.value[..|table|] == table
  {
    if EventDate !in batch.columns then Failure(KeyError([EventDate]))
    else
      var extended := Batch(batch.columns + {YearColumn, DateColumn}, AsRaces(batch.rows));
      var r := Upsert(table, extended, RaceColumns, RaceKey);
      if r.Failure? then r
      else
        UpsertCoversBatch(table, extended, RaceColumns, RaceKey);
        r
  }
}
