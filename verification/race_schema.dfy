/** The column labels of the races rows that `update_races` appends. The
    upsert projects a schedule row onto its required columns and renames
    them; `pd.concat` then gives every row every column of either table,
    NaN where the row has no cell. Rows are modelled as maps from column
    label to cell, an absent label reading as NaN; cell values are kept as
    text because only their presence matters here. */
module RaceSchema {
  import opened Wrappers

  /** The column labels involved, each written as pandas spells it in `Text`. */
  datatype ColumnLabel =
    | RoundNumber | EventName | EventDate | CircuitShortName
    | Year | Date | RaceId | Round | Name | CircuitId | CapitalCircuitId

  function Text(l: ColumnLabel): string {
    match l
    case RoundNumber => "RoundNumber"
    case EventName => "EventName"
    case EventDate => "EventDate"
    case CircuitShortName => "Circuit_ShortName"
    case Year => "year"
    case Date => "date"
    case RaceId => "raceId"
    case Round => "round"
    case Name => "name"
    case CircuitId => "circuitId"
    case CapitalCircuitId => "CircuitId"
  }

  type Row = map<ColumnLabel, string>

  /** `row[required].rename(columns=rename)`: the required cells under their new labels
      (`rename` maps a label the dictionary does not list to itself). */
  function Project(row: Row, required: seq<ColumnLabel>, rename: ColumnLabel -> ColumnLabel): Row {
    if |required| == 0 then map[]
    else
      var rest := Project(row, required[1..], rename);
      var c := required[0];
      if c in row then rest[rename(c) := row[c]] else rest
  }

  /** A required column with a cell appears under its new label. */
  lemma {:induction false} ProjectHas(row: Row, required: seq<ColumnLabel>, rename: ColumnLabel -> ColumnLabel, c: ColumnLabel)
    requires c in required && c in row
    ensures rename(c) in Project(row, required, rename)
  {
    if required[0] != c {
      assert c in required[1..];
      ProjectHas(row, required[1..], rename, c);
    }
  }

  /** When every required column is renamed into `labels`, the projection holds no other label. */
  lemma {:induction false} ProjectWithin(row: Row, required: seq<ColumnLabel>, rename: ColumnLabel -> ColumnLabel, labels: set<ColumnLabel>)
    requires forall c :: c in required ==> rename(c) in labels
    ensures Project(row, required, rename).Keys <= labels
  {
    if |required| > 0 {
      assert forall c :: c in required[1..] ==> c in required;
      ProjectWithin(row, required[1..], rename, labels);
    }
  }

  /** A required column whose new label no other required column shares keeps its value. */
  lemma {:induction false} ProjectValue(row: Row, required: seq<ColumnLabel>, rename: ColumnLabel -> ColumnLabel, c: ColumnLabel)
    requires c in required && c in row
    requires forall d :: d in required && rename(d) == rename(c) ==> d == c
    ensures rename(c) in Project(row, required, rename)
    ensures Project(row, required, rename)[rename(c)] == row[c]
  {
    ProjectHas(row, required, rename, c);
    if required[0] != c {
      assert c in required[1..];
      assert forall d :: d in required[1..] ==> d in required;
      ProjectValue(row, required[1..], rename, c);
    }
  }

  /** A cell of an appended row after `pd.concat`: its value, or NaN. */
  function Cell(row: Row, c: ColumnLabel): Option<string> {
    if c in row then Some(row[c]) else None
  }

  /** The appended row: the projected schedule row with its new `raceId` inserted. */
  function Appended(row: Row, required: seq<ColumnLabel>, rename: ColumnLabel -> ColumnLabel, raceId: string): (r: Row)
    ensures RaceId in r && r[RaceId] == raceId
  {
    Project(row, required, rename)[RaceId := raceId]
  }

  /** The columns the races table holds and the feature preparation reads back. */
  const StoredRaceColumns: set<ColumnLabel> := {RaceId, Year, Round, Name, Date, CircuitId}

  /** A schedule row after `update_races` derived `year` and `date` from `EventDate`,
      with every field present. */
  predicate ScheduleRow(row: Row) {
    forall c :: c in [RoundNumber, EventName, EventDate, CircuitShortName, Year, Date] ==> c in row
  }

  // ---- as written ------------------------------------------------------------

  const RequiredAsWritten: seq<ColumnLabel> := [RoundNumber, EventName, EventDate, Year, CircuitShortName]
  /** `rename_dict` of `update_races`; a label it does not list is kept. */
  function RenameAsWritten(c: ColumnLabel): ColumnLabel {
    match c
    case RoundNumber => Round
    case EventName => Name
    case CircuitShortName => CapitalCircuitId
    case _ => c
  }

  /** As written, an appended race has no `date` and no `circuitId` cell (both
      NaN after the concatenation), while it brings the new columns
      `EventDate` and `CircuitId`; the derived `date` is dropped by the projection. */
  lemma AsWrittenLosesDateAndCircuit(row: Row, raceId: string)
    requires ScheduleRow(row)
    ensures var a := Appended(row, RequiredAsWritten, RenameAsWritten, raceId);
            Cell(a, Date) == None && Cell(a, CircuitId) == None &&
            EventDate in a && EventDate !in StoredRaceColumns &&
            CapitalCircuitId in a && CapitalCircuitId !in StoredRaceColumns
  {
    var p := Project(row, RequiredAsWritten, RenameAsWritten);
    ProjectWithin(row, RequiredAsWritten, RenameAsWritten, {Round, Name, EventDate, Year, CapitalCircuitId});
    ProjectHas(row, RequiredAsWritten, RenameAsWritten, EventDate);
    ProjectHas(row, RequiredAsWritten, RenameAsWritten, CircuitShortName);
  }

  // ---- corrected ---------------------------------------------------------------

  /** The derived `date` column is selected in place of `EventDate`, and
      `Circuit_ShortName` becomes `circuitId`, as the legacy `add_new_races`
      path renames `EventDate` to `date`. */
  const RequiredCorrected: seq<ColumnLabel> := [RoundNumber, EventName, Date, Year, CircuitShortName]
  function RenameCorrected(c: ColumnLabel): ColumnLabel {
    match c
    case RoundNumber => Round
    case EventName => Name
    case CircuitShortName => CircuitId
    case _ => c
  }

  /** Corrected, an appended race has a cell in exactly the stored columns:
      nothing is NaN and no column is added. */
  lemma CorrectedFillsStoredColumns(row: Row, raceId: string)
    requires ScheduleRow(row)
    ensures var a := Appended(row, RequiredCorrected, RenameCorrected, raceId);
            (forall c :: c in StoredRaceColumns ==> Cell(a, c).Some?) && a.Keys <= StoredRaceColumns
  {
    assert forall c :: c in RequiredCorrected ==> c in row;
    ProjectHas(row, RequiredCorrected, RenameCorrected, RoundNumber);
    ProjectHas(row, RequiredCorrected, RenameCorrected, EventName);
    ProjectHas(row, RequiredCorrected, RenameCorrected, Date);
    ProjectHas(row, RequiredCorrected, RenameCorrected, Year);
    ProjectHas(row, RequiredCorrected, RenameCorrected, CircuitShortName);
    ProjectWithin(row, RequiredCorrected, RenameCorrected, StoredRaceColumns);
  }

  /** Corrected, `date` and `circuitId` carry the schedule's date and circuit. */
  lemma CorrectedKeepsDateAndCircuit(row: Row, raceId: string)
    requires ScheduleRow(row)
    ensures var a := Appended(row, RequiredCorrected, RenameCorrected, raceId);
            Date in a && CircuitId in a && a[Date] == row[Date] && a[CircuitId] == row[CircuitShortName]
  {
    assert Date in RequiredCorrected && CircuitShortName in RequiredCorrected;
    ProjectValue(row, RequiredCorrected, RenameCorrected, Date);
    ProjectValue(row, RequiredCorrected, RenameCorrected, CircuitShortName);
  }
}
