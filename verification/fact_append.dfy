/** The fact-table append (`add_new_entries` at module level): incoming rows
    are appended after the stored rows unless their raceId already occurs in
    the stored table. The granularity is the race: once any row of a race is
    stored, every further row of that race is rejected, and incoming rows are
    not de-duplicated. Reading and writing the CSV file is modelled by taking
    the stored file as a parameter and returning the new one. */
module FactAppend {
  import opened Wrappers
  import opened Seqs

  /** The stored table extended by the incoming rows of races it does not hold yet. */
  function AppendFacts<R(==)>(stored: seq<R>, incoming: seq<R>, raceOf: R -> int): (r: seq<R>)
    // the stored rows are an unchanged prefix
    ensures |r| >= |stored| && r[..|stored|] == stored
    // every appended row is an incoming row of a race the stored table lacks
    ensures forall i :: |stored| <= i < |r| ==> r[i] in incoming && raceOf(r[i]) !in KeySet(stored, raceOf)
    // each incoming row of a new race is appended as often as it comes in, and no other row is
    ensures forall x :: x in incoming ==>
              multiset(r[|stored|..])[x] == if raceOf(x) in KeySet(stored, raceOf) then 0 else multiset(incoming)[x]
    // the appended rows are the incoming rows of new races, in their incoming order
    ensures r[|stored|..] == WithoutKeys(incoming, raceOf, KeySet(stored, raceOf))
  {
    var existing := KeySet(stored, raceOf);
    var added := WithoutKeys(incoming, raceOf, existing);
    WithoutKeysCount(incoming, raceOf, existing);
    if |added| == 0 then
      assert stored[|stored|..] == [];
      stored
    else
      assert (stored + added)[|stored|..] == added;
      stored + added
  }

  /** A fact file as stored: when the caller names an index column
      (`index_label`), the file carries that column alongside the rows. */
  datatype FactFile<R> = FactFile(index: Option<seq<int>>, rows: seq<R>)

  predicate WellFormed<R>(f: FactFile<R>) {
    f.index.Some? ==> |f.index.value| == |f.rows|
  }

  /** `add_new_entries`: the file after the call. The concatenation drops the
      stored index (`ignore_index=True`), so whenever something is written an
      index column is renumbered 0, 1, ..., n-1; when nothing is new the file
      is not written at all. */
  function AddNewEntries<R(==)>(file: FactFile<R>, incoming: seq<R>, raceOf: R -> int): (r: FactFile<R>)
    requires WellFormed(file)
    ensures WellFormed(r)
    ensures r.index.Some? <==> file.index.Some?
    ensures r.rows == AppendFacts(file.rows, incoming, raceOf)
    // nothing new: the file, index included, is untouched
    ensures (forall x :: x in incoming ==> raceOf(x) in KeySet(file.rows, raceOf)) ==> r == file
    // something new: the index column counts the rows from 0
    ensures |r.rows| > |file.rows| && r.index.Some? ==> forall i :: 0 <= i < |r.rows| ==> r.index.value[i] == i
  {
    var rows := AppendFacts(file.rows, incoming, raceOf);
    AppendFactsNoOp(file.rows, incoming, raceOf);
    if |rows| == |file.rows| then
      assert rows == rows[..|file.rows|];
      file
    else FactFile(if file.index.Some? then Some(seq(|rows|, i => i)) else None, rows)
  }

  /** With an index column, an append keeps the stored ids exactly when they
      already were 0, 1, ..., n-1; any other stored ids are rewritten. */
  lemma {:induction false} IndexRenumbered<R>(file: FactFile<R>, incoming: seq<R>, raceOf: R -> int)
    requires WellFormed(file) && file.index.Some?
    ensures var r := AddNewEntries(file, incoming, raceOf);
            |r.rows| > |file.rows| ==>
              (r.index.value[..|file.rows|] == file.index.value
               <==> forall i :: 0 <= i < |file.rows| ==> file.index.value[i] == i)
  {
    var r := AddNewEntries(file, incoming, raceOf);
    var n := |file.rows|;
    if |r.rows| > n {
      if r.index.value[..n] == file.index.value {
        forall i | 0 <= i < n ensures file.index.value[i] == i {
          assert r.index.value[..n][i] == r.index.value[i];
        }
      }
    }
  }

  /** A results row reduced to the column the append looks at. */
  function RaceOfResult(raceId: int): int { raceId }

  /** Stored resultIds 1 and 2 come back as 0 and 1 once a new race's row is appended. */
  lemma RenumberExample()
    ensures AddNewEntries(FactFile(Some([1, 2]), [10, 10]), [11], RaceOfResult)
         == FactFile(Some([0, 1, 2]), [10, 10, 11])
  {
    var stored := [10, 10];
    var existing := KeySet(stored, RaceOfResult);
    assert forall x :: x in stored ==> RaceOfResult(x) == 10;
    assert 11 !in existing;
    assert [11][1..] == [];
    assert WithoutKeys([11], RaceOfResult, existing) == [11];
    var r := AddNewEntries(FactFile(Some([1, 2]), stored), [11], RaceOfResult);
    assert r.rows == [10, 10, 11];
    assert r.index.value == [0, 1, 2];
  }

  /** Nothing is written exactly when every incoming raceId is already stored. */
  lemma AppendFactsNoOp<R>(stored: seq<R>, incoming: seq<R>, raceOf: R -> int)
    ensures AppendFacts(stored, incoming, raceOf) == stored
        <==> forall x :: x in incoming ==> raceOf(x) in KeySet(stored, raceOf)
  {
    var existing := KeySet(stored, raceOf);
    WithoutKeysEmpty(incoming, raceOf, existing);
    if exists x :: x in incoming && raceOf(x) !in existing {
      var x :| x in incoming && raceOf(x) !in existing;
      var r := AppendFacts(stored, incoming, raceOf);
      assert multiset(r[|stored|..])[x] == multiset(incoming)[x] > 0;
    }
  }

  /** The new rows of incoming `a + b` are those of `a` followed by those of `b`:
      the append keeps the incoming order. */
  lemma AppendFactsSplit<R>(stored: seq<R>, a: seq<R>, b: seq<R>, raceOf: R -> int)
    ensures AppendFacts(stored, a + b, raceOf)
         == AppendFacts(stored, a, raceOf) + AppendFacts(stored, b, raceOf)[|stored|..]
  {
    var e := KeySet(stored, raceOf);
    var wa, wb := WithoutKeys(a, raceOf, e), WithoutKeys(b, raceOf, e);
    calc {
      AppendFacts(stored, a + b, raceOf);
      { AppendedSuffix(stored, a + b, raceOf); }
      stored + WithoutKeys(a + b, raceOf, e);
      { WithoutKeysConcat(a, b, raceOf, e); }
      stored + (wa + wb);
      (stored + wa) + wb;
      { AppendedSuffix(stored, a, raceOf); }
      AppendFacts(stored, a, raceOf) + wb;
    }
  }

  /** The appended table is the stored table followed by its appended suffix. */
  lemma AppendedSuffix<R>(stored: seq<R>, incoming: seq<R>, raceOf: R -> int)
    ensures AppendFacts(stored, incoming, raceOf) == stored + WithoutKeys(incoming, raceOf, KeySet(stored, raceOf))
  {
    var r := AppendFacts(stored, incoming, raceOf);
    assert r == r[..|stored|] + r[|stored|..];
  }

  /** After an append every incoming raceId is stored, so a second identical call writes nothing. */
  lemma AppendFactsIdempotent<R>(stored: seq<R>, incoming: seq<R>, raceOf: R -> int)
    ensures var once := AppendFacts(stored, incoming, raceOf);
            AppendFacts(once, incoming, raceOf) == once
  {
    var once := AppendFacts(stored, incoming, raceOf);
    forall x | x in incoming
      ensures raceOf(x) in KeySet(once, raceOf)
    {
      if raceOf(x) in KeySet(stored, raceOf) {
        var y :| y in stored && raceOf(y) == raceOf(x);
        var i :| 0 <= i < |stored| && stored[i] == y;
        assert once[i] == y;
      } else {
        var tail := once[|stored|..];
        assert multiset(tail)[x] == multiset(incoming)[x] > 0;
        assert x in tail;
        var k :| 0 <= k < |tail| && tail[k] == x;
        assert once[|stored| + k] == x;
      }
    }
    AppendFactsNoOp(once, incoming, raceOf);
  }
}
