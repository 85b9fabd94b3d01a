/**
 The transform of src/etl_pipeline.py (the `CREATE TABLE output_data` query):
 rows ordered by `name`, `id` regenerated as ROW_NUMBER() over that order,
 `name`, `country` and `is_botafoguense` carried over, and one
 `last_update_date` stamped on every row.
 */
module Transform {
  import opened Sql
  import opened Sorting
  import Validation

  /** The three columns the transform carries over from a staging row. */
  datatype Entry = Entry(name: Value, country: Value, isBotafoguense: Value)

  /** A row of the output table. */
  datatype OutRow = OutRow(
    id: int,
    name: Value,
    country: Value,
    isBotafoguense: Value,
    lastUpdateDate: string)

  function EntryOf(row: Row): Entry
  {
    Entry(Cell(row, Validation.Name), Cell(row, Validation.Country), Cell(row, Validation.Flag))
  }

  function EntryName(e: Entry): Value
  {
    e.name
  }

  function OutName(o: OutRow): Value
  {
    o.name
  }

  function OutId(o: OutRow): int
  {
    o.id
  }

  /** The carried-over columns of an output row. */
  function Carried(o: OutRow): Entry
  {
    Entry(o.name, o.country, o.isBotafoguense)
  }

  /** The staging rows, reduced to the columns the transform keeps. */
  function Entries(t: Table): seq<Entry>
  {
    Map(EntryOf, t.rows)
  }

  /** ROW_NUMBER() over the order `w`, together with the timestamp column. */
  function Number(w: seq<Entry>, ts: string): seq<OutRow>
  {
    seq(|w|, i requires 0 <= i < |w| =>
      OutRow(i + 1, w[i].name, w[i].country, w[i].isBotafoguense, ts))
  }

  /** The ids 1, 2, ..., n. */
  function DenseIds(n: nat): seq<int>
  {
    seq(n, i requires 0 <= i < n => i + 1)
  }

  /**
   What the transform promises about its output for staging table `t` and
   timestamp `ts`: one row per input row, ids 1..N in row order, rows
   ascending by name, the carried-over columns a permutation of the input's,
   and the same timestamp on every row.
   */
  predicate IsOutputOf(t: Table, ts: string, out: seq<OutRow>)
  {
    && |out| == |t.rows|
    && (forall i :: 0 <= i < |out| ==> out[i].id == i + 1)
    && SortedBy(out, OutName)
    && multiset(Map(Carried, out)) == multiset(Entries(t))
    && (forall i :: 0 <= i < |out| ==> out[i].lastUpdateDate == ts)
  }

  lemma NumberCarries(w: seq<Entry>, ts: string)
    ensures Map(Carried, Number(w, ts)) == w
    ensures Map(OutId, Number(w, ts)) == DenseIds(|w|)
  {
  }

  lemma NumberKeepsNameOrder(w: seq<Entry>, ts: string)
    ensures SortedBy(w, EntryName) <==> SortedBy(Number(w, ts), OutName)
    ensures DistinctKeys(w, EntryName) <==> DistinctKeys(Number(w, ts), OutName)
  {
    var out := Number(w, ts);
    assert forall i :: 0 <= i < |w| ==> OutName(out[i]) == EntryName(w[i]);
  }

  /**
   The transform, with ties among equal names resolved by one fixed order
   (that of `InsertionSort`) used both for numbering and for listing.
   */
  function TransformRows(t: Table, ts: string): (out: seq<OutRow>)
    ensures IsOutputOf(t, ts, out)
  {
    var w := InsertionSort(Entries(t), EntryName);
    NumberKeepsNameOrder(w, ts);
    NumberCarries(w, ts);
    Number(w, ts)
  }

  // ---------------------------------------------------------------------------
  // What the query admits
  // ---------------------------------------------------------------------------

  /** An order ORDER BY name may produce: the entries, ascending by name, ties in any order. */
  predicate IsNameOrderOf(es: seq<Entry>, w: seq<Entry>)
  {
    SortedBy(w, EntryName) && multiset(w) == multiset(es)
  }

  /**
   The outputs the query admits as written: ROW_NUMBER() numbers the rows in
   some ORDER BY name order `w`, and the outer ORDER BY name then lists the
   numbered rows in some ascending-by-name order that need not be `w`.
   */
  ghost predicate AdmittedAsWritten(t: Table, ts: string, out: seq<OutRow>)
  {
    exists w :: IsNameOrderOf(Entries(t), w)
      && SortedBy(out, OutName)
      && multiset(out) == multiset(Number(w, ts))
  }

  /**
   The outputs the query admits when the outer clause is ORDER BY id: the rows
   are listed exactly in the order they were numbered.
   */
  ghost predicate AdmittedOrderedById(t: Table, ts: string, out: seq<OutRow>)
  {
    exists w :: IsNameOrderOf(Entries(t), w) && out == Number(w, ts)
  }

  /** The model's transform is one of the outputs the query admits, in either form. */
  lemma TransformRowsAdmitted(t: Table, ts: string)
    ensures AdmittedAsWritten(t, ts, TransformRows(t, ts))
    ensures AdmittedOrderedById(t, ts, TransformRows(t, ts))
  {
  }

  /**
   Whatever tie order the engine picks, the query as written keeps the row
   count, the carried-over columns and the timestamp, sorts by name, and uses
   each id 1..N exactly once (though not necessarily in row order).
   */
  lemma AsWrittenGuarantees(t: Table, ts: string, out: seq<OutRow>)
    requires AdmittedAsWritten(t, ts, out)
    ensures |out| == |t.rows|
    ensures SortedBy(out, OutName)
    ensures multiset(Map(Carried, out)) == multiset(Entries(t))
    ensures multiset(Map(OutId, out)) == multiset(DenseIds(|t.rows|))
    ensures forall i :: 0 <= i < |out| ==> out[i].lastUpdateDate == ts
  {
    var w :| IsNameOrderOf(Entries(t), w)
      && SortedBy(out, OutName)
      && multiset(out) == multiset(Number(w, ts));
    var numbered := Number(w, ts);
    assert |out| == |multiset(out)| == |multiset(numbered)| == |numbered|;
    assert |w| == |multiset(w)| == |multiset(Entries(t))| == |t.rows|;
    NumberCarries(w, ts);
    MapPreservesPermutation(Carried, out, numbered);
    MapPreservesPermutation(OutId, out, numbered);
    forall i | 0 <= i < |out|
      ensures out[i].lastUpdateDate == ts
    {
      assert out[i] in multiset(numbered);
    }
  }

  /** With ORDER BY id outside, every admitted output meets the full promise. */
  lemma OrderedByIdGuarantees(t: Table, ts: string, out: seq<OutRow>)
    requires AdmittedOrderedById(t, ts, out)
    ensures IsOutputOf(t, ts, out)
  {
    var w :| IsNameOrderOf(Entries(t), w) && out == Number(w, ts);
    assert |w| == |multiset(w)| == |multiset(Entries(t))| == |t.rows|;
    NumberKeepsNameOrder(w, ts);
    NumberCarries(w, ts);
  }

  /** No two staging rows share a name. */
  predicate DistinctNames(t: Table)
  {
    forall i, j :: 0 <= i < j < |t.rows| ==> Cell(t.rows[i], Validation.Name) != Cell(t.rows[j], Validation.Name)
  }

  /**
   When names are distinct the outer ORDER BY name has no ties to break, so
   it lists the rows exactly in the order ROW_NUMBER() numbered them.
   */
  lemma DistinctNamesListInNumberedOrder(t: Table, ts: string, out: seq<OutRow>)
    requires DistinctNames(t)
    requires AdmittedAsWritten(t, ts, out)
    ensures AdmittedOrderedById(t, ts, out)
  {
    var es := Entries(t);
    var w :| IsNameOrderOf(es, w)
      && SortedBy(out, OutName)
      && multiset(out) == multiset(Number(w, ts));
    assert DistinctKeys(es, EntryName);
    PermutationKeepsDistinctKeys(es, w, EntryName);
    NumberKeepsNameOrder(w, ts);
    SortedPermutationUnique(Number(w, ts), out, OutName);
  }

  /**
   When no two rows share a name, every output the query as written admits
   has ids 1..N in row order, along with the rest of the transform promise.
   */
  lemma DistinctNamesGiveDenseIds(t: Table, ts: string, out: seq<OutRow>)
    requires DistinctNames(t)
    requires AdmittedAsWritten(t, ts, out)
    ensures IsOutputOf(t, ts, out)
  {
    DistinctNamesListInNumberedOrder(t, ts, out);
    OrderedByIdGuarantees(t, ts, out);
  }

  /**
   When no two rows share a name, the query as written admits only one
   output; by `TransformRowsAdmitted` it is the model's.
   */
  lemma DistinctNamesDetermineOutput(t: Table, ts: string, out: seq<OutRow>, out': seq<OutRow>)
    requires DistinctNames(t)
    requires AdmittedAsWritten(t, ts, out)
    requires AdmittedAsWritten(t, ts, out')
    ensures out == out'
  {
    var es := Entries(t);
    DistinctNamesListInNumberedOrder(t, ts, out);
    DistinctNamesListInNumberedOrder(t, ts, out');
    var w :| IsNameOrderOf(es, w) && out == Number(w, ts);
    var w' :| IsNameOrderOf(es, w') && out' == Number(w', ts);
    assert DistinctKeys(es, EntryName);
    PermutationKeepsDistinctKeys(es, w, EntryName);
    SortedPermutationUnique(w, w', EntryName);
  }

  /**
   With two rows named "Ana" the query as written admits an output that lists
   id 2 before id 1: it passes validation, yet its ids are not 1..N in row order.
   */
  lemma TiedNamesScrambleIds(ts: string)
    ensures
      var first := map["id" := Int(1), "name" := Str("Ana"), "country" := Str("BR"), "is_botafoguense" := Int(1)];
      var second := map["id" := Int(2), "name" := Str("Ana"), "country" := Str("PT"), "is_botafoguense" := Int(0)];
      var t := Table(Validation.Required, [first, second]);
      var out := [OutRow(2, Str("Ana"), Str("PT"), Int(0), ts), OutRow(1, Str("Ana"), Str("BR"), Int(1), ts)];
      && Validation.ValidateData(t)
      && AdmittedAsWritten(t, ts, out)
      && !IsOutputOf(t, ts, out)
  {
    var first := map["id" := Int(1), "name" := Str("Ana"), "country" := Str("BR"), "is_botafoguense" := Int(1)];
    var second := map["id" := Int(2), "name" := Str("Ana"), "country" := Str("PT"), "is_botafoguense" := Int(0)];
    var t := Table(Validation.Required, [first, second]);
    var out := [OutRow(2, Str("Ana"), Str("PT"), Int(0), ts), OutRow(1, Str("Ana"), Str("BR"), Int(1), ts)];
    var w := [Entry(Str("Ana"), Str("BR"), Int(1)), Entry(Str("Ana"), Str("PT"), Int(0))];
    assert Entries(t) == w;
    LeReflexive(Str("Ana"));
    assert IsNameOrderOf(Entries(t), w);
    assert Number(w, ts) == [out[1], out[0]];
    assert multiset(out) == multiset(Number(w, ts));
    assert SortedBy(out, OutName);
    assert Validation.RowConforms(first) && Validation.RowConforms(second);
  }
}
