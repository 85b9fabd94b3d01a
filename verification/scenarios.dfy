/**
 Concrete runs of the pipeline on small staging tables.
 */
module Scenarios {
  import opened Sql
  import opened Validation
  import opened Transform
  import opened Pipeline

  function Speaker(id: int, name: string, country: string, flag: int): Row
  {
    map[Id := Int(id), Name := Str(name), Country := Str(country), Flag := Int(flag)]
  }

  /** Carlos and Ana come out as Ana (id 1) then Carlos (id 2), with one timestamp. */
  lemma CarlosAndAna(ts: string)
    ensures
      var t := Table(Required, [Speaker(1, "Carlos", "BR", 1), Speaker(2, "Ana", "BR", 0)]);
      RunFile(Ok(t), ts, true)
        == Exported([OutRow(1, Str("Ana"), Str("BR"), Int(0), ts), OutRow(2, Str("Carlos"), Str("BR"), Int(1), ts)])
  {
    var t := Table(Required, [Speaker(1, "Carlos", "BR", 1), Speaker(2, "Ana", "BR", 0)]);
    assert Conforms(t) by {
      assert RowConforms(t.rows[0]) && RowConforms(t.rows[1]);
    }
    var carlos := Entry(Str("Carlos"), Str("BR"), Int(1));
    var ana := Entry(Str("Ana"), Str("BR"), Int(0));
    assert Entries(t) == [carlos, ana];
    assert !Le(Str("Carlos"), Str("Ana"));
  }

  /** A flag of 2 is rejected by the domain gate, and nothing is exported. */
  lemma FlagTwoRejected(ts: string, exportSucceeds: bool)
    ensures
      var t := Table(Required, [Speaker(1, "Carlos", "BR", 2)]);
      && Validate(t) == InvalidFlag
      && RunFile(Ok(t), ts, exportSucceeds) == Rejected(InvalidFlag)
      && !ProcessFile(Ok(t), ts, exportSucceeds)
  {
  }

  /** A table without a `country` column is rejected by the schema gate. */
  lemma MissingCountryRejected(ts: string, exportSucceeds: bool)
    ensures
      var t := Table({Id, Name, Flag}, [map[Id := Int(1), Name := Str("Ana"), Flag := Int(0)]]);
      && Validate(t) == MissingColumns
      && RunFile(Ok(t), ts, exportSucceeds) == Rejected(MissingColumns)
  {
  }
}
