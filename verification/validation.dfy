/**
 The validator of src/etl_pipeline.py (`validate_data`): three gates run in
 order over the staging table, stopping at the first that fails, with any
 engine error turned into a rejection.
 */
module Validation {
  import opened Sql

  const Id := "id"
  const Name := "name"
  const Country := "country"
  const Flag := "is_botafoguense"

  /** The columns every staging table must carry; others are allowed and ignored. */
  const Required: set<string> := {Id, Name, Country, Flag}

  /** Why a table was rejected, standing for the diagnostic line the validator prints. */
  datatype Verdict =
    | Valid
    | MissingColumns
    | NullValues
    | InvalidFlag
    | EngineFailure(message: string)

  // ---------------------------------------------------------------------------
  // What a conforming table is, stated directly
  // ---------------------------------------------------------------------------

  /** Some required column of `row` is NULL. */
  predicate HasNull(row: Row)
  {
    exists c :: c in Required && Cell(row, c).Null?
  }

  /** The flag is exactly 0 or 1. */
  predicate FlagIsBit(row: Row)
  {
    Cell(row, Flag) == Int(0) || Cell(row, Flag) == Int(1)
  }

  predicate RowConforms(row: Row)
  {
    !HasNull(row) && FlagIsBit(row)
  }

  /** The table has the required columns, and every row is complete with a 0/1 flag. */
  predicate Conforms(t: Table)
  {
    Required <= t.columns && forall i :: 0 <= i < |t.rows| ==> RowConforms(t.rows[i])
  }

  // ---------------------------------------------------------------------------
  // The queries the validator runs
  // ---------------------------------------------------------------------------

  /** `WHERE id IS NULL OR name IS NULL OR country IS NULL OR is_botafoguense IS NULL` */
  function NullPredicate(row: Row): (r: Result<Truth>)
    ensures r.Ok?
    ensures r.value.True? <==> HasNull(row)
  {
    Ok(Or3(IsNull3(Cell(row, Id)),
       Or3(IsNull3(Cell(row, Name)),
       Or3(IsNull3(Cell(row, Country)), IsNull3(Cell(row, Flag))))))
  }

  /**
   `WHERE is_botafoguense NOT IN (0, 1)`, that is `NOT (flag = 0 OR flag = 1)`
   in three-valued logic: a NULL flag makes the condition UNKNOWN, not TRUE.
   */
  function FlagPredicate(row: Row): (r: Result<Truth>)
    ensures r.Err? <==> Cell(row, Flag).Str?
    ensures r == Ok(Unknown) <==> Cell(row, Flag).Null?
    ensures r == Ok(True) <==> Cell(row, Flag).Int? && !FlagIsBit(row)
  {
    var v := Cell(row, Flag);
    match EqInt3(v, 0)
    case Err(m) => Err(m)
    case Ok(isZero) =>
      match EqInt3(v, 1)
      case Err(m) => Err(m)
      case Ok(isOne) => Ok(Not3(Or3(isZero, isOne)))
  }

  /**
   `SELECT COUNT(*) ... WHERE p`, where an error on any row fails the query.
   The validator only asks whether the count is positive, so that is what the
   contract states: positive exactly when some row makes `p` TRUE (FALSE and
   UNKNOWN rows are not counted), and never more than the number of rows.
   */
  function CountWhere(rows: seq<Row>, p: Row -> Result<Truth>): (r: Result<nat>)
    ensures r.Ok? <==> forall i :: 0 <= i < |rows| ==> p(rows[i]).Ok?
    ensures r.Ok? ==> (r.value > 0 <==> exists i :: 0 <= i < |rows| && p(rows[i]) == Ok(True))
    ensures r.Ok? ==> r.value <= |rows|
  {
    if |rows| == 0 then Ok(0)
    else
      match p(rows[0])
      case Err(m) => Err(m)
      case Ok(t) =>
        match CountWhere(rows[1..], p)
        case Err(m) => Err(m)
        case Ok(n) => Ok(n + if t.True? then 1 else 0)
  }

  /** `validate_data`: schema gate, then null gate, then domain gate. */
  function Validate(t: Table): (v: Verdict)
    ensures v == MissingColumns <==> !(Required <= t.columns)
    ensures v == NullValues <==>
      Required <= t.columns && exists i :: 0 <= i < |t.rows| && HasNull(t.rows[i])
    ensures v == InvalidFlag <==>
      && Required <= t.columns
      && (forall i :: 0 <= i < |t.rows| ==> !HasNull(t.rows[i]) && Cell(t.rows[i], Flag).Int?)
      && (exists i :: 0 <= i < |t.rows| && !FlagIsBit(t.rows[i]))
    ensures v.EngineFailure? <==>
      && Required <= t.columns
      && (forall i :: 0 <= i < |t.rows| ==> !HasNull(t.rows[i]))
      && (exists i :: 0 <= i < |t.rows| && Cell(t.rows[i], Flag).Str?)
    ensures v.Valid? <==> Conforms(t)
  {
    if !(Required <= t.columns) then MissingColumns
    else match CountWhere(t.rows, NullPredicate)
      case Err(m) => EngineFailure(m)
      case Ok(nulls) =>
        if nulls > 0 then NullValues
        else match CountWhere(t.rows, FlagPredicate)
          case Err(m) => EngineFailure(m)
          case Ok(bad) => if bad > 0 then InvalidFlag else Valid
  }

  /** The boolean `validate_data` returns. */
  function ValidateData(t: Table): (ok: bool)
    ensures ok <==> Conforms(t)
  {
    Validate(t).Valid?
  }

  /**
   The domain query on its own does not reject a NULL flag: `NULL NOT IN (0, 1)`
   is UNKNOWN, so such rows are not counted. The validator still rejects the
   table, because the null gate runs before the domain gate.
   */
  lemma NullFlagCaughtOnlyByNullGate(t: Table)
    requires Required <= t.columns
    requires forall i :: 0 <= i < |t.rows| ==>
      Cell(t.rows[i], Flag).Null? || FlagIsBit(t.rows[i])
    requires exists i :: 0 <= i < |t.rows| && Cell(t.rows[i], Flag).Null?
    ensures CountWhere(t.rows, FlagPredicate) == Ok(0)
    ensures Validate(t) == NullValues
  {
  }
}
