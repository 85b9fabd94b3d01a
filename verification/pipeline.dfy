/**
 `process_file` of src/etl_pipeline.py: load, validate, and only on success
 transform and export; every failure becomes `false`. CSV ingestion, the
 clock and the export are outside the model and enter as parameters.
 */
module Pipeline {
  import opened Sql
  import opened Validation
  import opened Transform

  /** The terminal state one file's run ends in. */
  datatype Outcome =
    | LoadFailed
    | Rejected(reason: Verdict)
    | ExportFailed
    | Exported(written: seq<OutRow>)

  /**
   One file's run. `loaded` is what CSV ingestion produced (an error when the
   file cannot be read), `ts` is the clock reading taken once for the file,
   and `exportSucceeds` says whether building and writing the output table
   succeeds. A rejected table never reaches the transform. The exported rows
   are one of the outputs the query admits; among rows with equal names they
   follow the fixed tie order of `TransformRows`.
   */
  function RunFile(loaded: Result<Table>, ts: string, exportSucceeds: bool): (o: Outcome)
    ensures loaded.Err? ==> o == LoadFailed
    ensures loaded.Ok? && !Conforms(loaded.value) ==> o == Rejected(Validate(loaded.value)) && !o.reason.Valid?
    ensures o == ExportFailed <==> loaded.Ok? && Conforms(loaded.value) && !exportSucceeds
    ensures o.Exported? <==> loaded.Ok? && Conforms(loaded.value) && exportSucceeds
    ensures o.Exported? ==> AdmittedAsWritten(loaded.value, ts, o.written)
    ensures o.Exported? ==> IsOutputOf(loaded.value, ts, o.written)
  {
    match loaded
    case Err(_) => LoadFailed
    case Ok(t) =>
      var verdict := Validate(t);
      if !verdict.Valid? then Rejected(verdict)
      else if !exportSucceeds then ExportFailed
      else
        TransformRowsAdmitted(t, ts);
        Exported(TransformRows(t, ts))
  }

  /** The boolean `process_file` returns. */
  function ProcessFile(loaded: Result<Table>, ts: string, exportSucceeds: bool): (ok: bool)
    ensures ok <==> loaded.Ok? && Conforms(loaded.value) && exportSucceeds
  {
    RunFile(loaded, ts, exportSucceeds).Exported?
  }
}
