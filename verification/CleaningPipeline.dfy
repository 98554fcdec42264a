/**
 The pipeline as it runs: one frame and one register, rebound and appended to stage by
 stage.
 */
module CleaningPipeline {
  import opened Cleaning
  import opened CleaningReconciles

  method CleanFrame(src: seq<RawRow>, sw: Switches) returns (r: Result<Stage>)
    ensures r == Clean(src, sw)
    ensures r.Ok? && Documented(sw.neg) ==> Closes(src, r.value)
    ensures r.Ok? ==> |src| - TotalDropped(r.value.log) == |r.value.frame|
  {
    hide Dedupe, Restatements, Missing, Negative, Anomaly, Finished, Closes, TotalDropped, Relabelled;
    if Clean(src, sw).Ok? {
      TotalsReconcileIff(src, sw);
      RowsReconcile(src, sw);
    }
    var parsed := ParsedAll(src, sw.dayFirst);
    if parsed.Stopped? {
      return Stopped(parsed.error);
    }
    var d, log := parsed.value, Relabelled(src);

    // duplicates before imputing, so that a doubled row cannot skew the rate
    var deduped := Dedupe(d, sw);
    d, log := deduped.frame, log + deduped.log;
    var settled := Restatements(d, sw);
    if settled.Stopped? {
      return settled;
    }
    d, log := settled.value.frame, log + settled.value.log;

    var priced := d;
    var filled := Missing(d, sw);
    if filled.Stopped? {
      return filled;
    }
    d, log := filled.value.frame, log + filled.value.log;
    var counted := Negative(d, sw);
    if counted.Stopped? {
      return counted;
    }
    d, log := counted.value.frame, log + counted.value.log;
    var billed := Anomaly(d, priced, sw);
    d, log := billed.frame, log + billed.log;

    var finished := Finished(d);
    if finished.Stopped? {
      return Stopped(finished.error);
    }
    r := Ok(Stage(finished.value, log));
  }
}
