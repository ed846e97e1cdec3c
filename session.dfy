/**
 * The app's session state and the script run that updates it in place (app.py:132-229).
 * processedResults and processedFiles are the two session entries; every method is proved
 * against the value-level specification in modules ResultCache and Batch.
 */
module SessionState {
  import opened ModelCalls
  import opened Stripes
  import opened TextRuns
  import opened ResultCache
  import opened FileLoop
  import opened Batch

  class Session {
    var processedResults: map<string, string>
    var processedFiles: seq<string>

    /** The cache as a value. */
    function Snapshot(): Ledger
      reads this
    {
      Ledger(processedResults, processedFiles)
    }

    ghost predicate Valid()
      reads this
    {
      Consistent(Snapshot())
    }

    /** A fresh session starts with an empty cache. */
    constructor ()
      ensures Valid()
      ensures processedResults == map[] && processedFiles == []
    {
      processedResults := map[];
      processedFiles := [];
    }

    /** The uploads whose name is not in processed_files, in upload order (new_files). */
    method SelectNewFiles(uploads: seq<Upload>) returns (newFiles: seq<Upload>)
      ensures newFiles == Unprocessed(uploads, processedFiles)
    {
      newFiles := [];
      var i := 0;
      while i < |uploads|
        invariant i <= |uploads|
        invariant newFiles == Unprocessed(uploads[..i], processedFiles)
      {
        assert uploads[..i + 1][..i] == uploads[..i];
        if uploads[i].name !in processedFiles {
          newFiles := newFiles + [uploads[i]];
        }
        i := i + 1;
      }
      assert uploads[..i] == uploads;
    }

    /**
     * Keeps only the entries of the current uploads; with no uploads both session entries
     * are emptied.
     */
    method Reconcile(uploads: seq<Upload>)
      requires Valid()
      modifies this
      ensures Valid()
      ensures Snapshot() == if uploads == [] then Ledger(map[], [])
                            else Reconciled(old(Snapshot()), Names(uploads))
    {
      if uploads != [] {
        var currentFileNames := Names(uploads);
        var currentResults: map<string, string> := map[];
        var i := 0;
        while i < |currentFileNames|
          invariant i <= |currentFileNames|
          invariant currentResults
                    == map name | name in processedResults && name in currentFileNames[..i] :: processedResults[name]
        {
          var name := currentFileNames[i];
          assert currentFileNames[..i + 1] == currentFileNames[..i] + [name];
          if name in processedResults {
            currentResults := currentResults[name := processedResults[name]];
          }
          i := i + 1;
        }
        assert currentFileNames[..i] == currentFileNames;
        processedResults := currentResults;
        processedFiles := Kept(processedFiles, currentFileNames);
      } else {
        processedResults := map[];
        processedFiles := [];
      }
    }

    /**
     * The batch loop over the selected files: OCR each stripe in order, synthesize once,
     * then record; the first exception stops the whole batch.  Returns total_steps, the
     * final current_step and how the batch ended.
     */
    method ProcessBatch(newFiles: seq<Upload>, ocr: Ocr, synth: Synthesizer)
      returns (totalSteps: nat, currentStep: nat, outcome: Outcome)
      requires Valid()
      modifies this
      ensures Valid()
      ensures totalSteps == TotalSteps(|newFiles|) && currentStep <= totalSteps
      ensures Progress(Snapshot(), currentStep, outcome) == RunBatch(old(Snapshot()), newFiles, ocr, synth)
    {
      totalSteps := 5 * |newFiles| + |newFiles|;
      currentStep := 0;
      outcome := Completed;
      ghost var start := Snapshot();
      StepsWithinTotal(start, newFiles, ocr, synth);
      var k := 0;
      while k < |newFiles|
        invariant k <= |newFiles|
        invariant Valid()
        invariant RunBatch(start, newFiles[..k], ocr, synth) == Progress(Snapshot(), currentStep, Completed)
      {
        var u := newFiles[k];
        ghost var before := Snapshot();
        ghost var stepsBefore := currentStep;
        var result;
        result, currentStep := ProcessUpload(u, ocr, synth, currentStep);
        RunBatchStep(start, newFiles, k, before, stepsBefore, ocr, synth);
        if result.FileFailed? {
          outcome := Aborted(Failure(k, result.stage, result.message));
          return;
        }
        CommitKeepsConsistent(before, u.name, result.markdown);
        processedResults := processedResults[u.name := result.markdown];
        processedFiles := processedFiles + [u.name];
        k := k + 1;
      }
      assert newFiles[..k] == newFiles;
    }

    /**
     * One run of the script with the current uploads: select, reconcile, then process the
     * selection if there is one.
     */
    method Run(uploads: seq<Upload>, ocr: Ocr, synth: Synthesizer) returns (currentStep: nat, outcome: Outcome)
      requires Valid()
      modifies this
      ensures Valid()
      ensures Progress(Snapshot(), currentStep, outcome) == Rerun(old(Snapshot()), uploads, ocr, synth)
    {
      var newFiles := SelectNewFiles(uploads);
      Reconcile(uploads);
      currentStep, outcome := 0, Completed;
      if uploads != [] && newFiles != [] {
        var totalSteps;
        totalSteps, currentStep, outcome := ProcessBatch(newFiles, ocr, synth);
      }
    }
  }

  /**
   * The stripe loop of one file: OCR stripe after stripe, collecting the texts in order,
   * advancing the counter before each call and stopping at the first exception.
   */
  method OcrStripes(u: Upload, stripes: seq<Box>, ocr: Ocr, stepsBefore: nat)
    returns (run: OcrRun, currentStep: nat)
    ensures run == OcrRuns(u, stripes, ocr)
    ensures run.Runs? ==> |run.texts| == |stripes|
    ensures currentStep == stepsBefore + (if run.Runs? then |stripes| else run.stripe + 1)
  {
    currentStep := stepsBefore;
    var markdownRuns: seq<string> := [];
    var i := 0;
    while i < |stripes|
      invariant i <= |stripes|
      invariant currentStep == stepsBefore + i
      invariant OcrRuns(u, stripes[..i], ocr) == Runs(markdownRuns)
      invariant |markdownRuns| == i
    {
      assert stripes[..i + 1][..i] == stripes[..i];
      currentStep := currentStep + 1;
      var stripeMarkdown := ocr(u, stripes[i]);
      if stripeMarkdown.Err? {
        run := OcrFailed(i, stripeMarkdown.error);
        OcrRunsStopAtFailure(u, stripes, i + 1, ocr);
        return;
      }
      markdownRuns := markdownRuns + [stripeMarkdown.value];
      i := i + 1;
    }
    assert stripes[..i] == stripes;
    run := Runs(markdownRuns);
  }

  /**
   * One upload: cut it into stripes, OCR them in order, join the texts and synthesize the
   * tables once; the counter advances before each model call (app.py:185-216).
   */
  method ProcessUpload(u: Upload, ocr: Ocr, synth: Synthesizer, stepsBefore: nat)
    returns (result: FileResult, currentStep: nat)
    ensures result == ProcessFile(u, ocr, synth)
    ensures currentStep == stepsBefore + FileSteps(u, ocr)
  {
    var stripes := SplitIntoStripes(u.width, u.height, StripeCount, OverlapHeight(u.height / StripeCount));
    var run;
    run, currentStep := OcrStripes(u, stripes, ocr, stepsBefore);
    if run.OcrFailed? {
      result := FileFailed(OcrStage(run.stripe), run.message);
      return;
    }
    currentStep := currentStep + 1;
    var tableOutput := synth(JoinRuns(run.texts));
    if tableOutput.Err? {
      result := FileFailed(SynthesisStage, tableOutput.error);
    } else {
      result := Table(tableOutput.value);
    }
  }
}
