/**
 * The processing of one script run of the app (app.py:158-229), as values.
 * For every selected file, in order: cut the (already upscaled) image into five stripes,
 * OCR each stripe in order, join the texts, synthesize the tables once, and only then record
 * the result.  The first exception from either model call aborts the whole batch.
 *
 * The two model calls are oracles passed in as functions: `ocr` is asked about one stripe of
 * one upload, `synth` about the joined text; each returns the text or the exception message.
 */
module Batch {
  import opened ModelCalls
  import opened Stripes
  import opened TextRuns
  import opened ResultCache
  import opened FileLoop

  /** OCR of one stripe of one upload (app.py, ocr). */
  type Ocr = (Upload, Box) -> Result<string>

  /** Table synthesis from the joined stripe texts (app.py, format_to_table). */
  type Synthesizer = string -> Result<string>

  /** The default stripe_count the app relies on. */
  const StripeCount: nat := 5

  /** int(stripe_height * 0.1), the default overlap of 0.1, on whole rows. */
  function OverlapHeight(stripeHeight: nat): (r: nat)
    ensures 10 * r <= stripeHeight < 10 * r + 10
  {
    stripeHeight / 10
  }

  /** The stripes of an upload, top to bottom. */
  function StripesOf(u: Upload): (r: seq<Box>)
    ensures |r| == StripeCount
  {
    Layout(u.width, u.height, StripeCount, OverlapHeight(u.height / StripeCount))
  }

  /** The progress budget of a batch of n files: five stripe steps and one synthesis step each. */
  function TotalSteps(fileCount: nat): (r: nat)
    ensures r == (StripeCount + 1) * fileCount
  {
    5 * fileCount + fileCount
  }

  /** The OCR texts of a run of stripes, or the first stripe whose OCR raised. */
  datatype OcrRun = Runs(texts: seq<string>) | OcrFailed(stripe: nat, message: string)

  /** The stripe loop: OCR stripe after stripe, stopping at the first exception. */
  function OcrRuns(u: Upload, boxes: seq<Box>, ocr: Ocr): (r: OcrRun)
    ensures r.Runs? ==> |r.texts| == |boxes|
    ensures r.OcrFailed? ==> r.stripe < |boxes|
    decreases |boxes|
  {
    if boxes == [] then Runs([])
    else
      match OcrRuns(u, boxes[..|boxes| - 1], ocr)
      case OcrFailed(i, e) => OcrFailed(i, e)
      case Runs(texts) =>
        match ocr(u, boxes[|boxes| - 1])
        case Ok(t) => Runs(texts + [t])
        case Err(e) => OcrFailed(|boxes| - 1, e)
  }

  /** One file: OCR all stripes, then one synthesis over the joined texts. */
  function ProcessFile(u: Upload, ocr: Ocr, synth: Synthesizer): (r: FileResult)
    ensures r.FileFailed? && r.stage.OcrStage? ==> r.stage.stripe < StripeCount
    ensures r.Table? || r.stage.SynthesisStage? ==> OcrRuns(u, StripesOf(u), ocr).Runs?
  {
    match OcrRuns(u, StripesOf(u), ocr)
    case OcrFailed(i, e) => FileFailed(OcrStage(i), e)
    case Runs(texts) =>
      match synth(JoinRuns(texts))
      case Ok(t) => Table(t)
      case Err(e) => FileFailed(SynthesisStage, e)
  }

  /** Progress steps one file takes: one per stripe attempted, one for synthesis if reached. */
  function FileSteps(u: Upload, ocr: Ocr): (r: nat)
    ensures 1 <= r <= StripeCount + 1
  {
    match OcrRuns(u, StripesOf(u), ocr)
    case OcrFailed(i, _) => i + 1
    case Runs(texts) => |texts| + 1
  }

  /** The app's processing of one file, as a function of the upload. */
  function Process(ocr: Ocr, synth: Synthesizer): Upload -> FileResult
  {
    u => ProcessFile(u, ocr, synth)
  }

  /** The progress steps the app's processing of one file takes. */
  function Cost(ocr: Ocr): Upload -> nat
  {
    u => FileSteps(u, ocr)
  }

  /** The app's file loop over the selected files, from the cache `start`. */
  function RunBatch(start: Ledger, files: seq<Upload>, ocr: Ocr, synth: Synthesizer): (r: Progress)
    ensures r.outcome.Aborted? ==> r.outcome.failure.file < |files|
    ensures |start.files| <= |r.ledger.files| <= |start.files| + |files|
  {
    RunFilesFiles(start, files, Process(ocr, synth), Cost(ocr));
    RunFiles(start, files, Process(ocr, synth), Cost(ocr))
  }

  /**
   * One run of the script: select the files not yet processed, reconcile the cache with the
   * current uploads (clearing it when there are none), then process the selection if any.
   */
  function Rerun(l: Ledger, uploads: seq<Upload>, ocr: Ocr, synth: Synthesizer): (r: Progress)
    ensures r.steps <= TotalSteps(|uploads|)
    ensures uploads == [] ==> r == Progress(Ledger(map[], []), 0, Completed)
  {
    var newFiles := Unprocessed(uploads, l.files);
    var current := if uploads == [] then Ledger(map[], []) else Reconciled(l, Names(uploads));
    if uploads != [] && newFiles != [] then
      StepsWithinTotal(current, newFiles, ocr, synth);
      RunBatch(current, newFiles, ocr, synth)
    else Progress(current, 0, Completed)
  }

  // ---------------------------------------------------------------- one file

  /**
   * The stripes are OCR'd in order: the run succeeds exactly when every stripe's OCR does,
   * and then holds their texts in stripe order; otherwise it names the first stripe that
   * raised, all earlier stripes having succeeded.
   */
  lemma {:induction false} OcrRunsInStripeOrder(u: Upload, boxes: seq<Box>, ocr: Ocr)
    ensures OcrRuns(u, boxes, ocr).Runs? <==> forall j :: 0 <= j < |boxes| ==> ocr(u, boxes[j]).Ok?
    ensures OcrRuns(u, boxes, ocr).Runs? ==>
      var texts := OcrRuns(u, boxes, ocr).texts;
      |texts| == |boxes| && forall j :: 0 <= j < |boxes| ==> ocr(u, boxes[j]) == Ok(texts[j])
    ensures OcrRuns(u, boxes, ocr).OcrFailed? ==>
      var f := OcrRuns(u, boxes, ocr);
      && f.stripe < |boxes|
      && ocr(u, boxes[f.stripe]) == Err(f.message)
      && forall j :: 0 <= j < f.stripe ==> ocr(u, boxes[j]).Ok?
  {
    if boxes != [] {
      var front := boxes[..|boxes| - 1];
      OcrRunsInStripeOrder(u, front, ocr);
      assert forall j :: 0 <= j < |front| ==> front[j] == boxes[j];
    }
  }

  /** Once a prefix of the stripes has failed, the whole run fails the same way. */
  lemma {:induction false} OcrRunsStopAtFailure(u: Upload, boxes: seq<Box>, m: nat, ocr: Ocr)
    requires m <= |boxes| && OcrRuns(u, boxes[..m], ocr).OcrFailed?
    ensures OcrRuns(u, boxes, ocr) == OcrRuns(u, boxes[..m], ocr)
    decreases |boxes|
  {
    if m < |boxes| {
      var front := boxes[..|boxes| - 1];
      assert front[..m] == boxes[..m];
      OcrRunsStopAtFailure(u, front, m, ocr);
    } else {
      assert boxes[..m] == boxes;
    }
  }

  /**
   * A file yields a table only when all five stripes were OCR'd and the synthesis of their
   * texts, joined in stripe order, returned it; it then took six progress steps.  A failing
   * OCR of stripe i took i + 1 steps; a failing synthesis took six.
   */
  lemma FileOutcome(u: Upload, ocr: Ocr, synth: Synthesizer)
    ensures 1 <= FileSteps(u, ocr) <= StripeCount + 1
    ensures ProcessFile(u, ocr, synth).Table? ==>
      && FileSteps(u, ocr) == StripeCount + 1
      && exists texts: seq<string> ::
           && |texts| == StripeCount
           && (forall j :: 0 <= j < StripeCount ==> ocr(u, StripesOf(u)[j]) == Ok(texts[j]))
           && synth(JoinRuns(texts)) == Ok(ProcessFile(u, ocr, synth).markdown)
    ensures ProcessFile(u, ocr, synth).FileFailed? && ProcessFile(u, ocr, synth).stage.OcrStage? ==>
      var i := ProcessFile(u, ocr, synth).stage.stripe;
      && i < StripeCount
      && ocr(u, StripesOf(u)[i]) == Err(ProcessFile(u, ocr, synth).message)
      && (forall j :: 0 <= j < i ==> ocr(u, StripesOf(u)[j]).Ok?)
      && FileSteps(u, ocr) == i + 1
    ensures ProcessFile(u, ocr, synth).FileFailed? && ProcessFile(u, ocr, synth).stage.SynthesisStage? ==>
      && (forall j :: 0 <= j < StripeCount ==> ocr(u, StripesOf(u)[j]).Ok?)
      && OcrRuns(u, StripesOf(u), ocr).Runs?
      && synth(JoinRuns(OcrRuns(u, StripesOf(u), ocr).texts)) == Err(ProcessFile(u, ocr, synth).message)
      && FileSteps(u, ocr) == StripeCount + 1
  {
    OcrRunsInStripeOrder(u, StripesOf(u), ocr);
    match OcrRuns(u, StripesOf(u), ocr)
    case OcrFailed(i, e) =>
    case Runs(texts) =>
      if ProcessFile(u, ocr, synth).Table? {
        assert synth(JoinRuns(texts)) == Ok(ProcessFile(u, ocr, synth).markdown);
      }
  }

  // ---------------------------------------------------------------- the batch

  /** Every file that yields a table took its full six steps. */
  lemma TablesTakeFullSteps(ocr: Ocr, synth: Synthesizer)
    ensures forall u :: Process(ocr, synth)(u).Table? ==> Cost(ocr)(u) == StripeCount + 1
  {
    forall u | Process(ocr, synth)(u).Table? ensures Cost(ocr)(u) == StripeCount + 1 {
      FileOutcome(u, ocr, synth);
    }
  }

  /**
   * One iteration of the file loop: after files[..k] completed at (before, stepsBefore),
   * file k either extends the completed prefix with its recorded table, or ends the whole
   * batch with its own failure; its steps are counted either way.
   */
  lemma RunBatchStep(start: Ledger, files: seq<Upload>, k: nat, before: Ledger, stepsBefore: nat,
                     ocr: Ocr, synth: Synthesizer)
    requires k < |files| && RunBatch(start, files[..k], ocr, synth) == Progress(before, stepsBefore, Completed)
    ensures var u, f := files[k], ProcessFile(files[k], ocr, synth);
      && (f.Table? ==>
            RunBatch(start, files[..k + 1], ocr, synth)
              == Progress(Commit(before, u.name, f.markdown), stepsBefore + FileSteps(u, ocr), Completed))
      && (f.FileFailed? ==>
            RunBatch(start, files, ocr, synth)
              == Progress(before, stepsBefore + FileSteps(u, ocr), Aborted(Failure(k, f.stage, f.message))))
  {
    var u := files[k];
    assert files[..k + 1][..k] == files[..k] && files[..k + 1][k] == u;
    RunFilesLast(start, files[..k + 1], Process(ocr, synth), Cost(ocr));
    if ProcessFile(u, ocr, synth).FileFailed? {
      RunFilesStopsAtAbort(start, files, k + 1, Process(ocr, synth), Cost(ocr));
    }
  }

  /**
   * Fail-fast: when file k fails, files 0..k-1 are recorded, and every file from k on whose
   * name was neither cached before nor among the finished files is absent from the cache.
   */
  lemma FailFast(start: Ledger, files: seq<Upload>, ocr: Ocr, synth: Synthesizer)
    requires RunBatch(start, files, ocr, synth).outcome.Aborted?
    ensures var r := RunBatch(start, files, ocr, synth); var k := r.outcome.failure.file;
      && k < |files|
      && ProcessFile(files[k], ocr, synth) == FileFailed(r.outcome.failure.stage, r.outcome.failure.message)
      && (forall j :: 0 <= j < k ==> files[j].name in r.ledger.results && files[j].name in r.ledger.files)
      && (forall j :: k <= j < |files| && files[j].name !in start.results && files[j].name !in Names(files[..k]) ==>
            files[j].name !in r.ledger.results)
  {
    RunFilesOutcome(start, files, Process(ocr, synth), Cost(ocr));
    RunFilesFiles(start, files, Process(ocr, synth), Cost(ocr));
    RunFilesKeys(start, files, Process(ocr, synth), Cost(ocr));
    var k := RunBatch(start, files, ocr, synth).outcome.failure.file;
    assert forall j :: 0 <= j < k ==> Names(files[..k])[j] == files[j].name;
  }

  /** A batch that completes records every file and uses exactly its step budget. */
  lemma CompletedBatch(start: Ledger, files: seq<Upload>, ocr: Ocr, synth: Synthesizer)
    requires RunBatch(start, files, ocr, synth).outcome.Completed?
    ensures var r := RunBatch(start, files, ocr, synth);
      && (forall j :: 0 <= j < |files| ==> ProcessFile(files[j], ocr, synth).Table? && files[j].name in r.ledger.results)
      && r.ledger.files == start.files + Names(files)
      && r.steps == TotalSteps(|files|)
  {
    RunFilesOutcome(start, files, Process(ocr, synth), Cost(ocr));
    RunFilesFiles(start, files, Process(ocr, synth), Cost(ocr));
    TablesTakeFullSteps(ocr, synth);
    RunFilesSteps(start, files, Process(ocr, synth), Cost(ocr), StripeCount + 1);
    RunFilesKeys(start, files, Process(ocr, synth), Cost(ocr));
    assert files[..|files|] == files;
    assert forall j :: 0 <= j < |files| ==> Names(files)[j] == files[j].name;
  }

  /** The counter never passes total_steps; a failure at file k leaves it above 6 * k. */
  lemma StepsWithinTotal(start: Ledger, files: seq<Upload>, ocr: Ocr, synth: Synthesizer)
    ensures var r := RunBatch(start, files, ocr, synth);
      && r.steps <= TotalSteps(|files|)
      && (r.outcome.Completed? ==> r.steps == TotalSteps(|files|))
      && (r.outcome.Aborted? ==> (StripeCount + 1) * r.outcome.failure.file < r.steps)
  {
    var r := RunBatch(start, files, ocr, synth);
    TablesTakeFullSteps(ocr, synth);
    RunFilesSteps(start, files, Process(ocr, synth), Cost(ocr), StripeCount + 1);
    if r.outcome.Aborted? {
      var k := r.outcome.failure.file;
      FileOutcome(files[k], ocr, synth);
      MulMonotone(k + 1, |files|, StripeCount + 1);
    }
  }

  // ---------------------------------------------------------------- one script run

  /** Selecting before or after reconciliation picks the same files. */
  lemma SelectionIgnoresReconcile(l: Ledger, uploads: seq<Upload>)
    ensures Unprocessed(uploads, l.files) == Unprocessed(uploads, Reconciled(l, Names(uploads)).files)
  {
    var kept := Reconciled(l, Names(uploads)).files;
    forall u | u in uploads ensures u.name in l.files <==> u.name in kept {
      var i :| 0 <= i < |uploads| && uploads[i] == u;
      assert Names(uploads)[i] == u.name;
    }
    UnprocessedAgree(uploads, l.files, kept);
  }

  /** After any run, finished or not, only currently uploaded names remain in the cache. */
  lemma RerunOnlyCurrentNames(l: Ledger, uploads: seq<Upload>, ocr: Ocr, synth: Synthesizer)
    ensures var r := Rerun(l, uploads, ocr, synth);
      && (forall name :: name in r.ledger.results ==> name in Names(uploads))
      && (forall name :: name in r.ledger.files ==> name in Names(uploads))
  {
    var newFiles := Unprocessed(uploads, l.files);
    if uploads != [] && newFiles != [] {
      var current := Reconciled(l, Names(uploads));
      RunFilesOutcome(current, newFiles, Process(ocr, synth), Cost(ocr));
      RunFilesFiles(current, newFiles, Process(ocr, synth), Cost(ocr));
      RunFilesKeys(current, newFiles, Process(ocr, synth), Cost(ocr));
      SelectedNamesUploaded(uploads, l.files, Done(Rerun(l, uploads, ocr, synth), |newFiles|));
    }
  }

  /** The names of any prefix of the selection are names of current uploads. */
  lemma SelectedNamesUploaded(uploads: seq<Upload>, processed: seq<string>, d: nat)
    requires d <= |Unprocessed(uploads, processed)|
    ensures forall name :: name in Names(Unprocessed(uploads, processed)[..d]) ==> name in Names(uploads)
  {
    var selected := Unprocessed(uploads, processed)[..d];
    forall name | name in Names(selected) ensures name in Names(uploads) {
      var j :| 0 <= j < d && Names(selected)[j] == name;
      assert selected[j] in uploads;
      var i :| 0 <= i < |uploads| && uploads[i] == selected[j];
      assert Names(uploads)[i] == name;
    }
  }

  /** Every run keeps the cache invariant. */
  lemma RerunKeepsConsistent(l: Ledger, uploads: seq<Upload>, ocr: Ocr, synth: Synthesizer)
    requires Consistent(l)
    ensures Consistent(Rerun(l, uploads, ocr, synth).ledger)
  {
    if uploads != [] {
      RunFilesKeepsConsistent(Reconciled(l, Names(uploads)), Unprocessed(uploads, l.files), Process(ocr, synth), Cost(ocr));
    }
  }

  /**
   * Fail-fast within a run: when the batch of new files aborts at file k, files 0..k-1 are
   * recorded, and file k and every later new file are absent from the cache unless a finished
   * file carries the same name.
   */
  lemma RerunFailFast(l: Ledger, uploads: seq<Upload>, ocr: Ocr, synth: Synthesizer)
    requires Consistent(l)
    requires Rerun(l, uploads, ocr, synth).outcome.Aborted?
    ensures var newFiles, r := Unprocessed(uploads, l.files), Rerun(l, uploads, ocr, synth);
      var k := r.outcome.failure.file;
      && k < |newFiles|
      && (forall j :: 0 <= j < k ==> newFiles[j].name in r.ledger.results && newFiles[j].name in r.ledger.files)
      && (forall j :: k <= j < |newFiles| && newFiles[j].name !in Names(newFiles[..k]) ==>
            newFiles[j].name !in r.ledger.results)
  {
    var newFiles := Unprocessed(uploads, l.files);
    var current := Reconciled(l, Names(uploads));
    forall j | 0 <= j < |newFiles| ensures newFiles[j].name !in current.results {
      assert newFiles[j] in newFiles;
    }
    FailFast(current, newFiles, ocr, synth);
  }

  /**
   * Cache idempotence: after a run that completed, running again with the same uploads
   * selects nothing, calls neither model (zero steps) and leaves the cache as it was.
   */
  lemma RerunIdempotent(l: Ledger, uploads: seq<Upload>, ocr: Ocr, synth: Synthesizer)
    requires Rerun(l, uploads, ocr, synth).outcome.Completed?
    ensures var r := Rerun(l, uploads, ocr, synth);
      && Unprocessed(uploads, r.ledger.files) == []
      && Rerun(r.ledger, uploads, ocr, synth) == Progress(r.ledger, 0, Completed)
  {
    var r := Rerun(l, uploads, ocr, synth);
    RerunOnlyCurrentNames(l, uploads, ocr, synth);
    if uploads != [] {
      var newFiles := Unprocessed(uploads, l.files);
      var current := Reconciled(l, Names(uploads));
      forall u | u in uploads ensures u.name in r.ledger.files {
        if u.name in l.files {
          var i :| 0 <= i < |uploads| && uploads[i] == u;
          assert Names(uploads)[i] == u.name;
          if newFiles != [] {
            CompletedBatch(current, newFiles, ocr, synth);
          }
        } else {
          assert u in newFiles;
          CompletedBatch(current, newFiles, ocr, synth);
          var j :| 0 <= j < |newFiles| && newFiles[j] == u;
          assert Names(newFiles)[j] == u.name;
        }
      }
      ReconcileAllCurrent(r.ledger, Names(uploads));
    }
  }
}
