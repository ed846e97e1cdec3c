/**
 * The file loop of the batch (app.py:184-229), for any way of processing one file.
 * Files are handled in order; a file that yields its table is recorded in the cache
 * (result first, then the name) and the loop goes on; the first file that fails ends
 * the batch, leaving the cache as it was after the previous file.
 *
 * `process` says what handling one file gives and `cost` how many progress steps it took.
 * Module Batch instantiates both with the app's OCR-then-synthesis pipeline.
 */
module FileLoop {
  import opened ResultCache

  /** Where a file failed: the OCR of one stripe, or the table synthesis. */
  datatype Stage = OcrStage(stripe: nat) | SynthesisStage

  /** Which file of the batch failed, at which stage, with which exception message. */
  datatype Failure = Failure(file: nat, stage: Stage, message: string)

  datatype Outcome = Completed | Aborted(failure: Failure)

  /** The cache after a batch, the progress counter (current_step) and how the batch ended. */
  datatype Progress = Progress(ledger: Ledger, steps: nat, outcome: Outcome)

  /** What processing one file gives: its markdown tables, or where and why it failed. */
  datatype FileResult = Table(markdown: string) | FileFailed(stage: Stage, message: string)

  /**
   * One more file, the `index`-th, after progress (l, steps): record its table under its
   * name, or keep the cache and report its failure.  Either way its steps are counted.
   */
  function Step(l: Ledger, steps: nat, index: nat, name: string, f: FileResult, cost: nat): (r: Progress)
    ensures r.steps == steps + cost
    ensures r.outcome.Completed? <==> f.Table?
    ensures f.Table? ==> name in r.ledger.results && r.ledger.results[name] == f.markdown && r.ledger.files == l.files + [name]
    ensures f.Table? ==> r.ledger.results.Keys == l.results.Keys + {name}
    ensures f.Table? ==> forall k :: k in l.results && k != name ==> r.ledger.results[k] == l.results[k]
    ensures f.FileFailed? ==>
      r.ledger == l && r.outcome.failure == Failure(index, f.stage, f.message)
  {
    match f
    case Table(t) => Progress(Commit(l, name, t), steps + cost, Completed)
    case FileFailed(stage, e) => Progress(l, steps + cost, Aborted(Failure(index, stage, e)))
  }

  /** The loop over `files` from the cache `start`, stopping at the first failing file. */
  function RunFiles(start: Ledger, files: seq<Upload>, process: Upload -> FileResult, cost: Upload -> nat)
    : (r: Progress)
    ensures r.outcome.Aborted? ==> r.outcome.failure.file < |files|
    decreases |files|
  {
    if files == [] then Progress(start, 0, Completed)
    else
      var p := RunFiles(start, files[..|files| - 1], process, cost);
      var u := files[|files| - 1];
      if p.outcome.Aborted? then p
      else Step(p.ledger, p.steps, |files| - 1, u.name, process(u), cost(u))
  }

  /** How many files of the batch were recorded: all of them, or those before the failure. */
  function Done(p: Progress, fileCount: nat): nat
  {
    if p.outcome.Aborted? then p.outcome.failure.file else fileCount
  }

  /** One more file: an aborted loop stays as it is, otherwise the file takes one step. */
  lemma RunFilesLast(start: Ledger, files: seq<Upload>, process: Upload -> FileResult, cost: Upload -> nat)
    requires files != []
    ensures var p, u := RunFiles(start, files[..|files| - 1], process, cost), files[|files| - 1];
      RunFiles(start, files, process, cost)
        == if p.outcome.Aborted? then p else Step(p.ledger, p.steps, |files| - 1, u.name, process(u), cost(u))
  {
  }

  /** Once a prefix of the batch has aborted, the rest of the batch changes nothing. */
  lemma {:induction false} RunFilesStopsAtAbort(start: Ledger, files: seq<Upload>, m: nat,
                                                process: Upload -> FileResult, cost: Upload -> nat)
    requires m <= |files| && RunFiles(start, files[..m], process, cost).outcome.Aborted?
    ensures RunFiles(start, files, process, cost) == RunFiles(start, files[..m], process, cost)
    decreases |files|
  {
    if m < |files| {
      var front := files[..|files| - 1];
      assert front[..m] == files[..m];
      RunFilesStopsAtAbort(start, front, m, process, cost);
    } else {
      assert files[..m] == files;
    }
  }

  /**
   * Fail-fast: the files before the failing one (all files if none failed) each produced a
   * table, and the error reported is the failing file's own.
   */
  lemma {:induction false} RunFilesOutcome(start: Ledger, files: seq<Upload>,
                                           process: Upload -> FileResult, cost: Upload -> nat)
    ensures var r := RunFiles(start, files, process, cost); var d := Done(r, |files|);
      && d <= |files|
      && (forall j :: 0 <= j < d ==> process(files[j]).Table?)
      && (r.outcome.Aborted? ==>
            d < |files| && process(files[d]) == FileFailed(r.outcome.failure.stage, r.outcome.failure.message))
    decreases |files|
  {
    var n := |files|;
    if n > 0 {
      var front := files[..n - 1];
      RunFilesOutcome(start, front, process, cost);
      assert forall j :: 0 <= j < n - 1 ==> front[j] == files[j];
    }
  }

  /** Names of a snoc: the names before it, then its own. */
  lemma NamesSnoc(front: seq<Upload>, u: Upload)
    ensures Names(front + [u]) == Names(front) + [u.name]
  {
  }

  /** The processed list grows by the names of the finished files, in batch order. */
  lemma {:induction false} RunFilesFiles(start: Ledger, files: seq<Upload>,
                                         process: Upload -> FileResult, cost: Upload -> nat)
    ensures var r := RunFiles(start, files, process, cost);
      r.ledger.files == start.files + Names(files[..Done(r, |files|)])
    decreases |files|
  {
    var n := |files|;
    if n > 0 {
      var front, u := files[..n - 1], files[n - 1];
      var p := RunFiles(start, front, process, cost);
      RunFilesFiles(start, front, process, cost);
      var dp := Done(p, n - 1);
      if p.outcome.Aborted? {
        assert front[..dp] == files[..dp];
      } else {
        assert front[..n - 1] == front;
        if process(u).Table? {
          assert files[..n] == front + [u];
          NamesSnoc(front, u);
        } else {
          assert files[..n - 1] == front;
        }
      }
    }
  }

  /**
   * When every table costs `full` steps, the counter advances `full` steps per finished file,
   * plus the failing file's own steps when the batch aborts.
   */
  lemma {:induction false} RunFilesSteps(start: Ledger, files: seq<Upload>,
                                         process: Upload -> FileResult, cost: Upload -> nat, full: nat)
    requires forall u :: process(u).Table? ==> cost(u) == full
    ensures var r := RunFiles(start, files, process, cost); var d := Done(r, |files|);
      && d <= |files|
      && r.steps == full * d + (if r.outcome.Aborted? then cost(files[d]) else 0)
    decreases |files|
  {
    var n := |files|;
    if n > 0 {
      var front := files[..n - 1];
      var p := RunFiles(start, front, process, cost);
      RunFilesSteps(start, front, process, cost, full);
      RunFilesLast(start, files, process, cost);
      if p.outcome.Aborted? {
        assert front[p.outcome.failure.file] == files[p.outcome.failure.file];
      } else if process(files[n - 1]).Table? {
        assert full * n == full * (n - 1) + full;
      }
    }
  }

  /**
   * The cache afterwards holds the old entries plus one entry for each finished file, and
   * old entries that no finished file overwrote keep their value.
   */
  lemma {:induction false} RunFilesKeys(start: Ledger, files: seq<Upload>,
                                        process: Upload -> FileResult, cost: Upload -> nat)
    ensures var r := RunFiles(start, files, process, cost); var d := Done(r, |files|);
      && (forall name :: name in r.ledger.results <==> name in start.results || name in Names(files[..d]))
      && (forall name :: name in start.results && name !in Names(files[..d]) ==>
            r.ledger.results[name] == start.results[name])
    decreases |files|
  {
    var n := |files|;
    if n > 0 {
      var front, u := files[..n - 1], files[n - 1];
      var p := RunFiles(start, front, process, cost);
      RunFilesKeys(start, front, process, cost);
      var dp := Done(p, n - 1);
      if p.outcome.Aborted? {
        assert front[..dp] == files[..dp];
      } else {
        assert front[..n - 1] == front;
        if process(u).Table? {
          assert files[..n] == front + [u];
          NamesSnoc(front, u);
        } else {
          assert files[..n - 1] == front;
        }
      }
    }
  }

  /** The table stored under `name` came from a finished file of that name among files[..d]. */
  ghost predicate FromFinishedFile(files: seq<Upload>, d: nat, results: map<string, string>, name: string,
                                   process: Upload -> FileResult)
    requires d <= |files|
  {
    name in results &&
    exists j :: 0 <= j < d && files[j].name == name && process(files[j]) == Table(results[name])
  }

  /** Recording one more finished file keeps every recorded entry traceable to its file. */
  lemma EntriesStep(front: seq<Upload>, u: Upload, results: map<string, string>, t: string,
                    process: Upload -> FileResult)
    requires process(u) == Table(t)
    requires forall name :: name in Names(front) ==> FromFinishedFile(front, |front|, results, name, process)
    ensures forall name :: name in Names(front + [u]) ==>
      FromFinishedFile(front + [u], |front| + 1, results[u.name := t], name, process)
  {
    var files := front + [u];
    var n := |files|;
    NamesSnoc(front, u);
    forall name | name in Names(files)
      ensures FromFinishedFile(files, n, results[u.name := t], name, process)
    {
      if name == u.name {
        assert files[n - 1].name == name;
      } else {
        assert name in Names(front);
        var j :| 0 <= j < n - 1 && front[j].name == name && process(front[j]) == Table(results[name]);
        assert files[j] == front[j];
      }
    }
  }

  /** Entries recorded over a prefix of the batch stay traceable in the whole batch. */
  lemma EntriesWiden(front: seq<Upload>, files: seq<Upload>, d: nat, results: map<string, string>,
                     process: Upload -> FileResult)
    requires d <= |front| <= |files| && front == files[..|front|]
    requires forall name :: name in Names(front[..d]) ==> FromFinishedFile(front, d, results, name, process)
    ensures forall name :: name in Names(files[..d]) ==> FromFinishedFile(files, d, results, name, process)
  {
    assert front[..d] == files[..d];
    forall name | name in Names(files[..d])
      ensures FromFinishedFile(files, d, results, name, process)
    {
      assert FromFinishedFile(front, d, results, name, process);
      var j :| 0 <= j < d && front[j].name == name && process(front[j]) == Table(results[name]);
      assert files[j] == front[j];
    }
  }

  /**
   * Commit after success: every entry written by the batch is the table of a file of the
   * batch that was processed successfully; no partial record is ever stored.
   */
  lemma {:induction false} RunFilesEntries(start: Ledger, files: seq<Upload>,
                                           process: Upload -> FileResult, cost: Upload -> nat)
    ensures var r := RunFiles(start, files, process, cost); var d := Done(r, |files|);
      forall name :: name in Names(files[..d]) ==> FromFinishedFile(files, d, r.ledger.results, name, process)
    decreases |files|
  {
    var n := |files|;
    if n > 0 {
      var front, u := files[..n - 1], files[n - 1];
      var p := RunFiles(start, front, process, cost);
      RunFilesEntries(start, front, process, cost);
      RunFilesLast(start, files, process, cost);
      var dp := Done(p, n - 1);
      assert |front| == n - 1;
      assert forall name :: name in Names(front[..dp]) ==> FromFinishedFile(front, dp, p.ledger.results, name, process);
      if p.outcome.Aborted? {
        EntriesWiden(front, files, dp, p.ledger.results, process);
      } else {
        assert front[..n - 1] == front;
        if process(u).Table? {
          assert files[..n] == files && files == front + [u];
          EntriesStep(front, u, p.ledger.results, process(u).markdown, process);
        } else {
          EntriesWiden(front, files, dp, p.ledger.results, process);
        }
      }
    }
  }

  /** Every batch keeps the cache invariant. */
  lemma {:induction false} RunFilesKeepsConsistent(start: Ledger, files: seq<Upload>,
                                                   process: Upload -> FileResult, cost: Upload -> nat)
    requires Consistent(start)
    ensures Consistent(RunFiles(start, files, process, cost).ledger)
    decreases |files|
  {
    if files != [] {
      RunFilesKeepsConsistent(start, files[..|files| - 1], process, cost);
    }
  }
}
