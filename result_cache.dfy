/**
 * The process-lifetime result cache of the app (app.py, st.session_state): a dictionary
 * processed_results from file name to the synthesized table text, and a list
 * processed_files of the names that completed.  Here as a value; the class in module
 * SessionState holds the same two fields and updates them in place.
 */
module ResultCache {

  /**
   * An uploaded invoice image, identified by its file name only.  width and height are the
   * size after the app's fixed 1.2x upscale.
   */
  datatype Upload = Upload(name: string, width: nat, height: nat)

  /** processed_results and processed_files. */
  datatype Ledger = Ledger(results: map<string, string>, files: seq<string>)

  /** The names of the uploads, in upload order (current_file_names). */
  function Names(uploads: seq<Upload>): (r: seq<string>)
    ensures |r| == |uploads|
  {
    seq(|uploads|, i requires 0 <= i < |uploads| => uploads[i].name)
  }

  /** The cache invariant: a name has a result exactly when it is listed as processed. */
  ghost predicate Consistent(l: Ledger)
  {
    forall name :: name in l.results <==> name in l.files
  }

  /**
   * The uploads whose name is not yet listed as processed, in upload order; nothing is
   * selected exactly when every upload's name is listed.
   */
  function Unprocessed(uploads: seq<Upload>, processed: seq<string>): (r: seq<Upload>)
    ensures forall u :: u in r <==> u in uploads && u.name !in processed
    ensures r == [] <==> forall u :: u in uploads ==> u.name in processed
    ensures |r| <= |uploads|
  {
    if uploads == [] then []
    else
      var rest := Unprocessed(uploads[..|uploads| - 1], processed);
      var last := uploads[|uploads| - 1];
      assert uploads == uploads[..|uploads| - 1] + [last];
      if last.name !in processed then rest + [last] else rest
  }

  /** Selection is a filter: it distributes over concatenation, so upload order is kept. */
  lemma {:induction false} UnprocessedAppend(a: seq<Upload>, b: seq<Upload>, processed: seq<string>)
    ensures Unprocessed(a + b, processed) == Unprocessed(a, processed) + Unprocessed(b, processed)
  {
    if b == [] {
      assert a + b == a;
    } else {
      var front, last := b[..|b| - 1], b[|b| - 1];
      var tail := if last.name !in processed then [last] else [];
      var sa, sf := Unprocessed(a, processed), Unprocessed(front, processed);
      assert Unprocessed(a + b, processed) == Unprocessed(a + front, processed) + tail by {
        assert (a + b)[..|a + b| - 1] == a + front;
        assert (a + b)[|a + b| - 1] == last;
      }
      assert Unprocessed(b, processed) == sf + tail;
      UnprocessedAppend(a, front, processed);
      assert (sa + sf) + tail == sa + (sf + tail);
    }
  }

  /** Selection depends only on whether each upload's name is listed. */
  lemma {:induction false} UnprocessedAgree(uploads: seq<Upload>, p: seq<string>, q: seq<string>)
    requires forall u :: u in uploads ==> (u.name in p <==> u.name in q)
    ensures Unprocessed(uploads, p) == Unprocessed(uploads, q)
  {
    if uploads != [] {
      var front := uploads[..|uploads| - 1];
      assert forall u :: u in front ==> u in uploads;
      UnprocessedAgree(front, p, q);
      assert uploads[|uploads| - 1] in uploads;
    }
  }

  /** The listed names that are still uploaded, in their old order (the list comprehension). */
  function Kept(files: seq<string>, current: seq<string>): (r: seq<string>)
    ensures forall name :: name in r <==> name in files && name in current
    ensures |r| <= |files|
  {
    if files == [] then []
    else
      var rest := Kept(files[..|files| - 1], current);
      var last := files[|files| - 1];
      assert files == files[..|files| - 1] + [last];
      if last in current then rest + [last] else rest
  }

  /** Kept is a filter: it distributes over concatenation, so the old order is kept. */
  lemma {:induction false} KeptAppend(a: seq<string>, b: seq<string>, current: seq<string>)
    ensures Kept(a + b, current) == Kept(a, current) + Kept(b, current)
  {
    if b == [] {
      assert a + b == a;
    } else {
      var front := b[..|b| - 1];
      KeptAppend(a, front, current);
      assert (a + b)[..|a + b| - 1] == a + front;
      assert (a + b)[|a + b| - 1] == b[|b| - 1];
    }
  }

  /** Filtering a list whose names are all current changes nothing. */
  lemma {:induction false} KeptAllCurrent(files: seq<string>, current: seq<string>)
    requires forall name :: name in files ==> name in current
    ensures Kept(files, current) == files
  {
    if files != [] {
      var front := files[..|files| - 1];
      assert files == front + [files[|files| - 1]];
      KeptAllCurrent(front, current);
    }
  }

  /**
   * Reconciliation with a non-empty upload set: results and the processed list restricted
   * to the current names.  Surviving entries keep their value; consistency is preserved.
   */
  function Reconciled(l: Ledger, current: seq<string>): (r: Ledger)
    ensures forall name :: name in r.results <==> name in l.results && name in current
    ensures forall name :: name in r.results ==> r.results[name] == l.results[name]
    ensures forall name :: name in r.files <==> name in l.files && name in current
    ensures Consistent(l) ==> Consistent(r)
  {
    Ledger(map name | name in l.results && name in current :: l.results[name],
           Kept(l.files, current))
  }

  /** Reconciling a ledger whose names are all current leaves it as it is. */
  lemma ReconcileAllCurrent(l: Ledger, current: seq<string>)
    requires forall name :: name in l.results ==> name in current
    requires forall name :: name in l.files ==> name in current
    ensures Reconciled(l, current) == l
  {
    KeptAllCurrent(l.files, current);
    assert Reconciled(l, current).results == l.results;
  }

  /** Entries {A, B, C} reconciled against uploads {B, C, D} leave exactly {B, C}. */
  lemma ReconcileExample()
    ensures Reconciled(Ledger(map["A" := "a", "B" := "b", "C" := "c"], ["A", "B", "C"]),
                       ["B", "C", "D"])
            == Ledger(map["B" := "b", "C" := "c"], ["B", "C"])
  {
    var l := Ledger(map["A" := "a", "B" := "b", "C" := "c"], ["A", "B", "C"]);
    var r := Reconciled(l, ["B", "C", "D"]);
    assert "A" !in ["B", "C", "D"];
    assert r.results.Keys == {"B", "C"};
    assert ["A", "B", "C"][..2] == ["A", "B"] && ["A", "B"][..1] == ["A"];
  }

  /**
   * Recording a finished file: its result is stored under its name, then the name is
   * appended to the processed list.
   */
  function Commit(l: Ledger, name: string, table: string): (r: Ledger)
    ensures name in r.results && r.results[name] == table
    ensures |r.files| == |l.files| + 1 && r.files[..|l.files|] == l.files && r.files[|l.files|] == name
    ensures r.results.Keys == l.results.Keys + {name}
    ensures forall k :: k in l.results && k != name ==> r.results[k] == l.results[k]
  {
    Ledger(l.results[name := table], l.files + [name])
  }

  /** Recording a finished file keeps the cache invariant. */
  lemma CommitKeepsConsistent(l: Ledger, name: string, table: string)
    requires Consistent(l)
    ensures Consistent(Commit(l, name, table))
  {
    var r := Commit(l, name, table);
    forall other ensures other in r.results <==> other in r.files {
      assert other in r.files <==> other in l.files || other == name;
    }
  }
}
