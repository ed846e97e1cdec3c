/**
 * The OCR text of one invoice, one run per stripe, joined with a blank line before it is
 * handed to table synthesis (app.py, format_to_table: "\n\n".join(markdown_runs)).
 */
module TextRuns {

  const Separator: string := "\n\n"

  /**
   * The runs in order with Separator between neighbours; no runs give the empty text.
   * The joined text is as long as the runs with one Separator after each but the last.
   */
  function JoinRuns(runs: seq<string>): (r: string)
    ensures |runs| >= 1 ==> |r| + |Separator| == Offset(runs, |runs|)
    decreases |runs|
  {
    if |runs| == 0 then ""
    else if |runs| == 1 then runs[0]
    else
      OffsetOfPrefix(runs, |runs| - 1, |runs| - 1);
      JoinRuns(runs[..|runs| - 1]) + Separator + runs[|runs| - 1]
  }

  /** Where run i starts in the joined text: the runs before it, each followed by Separator. */
  function Offset(runs: seq<string>, i: nat): nat
    requires i <= |runs|
  {
    if i == 0 then 0 else Offset(runs, i - 1) + |runs[i - 1]| + |Separator|
  }

  lemma {:induction false} OffsetOfPrefix(runs: seq<string>, k: nat, i: nat)
    requires i <= k <= |runs|
    ensures Offset(runs[..k], i) == Offset(runs, i)
  {
    if i > 0 {
      OffsetOfPrefix(runs, k, i - 1);
    }
  }

  /**
   * Together with the length in JoinRuns' contract, RunPlaced and SeparatorPlaced say that
   * the joined text is the runs laid end to end in order: run i occupies
   * [Offset(i), Offset(i) + |run i|), Separator fills the gap before each later run, and
   * nothing else is added.
   */
  lemma {:induction false} RunPlaced(runs: seq<string>, i: nat)
    requires i < |runs|
    ensures Offset(runs, i) + |runs[i]| <= |JoinRuns(runs)|
    ensures JoinRuns(runs)[Offset(runs, i)..Offset(runs, i) + |runs[i]|] == runs[i]
  {
    var n := |runs|;
    if n > 1 {
      var front := runs[..n - 1];
      var head := JoinRuns(front);
      OffsetOfPrefix(runs, n - 1, n - 1);
      if i < n - 1 {
        RunPlaced(front, i);
        OffsetOfPrefix(runs, n - 1, i);
        assert front[i] == runs[i];
      } else {
        assert JoinRuns(runs) == head + Separator + runs[n - 1];
      }
    }
  }

  /** Run i > 0 is preceded by Separator and by nothing else from the join. */
  lemma {:induction false} SeparatorPlaced(runs: seq<string>, i: nat)
    requires 0 < i < |runs|
    ensures |Separator| <= Offset(runs, i) <= |JoinRuns(runs)|
    ensures JoinRuns(runs)[Offset(runs, i) - |Separator|..Offset(runs, i)] == Separator
  {
    var n := |runs|;
    var front := runs[..n - 1];
    var head := JoinRuns(front);
    assert JoinRuns(runs) == head + (Separator + runs[n - 1]);
    OffsetOfPrefix(runs, n - 1, i);
    var off := Offset(runs, i);
    if i < n - 1 {
      SeparatorPlaced(front, i);
      SliceInHead(head, Separator + runs[n - 1], off - |Separator|, off);
    } else {
      OffsetOfPrefix(runs, n - 1, n - 1);
      SliceAtSeparator(head, runs[n - 1]);
    }
  }

  /** A slice that lies within the first part of a concatenation is a slice of that part. */
  lemma SliceInHead(head: string, tail: string, lo: nat, hi: nat)
    requires lo <= hi <= |head|
    ensures (head + tail)[lo..hi] == head[lo..hi]
  {
  }

  /** The separator sits right after the text it follows. */
  lemma SliceAtSeparator(head: string, run: string)
    ensures (head + (Separator + run))[|head|..|head| + |Separator|] == Separator
  {
  }

  /** A joined text with one more run is the old text, Separator, then the new run. */
  lemma JoinAppend(runs: seq<string>, run: string)
    requires |runs| >= 1
    ensures JoinRuns(runs + [run]) == JoinRuns(runs) + Separator + run
  {
    assert (runs + [run])[..|runs|] == runs;
  }
}
