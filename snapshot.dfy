/** The snapshot taken at the start of a run: the log's lines piped through
    `grep '"level":15' | grep -v 'level-change'` (index.js:36-44). */
module SnapshotFilter {
  import opened Strings

  const LEVEL_MARK: string := "\"level\":15"
  const LEVEL_CHANGE: string := "level-change"

  /** Both greps let `line` through. */
  predicate Selected(line: string)
  {
    Contains(line, LEVEL_MARK) && !Contains(line, LEVEL_CHANGE)
  }

  /** The lines both greps let through, in file order. An empty result makes
      the pipeline exit with a failure status, which the run turns into `null`. */
  function Snapshot(log: seq<string>): (snap: seq<string>)
    ensures |snap| <= |log|
    ensures forall x :: x in snap ==> x in log && Selected(x)
  {
    if log == [] then []
    else (if Selected(log[0]) then [log[0]] else []) + Snapshot(log[1..])
  }

  /** Filtering a file piece by piece gives the same lines, in order. */
  lemma {:induction false} SnapshotAppend(a: seq<string>, b: seq<string>)
    ensures Snapshot(a + b) == Snapshot(a) + Snapshot(b)
  {
    if a != [] {
      assert (a + b)[1..] == a[1..] + b;
      SnapshotAppend(a[1..], b);
    } else {
      assert a + b == b;
    }
  }

  /** Every selected line is kept as often as it occurs, every other line is dropped. */
  lemma {:induction false} SnapshotCounts(log: seq<string>)
    ensures forall x :: multiset(Snapshot(log))[x] == if Selected(x) then multiset(log)[x] else 0
  {
    if log != [] {
      SnapshotCounts(log[1..]);
      assert log == [log[0]] + log[1..];
    }
  }

  /** A file whose every line passes both greps is kept whole. */
  lemma {:induction false} SnapshotKeepsSelected(lines: seq<string>)
    requires forall i :: 0 <= i < |lines| ==> Selected(lines[i])
    ensures Snapshot(lines) == lines
  {
    if lines != [] {
      assert Selected(lines[0]);
      SnapshotKeepsSelected(lines[1..]);
      assert [lines[0]] + lines[1..] == lines;
    }
  }

  /** An empty line passes neither grep's pattern. */
  lemma EmptyLineNotSelected()
    ensures Snapshot([""]) == []
  {
    assert !Contains("", LEVEL_MARK);
    assert [""][1..] == [];
  }
}
