/** Runs of consecutive positions, and the program's one way of collecting them: extend the
    last run in place when the next one continues it, otherwise start a new run.

    The refused-range log of a restore and the on-disk run list of a planted file are both
    built this way. */
module Runs {

  /** `length` positions from `offset` on, all carrying the same `tag`. */
  datatype Run<T> = Run(offset: int, length: nat, tag: T) {
    function End(): int { offset + length }
  }

  predicate Joins<T(==)>(a: Run<T>, b: Run<T>)
  {
    a.End() == b.offset && a.tag == b.tag
  }

  /** `runs` with `r` collected at its end. */
  function Collect<T(==)>(runs: seq<Run<T>>, r: Run<T>): seq<Run<T>>
  {
    if runs != [] && Joins(runs[|runs| - 1], r)
    then runs[|runs| - 1 := runs[|runs| - 1].(length := runs[|runs| - 1].length + r.length)]
    else runs + [r]
  }

  function Coalesce<T(==)>(pieces: seq<Run<T>>): seq<Run<T>>
  {
    if pieces == [] then []
    else Collect(Coalesce(pieces[..|pieces| - 1]), pieces[|pieces| - 1])
  }

  /** The tagged positions a run stands for, in order. */
  function Positions<T>(r: Run<T>): seq<(int, T)>
  {
    seq(r.length, i requires 0 <= i < r.length => (r.offset + i, r.tag))
  }

  function Expand<T>(pieces: seq<Run<T>>): seq<(int, T)>
  {
    if pieces == [] then []
    else Expand(pieces[..|pieces| - 1]) + Positions(pieces[|pieces| - 1])
  }

  predicate AllPositive<T>(runs: seq<Run<T>>)
  {
    forall i :: 0 <= i < |runs| ==> runs[i].length > 0
  }

  /** No run is empty and no run continues the one before it. */
  predicate Merged<T(==)>(runs: seq<Run<T>>)
  {
    && AllPositive(runs)
    && (forall i, j :: 0 <= i && j == i + 1 < |runs| ==> !Joins(runs[i], runs[j]))
  }

  /** No run is empty and each starts at or after the end of the one before it. */
  predicate Ascending<T>(runs: seq<Run<T>>)
  {
    runs == [] ||
    var init, last := runs[..|runs| - 1], runs[|runs| - 1];
    && Ascending(init)
    && last.length > 0
    && (init != [] ==> init[|init| - 1].End() <= last.offset)
  }

  lemma {:induction false} AscendingPrefix<T>(runs: seq<Run<T>>, k: nat)
    requires Ascending(runs) && k <= |runs|
    ensures Ascending(runs[..k])
  {
    if k < |runs| {
      AscendingPrefix(runs[..|runs| - 1], k);
      assert runs[..|runs| - 1][..k] == runs[..k];
    } else {
      assert runs[..k] == runs;
    }
  }

  /** Ascending runs are disjoint, pair by pair. */
  lemma {:induction false} AscendingPair<T>(runs: seq<Run<T>>, i: nat, j: nat)
    requires Ascending(runs) && i < j < |runs|
    ensures runs[i].length > 0 && runs[i].End() <= runs[j].offset
    decreases j
  {
    AscendingPrefix(runs, j + 1);
    AscendingPrefix(runs, j);
    var upto := runs[..j + 1];
    assert upto[..j] == runs[..j] && upto[j] == runs[j];
    if i < j - 1 {
      AscendingPair(runs, i, j - 1);
    } else {
      AscendingPrefix(runs, i + 1);
      assert runs[..j][j - 1] == runs[i];
    }
  }

  function Total<T>(runs: seq<Run<T>>): nat
  {
    if runs == [] then 0 else Total(runs[..|runs| - 1]) + runs[|runs| - 1].length
  }

  lemma {:induction false} TotalAppend<T>(a: seq<Run<T>>, b: seq<Run<T>>)
    ensures Total(a + b) == Total(a) + Total(b)
    decreases |b|
  {
    if b == [] {
      assert a + b == a;
    } else {
      var b' := b[..|b| - 1];
      TotalAppend(a, b');
      assert (a + b)[..|a + b| - 1] == a + b';
    }
  }

  lemma TotalSplit<T>(runs: seq<Run<T>>, k: nat)
    requires k <= |runs|
    ensures Total(runs) == Total(runs[..k]) + Total(runs[k..])
  {
    assert runs[..k] + runs[k..] == runs;
    TotalAppend(runs[..k], runs[k..]);
  }

  lemma CollectKeeps<T>(runs: seq<Run<T>>, r: Run<T>)
    requires r.length > 0
    requires Merged(runs)
    ensures Merged(Collect(runs, r))
    ensures Expand(Collect(runs, r)) == Expand(runs) + Positions(r)
    ensures Total(Collect(runs, r)) == Total(runs) + r.length
    ensures Collect(runs, r) != []
    ensures Collect(runs, r)[|Collect(runs, r)| - 1].End() == r.End()
  {
    var out := Collect(runs, r);
    if runs != [] && Joins(runs[|runs| - 1], r) {
      var last := |runs| - 1;
      assert out[..last] == runs[..last];
      assert Positions(out[last]) == Positions(runs[last]) + Positions(r);
      assert Expand(runs) == Expand(runs[..last]) + Positions(runs[last]);
      forall i, j | 0 <= i && j == i + 1 < |out| ensures !Joins(out[i], out[j]) {
        assert !Joins(runs[i], runs[j]);
      }
    } else {
      assert out[..|out| - 1] == runs;
    }
  }

  lemma CollectAscending<T>(runs: seq<Run<T>>, r: Run<T>)
    requires r.length > 0
    requires Ascending(runs)
    requires runs != [] ==> runs[|runs| - 1].End() <= r.offset
    ensures Ascending(Collect(runs, r))
  {
    var out := Collect(runs, r);
    if runs != [] && Joins(runs[|runs| - 1], r) {
      assert out[..|out| - 1] == runs[..|runs| - 1];
    } else {
      assert out[..|out| - 1] == runs;
    }
  }

  /** Coalescing changes no position and leaves nothing more to merge. */
  lemma {:induction false} CoalesceExact<T>(pieces: seq<Run<T>>)
    requires AllPositive(pieces)
    ensures Merged(Coalesce(pieces))
    ensures Expand(Coalesce(pieces)) == Expand(pieces)
    ensures Total(Coalesce(pieces)) == Total(pieces)
    ensures pieces != [] ==> Coalesce(pieces) != []
    ensures pieces != [] ==>
              Coalesce(pieces)[|Coalesce(pieces)| - 1].End() == pieces[|pieces| - 1].End()
  {
    if pieces != [] {
      var init := pieces[..|pieces| - 1];
      CoalesceExact(init);
      CollectKeeps(Coalesce(init), pieces[|pieces| - 1]);
    }
  }

  lemma AscendingPositive<T>(runs: seq<Run<T>>)
    requires Ascending(runs)
    ensures AllPositive(runs)
  {
    forall i | 0 <= i < |runs| ensures runs[i].length > 0 {
      AscendingPrefix(runs, i + 1);
      assert runs[..i + 1][i] == runs[i];
    }
  }

  lemma {:induction false} CoalesceAscending<T>(pieces: seq<Run<T>>)
    requires Ascending(pieces)
    ensures Ascending(Coalesce(pieces))
  {
    if pieces != [] {
      var init := pieces[..|pieces| - 1];
      CoalesceAscending(init);
      AscendingPositive(init);
      CoalesceExact(init);
      CollectAscending(Coalesce(init), pieces[|pieces| - 1]);
    }
  }

  /** Everything above, for the first `k` of an ascending list. */
  lemma CoalescedPrefix<T>(runs: seq<Run<T>>, k: nat)
    requires Ascending(runs) && k <= |runs|
    ensures var out := Coalesce(runs[..k]);
            && Ascending(out) && Merged(out)
            && Total(out) == Total(runs[..k])
            && (k > 0 ==> out != [] && out[|out| - 1].End() == runs[k - 1].End())
  {
    AscendingPrefix(runs, k);
    AscendingPositive(runs[..k]);
    CoalesceExact(runs[..k]);
    CoalesceAscending(runs[..k]);
  }

  lemma {:induction false} ExpandFront<T>(runs: seq<Run<T>>)
    requires runs != []
    ensures Expand(runs) == Positions(runs[0]) + Expand(runs[1..])
  {
    var last := |runs| - 1;
    if last == 0 {
      assert runs[..0] == [] && runs[1..] == [];
    } else {
      var init, tail := runs[..last], runs[1..];
      ExpandFront(init);
      assert tail[..|tail| - 1] == init[1..] && tail[|tail| - 1] == runs[last];
      assert Expand(runs) == (Positions(runs[0]) + Expand(init[1..])) + Positions(runs[last]);
      assert Expand(tail) == Expand(init[1..]) + Positions(runs[last]);
    }
  }

  /** A merged list is the only merged list with its positions: the collected runs do not
      depend on how the positions arrived cut up. */
  lemma {:induction false} MergedUnique<T>(a: seq<Run<T>>, b: seq<Run<T>>)
    requires Merged(a) && Merged(b)
    requires Expand(a) == Expand(b)
    ensures a == b
    decreases |a|
  {
    if a == [] {
      if b != [] { ExpandFront(b); }
    } else {
      FirstRunEnds(a);
      assert b != [];
      FirstRunEnds(b);
      FirstRunsEqual(Expand(a), a[0], b[0]);
      assert Expand(a[1..]) == Expand(a)[a[0].length..] == Expand(b[1..]);
      MergedTail(a);
      MergedTail(b);
      MergedUnique(a[1..], b[1..]);
      assert a == [a[0]] + a[1..] && b == [b[0]] + b[1..];
    }
  }

  lemma MergedTail<T>(runs: seq<Run<T>>)
    requires Merged(runs) && runs != []
    ensures Merged(runs[1..])
  {
    forall i, j | 0 <= i && j == i + 1 < |runs[1..]| ensures !Joins(runs[1..][i], runs[1..][j]) {
      assert !Joins(runs[i + 1], runs[j + 1]);
    }
  }

  /** `r` is the longest run that `positions` starts with. */
  predicate StartsWithRun<T(==)>(positions: seq<(int, T)>, r: Run<T>)
  {
    && |positions| >= r.length > 0
    && (forall i :: 0 <= i < r.length ==> positions[i] == (r.offset + i, r.tag))
    && (|positions| > r.length ==> positions[r.length] != (r.End(), r.tag))
  }

  lemma FirstRunEnds<T>(runs: seq<Run<T>>)
    requires Merged(runs) && runs != []
    ensures Expand(runs) == Positions(runs[0]) + Expand(runs[1..])
    ensures StartsWithRun(Expand(runs), runs[0])
  {
    ExpandFront(runs);
    if |runs| == 1 {
      assert Expand(runs[1..]) == [];
    } else {
      ExpandFront(runs[1..]);
      NotJoinedNext(runs);
    }
  }

  lemma NotJoinedNext<T>(runs: seq<Run<T>>)
    requires Merged(runs) && |runs| > 1
    ensures Positions(runs[1])[0] == (runs[1].offset, runs[1].tag) != (runs[0].End(), runs[0].tag)
  {
    assert !Joins(runs[0], runs[1]);
  }

  lemma FirstRunsEqual<T>(positions: seq<(int, T)>, r: Run<T>, s: Run<T>)
    requires StartsWithRun(positions, r) && StartsWithRun(positions, s)
    ensures r == s
  {
    assert positions[0] == (r.offset, r.tag);
  }

  /** However the same positions are cut into pieces, they are collected into the same runs. */
  lemma CoalesceIgnoresCuts<T>(p: seq<Run<T>>, q: seq<Run<T>>)
    requires AllPositive(p) && AllPositive(q)
    requires Expand(p) == Expand(q)
    ensures Coalesce(p) == Coalesce(q)
  {
    CoalesceExact(p);
    CoalesceExact(q);
    MergedUnique(Coalesce(p), Coalesce(q));
  }
}
