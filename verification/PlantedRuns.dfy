/** Reading a file's runs back from the volume and judging whether they are the two the
    reassembler needs (scripts/hardware_validation.py). */
module PlantedRuns {

  import opened Digests
  import opened Runs
  import opened FragmentPlant

  /** One run as the volume's own structures list it, in units. */
  datatype Piece = Piece(addr: int, len: int)

  datatype Untagged = Untagged

  type ByteRun = Run<Untagged>

  /** The pieces that count, in bytes. */
  function Scaled(pieces: seq<Piece>, unit: nat): (runs: seq<ByteRun>)
    requires unit > 0
    ensures AllPositive(runs)
  {
    if pieces == [] then []
    else
      var before := Scaled(pieces[..|pieces| - 1], unit);
      var last := pieces[|pieces| - 1];
      if last.len <= 0 then before else before + [Run(last.addr * unit, last.len * unit, Untagged)]
  }

  lemma OneTag(a: Untagged, b: Untagged)
    ensures a == b
  {}

  lemma CoalesceOneMore(runs: seq<ByteRun>, r: ByteRun)
    ensures Coalesce(runs + [r]) == Collect(Coalesce(runs), r)
    ensures Coalesce(runs) != [] ==>
              (Joins(Coalesce(runs)[|Coalesce(runs)| - 1], r) <==>
                  Coalesce(runs)[|Coalesce(runs)| - 1].End() == r.offset)
  {
    var all := runs + [r];
    assert Coalesce(all) == Collect(Coalesce(all[..|all| - 1]), all[|all| - 1]);
    hide Coalesce;
    assert all[..|all| - 1] == runs;
    if Coalesce(runs) != [] { OneTag(Coalesce(runs)[|Coalesce(runs)| - 1].tag, r.tag); }
  }

  lemma CoalesceNothing(unit: nat)
    requires unit > 0
    ensures Coalesce(Scaled([], unit)) == []
  {}

  /** `read_runs`, for one file: adjacent pieces merged by extending the last run. */
  method ReadRuns(pieces: seq<Piece>, unit: nat) returns (runs: seq<ByteRun>)
    requires unit > 0
    ensures runs == Coalesce(Scaled(pieces, unit))
    ensures Merged(runs) && Expand(runs) == Expand(Scaled(pieces, unit))
  {
    hide Coalesce, Expand, Merged;
    runs := [];
    var i := 0;
    CoalesceNothing(unit);
    while i < |pieces|
      invariant 0 <= i <= |pieces|
      invariant runs == Coalesce(Scaled(pieces[..i], unit))
    {
      assert pieces[..i + 1][..i] == pieces[..i];
      var piece := pieces[i];
      if piece.len > 0 {
        var offset, length := piece.addr * unit, piece.len * unit;
        ghost var scaled := Scaled(pieces[..i], unit);
        CoalesceOneMore(scaled, Run(offset, length, Untagged));
        if runs != [] && runs[|runs| - 1].offset + runs[|runs| - 1].length == offset {
          runs := runs[|runs| - 1 := runs[|runs| - 1].(length := runs[|runs| - 1].length + length)];
        } else {
          runs := runs + [Run(offset, length, Untagged)];
        }
      }
      i := i + 1;
    }
    assert pieces[..i] == pieces;
    CoalesceExact(Scaled(pieces, unit));
  }

  // ------------------------------------------------------------ the runs of a file

  /** A file's clusters as byte runs of their own; `base` is where the first cluster lies. */
  function ClusterRuns(clusters: seq<nat>, base: nat, c: nat): (runs: seq<ByteRun>)
    requires c > 0
    ensures AllPositive(runs)
  {
    seq(|clusters|, i requires 0 <= i < |clusters| => Run(base + clusters[i] * c, c, Untagged))
  }

  predicate Contiguous(clusters: seq<nat>)
  {
    forall i :: 0 <= i < |clusters| ==> clusters[i] == clusters[0] + i
  }

  lemma NothingExpands()
    ensures Expand<Untagged>([]) == []
  {}

  lemma ExpandLast(runs: seq<ByteRun>)
    requires runs != []
    ensures Expand(runs) == Expand(runs[..|runs| - 1]) + Positions(runs[|runs| - 1])
  {}

  lemma {:induction false} ExpandConcat(a: seq<ByteRun>, b: seq<ByteRun>)
    ensures Expand(a + b) == Expand(a) + Expand(b)
  {
    hide Expand, Positions;
    if b == [] {
      NothingExpands();
      assert a + b == a;
    } else {
      var init := b[..|b| - 1];
      ExpandConcat(a, init);
      ExpandLast(b);
      ExpandLast(a + b);
      assert (a + b)[..|a + b| - 1] == a + init;
    }
  }

  lemma PositionsJoin(offset: int, n: nat, m: nat)
    ensures Positions(Run(offset, n, Untagged)) + Positions(Run(offset + n, m, Untagged)) ==
            Positions(Run(offset, n + m, Untagged))
  {}

  /** Contiguous clusters stand for the bytes of one run. */
  lemma {:induction false} ContiguousIsOneRun(clusters: seq<nat>, base: nat, c: nat)
    requires c > 0 && clusters != [] && Contiguous(clusters)
    ensures Expand(ClusterRuns(clusters, base, c)) == Positions(Run(base + clusters[0] * c, |clusters| * c, Untagged))
  {
    hide Expand, Positions;
    var n := |clusters| - 1;
    var runs := ClusterRuns(clusters, base, c);
    ExpandLast(runs);
    assert runs[..n] == ClusterRuns(clusters[..n], base, c);
    assert clusters[n] * c == clusters[0] * c + n * c;
    assert (n + 1) * c == n * c + c;
    if n == 0 {
      NothingExpands();
    } else {
      ContiguousIsOneRun(clusters[..n], base, c);
      PositionsJoin(base + clusters[0] * c, n * c, c);
    }
  }

  lemma ExpandOfTwo(a: ByteRun, b: ByteRun)
    ensures Expand([a, b]) == Positions(a) + Positions(b)
  {
    assert [a, b][..1] == [a];
    assert [a][..0] == [];
    assert Expand([a]) == Positions(a);
  }

  /** The two stretches of a planted file are two runs, a pad long and a pad apart. */
  function TwoRuns(start: nat, base: nat, c: nat, p: nat, needed: nat): seq<ByteRun>
    requires p <= needed
  {
    [Run(base + start * c, p * c, Untagged), Run(base + (start + 2 * p) * c, (needed - p) * c, Untagged)]
  }

  lemma TwoStretches(head: seq<nat>, tail: seq<nat>, base: nat, c: nat, p: nat)
    requires c > 0 && p > 0 && |head| == p && tail != [] && Contiguous(head) && Contiguous(tail)
    requires tail[0] == head[0] + 2 * p
    ensures Coalesce(ClusterRuns(head + tail, base, c)) == TwoRuns(head[0], base, c, p, p + |tail|)
  {
    hide Coalesce, Expand, Merged, Contiguous, Positions;
    var runs := ClusterRuns(head + tail, base, c);
    var two := TwoRuns(head[0], base, c, p, p + |tail|);
    assert runs == ClusterRuns(head, base, c) + ClusterRuns(tail, base, c);
    ExpandConcat(ClusterRuns(head, base, c), ClusterRuns(tail, base, c));
    ContiguousIsOneRun(head, base, c);
    ContiguousIsOneRun(tail, base, c);
    ExpandOfTwo(two[0], two[1]);
    CoalesceExact(runs);
    TwoRunsMerged(head[0], base, c, p, p + |tail|);
    MergedUnique(Coalesce(runs), two);
  }

  lemma TwoRunsMerged(start: nat, base: nat, c: nat, p: nat, needed: nat)
    requires c > 0 && 0 < p < needed
    ensures Merged(TwoRuns(start, base, c, p, needed))
    ensures TwoRuns(start, base, c, p, needed)[1].offset == TwoRuns(start, base, c, p, needed)[0].End() + p * c
  {
    assert (start + 2 * p) * c == start * c + p * c + p * c;
    ProductOrder(0, p, c);
    ProductOrder(0, needed - p, c);
  }

  lemma Cancel(a: int, b: int, c: nat)
    requires c > 0 && a >= 0 && b >= 0 && a * c == b * c
    ensures a == b
  {
    ProductOrder(a, b, c);
    ProductOrder(b, a, c);
  }

  /** Where each cluster's first byte stands among the file's. */
  lemma {:induction false} ClusterAt(clusters: seq<nat>, base: nat, c: nat, i: nat)
    requires c > 0 && i < |clusters|
    ensures |Expand(ClusterRuns(clusters, base, c))| == |clusters| * c
    ensures i * c < |clusters| * c && Expand(ClusterRuns(clusters, base, c))[i * c].0 == base + clusters[i] * c
  {
    var n := |clusters| - 1;
    var runs := ClusterRuns(clusters, base, c);
    assert runs[..n] == ClusterRuns(clusters[..n], base, c);
    assert (n + 1) * c == n * c + c;
    ProductOrder(i, n + 1, c);
    if n == 0 {
      assert Expand(runs[..n]) == [];
    } else {
      ClusterAt(clusters[..n], base, c, if i < n then i else 0);
      ProductOrder(i, n, c);
    }
  }

  /** Only contiguous stretches a pad apart read back as those two runs. */
  lemma TwoRunsOnlyThen(head: seq<nat>, tail: seq<nat>, base: nat, c: nat, p: nat, runs: seq<ByteRun>)
    requires c > 0 && p > 0 && |head| == p && tail != []
    requires runs == Coalesce(ClusterRuns(head + tail, base, c))
    requires |runs| == 2 && runs[0].length == p * c && runs[1].offset == runs[0].End() + p * c
    ensures Contiguous(head) && Contiguous(tail) && tail[0] == head[0] + 2 * p
  {
    hide Coalesce, Merged;
    var all := head + tail;
    CoalesceExact(ClusterRuns(all, base, c));
    assert runs == [runs[0], runs[1]];
    ExpandOfTwo(runs[0], runs[1]);
    FirstOffset(all, base, c, runs[0], runs[1]);
    forall i | 0 <= i < |all|
      ensures all[i] == if i < p then all[0] + i else all[0] + p + i
    {
      ClusterAt(all, base, c, i);
      StretchAt(all, base, c, p, i, runs[0], runs[1]);
    }
    assert forall i :: 0 <= i < p ==> head[i] == all[i];
    assert forall i :: 0 <= i < |tail| ==> tail[i] == all[p + i];
  }

  lemma FirstOffset(all: seq<nat>, base: nat, c: nat, first: ByteRun, second: ByteRun)
    requires c > 0 && all != [] && first.length > 0
    requires Expand(ClusterRuns(all, base, c)) == Positions(first) + Positions(second)
    ensures first.offset == base + all[0] * c
  {
    hide Expand;
    ClusterAt(all, base, c, 0);
    assert Expand(ClusterRuns(all, base, c))[0] == Positions(first)[0];
  }

  lemma StretchAt(all: seq<nat>, base: nat, c: nat, p: nat, i: nat, first: ByteRun, second: ByteRun)
    requires c > 0 && i < |all|
    requires Expand(ClusterRuns(all, base, c)) == Positions(first) + Positions(second)
    requires first.offset == base + all[0] * c && first.length == p * c && second.offset == first.End() + p * c
    ensures all[i] == if i < p then all[0] + i else all[0] + p + i
  {
    hide Expand;
    ClusterAt(all, base, c, i);
    ProductOrder(i, p, c);
    if i < p {
      assert (all[0] + i) * c == all[0] * c + i * c;
      Cancel(all[i], all[0] + i, c);
    } else {
      assert (all[0] + p + i) * c == all[0] * c + p * c + i * c;
      Cancel(all[i], all[0] + p + i, c);
    }
  }

  // ---------------------------------------------------------------------- verdict

  const SECTOR_BYTES: nat := 512

  datatype Reach = Backwards | HeadOffGrid | GapOffGrid | NoTail | PastWindow

  datatype Verdict = Verdict(
    runs: nat, headBytes: Option<int>, gapBytes: Option<int>, tailBytes: Option<int>, gridBytes: nat,
    reach: seq<Reach>, plantOk: bool, reachable: bool)

  /** A layout the reassembler's search enumerates. */
  predicate Searchable(head: ByteRun, tail: ByteRun, size: nat, step: nat, window: nat)
    requires step > 0
  {
    var gap, rest := tail.offset - head.End(), size - head.length;
    && tail.offset > head.offset
    && head.length % step == 0 && gap % step == 0
    && rest > 2 && head.length + gap + rest <= window
  }

  /** `judge_fragment_plant`. */
  method Judge(runs: seq<ByteRun>, size: nat, clusterBytes: Option<nat>, window: nat) returns (v: Verdict)
    ensures v.gridBytes == (if clusterBytes.Some? && clusterBytes.value > 0 then clusterBytes.value else SECTOR_BYTES)
    ensures v.plantOk <==> |runs| == 2
    ensures v.reachable <==> |runs| == 2 && Searchable(runs[0], runs[1], size, v.gridBytes, window)
    ensures |runs| == 2 ==>
              && v.headBytes == Some(runs[0].length) && v.gapBytes == Some(runs[1].offset - runs[0].End())
              && v.tailBytes == Some(size - runs[0].length)
    ensures v.runs == |runs|
    ensures |runs| == 2 ==>
              var (gap, rest) := (runs[1].offset - runs[0].End(), size - runs[0].length);
              var forward := runs[1].offset > runs[0].offset;
              && (Backwards in v.reach <==> !forward)
              && (HeadOffGrid in v.reach <==> forward && runs[0].length % v.gridBytes != 0)
              && (GapOffGrid in v.reach <==> forward && gap % v.gridBytes != 0)
              && (NoTail in v.reach <==> forward && rest <= 2)
              && (PastWindow in v.reach <==>
                  forward && runs[0].length + gap + (if rest > 0 then rest else 0) > window)
  {
    var step := if clusterBytes.Some? && clusterBytes.value > 0 then clusterBytes.value else SECTOR_BYTES;
    var reach: seq<Reach> := [];
    v := Verdict(|runs|, None, None, None, step, [], false, false);
    if |runs| != 2 { return; }
    var head, tail := runs[0], runs[1];
    var gap := tail.offset - (head.offset + head.length);
    var tailBytes := size - head.length;
    v := v.(headBytes := Some(head.length), gapBytes := Some(gap), tailBytes := Some(tailBytes));
    if tail.offset <= head.offset {
      reach := reach + [Backwards];
    } else {
      if head.length % step != 0 { reach := reach + [HeadOffGrid]; }
      if gap % step != 0 { reach := reach + [GapOffGrid]; }
      if tailBytes <= 2 { reach := reach + [NoTail]; }
      if head.length + gap + (if tailBytes > 0 then tailBytes else 0) > window { reach := reach + [PastWindow]; }
    }
    v := v.(reach := reach, plantOk := true, reachable := reach == []);
  }

  // ---------------------------------------------------------------- the whole pass

  /** The pads the fill ended on lie side by side, as far as the file needs them. */
  predicate PadsSideBySide(space: seq<nat>, at: nat, p: nat, needed: nat)
    requires 0 < p < needed <= 2 * p && at + 3 * p <= |space|
  {
    && Contiguous(space[at..at + p]) && Contiguous(space[at + 2 * p..at + p + needed])
    && space[at + 2 * p] == space[at] + 2 * p
  }

  /** In particular they do when the free space was one region. */
  lemma OneRegionSideBySide(space: seq<nat>, at: nat, p: nat, needed: nat)
    requires 0 < p < needed <= 2 * p && at + 3 * p <= |space| && Contiguous(space)
    ensures PadsSideBySide(space, at, p, needed)
  {}

  /** The verdict says: one pad, one pad's gap, and the rest, and the search reaches it. */
  predicate Accepted(v: Verdict, size: nat)
  {
    && v.plantOk && v.headBytes == Some(PAD_BYTES) && v.gapBytes == Some(PAD_BYTES)
    && v.tailBytes == Some(size - PAD_BYTES) && v.reachable
  }

  /** The pieces stand for the clusters' bytes, however the volume's structures cut them. */
  predicate ListsFile(pieces: seq<Piece>, unit: nat, clusters: seq<nat>, base: nat, c: nat)
    requires unit > 0 && c > 0
  {
    Expand(Scaled(pieces, unit)) == Expand(ClusterRuns(clusters, base, c))
  }

  /** Plant, read back, judge: for any pieces the volume's structures list the file's clusters
      in, the plant is accepted exactly when its pads lay side by side and the search window is
      long enough. */
  method PlantAndVerify(vol: Volume, size: nat, growth: nat -> nat, pieces: seq<Piece>, unit: nat, base: nat,
      window: nat)
    returns (r: Result<Plant, Aborted>, v: Verdict, ghost space: seq<nat>, ghost at: nat)
    requires vol.Valid() && PAD_BYTES + SLACK <= size <= 2 * PAD_BYTES - SLACK && unit > 0
    modifies vol
    ensures r.Ok? ==>
              && vol.Valid() && Laid(vol, space, at, size)
              && var fills := old(vol.FreeBytes()) / FILL_BYTES + 1;
              && Prepared(old(vol.free), old(vol.files), Placeholders(fills), growth) == Some(space)
              && at == PadsBegin(|space|, vol.PadClusters(), fills)
    ensures r.Ok? && ListsFile(pieces, unit, vol.files[Jpeg].clusters, base, vol.clusterBytes) ==>
              (Accepted(v, size) <==>
               PadsSideBySide(space, at, vol.PadClusters(), Clusters(size, vol.clusterBytes))
                   && PAD_BYTES + size <= window)
    ensures r.Ok? && Contiguous(space) && PAD_BYTES + size <= window
            && ListsFile(pieces, unit, vol.files[Jpeg].clusters, base, vol.clusterBytes) ==>
              Accepted(v, size)
  {
    hide Coalesce, Expand, Contiguous, Prepared, Placeholders, PadsBegin;
    r, space, at := PlantFragmented(vol, size, growth);
    var runs := ReadRuns(pieces, unit);
    v := Judge(runs, size, Some(vol.clusterBytes), window);
    if r.Ok? && ListsFile(pieces, unit, vol.files[Jpeg].clusters, base, vol.clusterBytes) {
      CoalesceIgnoresCuts(Scaled(pieces, unit), ClusterRuns(vol.files[Jpeg].clusters, base, vol.clusterBytes));
      JudgedRight(vol, space, at, size, base, runs, window, v);
      if Contiguous(space) { OneRegionSideBySide(space, at, vol.PadClusters(), Clusters(size, vol.clusterBytes)); }
    }
  }

  lemma JudgedRight(vol: Volume, space: seq<nat>, at: nat, size: nat, base: nat, runs: seq<ByteRun>,
      window: nat, v: Verdict)
    requires vol.Valid() && Laid(vol, space, at, size) && size >= PAD_BYTES + SLACK
    requires runs == Coalesce(ClusterRuns(vol.files[Jpeg].clusters, base, vol.clusterBytes))
    requires v.gridBytes == vol.clusterBytes && (v.plantOk <==> |runs| == 2)
    requires v.reachable <==> |runs| == 2 && Searchable(runs[0], runs[1], size, v.gridBytes, window)
    requires |runs| == 2 ==>
               && v.headBytes == Some(runs[0].length) && v.gapBytes == Some(runs[1].offset - runs[0].End())
               && v.tailBytes == Some(size - runs[0].length)
    ensures Accepted(v, size) <==>
            PadsSideBySide(space, at, vol.PadClusters(), Clusters(size, vol.clusterBytes)) && PAD_BYTES + size <= window
  {
    hide Coalesce, Expand, Contiguous, Clusters;
    var p, c, needed := vol.PadClusters(), vol.clusterBytes, Clusters(size, vol.clusterBytes);
    var head, tail := space[at..at + p], space[at + 2 * p..at + p + needed];
    PadIsClusters(vol);
    if PadsSideBySide(space, at, p, needed) {
      TwoStretches(head, tail, base, c, p);
      TwoRunsMerged(head[0], base, c, p, needed);
      DividesPad(vol);
    }
    if Accepted(v, size) {
      TwoRunsOnlyThen(head, tail, base, c, p, runs);
    }
  }

  lemma DividesPad(vol: Volume)
    requires vol.Valid()
    ensures PAD_BYTES % vol.clusterBytes == 0
  {}
}
