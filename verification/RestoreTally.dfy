/** How far a restore has got: the byte account, and the bounded log of refused ranges
    (core/restore.py, `_Tally`). */
module RestoreTally {

  import opened Digests
  import opened Runs

  /** One refused write: its offset, its length and the error's name. */
  type Refusal = Run<string>

  // ------------------------------------------------------------ the bad-range log

  datatype BadLog = BadLog(spans: seq<Refusal>, omitted: nat)

  /** One more refusal: it extends the last range, opens a new one, or is only counted. */
  function Note(log: BadLog, r: Refusal, cap: nat): BadLog
  {
    if log.spans != [] && Joins(log.spans[|log.spans| - 1], r) then log.(spans := Collect(log.spans, r))
    else if |log.spans| < cap then log.(spans := log.spans + [r])
    else log.(omitted := log.omitted + r.length)
  }

  function Replay(refusals: seq<Refusal>, cap: nat): BadLog
  {
    if refusals == [] then BadLog([], 0)
    else Note(Replay(refusals[..|refusals| - 1], cap), refusals[|refusals| - 1], cap)
  }

  /** `k` is the longest prefix whose ranges, merged, still fit in `cap` entries. */
  predicate FitsUpTo(refusals: seq<Refusal>, cap: nat, k: nat)
  {
    && k <= |refusals|
    && |Coalesce(refusals[..k])| <= cap
    && (k < |refusals| ==> |Coalesce(refusals[..k + 1])| > cap)
  }

  /** For refusals at ascending offsets, the log holds exactly the merged ranges of the longest
      prefix that fits; everything from the first refusal left out on is counted, not listed. */
  lemma {:induction false} LogExact(refusals: seq<Refusal>, cap: nat) returns (k: nat)
    requires Ascending(refusals)
    ensures FitsUpTo(refusals, cap, k)
    ensures Replay(refusals, cap) == BadLog(Coalesce(refusals[..k]), Total(refusals[k..]))
  {
    var n := |refusals|;
    if n == 0 { return 0; }
    AscendingPrefix(refusals, n - 1);
    k := LogExact(refusals[..n - 1], cap);
    if k < n - 1 {
      LogStaysFull(refusals, cap, k);
    } else {
      assert refusals[..n - 1][..k] == refusals[..n - 1] && refusals[..n - 1][k..] == [];
      k := NothingOmittedYet(refusals, cap);
    }
  }

  lemma LastRefusal(refusals: seq<Refusal>)
    requires refusals != []
    ensures var last := refusals[|refusals| - 1];
            && Coalesce(refusals) == Collect(Coalesce(refusals[..|refusals| - 1]), last)
            && Total<string>([]) == 0 && Total([last]) == last.length
  {
    assert [refusals[|refusals| - 1]][..0] == [];
  }

  /** While nothing was left out, one more refusal is listed if the ranges still fit. */
  lemma NothingOmittedYet(refusals: seq<Refusal>, cap: nat) returns (k: nat)
    requires refusals != []
    requires var init := refusals[..|refusals| - 1];
             |Coalesce(init)| <= cap && Replay(init, cap) == BadLog(Coalesce(init), 0)
    ensures FitsUpTo(refusals, cap, k)
    ensures Replay(refusals, cap) == BadLog(Coalesce(refusals[..k]), Total(refusals[k..]))
  {
    hide Coalesce, Total;
    var n := |refusals|;
    LastRefusal(refusals);
    if |Coalesce(refusals)| <= cap {
      k := n;
      assert refusals[..n] == refusals && refusals[n..] == [];
    } else {
      k := n - 1;
      assert refusals[..n] == refusals;
      assert refusals[k..] == [refusals[k]];
    }
  }

  /** Once a refusal was left out, the next one is left out too: it cannot touch the last range. */
  lemma LogStaysFull(refusals: seq<Refusal>, cap: nat, k: nat)
    requires Ascending(refusals) && k < |refusals| - 1
    requires var init := refusals[..|refusals| - 1];
             && FitsUpTo(init, cap, k)
             && Replay(init, cap) == BadLog(Coalesce(init[..k]), Total(init[k..]))
    ensures FitsUpTo(refusals, cap, k)
    ensures Replay(refusals, cap) == BadLog(Coalesce(refusals[..k]), Total(refusals[k..]))
  {
    hide Ascending;
    var n := |refusals|;
    var init, last := refusals[..n - 1], refusals[n - 1];
    assert init[..k] == refusals[..k] && init[..k + 1] == refusals[..k + 1];
    assert refusals[k..][..n - 1 - k] == init[k..];
    var listed := Coalesce(init[..k]);
    assert init[..k + 1][..k] == init[..k];
    CoalesceGrowsByOne(init[..k + 1]);
    assert |listed| == cap;
    LastRangeEndsBefore(refusals, k);
    NoteOmits(Replay(init, cap), last, cap);
    assert Total(refusals[k..]) == Total(init[k..]) + last.length;
  }

  lemma NoteOmits(log: BadLog, r: Refusal, cap: nat)
    requires |log.spans| == cap
    requires log.spans != [] ==> log.spans[|log.spans| - 1].End() < r.offset
    ensures Note(log, r, cap) == BadLog(log.spans, log.omitted + r.length)
  {}

  lemma LastRangeEndsBefore(refusals: seq<Refusal>, k: nat)
    requires Ascending(refusals) && k < |refusals| - 1
    ensures var listed := Coalesce(refusals[..k]);
            listed != [] ==> listed[|listed| - 1].End() < refusals[|refusals| - 1].offset
  {
    CoalescedPrefix(refusals, k);
    if k > 0 {
      AscendingPair(refusals, k - 1, k);
      AscendingPair(refusals, k, |refusals| - 1);
    }
  }

  lemma CoalesceGrowsByOne(pieces: seq<Refusal>)
    requires pieces != []
    ensures |Coalesce(pieces)| <= |Coalesce(pieces[..|pieces| - 1])| + 1
  {}

  /** What the log is, whatever was refused: ascending disjoint ranges that cannot be merged,
      never more than the cap, and together with the omitted bytes every byte refused. */
  lemma LogShape(refusals: seq<Refusal>, cap: nat)
    requires Ascending(refusals)
    ensures var log := Replay(refusals, cap);
            && Ascending(log.spans) && Merged(log.spans)
            && |log.spans| <= cap
            && Total(log.spans) + log.omitted == Total(refusals)
  {
    var k := LogExact(refusals, cap);
    CoalescedPrefix(refusals, k);
    TotalSplit(refusals, k);
  }

  // --------------------------------------------------------------- refused offsets

  /** The `length` offsets from `from` on. */
  ghost function Offsets(from: int, length: nat): (s: set<int>)
    ensures forall p :: p in s <==> from <= p < from + length
  {
    if length == 0 then {} else Offsets(from, length - 1) + {from + length - 1}
  }

  lemma {:induction false} OffsetsCount(from: int, length: nat)
    ensures |Offsets(from, length)| == length
  {
    if length > 0 {
      OffsetsCount(from, length - 1);
    }
  }

  ghost function BadAt(refusals: seq<Refusal>): set<int>
  {
    if refusals == [] then {}
    else BadAt(refusals[..|refusals| - 1])
         + Offsets(refusals[|refusals| - 1].offset, refusals[|refusals| - 1].length)
  }

  lemma {:induction false} BadAtBelow(refusals: seq<Refusal>)
    requires Ascending(refusals)
    ensures refusals != [] ==>
              forall p :: p in BadAt(refusals) ==> refusals[0].offset <= p < refusals[|refusals| - 1].End()
    ensures refusals != [] ==> refusals[0].offset < refusals[|refusals| - 1].End()
  {
    if |refusals| > 1 {
      AscendingPrefix(refusals, |refusals| - 1);
      BadAtBelow(refusals[..|refusals| - 1]);
    } else if |refusals| == 1 {
      assert BadAt(refusals[..0]) == {};
    }
  }

  /** Refusals never overlap: as many offsets are bad as bytes were refused. */
  lemma {:induction false} BadCount(refusals: seq<Refusal>)
    requires Ascending(refusals)
    ensures |BadAt(refusals)| == Total(refusals)
  {
    if refusals != [] {
      var n := |refusals|;
      AscendingPrefix(refusals, n - 1);
      BadCount(refusals[..n - 1]);
      BadAtBelow(refusals[..n - 1]);
      OffsetsCount(refusals[n - 1].offset, refusals[n - 1].length);
      assert BadAt(refusals[..n - 1]) !! Offsets(refusals[n - 1].offset, refusals[n - 1].length);
    }
  }

  // -------------------------------------------------------------------- the tally

  datatype Phase = Restore | Verify

  /** The last `run` offsets before `end` are bad and the one before them is not. */
  ghost predicate TrailingRun(bad: set<int>, start: int, end: int, run: nat)
  {
    && run <= end - start
    && (forall p :: end - run <= p < end ==> p in bad)
    && (end - run > start ==> end - run - 1 !in bad)
  }

  lemma TrailingRunGrows(bad: set<int>, start: int, end: int, run: nat, size: nat)
    requires TrailingRun(bad, start, end, run)
    ensures TrailingRun(bad + Offsets(end, size), start, end + size, run + size)
  {
    assert end - run > start ==> end - run - 1 !in Offsets(end, size);
  }

  /** What one more refusal at the end of the account does to everything derived from them. */
  lemma OneMoreRefusal(refusals: seq<Refusal>, r: Refusal, cap: nat)
    requires Ascending(refusals) && r.length > 0
    requires refusals != [] ==> refusals[|refusals| - 1].End() <= r.offset
    ensures Ascending(refusals + [r])
    ensures Replay(refusals + [r], cap) == Note(Replay(refusals, cap), r, cap)
    ensures Total(refusals + [r]) == Total(refusals) + r.length
    ensures BadAt(refusals + [r]) == BadAt(refusals) + Offsets(r.offset, r.length)
  {
    var grown := refusals + [r];
    assert grown[..|refusals|] == refusals;
  }

  /** The account agrees with the refusals it was made from. */
  ghost predicate Account(
    refusals: seq<Refusal>, log: BadLog, start: int, end: int, unwritable: nat, run: nat, cap: nat)
  {
    && Ascending(refusals)
    && (refusals != [] ==> start <= refusals[0].offset && refusals[|refusals| - 1].End() <= end)
    && log == Replay(refusals, cap)
    && unwritable == Total(refusals)
    && TrailingRun(BadAt(refusals), start, end, run)
  }

  lemma AccountAfterRefusal(
    refusals: seq<Refusal>, log: BadLog, start: int, end: int, unwritable: nat, run: nat, cap: nat, r: Refusal)
    requires Account(refusals, log, start, end, unwritable, run, cap)
    requires r.offset == end && r.length > 0
    ensures Account(refusals + [r], Note(log, r, cap), start, end + r.length, unwritable + r.length,
        run + r.length, cap)
    ensures BadAt(refusals + [r]) == BadAt(refusals) + Offsets(end, r.length)
  {
    OneMoreRefusal(refusals, r, cap);
    TrailingRunGrows(BadAt(refusals), start, end, run, r.length);
  }

  class Tally {
    const start: nat
    const maxRun: nat
    const maxSpans: nat
    var written: nat
    var unwritable: nat
    var unwritableOmitted: nat
    var run: nat
    var spans: seq<Refusal>
    var phase: Phase
    /** Every refusal so far, in order. */
    ghost var refusals: seq<Refusal>

    constructor (start: nat, maxRun: nat, maxSpans: nat)
      ensures this.start == start && this.maxRun == maxRun && this.maxSpans == maxSpans
      ensures written == 0 && unwritable == 0 && run == 0 && refusals == [] && phase == Restore
      ensures Valid()
    {
      this.start, this.maxRun, this.maxSpans := start, maxRun, maxSpans;
      written, unwritable, unwritableOmitted, run, spans, phase := 0, 0, 0, 0, [], Restore;
      refusals := [];
    }

    function Accounted(): nat
      reads this
    {
      written + unwritable
    }

    function End(): nat
      reads this
    {
      start + written + unwritable
    }

    /** The offsets the target refused. */
    ghost function Bad(): set<int>
      reads this
    {
      BadAt(refusals)
    }

    ghost predicate Valid()
      reads this
    {
      && Account(refusals, BadLog(spans, unwritableOmitted), start, End(), unwritable, run, maxSpans)
      && (written == 0 ==> run == unwritable)
    }

    lemma BadInRange()
      requires Valid()
      ensures forall p :: p in Bad() ==> start <= p < End()
      ensures |Bad()| == unwritable
      ensures TrailingRun(Bad(), start, End(), run)
      ensures written == 0 ==> forall p :: start <= p < End() ==> p in Bad()
    {
      BadAtBelow(refusals);
      BadCount(refusals);
    }

    lemma Trailing()
      requires Valid()
      ensures TrailingRun(Bad(), start, End(), run)
      ensures forall p :: p in Bad() ==> start <= p < End()
    {
      BadInRange();
    }

    lemma NothingRefused()
      requires refusals == []
      ensures Bad() == {}
    {}

    lemma RunIsShort()
      requires Valid()
      ensures run <= Accounted()
    {}

    /** `count` more bytes were accepted right after what is accounted for. */
    method Wrote(count: nat)
      requires Valid() && count > 0
      modifies this`written, this`run
      ensures Valid()
      ensures written == old(written) + count && run == 0
    {
      BadInRange();
      written := written + count;
      run := 0;
    }

    /** `size` bytes right after what is accounted for were refused with `error`. */
    method Refused(offset: nat, size: nat, error: string)
      requires Valid() && size > 0 && offset == End()
      modifies this
      ensures Valid()
      ensures written == old(written) && phase == old(phase)
      ensures unwritable == old(unwritable) + size && run == old(run) + size
      ensures refusals == old(refusals) + [Run(offset, size, error)]
      ensures Bad() == old(Bad()) + Offsets(offset, size)
    {
      hide Account, BadAt, Replay;
      var r: Refusal := Run(offset, size, error);
      AccountAfterRefusal(refusals, BadLog(spans, unwritableOmitted), start, End(), unwritable, run, maxSpans, r);
      ghost var noted := Note(BadLog(spans, unwritableOmitted), r, maxSpans);
      unwritable := unwritable + size;
      run := run + size;
      var last := if spans != [] then Some(spans[|spans| - 1]) else None;
      if last.Some? && last.value.offset + last.value.length == offset && last.value.tag == error {
        spans := spans[|spans| - 1 := last.value.(length := last.value.length + size)];
      } else if |spans| < maxSpans {
        spans := spans + [r];
      } else {
        unwritableOmitted := unwritableOmitted + size;
      }
      assert BadLog(spans, unwritableOmitted) == noted;
      refusals := refusals + [r];
    }
  }
}
