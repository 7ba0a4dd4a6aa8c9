/** How a restore's writes go, told from the target's answers alone: which calls are made, what
    is written, refused or torn, and where it stops. No disk, no image bytes, no tally. */
module RestoreForecast {

  import opened Digests
  import opened BlockTargets

  /** The next answer to come, the bytes written and refused so far, and the refusals in a row. */
  datatype Standing = Standing(k: nat, written: nat, refused: nat, run: nat)

  /** `Stalled`: a write took nothing without an error. `Short`: a sector was not taken whole.
      `GaveUp`: too many refusals in a row. */
  datatype Course = Going(s: Standing) | Stalled(s: Standing) | Short(s: Standing, count: int) | GaveUp(s: Standing)

  /** What is fixed for a run: the answers, the size of a sector, and how many bytes may be
      refused in a row. */
  datatype Setting = Setting(answers: nat -> WriteAnswer, sector: nat, maxRun: nat)

  /** The fallback: `left` bytes, one sector at a time. */
  function BySector(t: Setting, s: Standing, left: nat): Course
    requires t.sector > 0
    decreases left
  {
    if left == 0 then Going(s)
    else
      var size := Min(t.sector, left);
      match Answered(t.answers(s.k), size)
      case Err(_) =>
        var s' := s.(k := s.k + 1, refused := s.refused + size, run := s.run + size);
        if s'.run > t.maxRun then GaveUp(s') else BySector(t, s', left - size)
      case Ok(count) =>
        if count != size then Short(s.(k := s.k + 1), count)
        else BySector(t, s.(k := s.k + 1, written := s.written + size, run := 0), left - size)
  }

  /** One chunk's write: `left` bytes at once, the rest at once again after a short write, and
      sector by sector after a refusal. */
  function InOne(t: Setting, s: Standing, left: nat): Course
    requires t.sector > 0
    decreases left
  {
    if left == 0 then Going(s)
    else
      match Answered(t.answers(s.k), left)
      case Err(_) => BySector(t, s.(k := s.k + 1), left)
      case Ok(count) =>
        if count <= 0 then Stalled(s.(k := s.k + 1))
        else InOne(t, s.(k := s.k + 1, written := s.written + count, run := 0), left - count)
  }

  /** The first `chunks` chunks of `total` bytes, from the target's answer `from` on. */
  function Attempt(t: Setting, from: nat, total: nat, chunkBytes: nat, chunks: nat): Course
    requires t.sector > 0
  {
    if chunks == 0 then Going(Standing(from, 0, 0, 0))
    else
      match Attempt(t, from, total, chunkBytes, chunks - 1)
      case Going(s) =>
        if s.written + s.refused >= total then Going(s)
        else InOne(t, s, Min(chunkBytes, total - (s.written + s.refused)))
      case stopped => stopped
  }

  /** All of it: no more chunks than bytes are needed. */
  function Forecast(t: Setting, from: nat, total: nat, chunkBytes: nat): Course
    requires t.sector > 0
  {
    Attempt(t, from, total, chunkBytes, total)
  }

  /** Once stopped, or once every byte is accounted for, more chunks change nothing. */
  lemma {:induction false} AttemptSettles(t: Setting, from: nat, total: nat, chunkBytes: nat, i: nat, j: nat)
    requires t.sector > 0 && i <= j
    requires var c := Attempt(t, from, total, chunkBytes, i);
             c.Going? ==> c.s.written + c.s.refused >= total
    ensures Attempt(t, from, total, chunkBytes, j) == Attempt(t, from, total, chunkBytes, i)
  {
    hide InOne;
    if i < j { AttemptSettles(t, from, total, chunkBytes, i, j - 1); }
  }

  // ------------------------------------------------------ what some targets are bound to do

  /** Takes something of every write it is given. */
  ghost predicate NeverRefuses(t: Setting)
  {
    forall k :: t.answers(k).TakesAll? || (t.answers(k).Takes? && t.answers(k).count > 0)
  }

  ghost predicate AlwaysRefuses(t: Setting)
  {
    forall k :: t.answers(k).Refuses?
  }

  /** Never answers with a count above `low` but below a sector. */
  ghost predicate NoCountIn(t: Setting, low: int)
  {
    forall k :: t.answers(k).Takes? && t.answers(k).count < t.sector ==> t.answers(k).count <= low
  }

  lemma {:induction false} WillingInOne(t: Setting, s: Standing, left: nat)
    requires t.sector > 0 && NeverRefuses(t)
    ensures var c := InOne(t, s, left);
            c.Going? && c.s.refused == s.refused && c.s.written == s.written + left
    decreases left
  {
    if left > 0 {
      match Answered(t.answers(s.k), left)
      case Ok(count) =>
        WillingInOne(t, s.(k := s.k + 1, written := s.written + count, run := 0), left - count);
      case Err(_) =>
    }
  }

  /** A target that takes something of every write is never stopped, and every chunk gets on. */
  lemma {:induction false} WillingGoesOn(t: Setting, from: nat, total: nat, chunkBytes: nat, chunks: nat)
    requires t.sector > 0 && NeverRefuses(t)
    ensures var c := Attempt(t, from, total, chunkBytes, chunks);
            && c.Going? && c.s.refused == 0 && c.s.written <= total
            && (chunkBytes > 0 ==> c.s.written >= Min(chunks, total))
  {
    hide NeverRefuses, InOne;
    if chunks > 0 {
      WillingGoesOn(t, from, total, chunkBytes, chunks - 1);
      var s := Attempt(t, from, total, chunkBytes, chunks - 1).s;
      if s.written + s.refused < total {
        WillingInOne(t, s, Min(chunkBytes, total - (s.written + s.refused)));
      }
    }
  }

  /** ... so all of it is written. */
  lemma WillingIsWrittenInFull(t: Setting, from: nat, total: nat, chunkBytes: nat)
    requires t.sector > 0 && NeverRefuses(t) && chunkBytes > 0
    ensures var c := Forecast(t, from, total, chunkBytes);
            c.Going? && c.s.refused == 0 && c.s.written == total
  {
    hide Attempt;
    WillingGoesOn(t, from, total, chunkBytes, total);
  }

  lemma {:induction false} UnwillingBySector(t: Setting, s: Standing, left: nat)
    requires t.sector > 0 && AlwaysRefuses(t)
    ensures var c := BySector(t, s, left);
            (c.Going? || c.GaveUp?) && c.s.written == s.written
    decreases left
  {
    if left > 0 {
      var size := Min(t.sector, left);
      UnwillingBySector(t, s.(k := s.k + 1, refused := s.refused + size, run := s.run + size), left - size);
    }
  }

  /** A target that refuses everything is never written to. */
  lemma {:induction false} UnwillingIsNotWritten(t: Setting, from: nat, total: nat, chunkBytes: nat, chunks: nat)
    requires t.sector > 0 && AlwaysRefuses(t)
    ensures var c := Attempt(t, from, total, chunkBytes, chunks);
            (c.Going? || c.GaveUp?) && c.s.written == 0
  {
    hide BySector;
    if chunks > 0 {
      UnwillingIsNotWritten(t, from, total, chunkBytes, chunks - 1);
      var c := Attempt(t, from, total, chunkBytes, chunks - 1);
      if c.Going? && c.s.written + c.s.refused < total {
        var left := Min(chunkBytes, total - (c.s.written + c.s.refused));
        assert t.answers(c.s.k).Refuses?;
        UnwillingBySector(t, c.s.(k := c.s.k + 1), left);
      }
    }
  }

  lemma {:induction false} ShortBySector(t: Setting, s: Standing, left: nat, low: int)
    requires t.sector > 0 && NoCountIn(t, low)
    ensures BySector(t, s, left).Short? ==> BySector(t, s, left).count <= low
    decreases left
  {
    if left > 0 {
      var size := Min(t.sector, left);
      match Answered(t.answers(s.k), size)
      case Err(_) =>
        ShortBySector(t, s.(k := s.k + 1, refused := s.refused + size, run := s.run + size), left - size, low);
      case Ok(count) =>
        if count == size {
          ShortBySector(t, s.(k := s.k + 1, written := s.written + size, run := 0), left - size, low);
        }
    }
  }

  lemma {:induction false} ShortInOne(t: Setting, s: Standing, left: nat, low: int)
    requires t.sector > 0 && NoCountIn(t, low)
    ensures InOne(t, s, left).Short? ==> InOne(t, s, left).count <= low
    ensures InOne(t, s, left).Stalled? ==> exists k :: t.answers(k).Takes? && t.answers(k).count <= 0
    decreases left
  {
    hide BySector;
    if left > 0 {
      match Answered(t.answers(s.k), left)
      case Err(_) => ShortBySector(t, s.(k := s.k + 1), left, low);
        FallbackDoesNotStall(t, s.(k := s.k + 1), left);
      case Ok(count) =>
        if count > 0 {
          ShortInOne(t, s.(k := s.k + 1, written := s.written + count, run := 0), left - count, low);
        }
    }
  }

  lemma {:induction false} FallbackDoesNotStall(t: Setting, s: Standing, left: nat)
    requires t.sector > 0
    ensures !BySector(t, s, left).Stalled?
    decreases left
  {
    if left > 0 {
      var size := Min(t.sector, left);
      match Answered(t.answers(s.k), size)
      case Err(_) =>
        FallbackDoesNotStall(t, s.(k := s.k + 1, refused := s.refused + size, run := s.run + size), left - size);
      case Ok(count) =>
        FallbackDoesNotStall(t, s.(k := s.k + 1, written := s.written + size, run := 0), left - size);
    }
  }

  /** A target with no answer strictly between nothing and a sector tears no sector. */
  lemma {:induction false} NoCountNoTear(t: Setting, from: nat, total: nat, chunkBytes: nat, chunks: nat, low: int)
    requires t.sector > 0 && NoCountIn(t, low)
    ensures var c := Attempt(t, from, total, chunkBytes, chunks);
            && (c.Short? ==> c.count <= low)
            && (c.Stalled? ==> exists k :: t.answers(k).Takes? && t.answers(k).count <= 0)
  {
    hide InOne, NoCountIn;
    if chunks > 0 {
      NoCountNoTear(t, from, total, chunkBytes, chunks - 1, low);
      var c := Attempt(t, from, total, chunkBytes, chunks - 1);
      if c.Going? && c.s.written + c.s.refused < total {
        ShortInOne(t, c.s, Min(chunkBytes, total - (c.s.written + c.s.refused)), low);
      }
    }
  }

  ghost predicate AllRefused(t: Setting, from: nat, n: nat)
  {
    forall j :: from <= j < from + n ==> t.answers(j).Refuses?
  }

  /** Among any `m` answers in a row one is no refusal. */
  ghost predicate NeverRefusesInARow(t: Setting, m: nat)
  {
    forall k: nat :: !AllRefused(t, k, m)
  }

  /** The last `r` answers before the next were refusals, and account for the bytes refused in a row. */
  ghost predicate Refusing(t: Setting, s: Standing, r: nat)
  {
    r <= s.k && AllRefused(t, s.k - r, r) && s.run <= r * t.sector
  }

  lemma FewRefusals(t: Setting, s: Standing, r: nat, m: nat)
    requires Refusing(t, s, r) && NeverRefusesInARow(t, m) && (m - 1) * t.sector <= t.maxRun
    ensures s.run <= t.maxRun
  {
    assert !AllRefused(t, s.k - r, m);
    Product(r, m - 1, t.sector);
  }

  lemma Product(a: int, b: int, n: nat)
    requires a <= b
    ensures a * n <= b * n
  {}

  lemma OneMoreInARow(t: Setting, s: Standing, r: nat, size: nat)
    requires Refusing(t, s, r) && t.answers(s.k).Refuses? && size <= t.sector
    ensures Refusing(t, s.(k := s.k + 1, refused := s.refused + size, run := s.run + size), r + 1)
    ensures Refusing(t, s.(k := s.k + 1), r + 1)
  {
    assert (r + 1) * t.sector == r * t.sector + t.sector;
  }

  /** Going on, the bytes refused in a row are still within the limit. */
  ghost predicate Tolerated(t: Setting, c: Course)
  {
    !c.GaveUp? && (c.Going? ==> exists r :: Refusing(t, c.s, r))
  }

  lemma {:induction false} ToleratedBySector(t: Setting, s: Standing, left: nat, r: nat, m: nat)
    requires t.sector > 0 && NeverRefusesInARow(t, m) && (m - 1) * t.sector <= t.maxRun && Refusing(t, s, r)
    ensures Tolerated(t, BySector(t, s, left))
    decreases left
  {
    hide NeverRefusesInARow, Refusing;
    if left > 0 {
      var size := Min(t.sector, left);
      match Answered(t.answers(s.k), size)
      case Err(_) =>
        OneMoreInARow(t, s, r, size);
        var s' := s.(k := s.k + 1, refused := s.refused + size, run := s.run + size);
        FewRefusals(t, s', r + 1, m);
        ToleratedBySector(t, s', left - size, r + 1, m);
      case Ok(count) =>
        var s' := s.(k := s.k + 1, written := s.written + size, run := 0);
        NoneRefused(t, s');
        if count == size { ToleratedBySector(t, s', left - size, 0, m); }
    }
  }

  lemma NoneRefused(t: Setting, s: Standing)
    requires s.run == 0
    ensures Refusing(t, s, 0)
  {}

  lemma {:induction false} ToleratedInOne(t: Setting, s: Standing, left: nat, r: nat, m: nat)
    requires t.sector > 0 && NeverRefusesInARow(t, m) && (m - 1) * t.sector <= t.maxRun && Refusing(t, s, r)
    ensures Tolerated(t, InOne(t, s, left))
    decreases left
  {
    hide NeverRefusesInARow, Refusing, BySector;
    if left > 0 {
      match Answered(t.answers(s.k), left)
      case Err(_) =>
        OneMoreInARow(t, s, r, 0);
        ToleratedBySector(t, s.(k := s.k + 1), left, r + 1, m);
      case Ok(count) =>
        if count > 0 {
          var s' := s.(k := s.k + 1, written := s.written + count, run := 0);
          NoneRefused(t, s');
          ToleratedInOne(t, s', left - count, 0, m);
        }
    }
  }

  /** A target that in any `m` answers gives one that is no refusal is never given up on, if the
      limit lets `m - 1` sectors in a row be refused. */
  lemma {:induction false} NeverGivenUpOn(t: Setting, from: nat, total: nat, chunkBytes: nat, chunks: nat, m: nat)
    requires t.sector > 0 && NeverRefusesInARow(t, m) && (m - 1) * t.sector <= t.maxRun
    ensures Tolerated(t, Attempt(t, from, total, chunkBytes, chunks))
    ensures !Attempt(t, from, total, chunkBytes, chunks).GaveUp?
  {
    hide NeverRefusesInARow, Refusing, InOne;
    if chunks == 0 {
      NoneRefused(t, Standing(from, 0, 0, 0));
    } else {
      NeverGivenUpOn(t, from, total, chunkBytes, chunks - 1, m);
      var c := Attempt(t, from, total, chunkBytes, chunks - 1);
      if c.Going? && c.s.written + c.s.refused < total {
        var r :| Refusing(t, c.s, r);
        ToleratedInOne(t, c.s, Min(chunkBytes, total - (c.s.written + c.s.refused)), r, m);
      }
    }
  }
}
