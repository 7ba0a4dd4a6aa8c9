/** Laying one file down in exactly two runs on an address-ordered first-fit volume
    (scripts/hardware_validation.py): fill the volume, free two pads around a live one, write. */
module FragmentPlant {

  import opened Digests

  const PAD_BYTES: nat := 64 * 1024
  const FILL_BYTES: nat := 256 * 1024
  const PAD_NAMES: nat := 10
  const REST_NAMES: nat := 16
  const SLACK: nat := 8 * 1024

  datatype Name = Jpeg | Fill(i: nat) | Pad(i: nat) | Rest(i: nat) | Other(text: string)

  /** A file's size and its clusters in the order they were allocated. */
  datatype File = File(size: nat, clusters: seq<nat>)

  predicate Rising(s: seq<nat>)
  {
    forall i, j :: 0 <= i < j < |s| ==> s[i] < s[j]
  }

  /** Every cluster of `a` lies before every cluster of `b`. */
  predicate Before(a: seq<nat>, b: seq<nat>)
  {
    forall i, j :: 0 <= i < |a| && 0 <= j < |b| ==> a[i] < b[j]
  }

  // -------------------------------------------------------------------- free space

  /** One cluster returned to the free space, which stays in address order. */
  function Insert(free: seq<nat>, x: nat): seq<nat>
  {
    if free == [] || free[|free| - 1] < x then free + [x]
    else if free[|free| - 1] == x then free
    else Insert(free[..|free| - 1], x) + [free[|free| - 1]]
  }

  function FreeAll(free: seq<nat>, clusters: seq<nat>): seq<nat>
  {
    if clusters == [] then free
    else Insert(FreeAll(free, clusters[..|clusters| - 1]), clusters[|clusters| - 1])
  }

  lemma {:induction false} InsertRises(free: seq<nat>, x: nat)
    requires Rising(free)
    ensures Rising(Insert(free, x))
    ensures forall y :: y in Insert(free, x) <==> y in free || y == x
  {
    if free != [] && free[|free| - 1] > x {
      var init, last := free[..|free| - 1], free[|free| - 1];
      InsertRises(init, x);
      assert free == init + [last];
      assert forall i :: 0 <= i < |Insert(init, x)| ==> Insert(init, x)[i] in Insert(init, x);
    } else if free != [] {
      assert forall i :: 0 <= i < |free| ==> free[i] <= free[|free| - 1];
    }
  }

  /** Freeing gives back exactly what was free and what was freed, in address order. */
  lemma {:induction false} FreeAllRises(free: seq<nat>, clusters: seq<nat>)
    requires Rising(free)
    ensures Rising(FreeAll(free, clusters))
    ensures forall y :: y in FreeAll(free, clusters) <==> y in free || y in clusters
  {
    if clusters != [] {
      var init, last := clusters[..|clusters| - 1], clusters[|clusters| - 1];
      FreeAllRises(free, init);
      InsertRises(FreeAll(free, init), last);
      assert clusters == init + [last];
    }
  }

  /** Freeing what lies after all that is free appends it. */
  lemma {:induction false} FreeAllAppends(free: seq<nat>, clusters: seq<nat>)
    requires Rising(clusters) && Before(free, clusters)
    ensures FreeAll(free, clusters) == free + clusters
  {
    if clusters == [] {
      assert free + [] == free;
    } else {
      var init, last := clusters[..|clusters| - 1], clusters[|clusters| - 1];
      FreeAllAppends(free, init);
      assert clusters == init + [last];
      assert free + clusters == (free + init) + [last];
    }
  }

  // ------------------------------------------------------------------- arithmetic

  function Clusters(size: nat, clusterBytes: nat): nat
    requires clusterBytes > 0
  {
    (size + clusterBytes - 1) / clusterBytes
  }

  lemma ProductGrows(n: nat, m: nat, c: nat)
    requires n <= m
    ensures n * c <= m * c
  {}

  lemma ProductOrder(n: nat, m: nat, c: nat)
    requires c > 0
    ensures n * c < m * c <==> n < m
  {
    assert (n + 1) * c == n * c + c;
    if n < m { ProductGrows(n + 1, m, c); } else { ProductGrows(m, n, c); }
  }

  lemma ClustersBound(size: nat, c: nat, m: nat)
    requires c > 0
    ensures Clusters(size, c) <= m <==> size <= m * c
    ensures size == m * c ==> Clusters(size, c) == m
  {
    var q := Clusters(size, c);
    var r := (size + c - 1) % c;
    assert size + c - 1 == q * c + r;
    if q <= m {
      ProductOrder(m, q, c);
    } else {
      ProductOrder(m, q - 1, c);
      assert q * c == (q - 1) * c + c;
    }
    if size == m * c && m > 0 {
      ProductOrder(q, m, c);
      assert (q + 1) * c == q * c + c;
    }
  }

  // ----------------------------------------------------------------------- volume

  /** A mounted volume: an allocator that hands out the lowest free clusters. */
  class Volume {
    const clusterBytes: nat
    var free: seq<nat>
    var files: map<Name, File>

    ghost predicate Valid()
      reads this
    {
      clusterBytes > 0 && PAD_BYTES % clusterBytes == 0 && Rising(free)
    }

    /** How many clusters a pad is. */
    function PadClusters(): nat
      requires clusterBytes > 0
    {
      PAD_BYTES / clusterBytes
    }

    /** `free()`. */
    function FreeBytes(): nat
      reads this
    {
      |free| * clusterBytes
    }

    /** Create an empty file, or empty the one there is. The directory may take `growth`
        clusters for the entry; without room for them it fails. */
    method Create(name: Name, growth: nat) returns (ok: bool)
      requires Valid()
      modifies this
      ensures Valid()
      ensures var released := FreeAll(old(free), if name in old(files) then old(files)[name].clusters else []);
              && ok == (growth <= |released|)
              && (ok ==> free == released[growth..] && files == old(files)[name := File(0, [])])
              && (!ok ==> free == released && files == old(files) - {name})
    {
      var released := FreeAll(free, if name in files then files[name].clusters else []);
      FreeAllRises(free, if name in files then files[name].clusters else []);
      ok := growth <= |released|;
      if ok {
        free, files := released[growth..], files[name := File(0, [])];
      } else {
        free, files := released, files - {name};
      }
    }

    /** Write `size` bytes into an empty file: the lowest free clusters, as far as they go. */
    method Write(name: Name, size: nat) returns (whole: bool)
      requires Valid() && name in files && files[name] == File(0, [])
      modifies this
      ensures Valid()
      ensures var needed := Clusters(size, clusterBytes);
              && whole == (needed <= |old(free)|)
              && var taken := if whole then needed else |old(free)|;
              && free == old(free)[taken..]
              && files == old(files)[name := File(if whole then size else taken * clusterBytes, old(free)[..taken])]
    {
      var needed := Clusters(size, clusterBytes);
      whole := needed <= |free|;
      if whole {
        files := files[name := File(size, free[..needed])];
        free := free[needed..];
      } else {
        files := files[name := File(|free| * clusterBytes, free[..|free|])];
        free := free[|free|..];
      }
    }

    method Unlink(name: Name)
      requires Valid() && name in files
      modifies this
      ensures Valid() && free == FreeAll(old(free), old(files)[name].clusters) && files == old(files) - {name}
    {
      FreeAllRises(free, files[name].clusters);
      free := FreeAll(free, files[name].clusters);
      files := files - {name};
    }
  }

  lemma PadIsClusters(vol: Volume)
    requires vol.Valid()
    ensures vol.PadClusters() > 0 && vol.PadClusters() * vol.clusterBytes == PAD_BYTES
    ensures 4 * vol.PadClusters() * vol.clusterBytes == FILL_BYTES
    ensures Clusters(PAD_BYTES, vol.clusterBytes) == vol.PadClusters()
    ensures Clusters(FILL_BYTES, vol.clusterBytes) == 4 * vol.PadClusters()
  {
    var c, p := vol.clusterBytes, vol.PadClusters();
    assert PAD_BYTES == c * p + PAD_BYTES % c;
    assert p * c == PAD_BYTES;
    assert 4 * p * c == 4 * (p * c);
    ClustersBound(PAD_BYTES, c, p);
    ClustersBound(FILL_BYTES, c, 4 * p);
  }

  lemma FreeBelow(vol: Volume, n: nat)
    requires vol.Valid()
    ensures vol.FreeBytes() < n * PAD_BYTES <==> |vol.free| < n * vol.PadClusters()
  {
    PadIsClusters(vol);
    assert n * PAD_BYTES == (n * vol.PadClusters()) * vol.clusterBytes;
    ProductOrder(|vol.free|, n * vol.PadClusters(), vol.clusterBytes);
  }

  // -------------------------------------------------------------------- the phases

  /** Every file the plant will write, in the order they are created. */
  function Placeholders(fills: nat): seq<Name>
  {
    seq(1 + fills + PAD_NAMES + REST_NAMES, k requires 0 <= k < 1 + fills + PAD_NAMES + REST_NAMES =>
      if k == 0 then Jpeg
      else if k <= fills then Fill(k - 1)
      else if k <= fills + PAD_NAMES then Pad(k - fills - 1)
      else Rest(k - fills - PAD_NAMES - 1))
  }

  lemma PlaceholdersDistinct(fills: nat)
    ensures forall i, j :: 0 <= i < j < |Placeholders(fills)| ==> Placeholders(fills)[i] != Placeholders(fills)[j]
  {}

  lemma PlaceholdersHold(fills: nat)
    ensures Jpeg in Placeholders(fills)
    ensures forall i: nat :: i < fills ==> Fill(i) in Placeholders(fills)
    ensures forall i: nat :: i < PAD_NAMES ==> Pad(i) in Placeholders(fills)
    ensures forall i: nat :: i < REST_NAMES ==> Rest(i) in Placeholders(fills)
    ensures forall name :: name in Placeholders(fills) ==>
              match name {
                case Jpeg => true
                case Fill(i) => i < fills
                case Pad(i) => i < PAD_NAMES
                case Rest(i) => i < REST_NAMES
                case Other(_) => false
              }
  {
    var names := Placeholders(fills);
    assert names[0] == Jpeg;
    forall i: nat | i < fills ensures Fill(i) in names { assert names[1 + i] == Fill(i); }
    forall i: nat | i < PAD_NAMES ensures Pad(i) in names { assert names[1 + fills + i] == Pad(i); }
    forall i: nat | i < REST_NAMES ensures Rest(i) in names { assert names[1 + fills + PAD_NAMES + i] == Rest(i); }
  }

  /** The free clusters once every placeholder exists; `None` when an entry does not fit. */
  function Prepared(free: seq<nat>, files: map<Name, File>, names: seq<Name>, growth: nat -> nat): Option<seq<nat>>
  {
    if names == [] then Some(free)
    else
      var n := |names| - 1;
      match Prepared(free, files, names[..n], growth)
      case None => None
      case Some(space) =>
        var released := FreeAll(space, if names[n] in files then files[names[n]].clusters else []);
        if growth(n) <= |released| then Some(released[growth(n)..]) else None
  }

  lemma {:induction false} PreparedFails(free: seq<nat>, files: map<Name, File>, names: seq<Name>,
      growth: nat -> nat, k: nat)
    requires k <= |names| && Prepared(free, files, names[..k], growth).None?
    ensures Prepared(free, files, names, growth).None?
  {
    if k < |names| {
      assert names[..|names| - 1][..k] == names[..k];
      PreparedFails(free, files, names[..|names| - 1], growth, k);
    } else {
      assert names[..k] == names;
    }
  }

  method CreateAll(vol: Volume, names: seq<Name>, growth: nat -> nat) returns (ok: bool)
    requires vol.Valid() && forall i, j :: 0 <= i < j < |names| ==> names[i] != names[j]
    modifies vol
    ensures vol.Valid()
    ensures ok == Prepared(old(vol.free), old(vol.files), names, growth).Some?
    ensures ok ==> vol.free == Prepared(old(vol.free), old(vol.files), names, growth).value
    ensures ok ==> forall name :: name in names ==> name in vol.files && vol.files[name] == File(0, [])
  {
    hide FreeAll, Rising;
    var k := 0;
    while k < |names|
      invariant 0 <= k <= |names| && vol.Valid()
      invariant Prepared(old(vol.free), old(vol.files), names[..k], growth) == Some(vol.free)
      invariant forall i :: 0 <= i < k ==> names[i] in vol.files && vol.files[names[i]] == File(0, [])
      invariant forall i :: k <= i < |names| ==> (names[i] in vol.files <==> names[i] in old(vol.files))
      invariant forall i :: k <= i < |names| && names[i] in old(vol.files) ==>
          vol.files[names[i]] == old(vol.files)[names[i]]
    {
      assert names[..k + 1][..k] == names[..k];
      ok := vol.Create(names[k], growth(k));
      if !ok {
        PreparedFails(old(vol.free), old(vol.files), names, growth, k + 1);
        return;
      }
      k := k + 1;
    }
    assert names[..k] == names;
    ok := true;
  }

  predicate Emptied(files: map<Name, File>, name: Name)
  {
    name in files && files[name] == File(0, [])
  }

  /** How many fillers of four pads are written while eight pads are free, of `fills` names. */
  function FillersFor(free: nat, p: nat, fills: nat): nat
    requires p > 0
  {
    if free < 8 * p then 0 else Min(fills, (free - 8 * p) / (4 * p) + 1)
  }

  /** Where in the free space the first pad begins. */
  function PadsBegin(free: nat, p: nat, fills: nat): nat
    requires p > 0
  {
    FillersFor(free, p, fills) * (4 * p)
  }

  lemma Quotient(x: nat, d: nat, k: nat)
    requires d > 0
    ensures k * d <= x <==> k <= x / d
  {
    var q := x / d;
    assert x == q * d + x % d;
    assert (q + 1) * d == q * d + d;
    if k <= q { ProductGrows(k, q, d); } else { ProductGrows(q + 1, k, d); }
  }

  lemma FillersCounted(free: nat, p: nat, fills: nat, f: nat, used: nat)
    requires p > 0 && f <= fills && used == f * (4 * p) && used <= free
    requires f > 0 ==> free - used + 4 * p >= 8 * p
    requires f == fills || free - used < 8 * p
    ensures f == FillersFor(free, p, fills)
  {
    var d := 4 * p;
    if f > 0 {
      assert f * d == (f - 1) * d + d;
      if free >= 8 * p { Quotient(free - 8 * p, d, f - 1); }
    }
    if free >= 8 * p { Quotient(free - 8 * p, d, f); }
  }

  /** Fillers of four pads each, while eight pads are free. */
  method FillUp(vol: Volume, fills: nat) returns (f: nat, used: nat)
    requires vol.Valid() && forall i: nat :: i < fills ==> Emptied(vol.files, Fill(i))
    modifies vol
    ensures vol.Valid() && f <= fills && used <= |old(vol.free)| && vol.free == old(vol.free)[used..]
    ensures |vol.free| >= 3 * vol.PadClusters() <==> |old(vol.free)| >= 3 * vol.PadClusters()
    ensures f == FillersFor(|old(vol.free)|, vol.PadClusters(), fills)
    ensures used == PadsBegin(|old(vol.free)|, vol.PadClusters(), fills)
    ensures vol.files.Keys == old(vol.files).Keys
    ensures forall name :: name in vol.files && !name.Fill? ==> vol.files[name] == old(vol.files)[name]
    ensures forall i: nat :: f <= i < fills ==> Emptied(vol.files, Fill(i))
  {
    f, used := 0, 0;
    var p := vol.PadClusters();
    PadIsClusters(vol);
    while f < fills
      invariant vol.Valid() && f <= fills && used <= |old(vol.free)| && vol.free == old(vol.free)[used..]
      invariant used == f * (4 * p) && (f == 0 ==> used == 0) && (f > 0 ==> |vol.free| >= 4 * p)
      invariant vol.files.Keys == old(vol.files).Keys
      invariant forall name :: name in vol.files && !name.Fill? ==> vol.files[name] == old(vol.files)[name]
      invariant forall i: nat :: f <= i < fills ==> Emptied(vol.files, Fill(i))
    {
      PadIsClusters(vol);
      FreeBelow(vol, 8);
      if vol.FreeBytes() < FILL_BYTES + 4 * PAD_BYTES { break; }
      assert Emptied(vol.files, Fill(f));
      var _ := vol.Write(Fill(f), FILL_BYTES);
      assert (f + 1) * (4 * p) == f * (4 * p) + 4 * p;
      f, used := f + 1, used + 4 * p;
    }
    PadIsClusters(vol);
    FreeBelow(vol, 8);
    FillersCounted(|old(vol.free)|, p, fills, f, used);
  }

  /** 64 KiB pads while they fit; the first three take the lowest free clusters in turn. */
  method LayPads(vol: Volume) returns (pads: seq<Name>, used: nat)
    requires vol.Valid() && forall i: nat :: i < PAD_NAMES ==> Emptied(vol.files, Pad(i))
    modifies vol
    ensures vol.Valid() && used <= |old(vol.free)| && vol.free == old(vol.free)[used..]
    ensures |pads| <= PAD_NAMES && forall i :: 0 <= i < |pads| ==> pads[i] == Pad(i)
    ensures |pads| >= 3 <==> |old(vol.free)| >= 3 * vol.PadClusters()
    ensures |pads| >= 3 ==>
              var p, space := vol.PadClusters(), old(vol.free);
              && 3 * p <= used
              && Pad(0) in vol.files && vol.files[Pad(0)] == File(PAD_BYTES, space[..p])
              && Pad(1) in vol.files && vol.files[Pad(1)] == File(PAD_BYTES, space[p..2 * p])
              && Pad(2) in vol.files && vol.files[Pad(2)] == File(PAD_BYTES, space[2 * p..3 * p])
    ensures vol.files.Keys == old(vol.files).Keys
    ensures forall name :: name in vol.files && !name.Pad? ==> vol.files[name] == old(vol.files)[name]
    ensures forall i: nat :: |pads| <= i < PAD_NAMES ==> Emptied(vol.files, Pad(i))
  {
    hide Rising, Clusters, Volume.FreeBytes, Volume.PadClusters;
    pads, used := [], 0;
    var p := vol.PadClusters();
    PadIsClusters(vol);
    hide PadsLaid;
    ghost var space := vol.free;
    NoPadsLaid(vol.files, space, p);
    while |pads| < PAD_NAMES
      invariant vol.Valid() && used <= |space| && vol.free == space[used..]
      invariant |pads| <= PAD_NAMES && forall i :: 0 <= i < |pads| ==> pads[i] == Pad(i)
      invariant PadsLaid(vol.files, space, p, |pads|, used)
      invariant vol.files.Keys == old(vol.files).Keys
      invariant forall name :: name in vol.files && !name.Pad? ==> vol.files[name] == old(vol.files)[name]
      invariant forall i: nat :: |pads| <= i < PAD_NAMES ==> Emptied(vol.files, Pad(i))
    {
      FreeBelow(vol, 1);
      if vol.FreeBytes() < PAD_BYTES { break; }
      assert Emptied(vol.files, Pad(|pads|));
      PadLaid(vol.files, space, p, |pads|, used);
      assert space[used..][..p] == space[used..used + p];
      var _ := vol.Write(Pad(|pads|), PAD_BYTES);
      pads, used := pads + [Pad(|pads|)], used + p;
    }
    FreeBelow(vol, 1);
    ThreePadsLaid(vol.files, space, p, |pads|, used);
  }

  /** The first `n` pads took `used` clusters; the first three of them the lowest, in turn. */
  ghost predicate PadsLaid(files: map<Name, File>, space: seq<nat>, p: nat, n: nat, used: nat)
  {
    && used <= |space|
    && (n == 0 ==> used == 0) && (n == 1 ==> used == p) && (n == 2 ==> used == 2 * p) && (n >= 3 ==> used >= 3 * p)
    && (n > 0 ==> p <= used && Pad(0) in files && files[Pad(0)] == File(PAD_BYTES, space[..p]))
    && (n > 1 ==> 2 * p <= used && Pad(1) in files && files[Pad(1)] == File(PAD_BYTES, space[p..2 * p]))
    && (n > 2 ==> Pad(2) in files && files[Pad(2)] == File(PAD_BYTES, space[2 * p..3 * p]))
  }

  lemma NoPadsLaid(files: map<Name, File>, space: seq<nat>, p: nat)
    ensures PadsLaid(files, space, p, 0, 0)
  {}

  lemma PadLaid(files: map<Name, File>, space: seq<nat>, p: nat, n: nat, used: nat)
    requires PadsLaid(files, space, p, n, used)
    ensures used + p <= |space| ==>
              PadsLaid(files[Pad(n) := File(PAD_BYTES, space[used..used + p])], space, p, n + 1, used + p)
  {
    assert used == 0 && p <= |space| ==> space[used..used + p] == space[..p];
  }

  lemma ThreePadsLaid(files: map<Name, File>, space: seq<nat>, p: nat, n: nat, used: nat)
    requires p > 0 && PadsLaid(files, space, p, n, used) && (n >= 3 || |space| - used < p)
    ensures n >= 3 <==> |space| >= 3 * p
    ensures n >= 3 ==>
              && 3 * p <= used
              && Pad(0) in files && files[Pad(0)] == File(PAD_BYTES, space[..p])
              && Pad(1) in files && files[Pad(1)] == File(PAD_BYTES, space[p..2 * p])
              && Pad(2) in files && files[Pad(2)] == File(PAD_BYTES, space[2 * p..3 * p])
  {}

  /** Whatever is left, into one file after another until nothing is free. */
  method TopUp(vol: Volume) returns (rests: nat)
    requires vol.Valid() && forall i: nat :: i < REST_NAMES ==> Emptied(vol.files, Rest(i))
    modifies vol
    ensures vol.Valid() && vol.free == [] && rests <= 1
    ensures vol.files.Keys == old(vol.files).Keys
    ensures forall name :: name in vol.files && !name.Rest? ==> vol.files[name] == old(vol.files)[name]
    ensures forall i: nat :: rests <= i < REST_NAMES ==> Emptied(vol.files, Rest(i))
  {
    rests := 0;
    while rests < REST_NAMES
      invariant vol.Valid() && rests <= REST_NAMES
      invariant rests > 0 ==> vol.free == [] && rests == 1
      invariant vol.files.Keys == old(vol.files).Keys
      invariant forall name :: name in vol.files && !name.Rest? ==> vol.files[name] == old(vol.files)[name]
      invariant forall i: nat :: rests <= i < REST_NAMES ==> Emptied(vol.files, Rest(i))
    {
      NoBytes(vol);
      if vol.FreeBytes() <= 0 { break; }
      assert Emptied(vol.files, Rest(rests));
      ClustersBound(vol.FreeBytes(), vol.clusterBytes, |vol.free|);
      var _ := vol.Write(Rest(rests), vol.FreeBytes());
      rests := rests + 1;
    }
    NoBytes(vol);
  }

  lemma NoBytes(vol: Volume)
    requires vol.Valid()
    ensures vol.FreeBytes() == 0 <==> vol.free == []
  {
    ProductOrder(0, |vol.free|, vol.clusterBytes);
  }

  /** Placeholders nothing was written into go away again; empty, they free nothing. */
  method DropUnused(vol: Volume, names: seq<Name>, created: set<Name>)
    requires vol.Valid() && vol.free == [] && forall i, j :: 0 <= i < j < |names| ==> names[i] != names[j]
    requires forall i :: 0 <= i < |names| && names[i] !in created ==> Emptied(vol.files, names[i])
    modifies vol
    ensures vol.Valid() && vol.free == []
    ensures forall name :: name in created && name in old(vol.files) ==>
                             name in vol.files && vol.files[name] == old(vol.files)[name]
    ensures forall i :: 0 <= i < |names| && names[i] !in created ==> names[i] !in vol.files
  {
    var k := 0;
    while k < |names|
      invariant 0 <= k <= |names| && vol.Valid() && vol.free == []
      invariant forall i :: k <= i < |names| && names[i] !in created ==> Emptied(vol.files, names[i])
      invariant forall name :: name in created && name in old(vol.files) ==>
                                 name in vol.files && vol.files[name] == old(vol.files)[name]
      invariant forall i :: 0 <= i < k && names[i] !in created ==> names[i] !in vol.files
    {
      if names[k] !in created { vol.Unlink(names[k]); }
      k := k + 1;
    }
  }

  // ---------------------------------------------------------------------- the plant

  datatype Aborted = EntriesFailed | TooFewPads | ShortPad | StillFree | JpegFailed

  datatype Plant = Plant(
    jpegBytes: nat, padOrder: seq<Name>, freed: seq<Name>, gapFile: Name, freeBefore: nat, files: seq<Name>)

  /** `space` are the free clusters before the pads, from cluster number `at` of them on: the
      file fills the first pad and the beginning of the third, the second is still there, and
      nothing is free but the rest of the third. */
  ghost predicate Laid(vol: Volume, space: seq<nat>, at: nat, size: nat)
    requires vol.clusterBytes > 0
    reads vol
  {
    var p, needed := vol.PadClusters(), Clusters(size, vol.clusterBytes);
    && p < needed <= 2 * p && at + 3 * p <= |space|
    && Jpeg in vol.files
    && vol.files[Jpeg] == File(size, space[at..at + p] + space[at + 2 * p..at + p + needed])
    && Pad(1) in vol.files && vol.files[Pad(1)].clusters == space[at + p..at + 2 * p]
    && Pad(0) !in vol.files && Pad(2) !in vol.files
    && vol.free == space[at + p + needed..at + 3 * p]
  }

  /** What `plant_fragmented` created and did not remove. */
  function Created(f: nat, pads: seq<Name>, rests: nat): seq<Name>
  {
    [Jpeg] + seq(f, i requires 0 <= i < f => Fill(i)) + pads + seq(rests, i requires 0 <= i < rests => Rest(i))
  }

  function SetOf(names: seq<Name>): set<Name>
  {
    set i | 0 <= i < |names| :: names[i]
  }

  lemma CreatedHolds(f: nat, pads: seq<Name>, rests: nat)
    requires forall i :: 0 <= i < |pads| ==> pads[i] == Pad(i)
    ensures forall name :: name in SetOf(Created(f, pads, rests)) <==>
              match name {
                case Jpeg => true
                case Fill(i) => i < f
                case Pad(i) => i < |pads|
                case Rest(i) => i < rests
                case Other(_) => false
              }
  {
    var fills, tops := seq(f, i requires 0 <= i < f => Fill(i)), seq(rests, i requires 0 <= i < rests => Rest(i));
    forall i: nat | i < f ensures Fill(i) in fills { assert fills[i] == Fill(i); }
    forall i: nat | i < rests ensures Rest(i) in tops { assert tops[i] == Rest(i); }
    forall i: nat | i < |pads| ensures Pad(i) in pads { assert pads[i] == Pad(i); }
    var all := Created(f, pads, rests);
    forall name ensures name in SetOf(all) <==> name in all {}
  }

  /** Two pads freed in turn leave their clusters, in address order. */
  lemma HolesInOrder(space: seq<nat>, at: nat, p: nat)
    requires Rising(space) && at + 3 * p <= |space|
    ensures FreeAll(FreeAll([], space[at..at + p]), space[at + 2 * p..at + 3 * p]) ==
            space[at..at + p] + space[at + 2 * p..at + 3 * p]
  {
    hide FreeAll;
    var first, third := space[at..at + p], space[at + 2 * p..at + 3 * p];
    assert Rising(first) && Rising(third);
    FreeAllAppends([], first);
    assert [] + first == first;
    FreeAllAppends(first, third);
  }

  /** Removing the two pads leaves exactly their clusters free, in address order. */
  method MakeHoles(vol: Volume, ghost space: seq<nat>, ghost at: nat)
    requires vol.Valid() && vol.free == [] && Rising(space)
    requires at + 3 * vol.PadClusters() <= |space|
    requires Pad(0) in vol.files && vol.files[Pad(0)].clusters == space[at..at + vol.PadClusters()]
    requires Pad(2) in vol.files
    requires vol.files[Pad(2)].clusters == space[at + 2 * vol.PadClusters()..at + 3 * vol.PadClusters()]
    modifies vol
    ensures vol.Valid() && vol.files == old(vol.files) - {Pad(0), Pad(2)}
    ensures vol.free ==
            space[at..at + vol.PadClusters()] + space[at + 2 * vol.PadClusters()..at + 3 * vol.PadClusters()]
  {
    hide FreeAll, Rising;
    HolesInOrder(space, at, vol.PadClusters());
    vol.Unlink(Pad(0));
    vol.Unlink(Pad(2));
  }

  /** What of the two holes a file of `needed` clusters takes, and what it leaves. */
  lemma InTheHoles(space: seq<nat>, at: nat, p: nat, needed: nat)
    requires at + 3 * p <= |space| && p <= needed <= 2 * p
    ensures var holes := space[at..at + p] + space[at + 2 * p..at + 3 * p];
            && holes[..needed] == space[at..at + p] + space[at + 2 * p..at + p + needed]
            && holes[needed..] == space[at + p + needed..at + 3 * p]
  {}

  /** Writing the file into the two holes. */
  method WriteJpeg(vol: Volume, size: nat, ghost space: seq<nat>, ghost at: nat) returns (whole: bool)
    requires vol.Valid() && Rising(space) && at + 3 * vol.PadClusters() <= |space|
    requires PAD_BYTES + SLACK <= size <= 2 * PAD_BYTES - SLACK
    requires vol.free ==
             space[at..at + vol.PadClusters()] + space[at + 2 * vol.PadClusters()..at + 3 * vol.PadClusters()]
    requires Emptied(vol.files, Jpeg) && Pad(0) !in vol.files && Pad(2) !in vol.files
    requires Pad(1) in vol.files && vol.files[Pad(1)].clusters ==
        space[at + vol.PadClusters()..at + 2 * vol.PadClusters()]
    modifies vol
    ensures vol.Valid() && whole && Laid(vol, space, at, size) && vol.files.Keys == old(vol.files).Keys
  {
    ghost var p, c := vol.PadClusters(), vol.clusterBytes;
    PadIsClusters(vol);
    ClustersBound(size, c, 2 * p);
    ClustersBound(size, c, p);
    assert 2 * p * c == 2 * (p * c);
    ghost var needed := Clusters(size, c);
    InTheHoles(space, at, p, needed);
    whole := vol.Write(Jpeg, size);
  }

  /** `plant_fragmented`, for a file of the size `fragment_jpeg_bytes` makes. It does not abort
      exactly when the entries fit and three pads are free once they exist, and then the file
      lies in two of three pads that are consecutive in the free space, with the third between
      them, whatever the free space looked like. */
  method PlantFragmented(vol: Volume, size: nat, growth: nat -> nat)
    returns (r: Result<Plant, Aborted>, ghost space: seq<nat>, ghost at: nat)
    requires vol.Valid() && PAD_BYTES + SLACK <= size <= 2 * PAD_BYTES - SLACK
    modifies vol
    ensures var names := Placeholders(old(vol.FreeBytes()) / FILL_BYTES + 1);
            var prepared := Prepared(old(vol.free), old(vol.files), names, growth);
            && (r.Ok? <==> prepared.Some? && |prepared.value| >= 3 * vol.PadClusters())
            && (prepared.None? ==> r == Err(EntriesFailed))
            && (prepared.Some? && r.Err? ==> r == Err(TooFewPads))
            && (r.Ok? ==>
                  && prepared.Some? && space == prepared.value && Rising(space)
                  && at == PadsBegin(|space|, vol.PadClusters(), old(vol.FreeBytes()) / FILL_BYTES + 1))
    ensures vol.Valid()
    ensures r.Ok? ==> Laid(vol, space, at, size)
    ensures r.Ok? ==>
              && r.value.jpegBytes == size && r.value.freed == [Pad(0), Pad(2)] && r.value.gapFile == Pad(1)
              && r.value.freeBefore == 2 * PAD_BYTES
              && |r.value.padOrder| >= 3 && (forall i :: 0 <= i < |r.value.padOrder| ==> r.value.padOrder[i] == Pad(i))
              && forall name :: name in Placeholders(old(vol.FreeBytes()) / FILL_BYTES + 1) ==>
                   (name in r.value.files <==> name in vol.files)
  {
    hide Prepared, FreeAll, Placeholders, Laid, Rising, FillersFor, PadsBegin;
    space, at := [], 0;
    var fills := vol.FreeBytes() / FILL_BYTES + 1;
    var names := Placeholders(fills);
    PlaceholdersDistinct(fills);
    PlaceholdersHold(fills);
    var ok := CreateAll(vol, names, growth);
    if !ok { return Err(EntriesFailed), space, at; }
    space := vol.free;
    StaysRising(vol);
    var f, used := FillUp(vol, fills);
    at := used;
    var pads, after := LayPads(vol);
    if |pads| < 3 { return Err(TooFewPads), space, at; }
    Shifted(space, at, vol.PadClusters());
    r := Finish(vol, names, f, pads, size, space, at);
  }

  lemma StaysRising(vol: Volume)
    requires vol.Valid()
    ensures Rising(vol.free)
  {}

  lemma TwoPads(vol: Volume)
    requires vol.Valid() && |vol.free| == 2 * vol.PadClusters()
    ensures vol.FreeBytes() == 2 * PAD_BYTES
  {
    PadIsClusters(vol);
    assert 2 * vol.PadClusters() * vol.clusterBytes == 2 * (vol.PadClusters() * vol.clusterBytes);
  }

  /** From the pads on: use up what is left, drop what was not needed, make the holes, write. */
  method Finish(vol: Volume, names: seq<Name>, f: nat, pads: seq<Name>, size: nat, ghost space: seq<nat>, ghost at: nat)
    returns (r: Result<Plant, Aborted>)
    requires vol.Valid() && Rising(space) && at + 3 * vol.PadClusters() <= |space|
    requires PAD_BYTES + SLACK <= size <= 2 * PAD_BYTES - SLACK
    requires forall i, j :: 0 <= i < j < |names| ==> names[i] != names[j]
    requires Jpeg in names && forall i: nat :: i < REST_NAMES ==> Rest(i) in names
    requires |pads| >= 3 && forall i :: 0 <= i < |pads| ==> pads[i] == Pad(i)
    requires Emptied(vol.files, Jpeg) && forall i: nat :: i < REST_NAMES ==> Emptied(vol.files, Rest(i))
    requires forall name :: name in names ==> name in vol.files
    requires (forall i: nat :: i < f ==> Fill(i) in names) && forall i :: 0 <= i < |pads| ==> pads[i] in names
    requires forall name :: name in names && (name.Fill? ==> name.i >= f) && (name.Pad? ==> name.i >= |pads|) ==>
                              Emptied(vol.files, name)
    requires forall name :: name in names && name.Rest? ==> name.i < REST_NAMES
    requires Pad(0) in vol.files && vol.files[Pad(0)] == File(PAD_BYTES, space[at..at + vol.PadClusters()])
    requires Pad(1) in vol.files
    requires vol.files[Pad(1)] == File(PAD_BYTES, space[at + vol.PadClusters()..at + 2 * vol.PadClusters()])
    requires Pad(2) in vol.files
    requires vol.files[Pad(2)] == File(PAD_BYTES, space[at + 2 * vol.PadClusters()..at + 3 * vol.PadClusters()])
    modifies vol
    ensures vol.Valid() && r.Ok? && Laid(vol, space, at, size)
    ensures r.value.jpegBytes == size && r.value.padOrder == pads && r.value.freeBefore == 2 * PAD_BYTES
    ensures r.value.freed == [Pad(0), Pad(2)] && r.value.gapFile == Pad(1)
    ensures forall i :: 0 <= i < |r.value.files| ==> r.value.files[i] !in r.value.freed
    ensures forall name :: name in names ==> (name in r.value.files <==> name in vol.files)
  {
    hide FreeAll, Laid, Rising, Created, SetOf, Clusters, Volume.FreeBytes;
    if vol.files[pads[0]].size != PAD_BYTES || vol.files[pads[1]].size != PAD_BYTES
       || vol.files[pads[2]].size != PAD_BYTES
    {
      return Err(ShortPad);
    }
    var rests := TopUp(vol);
    NoBytes(vol);
    if vol.FreeBytes() > 0 { return Err(StillFree); }
    var created := Created(f, pads, rests);
    CreatedHolds(f, pads, rests);
    DropUnused(vol, names, SetOf(created));
    MakeHoles(vol, space, at);
    var freeBefore := vol.FreeBytes();
    TwoPads(vol);
    var whole := WriteJpeg(vol, size, space, at);
    if !whole { return Err(JpegFailed); }
    r := Ok(Plant(size, pads, [Pad(0), Pad(2)], Pad(1), freeBefore, Created(f, pads[1..2] + pads[3..], rests)));
    LeftOver(f, pads, rests);
  }

  lemma LeftOver(f: nat, pads: seq<Name>, rests: nat)
    requires |pads| >= 3 && forall i :: 0 <= i < |pads| ==> pads[i] == Pad(i)
    ensures forall i :: 0 <= i < |Created(f, pads[1..2] + pads[3..], rests)| ==>
                          Created(f, pads[1..2] + pads[3..], rests)[i] !in [Pad(0), Pad(2)]
    ensures forall name :: name in Created(f, pads[1..2] + pads[3..], rests) <==>
                           name in SetOf(Created(f, pads, rests)) && name != Pad(0) && name != Pad(2)
  {
    var left, all := Created(f, pads[1..2] + pads[3..], rests), Created(f, pads, rests);
    var fills, tops := seq(f, i requires 0 <= i < f => Fill(i)), seq(rests, i requires 0 <= i < rests => Rest(i));
    var kept := pads[1..2] + pads[3..];
    forall name ensures name in kept <==> name in pads && name != Pad(0) && name != Pad(2) {
      if name in pads && name != Pad(0) && name != Pad(2) {
        var i :| 0 <= i < |pads| && pads[i] == name;
        assert kept[if i == 1 then 0 else i - 2] == name;
      }
    }
    assert Jpeg !in pads && Pad(0) !in fills && Pad(2) !in fills && Pad(0) !in tops && Pad(2) !in tops;
    forall name ensures name in SetOf(all) <==> name in all {}
  }

  lemma Shifted(space: seq<nat>, at: nat, p: nat)
    requires at + 3 * p <= |space|
    ensures space[at..][..p] == space[at..at + p]
    ensures space[at..][p..2 * p] == space[at + p..at + 2 * p]
    ensures space[at..][2 * p..3 * p] == space[at + 2 * p..at + 3 * p]
  {}
}
