/** Cluster geometry of the object pools and the translation between kernel addresses, offsets in the shared region,
    and addresses computed by user code. */
module PoolLayout {

  const PAGE_SIZE: nat := 4096
  const MAX_CLUSTSIZE: nat := 0x40_0000
  const LINE_ROUND: nat := 64

  /** What netmap_config_obj_allocator computes. */
  datatype Geometry = Geometry(objsize: nat, clustentries: nat, clustsize: nat, numclusters: nat, objtotal: nat)

  datatype Result = Ok(g: Geometry) | Invalid

  function Rounded(objsize: nat): (r: nat)
    ensures objsize <= r < objsize + LINE_ROUND && r % LINE_ROUND == 0
  {
    if objsize % LINE_ROUND == 0 then objsize else objsize + LINE_ROUND - objsize % LINE_ROUND
  }

  /** i objects fill a whole number of pages without exceeding the maximum cluster size. */
  predicate Fits(i: nat, objsize: nat) {
    1 <= i && i * objsize <= MAX_CLUSTSIZE && i * objsize % PAGE_SIZE == 0
  }

  /** Clusters are whole pages, as small as possible, and hold at least the objects asked for. */
  ghost predicate Sound(g: Geometry, asked: nat) {
    && 0 < g.objsize && Fits(g.clustentries, g.objsize) && (forall i :: 1 <= i < g.clustentries ==> !Fits(i, g.objsize))
    && g.clustsize == g.clustentries * g.objsize
    && g.objtotal == g.numclusters * g.clustentries
    && asked <= g.objtotal < asked + g.clustentries
  }

  /** The brute-force search for the number of objects in a cluster. */
  method SearchEntries(objsize: nat) returns (entries: nat)
    requires 0 < objsize
    ensures entries == 0 ==> forall i :: !Fits(i, objsize)
    ensures entries != 0 ==> Fits(entries, objsize) && forall i :: 1 <= i < entries ==> !Fits(i, objsize)
  {
    entries := 0;
    var i: nat, used := 1, objsize;
    while used <= MAX_CLUSTSIZE
      invariant 1 <= i && used == i * objsize
      invariant forall j :: 1 <= j < i ==> !Fits(j, objsize)
      decreases MAX_CLUSTSIZE - used
    {
      if used % PAGE_SIZE == 0 {
        return i;
      }
      i, used := i + 1, used + objsize;
    }
    forall j ensures !Fits(j, objsize) {
      if i <= j { Larger(i, j, objsize); }
    }
  }

  lemma Larger(i: nat, j: nat, s: nat)
    requires i <= j
    ensures i * s <= j * s
  {
  }

  lemma Clusters(total: nat, k: nat)
    requires 0 < k
    ensures var n := (total + k - 1) / k; total <= n * k < total + k
  {
  }

  /** netmap_config_obj_allocator: the request is met, unless sizes are out of range or do not fit pages. */
  method Config(objtotal: nat, objsize: nat, minsize: nat, maxsize: nat, nummin: nat, nummax: nat) returns (r: Result)
    requires 0 < minsize
    ensures r.Ok? <==> && objsize < MAX_CLUSTSIZE && minsize <= Rounded(objsize) <= maxsize
                       && nummin <= objtotal <= nummax && exists i :: Fits(i, Rounded(objsize))
    ensures r.Ok? ==> Sound(r.g, objtotal) && r.g.objsize == Rounded(objsize)
  {
    if objsize >= MAX_CLUSTSIZE { return Invalid; }
    var size := objsize;
    var i := size % LINE_ROUND;
    if i != 0 { size := size + LINE_ROUND - i; }
    if size < minsize || size > maxsize { return Invalid; }
    if objtotal < nummin || objtotal > nummax { return Invalid; }
    var k := SearchEntries(size);
    if k == 0 { return Invalid; }
    Clusters(objtotal, k);
    var n := (objtotal + k - 1) / k;
    r := Ok(Geometry(size, k, k * size, n, n * k));
  }

  /** Sizes of up to 64 KB always fit. */
  lemma SmallSizesFit(objsize: nat)
    requires objsize % LINE_ROUND == 0 && objsize <= 0x1_0000
    ensures Fits(64, objsize)
  {
  }

  /* ---- objects of a pool ---- */

  /** A finalized pool: the geometry and where its clusters are in kernel memory. */
  datatype Pool = Pool(g: Geometry, bases: seq<int>)

  /** Sizes are consistent and clusters do not overlap. */
  ghost predicate Mapped(p: Pool) {
    && 0 < p.g.objsize && 0 < p.g.clustentries
    && p.g.clustsize == p.g.clustentries * p.g.objsize && p.g.objtotal == p.g.numclusters * p.g.clustentries
    && |p.bases| == p.g.numclusters && Apart(p.bases, p.g.clustsize)
  }

  ghost predicate Apart(bases: seq<int>, size: nat) {
    forall c, d {:trigger bases[c], bases[d]} :: 0 <= c < d < |bases| ==>
      bases[c] + size <= bases[d] || bases[d] + size <= bases[c]
  }

  /** Every geometry that the configuration accepts will do. */
  lemma ConfiguredIsMapped(g: Geometry, asked: nat, bases: seq<int>)
    requires Sound(g, asked) && |bases| == g.numclusters && Apart(bases, g.clustsize)
    ensures Mapped(Pool(g, bases))
  {
  }

  /** The kernel address of object i: lut[i].vaddr. */
  function Addr(p: Pool, i: nat): int
    requires 0 < p.g.clustentries && i / p.g.clustentries < |p.bases|
  {
    p.bases[i / p.g.clustentries] + i % p.g.clustentries * p.g.objsize
  }

  /** The table made by netmap_finalize_obj_allocator. */
  ghost predicate IsLut(p: Pool, lut: seq<int>) {
    |lut| == p.g.objtotal && Listed(p, lut)
  }

  ghost predicate Entry(p: Pool, i: nat, addr: int) {
    0 < p.g.clustentries && i / p.g.clustentries < |p.bases| && addr == Addr(p, i)
  }

  ghost predicate Listed(p: Pool, lut: seq<int>) {
    && 0 < p.g.clustentries
    && forall i {:trigger lut[i]} :: 0 <= i < |lut| ==> Entry(p, i, lut[i])
  }

  /** Object c * k + j is the j-th of cluster c. */
  lemma Place(c: nat, j: nat, k: nat)
    requires j < k
    ensures (c * k + j) / k == c && (c * k + j) % k == j
  {
    var x := c * k + j;
    assert x == x / k * k + x % k;
    assert (c - x / k) * k == c * k - x / k * k;
    Multiple(c - x / k, k);
  }

  lemma Multiple(d: int, k: nat)
    ensures d >= 1 ==> d * k >= k
    ensures d <= -1 ==> d * k + k <= 0
  {
  }

  lemma ListedMore(p: Pool, lut: seq<int>, x: int)
    requires Listed(p, lut) && Entry(p, |lut|, x)
    ensures Listed(p, lut + [x])
  {
    var r := lut + [x];
    forall i | 0 <= i < |r| ensures Entry(p, i, r[i]) {
      assert i < |lut| ==> Entry(p, i, lut[i]);
    }
  }

  /** The objects of cluster c go to the table. */
  method FillCluster(p: Pool, c: nat, lut: seq<int>) returns (lut': seq<int>)
    requires c < |p.bases| && 0 < p.g.clustentries && |lut| == c * p.g.clustentries && Listed(p, lut)
    ensures |lut'| == (c + 1) * p.g.clustentries && Listed(p, lut')
  {
    var k, clust, j := p.g.clustentries, p.bases[c], 0;
    lut' := lut;
    while j < k
      invariant 0 <= j <= k && |lut'| == c * k + j && clust == p.bases[c] + j * p.g.objsize && Listed(p, lut')
    {
      Place(c, j, k);
      ListedMore(p, lut', clust);
      lut' := lut' + [clust];
      clust, j := clust + p.g.objsize, j + 1;
    }
  }

  /** The loop over the clusters. */
  method Finalize(p: Pool) returns (lut: seq<int>)
    requires Mapped(p)
    ensures IsLut(p, lut)
  {
    lut := [];
    var c := 0;
    while c < p.g.numclusters
      invariant 0 <= c <= p.g.numclusters && |lut| == c * p.g.clustentries && Listed(p, lut)
    {
      lut := FillCluster(p, c, lut);
      c := c + 1;
    }
  }

  lemma Below(c: nat, n: nat, k: nat, i: nat)
    requires c * k <= i < n * k
    ensures c < n
  {
    Multiple(c - n, k);
    assert (c - n) * k == c * k - n * k;
    assert n <= c ==> c == n || c - n >= 1;
  }

  lemma Fraction(j: nat, s: nat, r: nat)
    requires r < s
    ensures (j * s + r) / s == j && (j * s + r) % s == r
  {
    Place(j, r, s);
  }

  /* ---- from addresses to offsets and indices ---- */

  /** The address lies in cluster c. */
  predicate InCluster(p: Pool, c: nat, vaddr: int)
    requires c < |p.bases|
  {
    0 <= vaddr - p.bases[c] < p.g.clustsize
  }

  lemma OneCluster(p: Pool, c: nat, d: nat, vaddr: int)
    requires Mapped(p) && c < |p.bases| && d < |p.bases| && InCluster(p, c, vaddr) && InCluster(p, d, vaddr)
    ensures c == d
  {
  }

  /** Offsets of the j-th object of cluster c, of k objects of size s each. */
  lemma Inner(c: nat, j: nat, k: nat, s: nat, r: nat)
    requires j < k && r < s
    ensures j * s + r < k * s && c * (k * s) + (j * s + r) == (c * k + j) * s + r && (j * s + r) / s == j
  {
    Fraction(j, s, r);
    Larger(j + 1, k, s);
    assert (j + 1) * s == j * s + s;
    assert c * (k * s) == c * k * s;
  }

  /** The cluster c of an address within object i, the offset of the address and the index of the object. */
  lemma Locate(p: Pool, lut: seq<int>, i: nat, r: nat) returns (c: nat)
    requires Mapped(p) && IsLut(p, lut) && i < |lut| && r < p.g.objsize
    ensures c < |p.bases| && InCluster(p, c, lut[i] + r)
    ensures c * p.g.clustsize + (lut[i] + r - p.bases[c]) == i * p.g.objsize + r
    ensures c * p.g.clustentries + (lut[i] + r - p.bases[c]) / p.g.objsize == i
  {
    assert Entry(p, i, lut[i]);
    c := i / p.g.clustentries;
    Inner(c, i % p.g.clustentries, p.g.clustentries, p.g.objsize, r);
  }

  lemma FirstOfCluster(p: Pool, lut: seq<int>, c: nat)
    requires Mapped(p) && IsLut(p, lut) && c < p.g.numclusters
    ensures c * p.g.clustentries < |lut| && lut[c * p.g.clustentries] == p.bases[c]
  {
    var k := p.g.clustentries;
    Larger(c + 1, p.g.numclusters, k);
    assert (c + 1) * k == c * k + k;
    Place(c, 0, k);
    assert Entry(p, c * k, lut[c * k]);
  }

  ghost predicate NotBefore(p: Pool, c: nat, vaddr: int) {
    c <= |p.bases| && forall d :: 0 <= d < c ==> !InCluster(p, d, vaddr)
  }

  lemma NotBeforeNext(p: Pool, c: nat, vaddr: int)
    requires NotBefore(p, c, vaddr) && c < |p.bases| && !InCluster(p, c, vaddr)
    ensures NotBefore(p, c + 1, vaddr)
  {
  }

  lemma OneMore(c: nat, k: nat)
    ensures (c + 1) * k == c * k + k
  {
  }

  /** The search of netmap_obj_offset and netmap_obj_free_va: the first cluster that contains the address, the
      index of its first object and its offset in the pool. */
  method FindCluster(p: Pool, lut: seq<int>, vaddr: int) returns (c: nat, i: nat, ofs: nat)
    requires Mapped(p) && IsLut(p, lut)
    ensures i == c * p.g.clustentries && ofs == c * p.g.clustsize && NotBefore(p, c, vaddr)
    ensures c < |p.bases| ==> InCluster(p, c, vaddr) && i < |lut| && lut[i] == p.bases[c]
  {
    c, i, ofs := 0, 0, 0;
    while c < p.g.numclusters
      invariant i == c * p.g.clustentries && ofs == c * p.g.clustsize && NotBefore(p, c, vaddr)
    {
      FirstOfCluster(p, lut, c);
      var relofs := vaddr - lut[i];
      if 0 <= relofs < p.g.clustsize { return; }
      NotBeforeNext(p, c, vaddr);
      OneMore(c, p.g.clustentries);
      OneMore(c, p.g.clustsize);
      c, i, ofs := c + 1, i + p.g.clustentries, ofs + p.g.clustsize;
    }
  }

  /** The search finds the cluster of an address within object i. */
  lemma Found(p: Pool, lut: seq<int>, i: nat, r: nat, c: nat)
    requires Mapped(p) && IsLut(p, lut) && i < |lut| && r < p.g.objsize && NotBefore(p, c, lut[i] + r)
    requires c < |p.bases| ==> InCluster(p, c, lut[i] + r)
    ensures c < |p.bases|
    ensures c * p.g.clustsize + (lut[i] + r - p.bases[c]) == i * p.g.objsize + r
    ensures c * p.g.clustentries + (lut[i] + r - p.bases[c]) / p.g.objsize == i
  {
    var d := Locate(p, lut, i, r);
    assert p.bases[d] == p.bases[d];
    if c < |p.bases| { OneCluster(p, c, d, lut[i] + r); }
  }

  /** The search, and where the address lies in the cluster. */
  method Search(p: Pool, lut: seq<int>, vaddr: int, ghost i: nat, ghost r: nat)
    returns (hit: bool, first: nat, base: nat, relofs: nat)
    requires Mapped(p) && IsLut(p, lut)
    ensures i < |lut| && r < p.g.objsize && vaddr == lut[i] + r ==>
              hit && base + relofs == i * p.g.objsize + r && first + relofs / p.g.objsize == i
    ensures NotBefore(p, |p.bases|, vaddr) ==> !hit
  {
    var c;
    c, first, base := FindCluster(p, lut, vaddr);
    if i < |lut| && r < p.g.objsize && vaddr == lut[i] + r { Found(p, lut, i, r, c); }
    hit, relofs := c != p.g.numclusters, 0;
    if hit {
      relofs := vaddr - lut[first];
    }
  }

  /** netmap_obj_offset: the offset in the pool of an address within object i. */
  method ObjOffset(p: Pool, lut: seq<int>, vaddr: int, ghost i: nat, ghost r: nat) returns (ofs: int)
    requires Mapped(p) && IsLut(p, lut)
    ensures i < |lut| && r < p.g.objsize && vaddr == lut[i] + r ==> ofs == i * p.g.objsize + r
    ensures NotBefore(p, |p.bases|, vaddr) ==> ofs == 0
  {
    var hit, first, base, relofs := Search(p, lut, vaddr, i, r);
    if !hit { return 0; }
    ofs := base + relofs;
  }

  datatype Option = None | Some(i: nat)

  /** netmap_obj_free_va up to the call of netmap_obj_free: the index of an address within object i. */
  method IndexOf(p: Pool, lut: seq<int>, vaddr: int, ghost i: nat, ghost r: nat) returns (o: Option)
    requires Mapped(p) && IsLut(p, lut)
    ensures i < |lut| && r < p.g.objsize && vaddr == lut[i] + r ==> o == Some(i)
    ensures NotBefore(p, |p.bases|, vaddr) ==> o == None
  {
    var hit, first, base, relofs := Search(p, lut, vaddr, i, r);
    if !hit { return None; }
    o := Some(first + relofs / p.g.objsize);
  }

  /* ---- the shared region: all pools, one after the other ---- */

  function Memtotal(p: Pool): nat {
    p.g.numclusters * p.g.clustsize
  }

  /** Offset of pool q in the region. */
  function Start(pools: seq<Pool>, q: nat): nat
    requires q <= |pools|
  {
    if q == 0 then 0 else Start(pools, q - 1) + Memtotal(pools[q - 1])
  }

  ghost predicate Region(pools: seq<Pool>, luts: seq<seq<int>>) {
    && |pools| == |luts|
    && forall q {:trigger pools[q]} :: 0 <= q < |pools| ==> Mapped(pools[q]) && IsLut(pools[q], luts[q])
  }

  /** The objects of a pool take up all of it. */
  lemma InPool(p: Pool, i: nat, r: nat)
    requires Mapped(p) && i < p.g.objtotal && r < p.g.objsize
    ensures i * p.g.objsize + r < Memtotal(p)
    ensures (i * p.g.objsize + r) / p.g.objsize == i && (i * p.g.objsize + r) % p.g.objsize == r
  {
    var n, k, s := p.g.numclusters, p.g.clustentries, p.g.objsize;
    assert n * (k * s) == n * k * s;
    Larger(i + 1, n * k, s);
    OneMore(i, s);
    Fraction(i, s, r);
  }

  lemma {:induction false} StartGrows(pools: seq<Pool>, q: nat, i: nat)
    requires i < q <= |pools|
    ensures Start(pools, i) + Memtotal(pools[i]) <= Start(pools, q)
    decreases q
  {
    if i + 1 < q { StartGrows(pools, q - 1, i); }
  }

  /** The offset is that of byte r of object i of pool q. */
  ghost predicate Names(pools: seq<Pool>, offset: nat, q: nat, i: nat, r: nat) {
    && q < |pools| && i < pools[q].g.objtotal && r < pools[q].g.objsize
    && offset == Start(pools, q) + (i * pools[q].g.objsize + r)
  }

  lemma NamesHere(pools: seq<Pool>, offset: nat, q: nat, i: nat, r: nat)
    requires Names(pools, offset, q, i, r) && Mapped(pools[q])
    ensures var o := offset - Start(pools, q);
            0 <= o < Memtotal(pools[q]) && o / pools[q].g.objsize == i && o % pools[q].g.objsize == r
  {
    InPool(pools[q], i, r);
  }

  /** netmap_mem_ofstophys: the physical address of byte r of object i of pool q; 0 beyond the region. */
  method OfsToPhys(pools: seq<Pool>, luts: seq<seq<int>>, vtophys: int -> int, offset: nat,
                   ghost q: nat, ghost i: nat, ghost r: nat) returns (pa: int)
    requires Region(pools, luts)
    ensures Names(pools, offset, q, i, r) ==> pa == vtophys(luts[q][i]) + r
    ensures Start(pools, |pools|) <= offset ==> pa == 0
  {
    var o, n: nat := offset, 0;
    while n < |pools|
      invariant n <= |pools| && Start(pools, n) <= offset && o == offset - Start(pools, n)
      invariant Names(pools, offset, q, i, r) ==> n <= q
    {
      var p := pools[n];
      if Names(pools, offset, q, i, r) {
        assert Mapped(pools[q]);
        if n < q { StartGrows(pools, q, n); } else { NamesHere(pools, offset, q, i, r); }
      }
      if o < Memtotal(p) {
        StartGrows(pools, |pools|, n);
        InRange(p, o);
        return vtophys(luts[n][o / p.g.objsize]) + o % p.g.objsize;
      }
      o, n := o - Memtotal(p), n + 1;
    }
    pa := 0;
  }

  /** Every offset of the region is that of a byte of an object. */
  lemma {:induction false} EveryOffsetNamed(pools: seq<Pool>, luts: seq<seq<int>>, offset: nat, n: nat) returns (q: nat, i: nat, r: nat)
    requires Region(pools, luts) && n <= |pools| && offset < Start(pools, n)
    ensures Names(pools, offset, q, i, r)
  {
    assert Mapped(pools[n - 1]);
    if offset < Start(pools, n - 1) {
      q, i, r := EveryOffsetNamed(pools, luts, offset, n - 1);
    } else {
      var o, s := offset - Start(pools, n - 1), pools[n - 1].g.objsize;
      InRange(pools[n - 1], o);
      q, i, r := n - 1, o / s, o % s;
    }
  }

  lemma InRange(p: Pool, o: nat)
    requires Mapped(p) && o < Memtotal(p)
    ensures o / p.g.objsize < p.g.objtotal
  {
    var n, k, s := p.g.numclusters, p.g.clustentries, p.g.objsize;
    assert n * (k * s) == n * k * s;
    assert o / s * s <= o;
    Below(o / s, n * k, s, o);
  }

  /* ---- what user code computes ---- */

  const IF_POOL: nat := 0
  const RING_POOL: nat := 1
  const BUF_POOL: nat := 2

  /** NETMAP_BUF as an offset in the region, from the offset of a ring, its buf_ofs and its nr_buf_size. */
  function NetmapBuf(ring: int, bufOfs: int, index: nat, bufSize: nat): int {
    ring + bufOfs + index * bufSize
  }

  lemma BufferStart(pools: seq<Pool>)
    requires |pools| == 3
    ensures Start(pools, BUF_POOL) == Memtotal(pools[IF_POOL]) + Memtotal(pools[RING_POOL])
  {
    assert Start(pools, RING_POOL) == Memtotal(pools[IF_POOL]);
  }

  /** User code finds buffer `index` of the kernel through any ring.  The ring records the buffer size in 16 bits, so
      with buffers of 64 KB it finds buffer 0 instead. */
  method BufferThroughRing(pools: seq<Pool>, luts: seq<seq<int>>, vtophys: int -> int, ring: nat, index: nat)
    returns (pa: int)
    requires Region(pools, luts) && |pools| == 3 && pools[BUF_POOL].g.objsize <= 0x1_0000
    requires ring < |luts[RING_POOL]| && index < |luts[BUF_POOL]|
    ensures pa == vtophys(luts[BUF_POOL][if pools[BUF_POOL].g.objsize < 0x1_0000 then index else 0])
  {
    var p := pools[RING_POOL];
    var ofs := ObjOffset(p, luts[RING_POOL], luts[RING_POOL][ring], ring, 0);
    var ringOffset := Memtotal(pools[IF_POOL]) + ofs;
    var bufOfs := Memtotal(pools[IF_POOL]) + Memtotal(p) - ringOffset;
    var bufSize := pools[BUF_POOL].g.objsize % 0x1_0000;
    var user := NetmapBuf(ringOffset, bufOfs, index, bufSize);
    ghost var found := if pools[BUF_POOL].g.objsize < 0x1_0000 then index else 0;
    BufferStart(pools);
    assert index * bufSize == found * pools[BUF_POOL].g.objsize;
    pa := OfsToPhys(pools, luts, vtophys, user, BUF_POOL, found, 0);
  }
}
