/** Forwarding between rings, by exchanging buffer indices or by copying buffers: process_rings and move of the bridge
    example, and netmap_sw_to_nic in the kernel. */
module ZeroCopy {
  import opened Ring
  import opened KringModel
  import opened Buffers
  import S = Streams

  /** flags | NS_BUF_CHANGED */
  function Changed(flags: nat): nat {
    flags + 1 - flags % 2
  }

  /** A length over 2048 is taken for an error. */
  function Checked(len: nat): nat {
    if len > 2048 then 0 else len
  }

  /** What the two slots of a forwarded packet become, with zero copy and without. */
  function Out(rs: Slot, ts: Slot, zerocopy: bool): Slot {
    if zerocopy then Slot(rs.bufIdx, Checked(rs.len), Changed(ts.flags)) else ts.(len := Checked(rs.len))
  }

  function In(rs: Slot, ts: Slot, zerocopy: bool): Slot {
    if zerocopy then Slot(ts.bufIdx, Checked(rs.len), Changed(rs.flags)) else rs.(len := Checked(rs.len))
  }

  /** c packets from index i of the receive ring have gone to the slots from index j of the transmit ring, in order. */
  ghost predicate Forwarded(rx0: seq<Slot>, tx0: seq<Slot>, rx: seq<Slot>, tx: seq<Slot>, i: nat, j: nat, c: nat,
                            nr: nat, nt: nat, zerocopy: bool)
  {
    && |rx0| == |rx| == nr && |tx0| == |tx| == nt && i < nr && j < nt && c <= nr && c <= nt
    && (forall x {:trigger tx[x]} :: 0 <= x < nt ==>
          var d := Dist(j, x, nt); tx[x] == if d < c then Out(rx0[At(i, d, nr)], tx0[x], zerocopy) else tx0[x])
    && (forall x {:trigger rx[x]} :: 0 <= x < nr ==>
          var d := Dist(i, x, nr); rx[x] == if d < c then In(rx0[x], tx0[At(j, d, nt)], zerocopy) else rx0[x])
  }

  /** The slots of a forwarded packet, before and after: the length comes along unless it is over 2048; with zero copy the
      buffers change places, and bit 0 of the flags says so. */
  ghost predicate Passed(rs: Slot, ts: Slot, rs': Slot, ts': Slot, zerocopy: bool) {
    && rs'.len == ts'.len == (if rs.len <= 2048 then rs.len else 0)
    && if zerocopy then
         && ts'.bufIdx == rs.bufIdx && rs'.bufIdx == ts.bufIdx
         && ts'.flags % 2 == rs'.flags % 2 == 1 && ts'.flags / 2 == ts.flags / 2 && rs'.flags / 2 == rs.flags / 2
       else ts'.bufIdx == ts.bufIdx && rs'.bufIdx == rs.bufIdx && ts'.flags == ts.flags && rs'.flags == rs.flags
  }

  /** Packet d of those forwarded. */
  lemma ForwardedPasses(rx0: seq<Slot>, tx0: seq<Slot>, rx: seq<Slot>, tx: seq<Slot>, i: nat, j: nat, c: nat, nr: nat, nt: nat,
                        zerocopy: bool, d: nat)
    requires Forwarded(rx0, tx0, rx, tx, i, j, c, nr, nt, zerocopy) && d < c
    ensures var k, l := At(i, d, nr), At(j, d, nt); Passed(rx0[k], tx0[l], rx[k], tx[l], zerocopy)
  {
    DistAt(i, d, nr);
    DistAt(j, d, nt);
  }

  lemma ForwardOne(rx0: seq<Slot>, tx0: seq<Slot>, rx: seq<Slot>, tx: seq<Slot>, i: nat, j: nat, c: nat, nr: nat, nt: nat,
                   k: nat, l: nat, zerocopy: bool)
    requires Forwarded(rx0, tx0, rx, tx, i, j, c, nr, nt, zerocopy) && k < nr && l < nt && c < nr && c < nt
    requires Dist(i, k, nr) == c && Dist(j, l, nt) == c
    ensures rx[k] == rx0[k] && tx[l] == tx0[l] && k == At(i, c, nr)
    ensures Forwarded(rx0, tx0, rx[k := In(rx[k], tx[l], zerocopy)], tx[l := Out(rx[k], tx[l], zerocopy)],
                      i, j, c + 1, nr, nt, zerocopy)
  {
  }

  /** Forwarding loses no buffer and doubles none; without zero copy all stay where they are. */
  lemma ForwardConserves(rx: seq<Slot>, tx: seq<Slot>, k: nat, l: nat, zerocopy: bool)
    requires k < |rx| && l < |tx|
    ensures var rx', tx' := rx[k := In(rx[k], tx[l], zerocopy)], tx[l := Out(rx[k], tx[l], zerocopy)];
            && Bufs(rx') + Bufs(tx') == Bufs(rx) + Bufs(tx)
            && (!zerocopy ==> Indices(rx') == Indices(rx) && Indices(tx') == Indices(tx))
  {
    if zerocopy {
      ExchangeConserves(rx, tx, k, l, In(rx[k], tx[l], zerocopy), Out(rx[k], tx[l], zerocopy));
    } else {
      assert Indices(rx[k := In(rx[k], tx[l], zerocopy)]) == Indices(rx);
      assert Indices(tx[l := Out(rx[k], tx[l], zerocopy)]) == Indices(tx);
    }
  }

  /* ---- buffers and their contents ---- */

  /** How much nm_pkt_copy copies: short packets in units of 64 bytes. */
  function CopyLen(len: nat): (r: nat)
    ensures len <= r && (len <= 2048 ==> r <= 2048) && if len < 1024 then r < len + 64 && r % 64 == 0 else r == len
  {
    if len >= 1024 then len else (len + 63) / 64 * 64
  }

  /** The bytes that a slot with this buffer and length stands for. */
  ghost function Content(mem: seq<seq<nat>>, b: nat, len: nat): seq<nat> {
    if b < |mem| && len <= |mem[b]| then mem[b][..len] else []
  }

  /** All buffers can hold a packet, and those of the slots exist. */
  ghost predicate Backed(slots: seq<Slot>, mem: seq<seq<nat>>) {
    && (forall i {:trigger slots[i]} :: 0 <= i < |slots| ==> slots[i].bufIdx < |mem|)
    && (forall b {:trigger mem[b]} :: 0 <= b < |mem| ==> 2048 <= |mem[b]|)
  }

  /** The transmit ring uses each buffer once, and none of the receive ring. */
  ghost predicate Separate(rx: seq<Slot>, tx: seq<Slot>) {
    && (forall i, j {:trigger tx[i], tx[j]} :: 0 <= i < j < |tx| ==> tx[i].bufIdx != tx[j].bufIdx)
    && (forall i, j {:trigger rx[i], tx[j]} :: 0 <= i < |rx| && 0 <= j < |tx| ==> rx[i].bufIdx != tx[j].bufIdx)
  }

  /** The first c packets are the same in the transmit ring as they were in the receive ring. */
  ghost predicate Delivered(mem0: seq<seq<nat>>, mem: seq<seq<nat>>, rx0: seq<Slot>, tx: seq<Slot>, i: nat, j: nat, c: nat,
                            nr: nat, nt: nat)
  {
    && |rx0| == nr && |tx| == nt && i < nr && j < nt && c <= nr && c <= nt
    && forall x {:trigger tx[x]} :: 0 <= x < nt && Dist(j, x, nt) < c ==>
         var s := rx0[At(i, Dist(j, x, nt), nr)];
         && tx[x].len == (if s.len <= 2048 then s.len else 0)
         && Content(mem, tx[x].bufIdx, tx[x].len) == Content(mem0, s.bufIdx, tx[x].len)
  }

  lemma DeliveredByExchange(mem: seq<seq<nat>>, rx0: seq<Slot>, tx0: seq<Slot>, rx: seq<Slot>, tx: seq<Slot>,
                            i: nat, j: nat, c: nat, nr: nat, nt: nat)
    requires Forwarded(rx0, tx0, rx, tx, i, j, c, nr, nt, true)
    ensures Delivered(mem, mem, rx0, tx, i, j, c, nr, nt)
  {
  }

  /** Only the buffers of the first c slots of the transmit ring have changed, and none has changed its size. */
  ghost predicate Touched(mem0: seq<seq<nat>>, mem: seq<seq<nat>>, tx0: seq<Slot>, j: nat, c: nat, nt: nat) {
    && |tx0| == nt && j < nt && |mem| == |mem0| && (forall b {:trigger mem[b]} :: 0 <= b < |mem| ==> |mem[b]| == |mem0[b]|)
    && forall b {:trigger mem[b]} :: 0 <= b < |mem| && (forall x {:trigger tx0[x]} :: 0 <= x < nt && Dist(j, x, nt) < c ==> tx0[x].bufIdx != b) ==>
         mem[b] == mem0[b]
  }

  /** The bytes of a buffer after nm_pkt_copy into it. */
  function Copied(src: seq<nat>, dst: seq<nat>, len: nat): (r: seq<nat>)
    requires CopyLen(len) <= |src| && CopyLen(len) <= |dst|
    ensures |r| == |dst| && r[..len] == src[..len] && r[CopyLen(len)..] == dst[CopyLen(len)..]
  {
    src[..CopyLen(len)] + dst[CopyLen(len)..]
  }

  /** Copying one more packet. */
  lemma CopyOne(mem0: seq<seq<nat>>, mem: seq<seq<nat>>, rx0: seq<Slot>, tx0: seq<Slot>, rx: seq<Slot>, tx: seq<Slot>,
                i: nat, j: nat, c: nat, nr: nat, nt: nat, k: nat, l: nat)
    requires Forwarded(rx0, tx0, rx, tx, i, j, c, nr, nt, false) && k < nr && l < nt && c < nr && c < nt
    requires Dist(i, k, nr) == c && Dist(j, l, nt) == c && k == At(i, c, nr)
    requires Backed(rx0, mem) && Backed(tx0, mem) && Touched(mem0, mem, tx0, j, c, nt)
    ensures var len := Checked(rx0[k].len);
            var mem' := mem[tx0[l].bufIdx := Copied(mem[rx0[k].bufIdx], mem[tx0[l].bufIdx], len)];
            && Touched(mem0, mem', tx0, j, c + 1, nt)
            && (Separate(rx0, tx0) && Delivered(mem0, mem, rx0, tx, i, j, c, nr, nt) ==>
                  Delivered(mem0, mem', rx0, tx[l := tx0[l].(len := len)], i, j, c + 1, nr, nt))
  {
    var len, b := Checked(rx0[k].len), tx0[l].bufIdx;
    var mem' := mem[b := Copied(mem[rx0[k].bufIdx], mem[b], len)];
    if Separate(rx0, tx0) && Delivered(mem0, mem, rx0, tx, i, j, c, nr, nt) {
      var tx' := tx[l := tx0[l].(len := len)];
      assert mem[rx0[k].bufIdx] == mem0[rx0[k].bufIdx];
      forall x | 0 <= x < nt && Dist(j, x, nt) < c + 1
        ensures var s := rx0[At(i, Dist(j, x, nt), nr)];
                && tx'[x].len == (if s.len <= 2048 then s.len else 0)
                && Content(mem', tx'[x].bufIdx, tx'[x].len) == Content(mem0, s.bufIdx, tx'[x].len)
      {
        assert x != l ==> tx[x].bufIdx == tx0[x].bufIdx != b;
      }
    }
  }

  /** struct netmap_ring, as user code sees it. */
  class UserRing {
    const n: nat
    const slots: array<Slot>
    var head: nat
    var cur: nat
    var tail: nat

    constructor (s: array<Slot>)
      requires 0 < s.Length
      ensures Valid() && slots == s && cur == tail == head == 0
    {
      n, slots := s.Length, s;
      head, cur, tail := 0, 0, 0;
    }

    ghost predicate Valid()
      reads this`cur, this`tail
    {
      slots.Length == n && cur < n && tail < n
    }

    /** nm_ring_space */
    function Space(): (d: nat)
      requires Valid()
      reads this`cur, this`tail
      ensures d < n && At(cur, d, n) == tail
    {
      if tail < cur then tail - cur + n else tail - cur
    }

    /** The new head and cur, m slots on. */
    method Advance(i: nat, ghost m: nat)
      requires Valid() && m <= Space() && i == At(cur, m, n)
      modifies this`head, this`cur
      ensures Valid() && head == cur == i && Space() == old(Space()) - m
    {
      DistBetween(cur, m, Space(), n);
      head, cur := i, i;
    }
  }

  /** process_rings: moves up to limit packets, by exchange or by copy. */
  method ProcessRings(rx: UserRing, tx: UserRing, limit: nat, zerocopy: bool, mem: array<seq<nat>>) returns (m: nat)
    requires rx.Valid() && tx.Valid() && rx != tx && rx.slots != tx.slots
    requires !zerocopy ==> Backed(rx.slots[..], mem[..]) && Backed(tx.slots[..], mem[..])
    modifies rx`head, rx`cur, tx`head, tx`cur, rx.slots, tx.slots, mem
    ensures rx.Valid() && tx.Valid()
    ensures m == Least(limit, old(rx.Space()), old(tx.Space()))
    ensures rx.head == rx.cur == At(old(rx.cur), m, rx.n) && tx.head == tx.cur == At(old(tx.cur), m, tx.n)
    ensures rx.Space() == old(rx.Space()) - m && tx.Space() == old(tx.Space()) - m
    ensures Moved(old(mem[..]), mem[..], old(rx.slots[..]), old(tx.slots[..]), rx.slots[..], tx.slots[..],
                  old(rx.cur), old(tx.cur), m, rx.n, tx.n, zerocopy) == true
  {
    m := limit;
    if rx.Space() < m { m := rx.Space(); }
    if tx.Space() < m { m := tx.Space(); }
    var j, k := ForwardLoop(rx, tx, m, zerocopy, mem);
    rx.Advance(j, m);
    tx.Advance(k, m);
  }

  function Least(a: nat, b: nat, c: nat): (r: nat)
    ensures r <= a && r <= b && r <= c && (r == a || r == b || r == c)
  {
    if a <= b && a <= c then a else if b <= c then b else c
  }

  /** c packets were forwarded: slots, buffers and contents.  The contents are the same in both modes, without zero copy
      if the buffers are separate. */
  ghost predicate Moved(mem0: seq<seq<nat>>, mem: seq<seq<nat>>, rx0: seq<Slot>, tx0: seq<Slot>, rx: seq<Slot>, tx: seq<Slot>,
                        i: nat, j: nat, c: nat, nr: nat, nt: nat, zerocopy: bool)
  {
    && Forwarded(rx0, tx0, rx, tx, i, j, c, nr, nt, zerocopy)
    && Bufs(rx) + Bufs(tx) == Bufs(rx0) + Bufs(tx0)
    && (zerocopy || Separate(rx0, tx0) ==> Delivered(mem0, mem, rx0, tx, i, j, c, nr, nt))
    && if zerocopy then mem == mem0
       else Touched(mem0, mem, tx0, j, c, nt) && Indices(rx) == Indices(rx0) && Indices(tx) == Indices(tx0)
  }

  /** What stays backed. */
  lemma StillBacked(slots: seq<Slot>, slots': seq<Slot>, mem: seq<seq<nat>>, mem': seq<seq<nat>>)
    requires Backed(slots, mem) && Indices(slots') == Indices(slots)
    requires |mem'| == |mem| && forall b {:trigger mem'[b]} :: 0 <= b < |mem| ==> |mem'[b]| == |mem[b]|
    ensures Backed(slots', mem')
  {
    forall i | 0 <= i < |slots'| ensures slots'[i].bufIdx < |mem'| {
      assert Indices(slots')[i] == Indices(slots)[i];
      assert slots[i].bufIdx < |mem|;
    }
  }

  lemma MoveOne(mem0: seq<seq<nat>>, mem: seq<seq<nat>>, rx0: seq<Slot>, tx0: seq<Slot>, rx: seq<Slot>, tx: seq<Slot>,
                i: nat, j: nat, c: nat, nr: nat, nt: nat, k: nat, l: nat, zerocopy: bool)
    requires Moved(mem0, mem, rx0, tx0, rx, tx, i, j, c, nr, nt, zerocopy) && k < nr && l < nt && c < nr && c < nt
    requires Dist(i, k, nr) == c && Dist(j, l, nt) == c
    requires !zerocopy ==> Backed(rx0, mem0) && Backed(tx0, mem0)
    ensures !zerocopy ==> && rx[k].bufIdx < |mem| && tx[l].bufIdx < |mem|
                          && 2048 <= |mem[rx[k].bufIdx]| && 2048 <= |mem[tx[l].bufIdx]|
    ensures var mem' := if zerocopy then mem
                        else mem[tx[l].bufIdx := Copied(mem[rx[k].bufIdx], mem[tx[l].bufIdx], Checked(rx[k].len))];
            Moved(mem0, mem', rx0, tx0, rx[k := In(rx[k], tx[l], zerocopy)], tx[l := Out(rx[k], tx[l], zerocopy)],
                  i, j, c + 1, nr, nt, zerocopy)
  {
    ForwardOne(rx0, tx0, rx, tx, i, j, c, nr, nt, k, l, zerocopy);
    ForwardConserves(rx, tx, k, l, zerocopy);
    if zerocopy {
      DeliveredByExchange(mem0, rx0, tx0, rx[k := In(rx[k], tx[l], zerocopy)], tx[l := Out(rx[k], tx[l], zerocopy)],
                          i, j, c + 1, nr, nt);
    } else {
      StillBacked(rx0, rx0, mem0, mem);
      StillBacked(tx0, tx0, mem0, mem);
      CopyOne(mem0, mem, rx0, tx0, rx, tx, i, j, c, nr, nt, k, l);
    }
  }

  lemma MoveNone(mem: seq<seq<nat>>, rx: seq<Slot>, tx: seq<Slot>, i: nat, j: nat, nr: nat, nt: nat, zerocopy: bool)
    requires |rx| == nr && |tx| == nt && i < nr && j < nt
    ensures Moved(mem, mem, rx, tx, rx, tx, i, j, 0, nr, nt, zerocopy)
  {
  }

  /** One turn of the loop. */
  method ForwardNext(rx: UserRing, tx: UserRing, j: nat, k: nat, zerocopy: bool, mem: array<seq<nat>>,
                     ghost c: nat, ghost mem0: seq<seq<nat>>, ghost rx0: seq<Slot>, ghost tx0: seq<Slot>)
    returns (j': nat, k': nat)
    requires rx.Valid() && tx.Valid() && rx.slots != tx.slots && c < rx.n && c < tx.n
    requires j == At(rx.cur, c, rx.n) && k == At(tx.cur, c, tx.n)
    requires Moved(mem0, mem[..], rx0, tx0, rx.slots[..], tx.slots[..], rx.cur, tx.cur, c, rx.n, tx.n, zerocopy)
    requires !zerocopy ==> Backed(rx0, mem0) && Backed(tx0, mem0)
    modifies rx.slots, tx.slots, mem
    ensures j' == At(rx.cur, c + 1, rx.n) && k' == At(tx.cur, c + 1, tx.n)
    ensures Moved(mem0, mem[..], rx0, tx0, rx.slots[..], tx.slots[..], rx.cur, tx.cur, c + 1, rx.n, tx.n, zerocopy)
  {
    DistAt(rx.cur, c, rx.n);
    DistAt(tx.cur, c, tx.n);
    NextAt(rx.cur, c, rx.n);
    NextAt(tx.cur, c, tx.n);
    j', k' := Next(j, rx.n - 1), Next(k, tx.n - 1);
    MoveOne(mem0, mem[..], rx0, tx0, rx.slots[..], tx.slots[..], rx.cur, tx.cur, c, rx.n, tx.n, j, k, zerocopy);
    ForwardPacket(rx, tx, j, k, zerocopy, mem);
  }

  method ForwardLoop(rx: UserRing, tx: UserRing, m: nat, zerocopy: bool, mem: array<seq<nat>>) returns (j: nat, k: nat)
    requires rx.Valid() && tx.Valid() && rx != tx && rx.slots != tx.slots && m < rx.n && m < tx.n
    requires !zerocopy ==> Backed(rx.slots[..], mem[..]) && Backed(tx.slots[..], mem[..])
    modifies rx.slots, tx.slots, mem
    ensures j == At(rx.cur, m, rx.n) && k == At(tx.cur, m, tx.n)
    ensures Moved(old(mem[..]), mem[..], old(rx.slots[..]), old(tx.slots[..]), rx.slots[..], tx.slots[..],
                  rx.cur, tx.cur, m, rx.n, tx.n, zerocopy)
  {
    j, k := rx.cur, tx.cur;
    var c := 0;
    ghost var mem0, rx0, tx0 := mem[..], rx.slots[..], tx.slots[..];
    MoveNone(mem0, rx0, tx0, rx.cur, tx.cur, rx.n, tx.n, zerocopy);
    while c < m
      invariant c <= m && j == At(rx.cur, c, rx.n) && k == At(tx.cur, c, tx.n)
      invariant Moved(mem0, mem[..], rx0, tx0, rx.slots[..], tx.slots[..], rx.cur, tx.cur, c, rx.n, tx.n, zerocopy)
    {
      j, k := ForwardNext(rx, tx, j, k, zerocopy, mem, c, mem0, rx0, tx0);
      c := c + 1;
    }
  }

  /** The body of the loop. */
  method ForwardPacket(rx: UserRing, tx: UserRing, j: nat, k: nat, zerocopy: bool, mem: array<seq<nat>>)
    requires rx.Valid() && tx.Valid() && rx.slots != tx.slots && j < rx.n && k < tx.n
    requires !zerocopy ==> && rx.slots[j].bufIdx < mem.Length && tx.slots[k].bufIdx < mem.Length
                           && 2048 <= |mem[rx.slots[j].bufIdx]| && 2048 <= |mem[tx.slots[k].bufIdx]|
    modifies rx.slots, tx.slots, mem
    ensures rx.slots[..] == old(rx.slots[..])[j := In(old(rx.slots[j]), old(tx.slots[k]), zerocopy)]
    ensures tx.slots[..] == old(tx.slots[..])[k := Out(old(rx.slots[j]), old(tx.slots[k]), zerocopy)]
    ensures mem[..] == if zerocopy then old(mem[..])
                       else old(mem[..])[old(tx.slots[k]).bufIdx :=
                              Copied(old(mem[rx.slots[j].bufIdx]), old(mem[tx.slots[k].bufIdx]), Checked(old(rx.slots[j]).len))]
  {
    if rx.slots[j].len > 2048 {
      rx.slots[j] := rx.slots[j].(len := 0);
    }
    tx.slots[k] := tx.slots[k].(len := rx.slots[j].len);
    if zerocopy {
      var pkt := tx.slots[k].bufIdx;
      tx.slots[k] := tx.slots[k].(bufIdx := rx.slots[j].bufIdx);
      rx.slots[j] := rx.slots[j].(bufIdx := pkt);
      tx.slots[k] := tx.slots[k].(flags := Changed(tx.slots[k].flags));
      rx.slots[j] := rx.slots[j].(flags := Changed(rx.slots[j].flags));
    } else {
      mem[tx.slots[k].bufIdx] := Copied(mem[rx.slots[j].bufIdx], mem[tx.slots[k].bufIdx], tx.slots[k].len);
    }
  }

  /* ---- many rings ---- */

  ghost function Arrays(rings: seq<UserRing>): set<object> {
    set r | r in rings :: r.slots
  }

  /** Rings do not share anything. */
  ghost predicate Apart(rings: seq<UserRing>) {
    forall i, j {:trigger rings[i], rings[j]} :: 0 <= i < |rings| && 0 <= j < |rings| && i != j ==>
      rings[i] != rings[j] && rings[i].slots != rings[j].slots
  }

  ghost predicate AllValid(rings: seq<UserRing>)
    reads rings`cur, rings`tail
  {
    forall i {:trigger rings[i]} :: 0 <= i < |rings| ==> rings[i].Valid()
  }

  /** The rings from lo to hi have no slots left. */
  ghost predicate Done(rings: seq<UserRing>, lo: nat, hi: nat)
    reads rings`cur, rings`tail
  {
    forall i {:trigger rings[i]} :: lo <= i < hi && i < |rings| ==> rings[i].cur == rings[i].tail
  }

  /** The slots of each ring. */
  ghost function Each(rings: seq<UserRing>): (v: seq<seq<Slot>>)
    reads Arrays(rings)
    ensures |v| == |rings| && forall i {:trigger v[i]} :: 0 <= i < |v| ==> v[i] == rings[i].slots[..]
  {
    if rings == [] then [] else
      assert rings[0].slots in Arrays(rings);
      assert Arrays(rings[1..]) <= Arrays(rings);
      [rings[0].slots[..]] + Each(rings[1..])
  }

  /** All buffers of many rings. */
  ghost function Sum(v: seq<seq<Slot>>): multiset<nat> {
    if v == [] then multiset{} else Bufs(v[0]) + Sum(v[1..])
  }

  lemma {:induction false} SumSet(v: seq<seq<Slot>>, i: nat, x: seq<Slot>)
    requires i < |v|
    ensures Sum(v[i := x]) + Bufs(v[i]) == Sum(v) + Bufs(x)
  {
    if i > 0 {
      assert v[i := x][1..] == v[1..][i - 1 := x];
      SumSet(v[1..], i - 1, x);
      Shuffle(Bufs(v[0]), Sum(v[1..][i - 1 := x]), Bufs(v[i]), Sum(v[1..]), Bufs(x));
    } else {
      assert v[i := x][1..] == v[1..];
    }
  }

  lemma Shuffle(a: multiset<nat>, b: multiset<nat>, c: multiset<nat>, d: multiset<nat>, e: multiset<nat>)
    requires b + c == d + e
    ensures (a + b) + c == (a + d) + e
  {
    assert (a + b) + c == a + (b + c) && (a + d) + e == a + (d + e);
  }

  /** An exchange between rings a and b. */
  lemma SumExchange(v: seq<seq<Slot>>, a: nat, b: nat, x: seq<Slot>, y: seq<Slot>)
    requires a < |v| && b < |v| && a != b && Bufs(x) + Bufs(y) == Bufs(v[a]) + Bufs(v[b])
    ensures Sum(v[a := x][b := y]) == Sum(v)
  {
    SumSet(v, a, x);
    SumSet(v[a := x], b, y);
    Cancel(Sum(v), Sum(v[a := x]), Sum(v[a := x][b := y]), Bufs(v[a]), Bufs(v[b]), Bufs(x), Bufs(y));
  }

  lemma Cancel(s: multiset<nat>, t: multiset<nat>, u: multiset<nat>,
               p: multiset<nat>, q: multiset<nat>, x: multiset<nat>, y: multiset<nat>)
    requires t + p == s + x && u + q == t + y && x + y == p + q
    ensures u == s
  {
    forall n ensures u[n] == s[n] {
      assert (t + p)[n] == (s + x)[n] && (u + q)[n] == (t + y)[n] && (x + y)[n] == (p + q)[n];
    }
  }

  lemma TwoChanged(v: seq<seq<Slot>>, v': seq<seq<Slot>>, a: nat, b: nat)
    requires |v| == |v'| && a < |v| && b < |v| && a != b
    requires forall i {:trigger v'[i]} :: 0 <= i < |v| && i != a && i != b ==> v'[i] == v[i]
    ensures v' == v[a := v'[a]][b := v'[b]]
  {
  }

  /** Slots left in each ring. */
  ghost function Spaces(rings: seq<UserRing>): (v: seq<nat>)
    reads rings
    ensures |v| == |rings|
    ensures forall i {:trigger v[i]} :: 0 <= i < |v| && rings[i].Valid() ==> v[i] == rings[i].Space()
  {
    seq(|rings|, i requires 0 <= i < |rings| reads rings => if rings[i].Valid() then rings[i].Space() else 0)
  }

  ghost function Total(v: seq<nat>): nat {
    if v == [] then 0 else v[0] + Total(v[1..])
  }

  lemma {:induction false} TotalSet(v: seq<nat>, i: nat, x: nat)
    requires i < |v|
    ensures Total(v[i := x]) + v[i] == Total(v) + x
  {
    if i > 0 {
      assert v[i := x][1..] == v[1..][i - 1 := x];
      TotalSet(v[1..], i - 1, x);
    } else {
      assert v[i := x][1..] == v[1..];
    }
  }

  /* ---- the loop of move, seen through the slots left in each ring ---- */

  /** Packets waiting in the source rings, room in the destination rings, and where the loop is in both. */
  datatype Loop = Loop(src: seq<nat>, dst: seq<nat>, si: nat, di: nat)

  predicate Going(l: Loop) {
    l.si < |l.src| && l.di < |l.dst|
  }

  function Turn(l: Loop, limit: nat): Loop
    requires Going(l)
  {
    if l.src[l.si] == 0 then l.(si := l.si + 1)
    else if l.dst[l.di] == 0 then l.(di := l.di + 1)
    else
      var m := Least(limit, l.src[l.si], l.dst[l.di]);
      l.(src := l.src[l.si := l.src[l.si] - m], dst := l.dst[l.di := l.dst[l.di] - m])
  }

  /** The state after at most this many turns. */
  function Turns(l: Loop, limit: nat, k: nat): Loop
    decreases k
  {
    if k == 0 then l
    else
      var l' := Turns(l, limit, k - 1);
      if Going(l') then Turn(l', limit) else l'
  }

  ghost predicate NoneFrom(v: seq<nat>, i: nat) {
    forall j {:trigger v[j]} :: i <= j < |v| ==> v[j] == 0
  }

  /** With a limit of 0, rings that have something to move and room for it keep the loop busy. */
  lemma {:induction false} KeepsGoing(l: Loop, a: nat, b: nat, k: nat)
    requires l.si <= a < |l.src| && l.di <= b < |l.dst| && l.src[a] != 0 && l.dst[b] != 0
    ensures var l' := Turns(l, 0, k);
            && l'.si <= a < |l'.src| && l'.di <= b < |l'.dst| && l'.src[a] != 0 && l'.dst[b] != 0
    decreases k
  {
    if k > 0 {
      KeepsGoing(l, a, b, k - 1);
    }
  }

  /** What a turn uses up. */
  ghost function Left(l: Loop): nat
    requires l.si <= |l.src| && l.di <= |l.dst|
  {
    |l.src| - l.si + |l.dst| - l.di + Total(l.src)
  }

  lemma TurnUses(l: Loop, limit: nat)
    requires Going(l) && (1 <= limit || NoneFrom(l.src, l.si) || NoneFrom(l.dst, l.di))
    ensures var l' := Turn(l, limit);
            && l'.si <= |l'.src| && l'.di <= |l'.dst| && Left(l') < Left(l)
            && (1 <= limit || NoneFrom(l'.src, l'.si) || NoneFrom(l'.dst, l'.di))
  {
    if l.src[l.si] != 0 && l.dst[l.di] != 0 {
      TotalSet(l.src, l.si, l.src[l.si] - Least(limit, l.src[l.si], l.dst[l.di]));
    }
  }

  lemma {:induction false} TurnsFirst(l: Loop, limit: nat, k: nat)
    requires Going(l)
    ensures Turns(l, limit, k + 1) == Turns(Turn(l, limit), limit, k)
    decreases k
  {
    if k > 0 {
      TurnsFirst(l, limit, k - 1);
    }
  }

  lemma {:induction false} Ends(l: Loop, limit: nat) returns (k: nat)
    requires l.si <= |l.src| && l.di <= |l.dst|
    requires 1 <= limit || NoneFrom(l.src, l.si) || NoneFrom(l.dst, l.di)
    ensures !Going(Turns(l, limit, k))
    decreases Left(l)
  {
    k := 0;
    if Going(l) {
      TurnUses(l, limit);
      var k' := Ends(Turn(l, limit), limit);
      TurnsFirst(l, limit, k');
      k := k' + 1;
    }
  }

  ghost predicate Stops(l: Loop, limit: nat) {
    exists k: nat :: !Going(Turns(l, limit, k))
  }

  /** move ends exactly if the limit is not 0, or there is nothing to move, or no room. */
  lemma WhenMoveEnds(l: Loop, limit: nat)
    requires l.si <= |l.src| && l.di <= |l.dst|
    ensures Stops(l, limit) <==> 1 <= limit || NoneFrom(l.src, l.si) || NoneFrom(l.dst, l.di)
  {
    if 1 <= limit || NoneFrom(l.src, l.si) || NoneFrom(l.dst, l.di) {
      var k := Ends(l, limit);
    } else {
      var a :| l.si <= a < |l.src| && l.src[a] != 0;
      var b :| l.di <= b < |l.dst| && l.dst[b] != 0;
      forall k: nat ensures Going(Turns(l, limit, k)) {
        KeepsGoing(l, a, b, k);
      }
    }
  }

  /** The loop of move with the indices si and di, when this is left in the rings. */
  ghost function Seen(v: seq<nat>, n: nat, si: nat, di: nat): Loop
    requires n <= di && n <= |v|
  {
    Loop(v[..n], v[n..], si, di - n)
  }

  /** A turn that moves packets. */
  lemma TurnMoves(v: seq<nat>, v': seq<nat>, n: nat, si: nat, di: nat, limit: nat)
    requires si < n <= di < |v| == |v'| && v[si] != 0 && v[di] != 0
    requires var m := Least(limit, v[si], v[di]);
             && v'[si] == v[si] - m && v'[di] == v[di] - m
             && forall i {:trigger v'[i]} :: 0 <= i < |v| && i != si && i != di ==> v'[i] == v[i]
    ensures Going(Seen(v, n, si, di)) && Seen(v', n, si, di) == Turn(Seen(v, n, si, di), limit)
    ensures Total(v'[..n]) == Total(v[..n]) - Least(limit, v[si], v[di])
  {
    var m := Least(limit, v[si], v[di]);
    assert v'[..n] == v[..n][si := v[si] - m] && v'[n..] == v[n..][di - n := v[di] - m];
    TotalSet(v[..n], si, v[si] - m);
  }

  lemma TurnSkips(v: seq<nat>, n: nat, si: nat, di: nat, limit: nat)
    requires si < n <= di < |v|
    ensures Going(Seen(v, n, si, di))
    ensures v[si] == 0 ==> Seen(v, n, si + 1, di) == Turn(Seen(v, n, si, di), limit)
    ensures v[si] != 0 && v[di] == 0 ==> Seen(v, n, si, di + 1) == Turn(Seen(v, n, si, di), limit)
  {
  }

  /* ---- the packets that move takes from the source rings and puts into the destination rings ---- */

  /** These slots have got the packets of those: lengths up to 2048, and with zero copy the buffers. */
  ghost predicate Carries(src: seq<Slot>, dst: seq<Slot>, zerocopy: bool) {
    && |dst| == |src|
    && forall i {:trigger dst[i]} :: 0 <= i < |src| ==>
         dst[i].len == (if src[i].len <= 2048 then src[i].len else 0) && (zerocopy ==> dst[i].bufIdx == src[i].bufIdx)
  }

  /** k packets have gone from ring a to ring b, and both have advanced. */
  ghost predicate Passage(v: seq<seq<Slot>>, v': seq<seq<Slot>>, c: seq<nat>, c': seq<nat>, a: nat, b: nat, k: nat, zerocopy: bool) {
    && |v'| == |v| == |c| == |c'| && a < |v| && b < |v| && a != b && c[a] < |v[a]| && c[b] < |v[b]| && k <= |v[a]| && k <= |v[b]|
    && (forall i {:trigger v'[i]} {:trigger c'[i]} :: 0 <= i < |v| && i != a && i != b ==> v'[i] == v[i] && c'[i] == c[i])
    && c'[a] == At(c[a], k, |v[a]|) && c'[b] == At(c[b], k, |v[b]|)
    && Forwarded(v[a], v[b], v'[a], v'[b], c[a], c[b], k, |v[a]|, |v[b]|, zerocopy)
  }

  lemma PassageCarries(v: seq<seq<Slot>>, v': seq<seq<Slot>>, c: seq<nat>, c': seq<nat>, a: nat, b: nat, k: nat, zerocopy: bool)
    requires Passage(v, v', c, c', a, b, k, zerocopy)
    ensures Carries(S.Slice(v[a], c[a], k), S.Slice(v'[b], c[b], k), zerocopy)
  {
    var p, q := S.Slice(v[a], c[a], k), S.Slice(v'[b], c[b], k);
    forall d | 0 <= d < k
      ensures q[d].len == (if p[d].len <= 2048 then p[d].len else 0) && (zerocopy ==> q[d].bufIdx == p[d].bufIdx)
    {
      ForwardedPasses(v[a], v[b], v'[a], v'[b], c[a], c[b], k, |v[a]|, |v[b]|, zerocopy, d);
    }
  }

  /** Slots used since then. */
  ghost function Used(s0: seq<nat>, s: seq<nat>): (r: seq<nat>)
    requires |s0| == |s| && forall i {:trigger s[i]} :: 0 <= i < |s| ==> s[i] <= s0[i]
    ensures |r| == |s| && forall i {:trigger r[i]} :: 0 <= i < |s| ==> r[i] == s0[i] - s[i]
  {
    seq(|s|, i requires 0 <= i < |s| => s0[i] - s[i])
  }

  /** Slots v, cur c and space s of rings that had cur c0 and space s0: destination rings advance as they fill up. */
  ghost predicate Advancing(c0: seq<nat>, s0: seq<nat>, v: seq<seq<Slot>>, c: seq<nat>, s: seq<nat>, n: nat, di: nat) {
    && |c0| == |s0| == |v| == |c| == |s| && n <= |v|
    && (forall i {:trigger v[i]} {:trigger s[i]} :: 0 <= i < |v| ==> c0[i] < |v[i]| && c[i] < |v[i]| && s[i] <= s0[i] < |v[i]|)
    && (forall i {:trigger c[i]} :: n <= i < |v| ==> c[i] == At(c0[i], s0[i] - s[i], |v[i]|))
    && (forall i {:trigger s[i]} :: n <= i < |v| && di < i ==> s[i] == s0[i])
  }

  /** `gone` has left the source rings, first ring first, and is what the destination rings have got, first ring first. */
  ghost predicate Streaming(all: seq<Slot>, c0: seq<nat>, s0: seq<nat>, v: seq<seq<Slot>>, c: seq<nat>, s: seq<nat>, n: nat, di: nat,
                            gone: seq<Slot>, zerocopy: bool)
  {
    && Advancing(c0, s0, v, c, s, n, di)
    && S.Stretches(v[..n], c[..n], s[..n]) && all == gone + S.Joined(v[..n], c[..n], s[..n])
    && S.Stretches(v[n..], c0[n..], Used(s0[n..], s[n..]))
    && Carries(gone, S.Joined(v[n..], c0[n..], Used(s0[n..], s[n..])), zerocopy)
  }

  /** The space that is left after a turn. */
  ghost predicate Less(s: seq<nat>, s': seq<nat>, a: nat, b: nat, k: nat) {
    && |s'| == |s| && a < |s| && b < |s| && a != b && k <= s[a] && k <= s[b] && s'[a] == s[a] - k && s'[b] == s[b] - k
    && forall i {:trigger s'[i]} :: 0 <= i < |s| && i != a && i != b ==> s'[i] == s[i]
  }

  lemma SourceShorter(c0: seq<nat>, s0: seq<nat>, v: seq<seq<Slot>>, c: seq<nat>, s: seq<nat>, v': seq<seq<Slot>>, c': seq<nat>,
                      s': seq<nat>, n: nat, a: nat, b: nat, k: nat, zerocopy: bool)
    requires Advancing(c0, s0, v, c, s, n, b) && a < n <= b < |v| && Passage(v, v', c, c', a, b, k, zerocopy)
    requires Less(s, s', a, b, k)
    ensures S.Shorter(v[..n], c[..n], s[..n], v'[..n], c'[..n], s'[..n], a, k)
  {
    var r := |v[a]|;
    forall x | k <= x < s[a] ensures v'[a][At(c[a], x, r)] == v[a][At(c[a], x, r)] {
      DistAt(c[a], x, r);
    }
    forall i | 0 <= i < n && i != a ensures v'[i] == v[i] && c'[i] == c[i] && s'[i] == s[i] {
    }
  }

  lemma DestinationLonger(c0: seq<nat>, s0: seq<nat>, v: seq<seq<Slot>>, c: seq<nat>, s: seq<nat>, v': seq<seq<Slot>>, c': seq<nat>,
                          s': seq<nat>, n: nat, a: nat, b: nat, k: nat, zerocopy: bool)
    requires Advancing(c0, s0, v, c, s, n, b) && a < n <= b < |v| && Passage(v, v', c, c', a, b, k, zerocopy)
    requires Less(s, s', a, b, k)
    ensures Advancing(c0, s0, v', c', s', n, b)
    ensures S.Longer(v[n..], c0[n..], Used(s0[n..], s[n..]), v'[n..], Used(s0[n..], s'[n..]), b - n, k)
  {
    var r, u := |v[b]|, s0[b] - s[b];
    forall i | 0 <= i < |v| ensures |v'[i]| == |v[i]| && c'[i] < |v'[i]| && s'[i] <= s[i] {
    }
    AtAt(c0[b], u, k, r);
    forall x | 0 <= x < u ensures v'[b][At(c0[b], x, r)] == v[b][At(c0[b], x, r)] {
      DistBetween(c0[b], u, x, r);
    }
    forall i | n <= i < |v| && i != b ensures v'[i] == v[i] && c'[i] == c[i] && s'[i] == s[i] {
    }
  }

  lemma SourceGives(c0: seq<nat>, s0: seq<nat>, v: seq<seq<Slot>>, c: seq<nat>, s: seq<nat>, v': seq<seq<Slot>>, c': seq<nat>,
                    s': seq<nat>, n: nat, a: nat, b: nat, k: nat, zerocopy: bool) returns (p: seq<Slot>, rest: seq<Slot>)
    requires Advancing(c0, s0, v, c, s, n, b) && a < n <= b < |v| && Passage(v, v', c, c', a, b, k, zerocopy)
    requires Less(s, s', a, b, k)
    requires forall i {:trigger s[i]} :: 0 <= i < a ==> s[i] == 0
    ensures p == S.Slice(v[a], c[a], k) && S.Stretches(v[..n], c[..n], s[..n]) && S.Stretches(v'[..n], c'[..n], s'[..n])
    ensures rest == S.Joined(v'[..n], c'[..n], s'[..n]) && S.Joined(v[..n], c[..n], s[..n]) == p + rest
  {
    SourceShorter(c0, s0, v, c, s, v', c', s', n, a, b, k, zerocopy);
    S.TakenFirst(v[..n], c[..n], s[..n], v'[..n], c'[..n], s'[..n], a, k);
    p, rest := S.Slice(v[a], c[a], k), S.Joined(v'[..n], c'[..n], s'[..n]);
  }

  lemma DestinationGets(c0: seq<nat>, s0: seq<nat>, v: seq<seq<Slot>>, c: seq<nat>, s: seq<nat>, v': seq<seq<Slot>>, c': seq<nat>,
                        s': seq<nat>, n: nat, a: nat, b: nat, k: nat, zerocopy: bool) returns (q: seq<Slot>, got: seq<Slot>)
    requires Advancing(c0, s0, v, c, s, n, b) && a < n <= b < |v| && Passage(v, v', c, c', a, b, k, zerocopy)
    requires Less(s, s', a, b, k)
    ensures Advancing(c0, s0, v', c', s', n, b) && q == S.Slice(v'[b], c[b], k)
    ensures S.Stretches(v[n..], c0[n..], Used(s0[n..], s[n..])) && S.Stretches(v'[n..], c0[n..], Used(s0[n..], s'[n..]))
    ensures got == S.Joined(v[n..], c0[n..], Used(s0[n..], s[n..]))
    ensures S.Joined(v'[n..], c0[n..], Used(s0[n..], s'[n..])) == got + q
  {
    DestinationLonger(c0, s0, v, c, s, v', c', s', n, a, b, k, zerocopy);
    RestUnused(c0, s0, v, c, s, n, b);
    q, got := PutNext(v[n..], c0[n..], Used(s0[n..], s[n..]), v'[n..], Used(s0[n..], s'[n..]), b - n, k, c[b]);
  }

  lemma RestUnused(c0: seq<nat>, s0: seq<nat>, v: seq<seq<Slot>>, c: seq<nat>, s: seq<nat>, n: nat, b: nat)
    requires Advancing(c0, s0, v, c, s, n, b) && n <= b < |v|
    ensures var u := Used(s0[n..], s[n..]);
            && (forall i {:trigger u[i]} :: b - n < i < |u| ==> u[i] == 0)
            && c[b] == At(c0[n..][b - n], u[b - n], |v[n..][b - n]|)
  {
    forall i | b - n < i < |v| - n ensures s[n..][i] == s0[n..][i] {
      assert s[n + i] == s0[n + i];
    }
  }

  lemma PutNext(w: seq<seq<Slot>>, d: seq<nat>, u: seq<nat>, w': seq<seq<Slot>>, u': seq<nat>, b: nat, k: nat, x: nat)
    returns (q: seq<Slot>, got: seq<Slot>)
    requires S.Longer(w, d, u, w', u', b, k) && x == At(d[b], u[b], |w[b]|)
    requires forall i {:trigger u[i]} :: b < i < |w| ==> u[i] == 0
    ensures x < |w'[b]| && k <= |w'[b]| && q == S.Slice(w'[b], x, k) && got == S.Joined(w, d, u)
    ensures S.Joined(w', d, u') == got + q
  {
    S.PutLast(w, d, u, w', u', b, k);
    q, got := S.Slice(w'[b], x, k), S.Joined(w, d, u);
  }

  lemma CarriesMore(all: seq<Slot>, gone: seq<Slot>, p: seq<Slot>, rest: seq<Slot>, got: seq<Slot>, q: seq<Slot>, zerocopy: bool)
    requires all == gone + (p + rest) && Carries(gone, got, zerocopy) && Carries(p, q, zerocopy)
    ensures all == (gone + p) + rest && Carries(gone + p, got + q, zerocopy)
  {
  }

  /** A turn that moves packets moves the next ones. */
  lemma StreamTurn(all: seq<Slot>, c0: seq<nat>, s0: seq<nat>, v: seq<seq<Slot>>, c: seq<nat>, s: seq<nat>, v': seq<seq<Slot>>,
                   c': seq<nat>, s': seq<nat>, n: nat, a: nat, b: nat, k: nat, gone: seq<Slot>, zerocopy: bool)
    returns (gone': seq<Slot>)
    requires Streaming(all, c0, s0, v, c, s, n, b, gone, zerocopy) && a < n <= b < |v|
    requires Passage(v, v', c, c', a, b, k, zerocopy) && Less(s, s', a, b, k)
    requires forall i {:trigger s[i]} :: 0 <= i < a ==> s[i] == 0
    ensures Streaming(all, c0, s0, v', c', s', n, b, gone', zerocopy) == true && |gone'| == |gone| + k
  {
    var p, rest := SourceGives(c0, s0, v, c, s, v', c', s', n, a, b, k, zerocopy);
    var q, got := DestinationGets(c0, s0, v, c, s, v', c', s', n, a, b, k, zerocopy);
    PassageCarries(v, v', c, c', a, b, k, zerocopy);
    CarriesMore(all, gone, p, rest, got, q, zerocopy);
    gone' := gone + p;
  }

  lemma StreamNone(v: seq<seq<Slot>>, c: seq<nat>, s: seq<nat>, n: nat, zerocopy: bool)
    requires |v| == |c| == |s| && n <= |v| && forall i {:trigger v[i]} {:trigger s[i]} :: 0 <= i < |v| ==> c[i] < |v[i]| && s[i] < |v[i]|
    ensures S.Stretches(v[..n], c[..n], s[..n])
    ensures Streaming(S.Joined(v[..n], c[..n], s[..n]), c, s, v, c, s, n, n, [], zerocopy)
  {
    S.Nothing(v[n..], c[n..], Used(s[n..], s[n..]));
  }

  /** All but two are the same. */
  ghost predicate OnlyTwo<T>(v: seq<T>, v': seq<T>, a: nat, b: nat) {
    |v'| == |v| && forall i {:trigger v'[i]} :: 0 <= i < |v| && i != a && i != b ==> v'[i] == v[i]
  }

  /** process_rings for two of many rings; the others stay as they are. */
  method ProcessAmong(rx: UserRing, tx: UserRing, limit: nat, zerocopy: bool, mem: array<seq<nat>>,
                      ghost rings: seq<UserRing>, ghost a: nat, ghost b: nat)
    returns (k: nat)
    requires Apart(rings) && a < |rings| && b < |rings| && a != b && rx == rings[a] && tx == rings[b]
    requires rx.Valid() && tx.Valid() && (!zerocopy ==> Backed(rx.slots[..], mem[..]) && Backed(tx.slots[..], mem[..]))
    modifies rx`head, rx`cur, tx`head, tx`cur, rx.slots, tx.slots, mem
    ensures k == Least(limit, old(rx.Space()), old(tx.Space()))
    ensures OnlyTwo(old(Each(rings)), Each(rings), a, b) == true && OnlyTwo(old(Curs(rings)), Curs(rings), a, b) == true
    ensures Tails(rings) == old(Tails(rings))
    ensures rx.cur == At(old(rx.cur), k, rx.n) && tx.cur == At(old(tx.cur), k, tx.n)
    ensures Moved(old(mem[..]), mem[..], old(rx.slots[..]), old(tx.slots[..]), rx.slots[..], tx.slots[..],
                  old(rx.cur), old(tx.cur), k, rx.n, tx.n, zerocopy) == true
  {
    k := ProcessRings(rx, tx, limit, zerocopy, mem);
  }

  method ProcessTwo(rx: UserRing, tx: UserRing, limit: nat, zerocopy: bool, mem: array<seq<nat>>,
                    ghost rings: seq<UserRing>, ghost a: nat, ghost b: nat)
    returns (k: nat)
    requires Apart(rings) && a < |rings| && b < |rings| && a != b && rx == rings[a] && tx == rings[b]
    requires rx.Valid() && tx.Valid() && (!zerocopy ==> AllBacked(Each(rings), mem[..]))
    modifies rx`head, rx`cur, tx`head, tx`cur, rx.slots, tx.slots, mem
    ensures k == Least(limit, old(rx.Space()), old(tx.Space()))
    ensures TwoMoved(old(Each(rings)), Each(rings), old(mem[..]), mem[..], a, b, zerocopy) == true
    ensures Passage(old(Each(rings)), Each(rings), old(Curs(rings)), Curs(rings), a, b, k, zerocopy) == true
    ensures Tails(rings) == old(Tails(rings)) && (zerocopy ==> mem[..] == old(mem[..]))
  {
    ghost var v, c, mem0 := Each(rings), Curs(rings), mem[..];
    assert v[a] == rx.slots[..] && v[b] == tx.slots[..];
    k := ProcessAmong(rx, tx, limit, zerocopy, mem, rings, a, b);
    assert Each(rings)[a] == rx.slots[..] && Each(rings)[b] == tx.slots[..];
    TwoOfMany(v, Each(rings), c, Curs(rings), mem0, mem[..], a, b, k, zerocopy);
  }

  lemma TwoOfMany(v: seq<seq<Slot>>, v': seq<seq<Slot>>, c: seq<nat>, c': seq<nat>, mem: seq<seq<nat>>, mem': seq<seq<nat>>,
                  a: nat, b: nat, k: nat, zerocopy: bool)
    requires |v'| == |v| == |c| == |c'| && a < |v| && b < |v| && a != b && c[a] < |v[a]| && c[b] < |v[b]|
    requires k <= |v[a]| && k <= |v[b]|
    requires OnlyTwo(v, v', a, b) && OnlyTwo(c, c', a, b)
    requires c'[a] == At(c[a], k, |v[a]|) && c'[b] == At(c[b], k, |v[b]|)
    requires Moved(mem, mem', v[a], v[b], v'[a], v'[b], c[a], c[b], k, |v[a]|, |v[b]|, zerocopy)
    ensures TwoMoved(v, v', mem, mem', a, b, zerocopy) == true && Passage(v, v', c, c', a, b, k, zerocopy) == true
    ensures zerocopy ==> mem' == mem
  {
  }

  /** Only rings a and b have changed, and together they have the same buffers. */
  ghost predicate TwoMoved(v: seq<seq<Slot>>, v': seq<seq<Slot>>, mem: seq<seq<nat>>, mem': seq<seq<nat>>, a: nat, b: nat,
                           zerocopy: bool)
  {
    && |v'| == |v| && a < |v| && b < |v| && a != b && Bufs(v'[a]) + Bufs(v'[b]) == Bufs(v[a]) + Bufs(v[b])
    && (forall i {:trigger v'[i]} :: 0 <= i < |v| && i != a && i != b ==> v'[i] == v[i])
    && (!zerocopy ==> && Indices(v'[a]) == Indices(v[a]) && Indices(v'[b]) == Indices(v[b]) && |mem'| == |mem|
                      && forall x {:trigger mem'[x]} :: 0 <= x < |mem| ==> |mem'[x]| == |mem[x]|)
  }

  lemma TwoMovedKeeps(v: seq<seq<Slot>>, v': seq<seq<Slot>>, mem: seq<seq<nat>>, mem': seq<seq<nat>>, a: nat, b: nat,
                      zerocopy: bool)
    requires TwoMoved(v, v', mem, mem', a, b, zerocopy) && (!zerocopy ==> AllBacked(v, mem))
    ensures Sum(v') == Sum(v) && (!zerocopy ==> AllBacked(v', mem'))
  {
    SumExchange(v, a, b, v'[a], v'[b]);
    TwoChanged(v, v', a, b);
    if !zerocopy { StillAllBacked(v, v', mem, mem', a, b); }
  }

  /** The body of move for two rings that are not empty and not full. */
  method Pass(rx: UserRing, tx: UserRing, limit: nat, zerocopy: bool, mem: array<seq<nat>>,
              ghost rings: seq<UserRing>, ghost a: nat, ghost b: nat)
    returns (k: nat)
    requires Apart(rings) && a < |rings| && b < |rings| && a != b && rx == rings[a] && tx == rings[b]
    requires rx.Valid() && tx.Valid() && (!zerocopy ==> AllBacked(Each(rings), mem[..]))
    modifies rx`head, rx`cur, tx`head, tx`cur, rx.slots, tx.slots, mem
    ensures k == Least(limit, old(rx.Space()), old(tx.Space()))
    ensures Sum(Each(rings)) == old(Sum(Each(rings))) && (!zerocopy ==> AllBacked(Each(rings), mem[..]) == true)
    ensures Passage(old(Each(rings)), Each(rings), old(Curs(rings)), Curs(rings), a, b, k, zerocopy) == true
    ensures Tails(rings) == old(Tails(rings)) && (zerocopy ==> mem[..] == old(mem[..]))
  {
    ghost var v, mem0 := Each(rings), mem[..];
    k := ProcessTwo(rx, tx, limit, zerocopy, mem, rings, a, b);
    TwoMovedKeeps(v, Each(rings), mem0, mem[..], a, b, zerocopy);
  }

  /** All rings use buffers that exist. */
  ghost predicate AllBacked(v: seq<seq<Slot>>, mem: seq<seq<nat>>) {
    forall i {:trigger v[i]} :: 0 <= i < |v| ==> Backed(v[i], mem)
  }

  lemma StillAllBacked(v: seq<seq<Slot>>, v': seq<seq<Slot>>, mem: seq<seq<nat>>, mem': seq<seq<nat>>, a: nat, b: nat)
    requires AllBacked(v, mem) && |v'| == |v| && a < |v| && b < |v|
    requires forall i {:trigger v'[i]} :: 0 <= i < |v| && i != a && i != b ==> v'[i] == v[i]
    requires Indices(v'[a]) == Indices(v[a]) && Indices(v'[b]) == Indices(v[b])
    requires |mem'| == |mem| && forall x {:trigger mem'[x]} :: 0 <= x < |mem| ==> |mem'[x]| == |mem[x]|
    ensures AllBacked(v', mem')
  {
    forall i | 0 <= i < |v'| ensures Backed(v'[i], mem') {
      StillBacked(v[i], v'[i], mem, mem');
    }
  }

  /** The tail of each ring, and its number of slots. */
  ghost function Tails(rings: seq<UserRing>): (r: seq<nat>)
    reads rings`tail
    ensures |r| == |rings| && forall i {:trigger r[i]} :: 0 <= i < |rings| ==> r[i] == rings[i].tail
  {
    if rings == [] then [] else Tails(rings[..|rings| - 1]) + [rings[|rings| - 1].tail]
  }

  ghost function Lengths(rings: seq<UserRing>): (r: seq<nat>)
    ensures |r| == |rings| && forall i {:trigger r[i]} :: 0 <= i < |rings| ==> r[i] == rings[i].n
  {
    seq(|rings|, i requires 0 <= i < |rings| => rings[i].n)
  }

  ghost predicate Backing(rings: seq<UserRing>) {
    forall i {:trigger rings[i]} :: 0 <= i < |rings| ==> rings[i].slots.Length == rings[i].n
  }

  /** Rings of these lengths with this cur and tail are valid and have this space. */
  ghost predicate Ranged(ns: seq<nat>, c: seq<nat>, t: seq<nat>, s: seq<nat>) {
    && |c| == |t| == |s| == |ns|
    && forall i {:trigger ns[i]} :: 0 <= i < |ns| ==> c[i] < ns[i] && t[i] < ns[i] && s[i] == Dist(c[i], t[i], ns[i])
  }

  lemma ValidIsRanged(rings: seq<UserRing>)
    requires AllValid(rings)
    ensures Backing(rings) == true && Ranged(Lengths(rings), Curs(rings), Tails(rings), Spaces(rings)) == true
  {
    forall i | 0 <= i < |rings|
      ensures rings[i].slots.Length == rings[i].n && rings[i].cur < rings[i].n && rings[i].tail < rings[i].n
      ensures Spaces(rings)[i] == Dist(rings[i].cur, rings[i].tail, rings[i].n)
    {
      assert rings[i].Valid();
    }
  }

  lemma RangedIsValid(rings: seq<UserRing>, s: seq<nat>)
    requires Ranged(Lengths(rings), Curs(rings), Tails(rings), s) && Backing(rings)
    ensures AllValid(rings) == true && Spaces(rings) == s
  {
    forall i | 0 <= i < |rings| ensures rings[i].Valid() && s[i] == rings[i].Space() {
      assert Lengths(rings)[i] == rings[i].n;
    }
  }

  lemma LengthsOf(rings: seq<UserRing>)
    requires Backing(rings)
    ensures forall i {:trigger Lengths(rings)[i]} :: 0 <= i < |rings| ==> |Each(rings)[i]| == Lengths(rings)[i]
  {
  }

  /** What is left after a passage. */
  lemma RangedAfter(ns: seq<nat>, v: seq<seq<Slot>>, v': seq<seq<Slot>>, c: seq<nat>, c': seq<nat>, t: seq<nat>, s: seq<nat>, a: nat,
                    b: nat, k: nat, zerocopy: bool) returns (s': seq<nat>)
    requires Ranged(ns, c, t, s) && Passage(v, v', c, c', a, b, k, zerocopy) && |ns| == |v| && k <= s[a] && k <= s[b]
    requires |v[a]| == ns[a] && |v[b]| == ns[b]
    ensures Ranged(ns, c', t, s') == true && s' == s[a := s[a] - k][b := s[b] - k] && Less(s, s', a, b, k) == true
  {
    s' := s[a := s[a] - k][b := s[b] - k];
    DistBetween(c[a], k, s[a], ns[a]);
    DistBetween(c[b], k, s[b], ns[b]);
    forall i | 0 <= i < |ns| ensures c'[i] < ns[i] && t[i] < ns[i] && s'[i] == Dist(c'[i], t[i], ns[i]) {
      assert c[i] < ns[i];
    }
  }

  /** The rings: slots, cur and space of each, and where move is in them. */
  datatype Snap = Snap(v: seq<seq<Slot>>, c: seq<nat>, s: seq<nat>, si: nat, di: nat)

  ghost function Now(rings: seq<UserRing>, si: nat, di: nat): Snap
    reads rings, Arrays(rings)
  {
    Snap(Each(rings), Curs(rings), Spaces(rings), si, di)
  }

  /** A turn of move: it goes on to another ring, or k packets go from ring si to ring di. */
  ghost predicate TurnOf(x: Snap, y: Snap, k: nat, zerocopy: bool) {
    || (y.v == x.v && y.c == x.c && y.s == x.s && k == 0 && x.di <= y.di)
    || (y.si == x.si && y.di == x.di && Less(x.s, y.s, x.si, x.di, k) && Passage(x.v, y.v, x.c, y.c, x.si, x.di, k, zerocopy))
  }

  /** The same, with all that stays as it is. */
  method PassOn(rx: UserRing, tx: UserRing, limit: nat, zerocopy: bool, mem: array<seq<nat>>,
                ghost rings: seq<UserRing>, ghost a: nat, ghost b: nat, ghost x: Snap)
    returns (k: nat, ghost y: Snap)
    requires !zerocopy ==> AllBacked(Each(rings), mem[..])
    requires Apart(rings) && AllValid(rings) && a < |rings| && b < |rings| && a != b && rx == rings[a] && tx == rings[b]
    requires x == Now(rings, a, b)
    modifies rx`head, rx`cur, tx`head, tx`cur, rx.slots, tx.slots, mem
    ensures AllValid(rings) == true && Sum(Each(rings)) == old(Sum(Each(rings)))
    ensures !zerocopy ==> AllBacked(Each(rings), mem[..]) == true
    ensures y == Now(rings, a, b) && k == Least(limit, x.s[a], x.s[b]) && Less(x.s, y.s, a, b, k) == true
    ensures TurnOf(x, y, k, zerocopy) == true && (zerocopy ==> mem[..] == old(mem[..]))
  {
    ghost var t := Tails(rings);
    ValidIsRanged(rings);
    LengthsOf(rings);
    k := Pass(rx, tx, limit, zerocopy, mem, rings, a, b);
    ghost var s' := RangedAfter(Lengths(rings), x.v, Each(rings), x.c, Curs(rings), t, x.s, a, b, k, zerocopy);
    RangedIsValid(rings, s');
    y := Now(rings, a, b);
  }

  lemma TurnPasses(v: seq<nat>, v': seq<nat>, n: nat, si: nat, di: nat, limit: nat, k: nat)
    requires si < n <= di < |v| && v[si] != 0 && v[di] != 0 && k == Least(limit, v[si], v[di]) && Less(v, v', si, di, k)
    ensures Going(Seen(v, n, si, di)) && Seen(v', n, si, di) == Turn(Seen(v, n, si, di), limit)
    ensures Total(v'[..n]) == Total(v[..n]) - k
  {
    TurnMoves(v, v', n, si, di, limit);
  }

  /** One turn of move. */
  method MoveTurn(rings: seq<UserRing>, n: nat, si: nat, di: nat, limit: nat, zerocopy: bool, mem: array<seq<nat>>, ghost x: Snap)
    returns (si': nat, di': nat, k: nat, ghost y: Snap)
    requires Apart(rings) && AllValid(rings) && si < n <= di < |rings| && (!zerocopy ==> AllBacked(Each(rings), mem[..]))
    requires x == Now(rings, si, di)
    modifies rings, Arrays(rings), mem
    ensures !zerocopy ==> AllBacked(Each(rings), mem[..]) == true
    ensures si' <= n <= di' <= |rings| && AllValid(rings) == true && Sum(Each(rings)) == old(Sum(Each(rings)))
    ensures Going(Seen(x.s, n, si, di)) && |y.s| == |x.s| && Seen(y.s, n, si', di') == Turn(Seen(x.s, n, si, di), limit)
    ensures Total(y.s[..n]) == Total(x.s[..n]) - k
    ensures y == Now(rings, si', di') && TurnOf(x, y, k, zerocopy) == true && (zerocopy ==> mem[..] == old(mem[..]))
  {
    TurnSkips(x.s, n, si, di, limit);
    var rx, tx := rings[si], rings[di];
    assert rx.Valid() && tx.Valid();
    if rx.cur == rx.tail {
      return si + 1, di, 0, x.(si := si + 1);
    }
    if tx.cur == tx.tail {
      return si, di + 1, 0, x.(di := di + 1);
    }
    k, y := PassOn(rx, tx, limit, zerocopy, mem, rings, si, di, x);
    TurnPasses(x.s, y.s, n, si, di, limit, k);
    si', di' := si, di;
  }

  /** The loop has come from l0 to l, and left only rings behind that are empty, or full. */
  ghost predicate Along(l0: Loop, l: Loop, limit: nat, turns: nat) {
    && l == Turns(l0, limit, turns) && l.si <= |l.src| && l.di <= |l.dst|
    && (forall j {:trigger l.src[j]} :: 0 <= j < l.si && j < |l.src| ==> l.src[j] == 0)
    && (forall j {:trigger l.dst[j]} :: 0 <= j < l.di && j < |l.dst| ==> l.dst[j] == 0)
    && (1 <= limit || NoneFrom(l.src, l.si) || NoneFrom(l.dst, l.di))
  }

  lemma AlongTurn(l0: Loop, l: Loop, limit: nat, turns: nat)
    requires Along(l0, l, limit, turns) && Going(l)
    ensures Along(l0, Turn(l, limit), limit, turns + 1) == true
    ensures Turn(l, limit).si <= |Turn(l, limit).src| && Turn(l, limit).di <= |Turn(l, limit).dst|
    ensures Left(Turn(l, limit)) < Left(l)
  {
    TurnUses(l, limit);
  }

  ghost predicate NoneUpTo(s: seq<nat>, si: nat) {
    forall i {:trigger s[i]} :: 0 <= i < si && i < |s| ==> s[i] == 0
  }

  /** The turns of move from the first n rings to the others, and how many packets each has moved. */
  ghost predicate Logged(trace: seq<Snap>, ks: seq<nat>, n: nat, zerocopy: bool) {
    && |trace| == |ks| + 1
    && forall j {:trigger ks[j]} :: 0 <= j < |ks| ==>
         StepOf(trace[j], trace[j + 1], ks[j], n, zerocopy)
  }

  /** The source rings before the current one are empty. */
  ghost predicate StepOf(x: Snap, y: Snap, k: nat, n: nat, zerocopy: bool) {
    TurnOf(x, y, k, zerocopy) && NoneUpTo(x.s, x.si) && x.si < n <= x.di < |x.v|
  }

  lemma LogMore(trace: seq<Snap>, ks: seq<nat>, n: nat, zerocopy: bool, x: Snap, y: Snap, k: nat)
    requires Logged(trace, ks, n, zerocopy) && trace[|ks|] == x && StepOf(x, y, k, n, zerocopy)
    ensures Logged(trace + [y], ks + [k], n, zerocopy) == true
  {
    var trace', ks' := trace + [y], ks + [k];
    forall j | 0 <= j < |ks'| ensures StepOf(trace'[j], trace'[j + 1], ks'[j], n, zerocopy) == true {
      if j < |ks| {
        assert StepOf(trace[j], trace[j + 1], ks[j], n, zerocopy) == true;
      }
    }
  }

  lemma {:induction false} TotalMore(ks: seq<nat>, k: nat)
    ensures Total(ks + [k]) == Total(ks) + k
  {
    if ks == [] {
      assert ks + [k] == [k] && [k][1..] == [];
    } else {
      TotalMore(ks[1..], k);
      assert (ks + [k])[1..] == ks[1..] + [k];
    }
  }

  lemma TotalNext(ks: seq<nat>, j: nat)
    requires 0 < j <= |ks|
    ensures Total(ks[..j]) == Total(ks[..j - 1]) + ks[j - 1]
  {
    assert ks[..j] == ks[..j - 1] + [ks[j - 1]];
    TotalMore(ks[..j - 1], ks[j - 1]);
  }

  lemma StreamFurther(all: seq<Slot>, c0: seq<nat>, s0: seq<nat>, v: seq<seq<Slot>>, c: seq<nat>, s: seq<nat>, n: nat, di: nat,
                      di': nat, gone: seq<Slot>, zerocopy: bool)
    requires Streaming(all, c0, s0, v, c, s, n, di, gone, zerocopy) && di <= di'
    ensures Streaming(all, c0, s0, v, c, s, n, di', gone, zerocopy)
  {
  }

  /** Slots, cur and space of valid rings. */
  ghost predicate Proper(x: Snap) {
    && |x.c| == |x.s| == |x.v|
    && forall i {:trigger x.v[i]} {:trigger x.s[i]} :: 0 <= i < |x.v| ==> x.c[i] < |x.v[i]| && x.s[i] < |x.v[i]|
  }

  /** What has gone by snapshot y is what the destination rings have got since x. */
  ghost predicate Since(all: seq<Slot>, x: Snap, y: Snap, n: nat, gone: seq<Slot>, zerocopy: bool) {
    Streaming(all, x.c, x.s, y.v, y.c, y.s, n, y.di, gone, zerocopy)
  }

  lemma {:induction false} MovedUpTo(all: seq<Slot>, trace: seq<Snap>, ks: seq<nat>, zerocopy: bool, n: nat, j: nat)
    returns (gone: seq<Slot>)
    requires Logged(trace, ks, n, zerocopy) && j <= |ks| && Since(all, trace[0], trace[0], n, [], zerocopy)
    ensures |gone| == Total(ks[..j]) && Since(all, trace[0], trace[j], n, gone, zerocopy) == true
  {
    gone := [];
    if j > 0 {
      var before := MovedUpTo(all, trace, ks, zerocopy, n, j - 1);
      TotalNext(ks, j);
      gone := SinceNext(all, trace[0], trace[j - 1], trace[j], n, ks[j - 1], before, zerocopy);
    }
  }

  lemma SinceNext(all: seq<Slot>, x0: Snap, x: Snap, y: Snap, n: nat, k: nat, gone: seq<Slot>, zerocopy: bool)
    returns (gone': seq<Slot>)
    requires Since(all, x0, x, n, gone, zerocopy) && StepOf(x, y, k, n, zerocopy)
    ensures Since(all, x0, y, n, gone', zerocopy) == true && |gone'| == |gone| + k
  {
    gone' := StreamNext(all, x0.c, x0.s, x, y, n, k, gone, zerocopy);
  }

  /** In every run of move: the packets that have gone from the source rings, first ring first, are those that the
      destination rings have got, first ring first. */
  lemma MovedInOrder(trace: seq<Snap>, ks: seq<nat>, zerocopy: bool, n: nat, j: nat) returns (gone: seq<Slot>)
    requires Logged(trace, ks, n, zerocopy) && j <= |ks| && Proper(trace[0]) && n <= |trace[0].v| && trace[0].di == n
    ensures var x := trace[0];
            && S.Stretches(x.v[..n], x.c[..n], x.s[..n]) && |gone| == Total(ks[..j])
            && Since(S.Joined(x.v[..n], x.c[..n], x.s[..n]), x, trace[j], n, gone, zerocopy) == true
  {
    var x := trace[0];
    StreamNone(x.v, x.c, x.s, n, zerocopy);
    gone := MovedUpTo(S.Joined(x.v[..n], x.c[..n], x.s[..n]), trace, ks, zerocopy, n, j);
  }

  lemma StreamNext(all: seq<Slot>, c0: seq<nat>, s0: seq<nat>, x: Snap, y: Snap, n: nat, k: nat, gone: seq<Slot>, zerocopy: bool)
    returns (gone': seq<Slot>)
    requires Streaming(all, c0, s0, x.v, x.c, x.s, n, x.di, gone, zerocopy)
    requires StepOf(x, y, k, n, zerocopy)
    ensures Streaming(all, c0, s0, y.v, y.c, y.s, n, y.di, gone', zerocopy) == true && |gone'| == |gone| + k
  {
    if y.v == x.v && y.c == x.c && y.s == x.s && k == 0 && x.di <= y.di {
      gone' := gone;
      StreamFurther(all, c0, s0, x.v, x.c, x.s, n, x.di, y.di, gone, zerocopy);
    } else {
      gone' := StreamTurn(all, c0, s0, x.v, x.c, x.s, y.v, y.c, y.s, n, x.si, x.di, k, gone, zerocopy);
    }
  }

  lemma NoneBefore(l0: Loop, s: seq<nat>, n: nat, si: nat, di: nat, limit: nat, turns: nat)
    requires si < n <= di < |s| && Along(l0, Seen(s, n, si, di), limit, turns)
    ensures NoneUpTo(s, si) == true
  {
    forall i | 0 <= i < si ensures s[i] == 0 {
      assert s[..n][i] == s[i];
    }
  }

  /** One turn of the loop, on record. */
  method MoveNext(rings: seq<UserRing>, n: nat, si: nat, di: nat, limit: nat, zerocopy: bool, mem: array<seq<nat>>, ghost x: Snap,
                  ghost trace: seq<Snap>, ghost ks: seq<nat>)
    returns (si': nat, di': nat, k: nat, ghost y: Snap)
    requires Apart(rings) && AllValid(rings) && si < n <= di < |rings| && (!zerocopy ==> AllBacked(Each(rings), mem[..]))
    requires x == Now(rings, si, di) && NoneUpTo(x.s, si) && Logged(trace, ks, n, zerocopy) && trace[|ks|] == x
    modifies rings, Arrays(rings), mem
    ensures !zerocopy ==> AllBacked(Each(rings), mem[..]) == true
    ensures si' <= n <= di' <= |rings| && AllValid(rings) == true && Sum(Each(rings)) == old(Sum(Each(rings)))
    ensures Going(Seen(x.s, n, si, di)) && |y.s| == |x.s| && Seen(y.s, n, si', di') == Turn(Seen(x.s, n, si, di), limit)
    ensures Total(y.s[..n]) == Total(x.s[..n]) - k
    ensures y == Now(rings, si', di') && Logged(trace + [y], ks + [k], n, zerocopy) == true && (zerocopy ==> mem[..] == old(mem[..]))
  {
    si', di', k, y := MoveTurn(rings, n, si, di, limit, zerocopy, mem, x);
    LogMore(trace, ks, n, zerocopy, x, y, k);
  }

  /** Where move is: x in the rings, l in the loop, with m packets moved of `total`. */
  ghost predicate Moving(rings: seq<UserRing>, n: nat, si: nat, di: nat, limit: nat, l0: Loop, l: Loop, turns: nat, x: Snap,
                         m: nat, total: nat, bufs: multiset<nat>)
    reads rings, Arrays(rings)
  {
    && si <= n <= di <= |rings| == |x.s| && AllValid(rings) && Sum(Each(rings)) == bufs && x == Now(rings, si, di)
    && m == total - Total(x.s[..n]) && l == Seen(x.s, n, si, di) && Along(l0, l, limit, turns)
  }

  method MoveOn(rings: seq<UserRing>, n: nat, si: nat, di: nat, limit: nat, zerocopy: bool, mem: array<seq<nat>>, ghost l0: Loop,
                ghost l: Loop, ghost turns: nat, ghost x: Snap, m: nat, ghost total: nat, ghost bufs: multiset<nat>,
                ghost trace: seq<Snap>, ghost ks: seq<nat>)
    returns (si': nat, di': nat, m': nat, ghost l': Loop, ghost y: Snap, ghost trace': seq<Snap>, ghost ks': seq<nat>)
    requires Apart(rings) && si < n <= di < |rings| && (!zerocopy ==> AllBacked(Each(rings), mem[..]))
    requires Moving(rings, n, si, di, limit, l0, l, turns, x, m, total, bufs)
    requires Logged(trace, ks, n, zerocopy) && trace[|ks|] == x
    modifies rings, Arrays(rings), mem
    ensures !zerocopy ==> AllBacked(Each(rings), mem[..]) == true
    ensures n <= di' && Moving(rings, n, si', di', limit, l0, l', turns + 1, y, m', total, bufs) == true
    ensures l.si <= |l.src| && l.di <= |l.dst| && l'.si <= |l'.src| && l'.di <= |l'.dst| && Left(l') < Left(l)
    ensures Logged(trace', ks', n, zerocopy) == true && trace'[0] == trace[0] && trace'[|ks'|] == y
    ensures zerocopy ==> mem[..] == old(mem[..])
  {
    MovingSays(rings, n, si, di, limit, l0, l, turns, x, m, total, bufs);
    var k;
    si', di', k, y := MoveNext(rings, n, si, di, limit, zerocopy, mem, x, trace, ks);
    l', m', trace', ks' := Turn(l, limit), m + k, trace + [y], ks + [k];
    MovingOn(rings, n, si', di', limit, l0, l', turns + 1, y, m', total, bufs);
  }

  lemma MovingSays(rings: seq<UserRing>, n: nat, si: nat, di: nat, limit: nat, l0: Loop, l: Loop, turns: nat, x: Snap, m: nat,
                   total: nat, bufs: multiset<nat>)
    requires Moving(rings, n, si, di, limit, l0, l, turns, x, m, total, bufs) && si < n && di < |rings|
    ensures AllValid(rings) == true && Sum(Each(rings)) == bufs && x == Now(rings, si, di) && NoneUpTo(x.s, si) == true
    ensures |x.s| == |rings| && m == total - Total(x.s[..n]) && l == Seen(x.s, n, si, di) && Going(l)
    ensures Along(l0, Turn(l, limit), limit, turns + 1) == true
    ensures var l' := Turn(l, limit); l.si <= |l.src| && l.di <= |l.dst| && l'.si <= |l'.src| && l'.di <= |l'.dst| && Left(l') < Left(l)
  {
    AlongTurn(l0, l, limit, turns);
    NoneBefore(l0, x.s, n, si, di, limit, turns);
  }

  lemma MovingOn(rings: seq<UserRing>, n: nat, si: nat, di: nat, limit: nat, l0: Loop, l: Loop, turns: nat, x: Snap, m: nat,
                 total: nat, bufs: multiset<nat>)
    requires si <= n <= di <= |rings| == |x.s| && AllValid(rings) && Sum(Each(rings)) == bufs && x == Now(rings, si, di)
    requires m == total - Total(x.s[..n]) && l == Seen(x.s, n, si, di) && Along(l0, l, limit, turns)
    ensures Moving(rings, n, si, di, limit, l0, l, turns, x, m, total, bufs) == true
  {
  }

  lemma MoveStarts(rings: seq<UserRing>, n: nat, limit: nat) returns (x: Snap, l: Loop, total: nat, bufs: multiset<nat>)
    requires n <= |rings| && AllValid(rings) && Stops(Seen(Spaces(rings), n, 0, n), limit)
    ensures x == Now(rings, 0, n) && l == Seen(Spaces(rings), n, 0, n) && total == Total(Spaces(rings)[..n])
    ensures bufs == Sum(Each(rings))
    ensures Moving(rings, n, 0, n, limit, l, l, 0, x, 0, total, bufs) == true && l.si <= |l.src| && l.di <= |l.dst|
  {
    x, bufs := Now(rings, 0, n), Sum(Each(rings));
    l, total := Seen(x.s, n, 0, n), Total(x.s[..n]);
    WhenMoveEnds(l, limit);
    MovingOn(rings, n, 0, n, limit, l, l, 0, x, 0, total, bufs);
  }

  lemma MoveDone(rings: seq<UserRing>, n: nat, si: nat, di: nat, limit: nat, l0: Loop, l: Loop, turns: nat, x: Snap,
                 m: nat, total: nat, bufs: multiset<nat>)
    requires Moving(rings, n, si, di, limit, l0, l, turns, x, m, total, bufs) && !(si < n && di < |rings|)
    ensures AllValid(rings) == true && Sum(Each(rings)) == bufs && m == total - Total(Spaces(rings)[..n])
    ensures x == Now(rings, x.si, x.di)
    ensures NoneFrom(Spaces(rings)[..n], 0) || NoneFrom(Spaces(rings)[n..], 0)
    ensures var l := Turns(l0, limit, turns); !Going(l) && Spaces(rings)[..n] == l.src && Spaces(rings)[n..] == l.dst
  {
  }

  /** The loop of move. */
  method MoveLoop(rings: seq<UserRing>, n: nat, limit: nat, zerocopy: bool, mem: array<seq<nat>>, ghost x: Snap, ghost l0: Loop,
                  ghost total: nat, ghost bufs: multiset<nat>)
    returns (si: nat, di: nat, m: nat, ghost turns: nat, ghost y: Snap, ghost l: Loop, ghost trace: seq<Snap>, ghost ks: seq<nat>)
    requires n <= |rings| && Apart(rings) && (!zerocopy ==> AllBacked(Each(rings), mem[..]))
    requires Moving(rings, n, 0, n, limit, l0, l0, 0, x, 0, total, bufs) && l0.si <= |l0.src| && l0.di <= |l0.dst|
    modifies rings, Arrays(rings), mem
    ensures !(si < n && di < |rings|) && Moving(rings, n, si, di, limit, l0, l, turns, y, m, total, bufs) == true
    ensures Logged(trace, ks, n, zerocopy) == true && trace[0] == x && trace[|ks|] == y && (zerocopy ==> mem[..] == old(mem[..]))
  {
    si, di, m, turns, y, l, trace, ks := 0, n, 0, 0, x, l0, [x], [];
    while si < n && di < |rings|
      invariant n <= di && (!zerocopy ==> AllBacked(Each(rings), mem[..]) == true) && (zerocopy ==> mem[..] == old(mem[..]))
      invariant Moving(rings, n, si, di, limit, l0, l, turns, y, m, total, bufs) == true && l.si <= |l.src|
      invariant l.di <= |l.dst|
      invariant Logged(trace, ks, n, zerocopy) == true && trace[0] == x && trace[|ks|] == y
      decreases Left(l)
    {
      si, di, m, l, y, trace, ks := MoveOn(rings, n, si, di, limit, zerocopy, mem, l0, l, turns, y, m, total, bufs, trace, ks);
      turns := turns + 1;
    }
  }

  /** move, from the first n rings to the others: until those are empty or these are full.  It takes the turns of the
      loop on what is left in each ring, so it ends exactly when that does; the trace says which packets go where. */
  method Move(rings: seq<UserRing>, n: nat, limit: nat, zerocopy: bool, mem: array<seq<nat>>)
    returns (m: nat, ghost turns: nat, ghost trace: seq<Snap>, ghost ks: seq<nat>)
    requires n <= |rings| && Apart(rings) && AllValid(rings) && Stops(Seen(Spaces(rings), n, 0, n), limit)
    requires !zerocopy ==> AllBacked(Each(rings), mem[..])
    modifies rings, Arrays(rings), mem
    ensures AllValid(rings) == true && Sum(Each(rings)) == old(Sum(Each(rings)))
    ensures NoneFrom(Spaces(rings)[..n], 0) || NoneFrom(Spaces(rings)[n..], 0)
    ensures m == old(Total(Spaces(rings)[..n])) - Total(Spaces(rings)[..n])
    ensures var l := Turns(old(Seen(Spaces(rings), n, 0, n)), limit, turns);
            !Going(l) && Spaces(rings)[..n] == l.src && Spaces(rings)[n..] == l.dst
    ensures Logged(trace, ks, n, zerocopy) == true && trace[0] == old(Now(rings, 0, n))
    ensures trace[|ks|] == Now(rings, trace[|ks|].si, trace[|ks|].di) && (zerocopy ==> mem[..] == old(mem[..]))
  {
    ghost var x, l, total, bufs := MoveStarts(rings, n, limit);
    var si, di;
    ghost var y, l';
    si, di, m, turns, y, l', trace, ks := MoveLoop(rings, n, limit, zerocopy, mem, x, l, total, bufs);
    MoveDone(rings, n, si, di, limit, l, l', turns, y, m, total, bufs);
  }

  /* ---- netmap_sw_to_nic ---- */

  const NS_BUF_CHANGED: nat := 1
  const NS_FORWARD: nat := 4

  /** The slot is to be forwarded: it is marked, or all are. */
  predicate Wanted(s: Slot, all: bool) {
    all || s.flags / NS_FORWARD % 2 == 1
  }

  /** The packets to forward among the d slots from index i on, as they reach a transmit ring. */
  ghost function Picked(slots: seq<Slot>, i: nat, d: nat, n: nat, all: bool): seq<Slot>
    requires |slots| == n && i < n && d <= n
  {
    if d == 0 then []
    else
      var s := slots[At(i, d - 1, n)];
      Picked(slots, i, d - 1, n, all) + if Wanted(s, all) then [Slot(s.bufIdx, s.len, NS_BUF_CHANGED)] else []
  }

  /** Exactly the slots that have flag 4, or all, in order: at these distances from i. */
  lemma {:induction false} PickedExactly(slots: seq<Slot>, i: nat, d: nat, n: nat, all: bool) returns (at: seq<nat>)
    requires |slots| == n && i < n && d <= n
    ensures |at| == |Picked(slots, i, d, n, all)| && forall k, l :: 0 <= k < l < |at| ==> at[k] < at[l]
    ensures forall e: nat :: e in at <==> e < d && (all || slots[At(i, e, n)].flags / 4 % 2 == 1)
    ensures forall k {:trigger at[k]} :: 0 <= k < |at| ==>
              at[k] < d && var s := slots[At(i, at[k], n)]; Picked(slots, i, d, n, all)[k] == Slot(s.bufIdx, s.len, 1)
  {
    at := [];
    if d > 0 {
      at := PickedExactly(slots, i, d - 1, n, all);
      if Wanted(slots[At(i, d - 1, n)], all) {
        at := at + [d - 1];
      }
    }
  }

  /** Of the first d slots from index i those that were forwarded have kept their length, and have bit 0 of the flags for
      their new buffer; the others are as before. */
  ghost predicate Swept(host0: seq<Slot>, host: seq<Slot>, i: nat, d: nat, n: nat, all: bool) {
    && |host0| == |host| == n && i < n
    && forall x {:trigger host[x]} :: 0 <= x < n && Dist(i, x, n) < d ==>
         if all || host0[x].flags / 4 % 2 == 1 then host[x].len == host0[x].len && host[x].flags == 1 else host[x] == host0[x]
  }

  /** The transmit ring has received these packets from index j on. */
  ghost predicate Placed(tx0: seq<Slot>, tx: seq<Slot>, j: nat, ps: seq<Slot>, n: nat) {
    && |tx0| == |tx| == n && j < n && |ps| < n
    && forall x {:trigger tx[x]} :: 0 <= x < n ==> tx[x] == if Dist(j, x, n) < |ps| then ps[Dist(j, x, n)] else tx0[x]
  }

  lemma PlaceOne(tx0: seq<Slot>, tx: seq<Slot>, j: nat, ps: seq<Slot>, n: nat, k: nat, s: Slot)
    requires Placed(tx0, tx, j, ps, n) && k < n && Dist(j, k, n) == |ps| < n - 1
    ensures Placed(tx0, tx[k := s], j, ps + [s], n)
  {
  }

  /** The slots after the first d from index i are as before. */
  ghost predicate Beyond(host0: seq<Slot>, host: seq<Slot>, i: nat, d: nat, n: nat) {
    && |host0| == |host| == n && i < n
    && forall x {:trigger host[x]} :: 0 <= x < n && d <= Dist(i, x, n) ==> host[x] == host0[x]
  }

  /** The body of the inner loop for a wanted slot. */
  method Exchange(host: array<Slot>, i: nat, tx: UserRing) returns (out: Slot)
    requires tx.Valid() && host != tx.slots && i < host.Length
    modifies host, tx`cur, tx.slots
    ensures out == Slot(old(host[i]).bufIdx, old(host[i]).len, NS_BUF_CHANGED) && tx.cur == Next(old(tx.cur), tx.n - 1)
    ensures host[..] == old(host[..])[i := Slot(old(tx.slots[tx.cur]).bufIdx, old(host[i]).len, NS_BUF_CHANGED)]
    ensures tx.slots[..] == old(tx.slots[..])[old(tx.cur) := out]
    ensures Bufs(host[..]) + Bufs(tx.slots[..]) == old(Bufs(host[..]) + Bufs(tx.slots[..]))
  {
    var src, dst := host[i], tx.slots[tx.cur];
    out := Slot(src.bufIdx, src.len, NS_BUF_CHANGED);
    ExchangeConserves(host[..], tx.slots[..], i, tx.cur, Slot(dst.bufIdx, src.len, NS_BUF_CHANGED), out);
    host[i] := Slot(dst.bufIdx, src.len, NS_BUF_CHANGED);
    tx.slots[tx.cur] := out;
    assert host[..] == old(host[..])[i := Slot(dst.bufIdx, src.len, NS_BUF_CHANGED)];
    assert tx.slots[..] == old(tx.slots[..])[tx.cur := out];
    tx.cur := Next(tx.cur, tx.n - 1);
  }

  /** From start to rxcur, k wanted slots have gone to the transmit ring, which had its cur at cur0. */
  ghost predicate Progress(h0: seq<Slot>, h: seq<Slot>, start: nat, rxcur: nat, head: nat, n: nat,
                           t0: seq<Slot>, t: seq<Slot>, cur0: nat, cur: nat, tail: nat, nt: nat, k: nat, all: bool)
  {
    && |h0| == n && start < n && rxcur < n && head < n && cur0 < nt && tail < nt
    && Dist(start, rxcur, n) <= Dist(start, head, n) && Beyond(h0, h, start, Dist(start, rxcur, n), n)
    && k == |Picked(h0, start, Dist(start, rxcur, n), n, all)| <= Dist(cur0, tail, nt) && cur == At(cur0, k, nt)
    && Placed(t0, t, cur0, Picked(h0, start, Dist(start, rxcur, n), n, all), nt)
    && Swept(h0, h, start, Dist(start, rxcur, n), n, all)
  }

  lemma Skip(h0: seq<Slot>, h: seq<Slot>, start: nat, rxcur: nat, head: nat, n: nat,
             t0: seq<Slot>, t: seq<Slot>, cur0: nat, cur: nat, tail: nat, nt: nat, k: nat, all: bool)
    requires Progress(h0, h, start, rxcur, head, n, t0, t, cur0, cur, tail, nt, k, all)
    requires rxcur != head && !Wanted(h[rxcur], all)
    ensures Progress(h0, h, start, Next(rxcur, n - 1), head, n, t0, t, cur0, cur, tail, nt, k, all)
  {
    assert Dist(start, Next(rxcur, n - 1), n) == Dist(start, rxcur, n) + 1;
  }

  lemma Take(h0: seq<Slot>, h: seq<Slot>, start: nat, rxcur: nat, head: nat, n: nat,
             t0: seq<Slot>, t: seq<Slot>, cur0: nat, cur: nat, tail: nat, nt: nat, k: nat, all: bool, s: Slot, out: Slot)
    requires Progress(h0, h, start, rxcur, head, n, t0, t, cur0, cur, tail, nt, k, all)
    requires rxcur != head && cur != tail && Wanted(h[rxcur], all)
    requires out == Slot(h[rxcur].bufIdx, h[rxcur].len, NS_BUF_CHANGED) && s.len == h[rxcur].len && s.flags == 1
    ensures Progress(h0, h[rxcur := s], start, Next(rxcur, n - 1), head, n, t0, t[cur := out],
                     cur0, Next(cur, nt - 1), tail, nt, k + 1, all)
  {
    assert Dist(start, Next(rxcur, n - 1), n) == Dist(start, rxcur, n) + 1;
    PlaceOne(t0, t, cur0, Picked(h0, start, Dist(start, rxcur, n), n, all), nt, cur, out);
  }

  /** One turn of the inner loop. */
  method ForwardSlot(host: array<Slot>, rxcur: nat, tx: UserRing, all: bool, ghost h0: seq<Slot>, ghost t0: seq<Slot>,
                     ghost start: nat, ghost head: nat, ghost cur0: nat, k: nat)
    returns (k': nat)
    requires tx.Valid() && host != tx.slots && rxcur < host.Length && rxcur != head && tx.cur != tx.tail
    requires Progress(h0, host[..], start, rxcur, head, host.Length, t0, tx.slots[..], cur0, tx.cur, tx.tail, tx.n, k, all)
    modifies host, tx`cur, tx.slots
    ensures tx.Valid()
    ensures Progress(h0, host[..], start, Next(rxcur, host.Length - 1), head, host.Length, t0, tx.slots[..], cur0, tx.cur,
                     tx.tail, tx.n, k', all) == true
    ensures Bufs(host[..]) + Bufs(tx.slots[..]) == old(Bufs(host[..]) + Bufs(tx.slots[..]))
  {
    ghost var h, t, cur, n := host[..], tx.slots[..], tx.cur, host.Length;
    k' := k;
    if Wanted(host[rxcur], all) {
      var out := Exchange(host, rxcur, tx);
      Take(h0, h, start, rxcur, head, n, t0, t, cur0, cur, tx.tail, tx.n, k, all, host[rxcur], out);
      k' := k + 1;
    } else {
      Skip(h0, h, start, rxcur, head, n, t0, t, cur0, cur, tx.tail, tx.n, k, all);
    }
  }

  /** The inner loop: forward to one ring until it is full or there is nothing left. */
  method ForwardTo(host: array<Slot>, start: nat, head: nat, tx: UserRing, all: bool) returns (rxcur: nat, k: nat)
    requires tx.Valid() && host != tx.slots && start < host.Length && head < host.Length
    modifies host, tx`cur, tx.slots
    ensures tx.Valid() && (rxcur == head || tx.cur == tx.tail)
    ensures Progress(old(host[..]), host[..], start, rxcur, head, host.Length,
                     old(tx.slots[..]), tx.slots[..], old(tx.cur), tx.cur, tx.tail, tx.n, k, all) == true
    ensures Bufs(host[..]) + Bufs(tx.slots[..]) == old(Bufs(host[..]) + Bufs(tx.slots[..]))
  {
    rxcur, k := start, 0;
    var n := host.Length;
    ghost var h0, t0, cur0 := host[..], tx.slots[..], tx.cur;
    while rxcur != head && tx.cur != tx.tail
      invariant tx.Valid() && rxcur < n && Dist(start, rxcur, n) <= Dist(start, head, n)
      invariant Progress(h0, host[..], start, rxcur, head, n, t0, tx.slots[..], cur0, tx.cur, tx.tail, tx.n, k, all) == true
      invariant Bufs(host[..]) + Bufs(tx.slots[..]) == Bufs(h0) + Bufs(t0)
      decreases n - Dist(start, rxcur, n)
    {
      k := ForwardSlot(host, rxcur, tx, all, h0, t0, start, head, cur0, k);
      rxcur := Next(rxcur, n - 1);
    }
  }

  lemma {:induction false} PickedSplit(slots: seq<Slot>, i: nat, a: nat, b: nat, n: nat, all: bool)
    requires |slots| == n && i < n && a + b <= n
    ensures Picked(slots, i, a + b, n, all) == Picked(slots, i, a, n, all) + Picked(slots, At(i, a, n), b, n, all)
  {
    if b > 0 {
      PickedSplit(slots, i, a, b - 1, n, all);
      AtAt(i, a, b - 1, n);
    }
  }

  lemma {:induction false} PickedKept(h0: seq<Slot>, h: seq<Slot>, i: nat, d: nat, n: nat, all: bool, b: nat, e: nat)
    requires Beyond(h0, h, b, e, n) && i < n && Dist(b, i, n) == e && e + d <= n
    ensures Picked(h, i, d, n, all) == Picked(h0, i, d, n, all)
  {
    if d > 0 {
      PickedKept(h0, h, i, d - 1, n, all, b, e);
      AtAt(b, e, d - 1, n);
      DistAt(b, e + (d - 1), n);
    }
  }

  lemma {:induction false} PickedSame(h0: seq<Slot>, h: seq<Slot>, i: nat, d: nat, n: nat, all: bool)
    requires |h0| == |h| == n && i < n && d <= n
    requires forall x {:trigger h[x]} :: 0 <= x < n && Dist(i, x, n) < d ==> h[x] == h0[x]
    ensures Picked(h, i, d, n, all) == Picked(h0, i, d, n, all)
  {
    if d > 0 {
      PickedSame(h0, h, i, d - 1, n, all);
      DistAt(i, d - 1, n);
    }
  }

  /** Two stretches, one after the other. */
  lemma Stretch(h0: seq<Slot>, h1: seq<Slot>, h2: seq<Slot>, b: nat, i: nat, j: nat, head: nat, n: nat, all: bool)
    requires b < n && i < n && j < n && head < n && Dist(b, i, n) <= Dist(b, head, n) && Dist(i, j, n) <= Dist(i, head, n)
    requires Beyond(h0, h1, b, Dist(b, i, n), n) && Beyond(h1, h2, i, Dist(i, j, n), n)
    ensures Dist(b, j, n) == Dist(b, i, n) + Dist(i, j, n) <= Dist(b, head, n)
    ensures Beyond(h0, h2, b, Dist(b, j, n), n) == true
    ensures Picked(h0, b, Dist(b, j, n), n, all)
            == Picked(h0, b, Dist(b, i, n), n, all) + Picked(h1, i, Dist(i, j, n), n, all)
  {
    DistAdd(b, i, head, n);
    DistAdd(b, i, j, n);
    PickedSplit(h0, b, Dist(b, i, n), Dist(i, j, n), n, all);
    PickedKept(h0, h1, i, Dist(i, j, n), n, all, b, Dist(b, i, n));
    forall x | 0 <= x < n && Dist(b, j, n) <= Dist(b, x, n) ensures h2[x] == h0[x] {
      DistAdd(b, i, x, n);
    }
  }

  lemma SweptOn(h0: seq<Slot>, h1: seq<Slot>, h2: seq<Slot>, b: nat, i: nat, c: nat, e: nat, n: nat, all: bool)
    requires b < n && i < n && Dist(b, i, n) == c && c + e <= n - 1
    requires Beyond(h0, h1, b, c, n) && Beyond(h1, h2, i, e, n) && Swept(h0, h1, b, c, n, all) && Swept(h1, h2, i, e, n, all)
    ensures Swept(h0, h2, b, c + e, n, all)
  {
    forall x | 0 <= x < n && Dist(b, x, n) < c + e
      ensures if all || h0[x].flags / 4 % 2 == 1 then h2[x].len == h0[x].len && h2[x].flags == 1 else h2[x] == h0[x]
    {
      DistAdd(b, i, x, n);
    }
  }

  /** The cur of each ring. */
  ghost function Curs(rings: seq<UserRing>): (r: seq<nat>)
    reads set o: UserRing | o in rings
    ensures |r| == |rings| && forall i {:trigger r[i]} :: 0 <= i < |rings| ==> r[i] == rings[i].cur
  {
    seq(|rings|, i requires 0 <= i < |rings| reads set o: UserRing | o in rings => rings[i].cur)
  }

  ghost function Flat(parts: seq<seq<Slot>>): seq<Slot> {
    if parts == [] then [] else Flat(parts[..|parts| - 1]) + parts[|parts| - 1]
  }

  /** The first rings have received these packets each, and the others are as before. */
  ghost predicate AllPlaced(v0: seq<seq<Slot>>, v: seq<seq<Slot>>, curs: seq<nat>, parts: seq<seq<Slot>>) {
    && |v0| == |v| == |curs| && |parts| <= |v|
    && (forall i {:trigger v[i]} :: 0 <= i < |parts| ==> Placed(v0[i], v[i], curs[i], parts[i], |v0[i]|))
    && (forall i {:trigger v[i]} :: |parts| <= i < |v| ==> v[i] == v0[i])
  }

  lemma AllPlacedOne(v0: seq<seq<Slot>>, v: seq<seq<Slot>>, v': seq<seq<Slot>>, curs: seq<nat>, parts: seq<seq<Slot>>,
                     p: seq<Slot>)
    requires AllPlaced(v0, v, curs, parts) && |parts| < |v| == |v'|
    requires forall i {:trigger v'[i]} :: 0 <= i < |v| && i != |parts| ==> v'[i] == v[i]
    requires Placed(v[|parts|], v'[|parts|], curs[|parts|], p, |v[|parts|]|)
    ensures AllPlaced(v0, v', curs, parts + [p]) && Flat(parts + [p]) == Flat(parts) + p
  {
    assert (parts + [p])[..|parts|] == parts;
  }

  /** The buffers of the host ring and of all transmit rings. */
  ghost function Everything(host: seq<Slot>, rings: seq<seq<Slot>>): multiset<nat> {
    Bufs(host) + Sum(rings)
  }

  lemma EverythingKept(h: seq<Slot>, h': seq<Slot>, v: seq<seq<Slot>>, v': seq<seq<Slot>>, k: nat)
    requires |v| == |v'| && k < |v| && Bufs(h') + Bufs(v'[k]) == Bufs(h) + Bufs(v[k])
    requires forall i {:trigger v'[i]} :: 0 <= i < |v| && i != k ==> v'[i] == v[i]
    ensures Everything(h', v') == Everything(h, v)
  {
    assert v' == v[k := v'[k]];
    SumSet(v, k, v'[k]);
    Cancel2(Bufs(h), Bufs(h'), Sum(v), Sum(v'), Bufs(v[k]), Bufs(v'[k]));
  }

  lemma Cancel2(h: multiset<nat>, h': multiset<nat>, s: multiset<nat>, s': multiset<nat>, x: multiset<nat>, y: multiset<nat>)
    requires h' + y == h + x && s' + x == s + y
    ensures h' + s' == h + s
  {
    forall n ensures (h' + s')[n] == (h + s)[n] {
      assert (h' + y)[n] == (h + x)[n] && (s' + x)[n] == (s + y)[n];
    }
  }

  /** The body of the outer loop: one transmit ring. */
  method ForwardToRing(host: array<Slot>, rxcur: nat, head: nat, tx: UserRing, all: bool,
                       ghost rings: seq<UserRing>, ghost i: nat)
    returns (rxcur': nat, k: nat, ghost p: seq<Slot>)
    requires Apart(rings) && AllValid(rings) && i < |rings| && tx == rings[i] && host !in Arrays(rings)
    requires rxcur < host.Length && head < host.Length && (rxcur == head || Done(rings, 0, i))
    modifies host, tx`cur, tx.slots
    ensures AllValid(rings) == true && rxcur' < host.Length && (rxcur' == head || Done(rings, 0, i + 1) == true)
    ensures Dist(rxcur, rxcur', host.Length) <= Dist(rxcur, head, host.Length)
    ensures Beyond(old(host[..]), host[..], rxcur, Dist(rxcur, rxcur', host.Length), host.Length) == true
    ensures Swept(old(host[..]), host[..], rxcur, Dist(rxcur, rxcur', host.Length), host.Length, all) == true
    ensures p == Picked(old(host[..]), rxcur, Dist(rxcur, rxcur', host.Length), host.Length, all) && k == |p|
    ensures forall j {:trigger Each(rings)[j]} :: 0 <= j < |rings| && j != i ==> Each(rings)[j] == old(Each(rings))[j]
    ensures Placed(old(Each(rings))[i], Each(rings)[i], old(tx.cur), p, |old(Each(rings))[i]|) == true
    ensures forall j {:trigger rings[j]} :: 0 <= j < |rings| && j != i ==> rings[j].cur == old(rings[j].cur)
    ensures Everything(host[..], Each(rings)) == old(Everything(host[..], Each(rings)))
  {
    assert tx.slots in Arrays(rings);
    ghost var h, v := host[..], Each(rings);
    rxcur', k := ForwardTo(host, rxcur, head, tx, all);
    p := Picked(h, rxcur, Dist(rxcur, rxcur', host.Length), host.Length, all);
    assert forall j {:trigger rings[j]} :: 0 <= j < |rings| && j != i ==> rings[j].cur == old(rings[j].cur);
    ghost var v' := Each(rings);
    forall j | 0 <= j < |rings| && j != i ensures v'[j] == v[j] {
      assert rings[j].slots in Arrays(rings);
    }
    EverythingKept(h, host[..], v, v', i);
  }

  /** The wanted slots from hwcur to rxcur have gone to the first rings, in order. */
  ghost predicate Forwarding(h0: seq<Slot>, h: seq<Slot>, hwcur: nat, rxcur: nat, head: nat, n: nat, all: bool,
                             v0: seq<seq<Slot>>, v: seq<seq<Slot>>, curs: seq<nat>, parts: seq<seq<Slot>>)
  {
    && hwcur < n && rxcur < n && head < n && Dist(hwcur, rxcur, n) <= Dist(hwcur, head, n)
    && Beyond(h0, h, hwcur, Dist(hwcur, rxcur, n), n) && Swept(h0, h, hwcur, Dist(hwcur, rxcur, n), n, all)
    && Flat(parts) == Picked(h0, hwcur, Dist(hwcur, rxcur, n), n, all) && AllPlaced(v0, v, curs, parts)
  }

  lemma ForwardMore(h0: seq<Slot>, h: seq<Slot>, h': seq<Slot>, hwcur: nat, rxcur: nat, to: nat, head: nat, n: nat,
                    all: bool, v0: seq<seq<Slot>>, v: seq<seq<Slot>>, v': seq<seq<Slot>>, curs: seq<nat>,
                    parts: seq<seq<Slot>>, p: seq<Slot>)
    requires Forwarding(h0, h, hwcur, rxcur, head, n, all, v0, v, curs, parts) && |parts| < |v| == |v'|
    requires to < n && Dist(rxcur, to, n) <= Dist(rxcur, head, n) && Beyond(h, h', rxcur, Dist(rxcur, to, n), n)
    requires Swept(h, h', rxcur, Dist(rxcur, to, n), n, all)
    requires p == Picked(h, rxcur, Dist(rxcur, to, n), n, all)
    requires forall i {:trigger v'[i]} :: 0 <= i < |v| && i != |parts| ==> v'[i] == v[i]
    requires Placed(v[|parts|], v'[|parts|], curs[|parts|], p, |v[|parts|]|)
    ensures Forwarding(h0, h', hwcur, to, head, n, all, v0, v', curs, parts + [p])
    ensures |Flat(parts + [p])| == |Flat(parts)| + |p|
  {
    Stretch(h0, h, h', hwcur, rxcur, to, head, n, all);
    SweptOn(h0, h, h', hwcur, rxcur, Dist(hwcur, rxcur, n), Dist(rxcur, to, n), n, all);
    AllPlacedOne(v0, v, v', curs, parts, p);
  }

  /** The rings from i on have not been touched. */
  ghost predicate Untouched(rings: seq<UserRing>, curs: seq<nat>, i: nat)
    reads rings`cur
  {
    |curs| == |rings| && forall j {:trigger rings[j]} :: i <= j < |rings| ==> rings[j].cur == curs[j]
  }

  /** The first i transmit rings have been served, as far as there was something left; `bufs` are the buffers of all rings. */
  ghost predicate Sending(host: array<Slot>, rings: seq<UserRing>, i: nat, hwcur: nat, rxcur: nat, head: nat, all: bool,
                          h0: seq<Slot>, v0: seq<seq<Slot>>, curs: seq<nat>, parts: seq<seq<Slot>>, bufs: multiset<nat>)
    reads host, rings, Arrays(rings)
  {
    && AllValid(rings) && rxcur < host.Length && (rxcur == head || Done(rings, 0, i))
    && Forwarding(h0, host[..], hwcur, rxcur, head, host.Length, all, v0, Each(rings), curs, parts)
    && |parts| == i && Untouched(rings, curs, i) && Everything(host[..], Each(rings)) == bufs
  }

  /** One transmit ring of netmap_sw_to_nic. */
  method ForwardNextRing(host: array<Slot>, hwcur: nat, rxcur: nat, head: nat, tx: UserRing, all: bool,
                         ghost rings: seq<UserRing>, ghost i: nat, ghost h0: seq<Slot>, ghost v0: seq<seq<Slot>>,
                         ghost curs: seq<nat>, ghost parts: seq<seq<Slot>>, ghost bufs: multiset<nat>)
    returns (to: nat, k: nat, ghost parts': seq<seq<Slot>>)
    requires Apart(rings) && i < |rings| && tx == rings[i] && host !in Arrays(rings) && head < host.Length
    requires Sending(host, rings, i, hwcur, rxcur, head, all, h0, v0, curs, parts, bufs)
    modifies host, tx`cur, tx.slots
    ensures Sending(host, rings, i + 1, hwcur, to, head, all, h0, v0, curs, parts', bufs) == true
    ensures |Flat(parts')| == |Flat(parts)| + k
  {
    ghost var h1, v1, p := host[..], Each(rings), [];
    to, k, p := ForwardToRing(host, rxcur, head, tx, all, rings, i);
    ForwardMore(h0, h1, host[..], hwcur, rxcur, to, head, host.Length, all, v0, v1, Each(rings), curs, parts, p);
    parts' := parts + [p];
  }

  /** The outer loop. */
  method ForwardToAll(host: array<Slot>, hwcur: nat, head: nat, rings: seq<UserRing>, all: bool, ghost bufs: multiset<nat>)
    returns (sent: nat, rxcur: nat, ghost parts: seq<seq<Slot>>)
    requires Apart(rings) && AllValid(rings) && host !in Arrays(rings) && hwcur < host.Length && head < host.Length
    requires bufs == Everything(host[..], Each(rings))
    modifies host, rings, Arrays(rings)
    ensures Sending(host, rings, |rings|, hwcur, rxcur, head, all, old(host[..]), old(Each(rings)), old(Curs(rings)), parts, bufs) == true
    ensures sent == |Flat(parts)|
  {
    sent, rxcur, parts := 0, hwcur, [];
    ghost var h0, v0, curs := host[..], Each(rings), Curs(rings);
    for i := 0 to |rings|
      invariant Sending(host, rings, i, hwcur, rxcur, head, all, h0, v0, curs, parts, bufs) == true && sent == |Flat(parts)|
    {
      var k;
      rxcur, k, parts := ForwardNextRing(host, hwcur, rxcur, head, rings[i], all, rings, i, h0, v0, curs, parts, bufs);
      sent := sent + k;
    }
  }

  /** netmap_sw_to_nic: forward the wanted slots from hwcur to head, in order, until there are no more or all transmit
      rings are full. */
  method SwToNic(host: array<Slot>, hwcur: nat, head: nat, rings: seq<UserRing>, all: bool)
    returns (sent: nat, rxcur: nat, ghost parts: seq<seq<Slot>>)
    requires Apart(rings) && AllValid(rings) && host !in Arrays(rings) && hwcur < host.Length && head < host.Length
    modifies host, rings, Arrays(rings)
    ensures AllValid(rings) == true && rxcur < host.Length && (rxcur == head || Done(rings, 0, |rings|) == true)
    ensures Dist(hwcur, rxcur, host.Length) <= Dist(hwcur, head, host.Length)
    ensures Beyond(old(host[..]), host[..], hwcur, Dist(hwcur, rxcur, host.Length), host.Length) == true
    ensures Swept(old(host[..]), host[..], hwcur, Dist(hwcur, rxcur, host.Length), host.Length, all) == true
    ensures Flat(parts) == Picked(old(host[..]), hwcur, Dist(hwcur, rxcur, host.Length), host.Length, all)
    ensures sent == |Flat(parts)| && |parts| == |rings|
    ensures AllPlaced(old(Each(rings)), Each(rings), old(Curs(rings)), parts) == true
    ensures Everything(host[..], Each(rings)) == old(Everything(host[..], Each(rings)))
  {
    sent, rxcur, parts := ForwardToAll(host, hwcur, head, rings, all, Everything(host[..], Each(rings)));
  }
}
