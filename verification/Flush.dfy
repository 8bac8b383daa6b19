/** The two passes of nm_bdg_flush: packets of a batch are chained into one list per destination,
    and each destination then gets its own packets merged with the broadcast ones. */
module Flush {
  import opened Bytes
  import opened Learning

  const MAXPORTS: nat := 254             // NM_BDG_MAXPORTS
  const MAXRINGS: nat := 16              // NM_BDG_MAXRINGS
  const FT_NULL: nat := 1088             // NM_FT_NULL, above every index of the scratchpad
  const BRDQ: nat := MAXPORTS * MAXRINGS // the queue of broadcast packets
  const NOQ: nat := BRDQ + 1             // not a queue: a dropped packet, or not the first fragment of one

  /* ---- lists of packets: what the linked lists stand for ---- */

  /** The packets (named by the index of their first fragment) put on queue q, in arrival order. */
  function Members(dec: seq<nat>, q: nat): (r: seq<nat>)
    ensures forall k :: 0 <= k < |r| ==> r[k] < |dec| && dec[r[k]] == q
  {
    if dec == [] then []
    else
      var front := Members(dec[..|dec| - 1], q);
      if dec[|dec| - 1] == q then front + [|dec| - 1] else front
  }

  /** The packets for destination q: its own and those on the broadcast queue b, in arrival order. */
  function Addressed(dec: seq<nat>, q: nat, b: nat): (r: seq<nat>)
    ensures forall k :: 0 <= k < |r| ==> r[k] < |dec| && (dec[r[k]] == q || dec[r[k]] == b)
  {
    if dec == [] then []
    else
      var front := Addressed(dec[..|dec| - 1], q, b);
      if dec[|dec| - 1] == q || dec[|dec| - 1] == b then front + [|dec| - 1] else front
  }

  /** Exactly those, each once. */
  lemma {:induction false} AddressedExactly(dec: seq<nat>, q: nat, b: nat)
    ensures forall p: nat :: p in Addressed(dec, q, b) <==> p < |dec| && (dec[p] == q || dec[p] == b)
    ensures forall k, l :: 0 <= k < l < |Addressed(dec, q, b)| ==> Addressed(dec, q, b)[k] < Addressed(dec, q, b)[l]
  {
    if dec != [] {
      var front := dec[..|dec| - 1];
      AddressedExactly(front, q, b);
      assert dec == front + [dec[|dec| - 1]];
    }
  }

  predicate Within(frags: seq<nat>, ps: seq<nat>) {
    forall k :: 0 <= k < |ps| ==> ps[k] < |frags|
  }

  /** Slots taken by these packets. */
  function Slots(frags: seq<nat>, ps: seq<nat>): nat
    requires Within(frags, ps)
  {
    if ps == [] then 0 else Slots(frags, ps[..|ps| - 1]) + frags[ps[|ps| - 1]]
  }

  lemma SlotsAppend(frags: seq<nat>, ps: seq<nat>, p: nat)
    requires p < |frags| && Within(frags, ps)
    ensures Within(frags, ps + [p]) && Slots(frags, ps + [p]) == Slots(frags, ps) + frags[p]
  {
    assert (ps + [p])[..|ps|] == ps;
  }

  lemma {:induction false} SlotsFront(frags: seq<nat>, ps: seq<nat>)
    requires Within(frags, ps) && ps != []
    ensures Slots(frags, ps) == frags[ps[0]] + Slots(frags, ps[1..])
  {
    if |ps| > 1 {
      var front := ps[..|ps| - 1];
      SlotsFront(frags, front);
      assert front[1..] == ps[1..][..|ps| - 2];
    } else {
      assert ps[..0] == [] && ps[1..] == [];
    }
  }

  /** Pick the older packet of two lists. */
  function Merge(a: seq<nat>, b: seq<nat>): seq<nat> {
    if a == [] then b
    else if b == [] then a
    else if a[0] < b[0] then [a[0]] + Merge(a[1..], b)
    else [b[0]] + Merge(a, b[1..])
  }

  lemma MergeUni(a: seq<nat>, b: seq<nat>)
    requires a != [] && (b == [] || a[0] < b[0])
    ensures Merge(a, b) == [a[0]] + Merge(a[1..], b)
  {
    assert b == [] ==> a == [a[0]] + a[1..] && (a[1..] == [] ==> Merge(a[1..], b) == []);
  }

  lemma MergeBrd(a: seq<nat>, b: seq<nat>)
    requires b != [] && (a == [] || b[0] <= a[0])
    ensures Merge(a, b) == [b[0]] + Merge(a, b[1..])
  {
    assert a == [] ==> b == [b[0]] + b[1..];
  }

  lemma {:induction false} MergeAppend(a: seq<nat>, b: seq<nat>, x: nat)
    requires (forall k :: 0 <= k < |a| ==> a[k] < x) && (forall k :: 0 <= k < |b| ==> b[k] < x)
    ensures Merge(a + [x], b) == Merge(a, b) + [x] && Merge(a, b + [x]) == Merge(a, b) + [x]
  {
    if a == [] {
      MergeLast(b, x);
      assert a + [x] == [x];
    } else if b == [] {
      MergeLast(a, x);
      assert b + [x] == [x];
    } else if a[0] < b[0] {
      MergeAppend(a[1..], b, x);
      assert (a + [x])[1..] == a[1..] + [x];
    } else {
      MergeAppend(a, b[1..], x);
      assert (b + [x])[1..] == b[1..] + [x];
    }
  }

  lemma {:induction false} MergeLast(b: seq<nat>, x: nat)
    requires forall k :: 0 <= k < |b| ==> b[k] < x
    ensures Merge([x], b) == b + [x] && Merge(b, [x]) == b + [x]
  {
    if b != [] {
      MergeLast(b[1..], x);
      assert b == [b[0]] + b[1..];
    }
  }

  /** Merging the two lists of a destination gives its packets in arrival order. */
  lemma {:induction false} MergeIsAddressed(dec: seq<nat>, q: nat, b: nat)
    requires q != b
    ensures Merge(Members(dec, q), Members(dec, b)) == Addressed(dec, q, b)
  {
    if dec != [] {
      var front := dec[..|dec| - 1];
      MergeIsAddressed(front, q, b);
      MergeAppend(Members(front, q), Members(front, b), |dec| - 1);
    }
  }

  /** Deliver packets in order until one does not fit. */
  function Fitting(frags: seq<nat>, ps: seq<nat>, room: nat): (r: seq<nat>)
    requires Within(frags, ps)
    ensures r <= ps
  {
    if ps == [] || room < frags[ps[0]] then []
    else [ps[0]] + Fitting(frags, ps[1..], room - frags[ps[0]])
  }

  /** This is the longest prefix that fits. */
  lemma {:induction false} FittingIsLongest(frags: seq<nat>, ps: seq<nat>, room: nat, k: nat)
    requires Within(frags, ps) && k <= |ps|
    ensures Slots(frags, ps[..k]) <= room <==> k <= |Fitting(frags, ps, room)|
  {
    if k == 0 {
      assert ps[..0] == [];
    } else {
      SlotsFront(frags, ps[..k]);
      assert ps[..k][1..] == ps[1..][..k - 1] && ps[..k][0] == ps[0];
      if frags[ps[0]] <= room {
        FittingIsLongest(frags, ps[1..], room - frags[ps[0]], k - 1);
      }
    }
  }

  lemma SlotsMore(frags: seq<nat>, mq: seq<nat>, mb: seq<nat>, both: seq<nat>, p: nat, isq: bool, isb: bool)
    requires p < |frags| && Within(frags, mq) && Within(frags, mb) && Within(frags, both) && !(isq && isb)
    requires Slots(frags, both) == Slots(frags, mq) + Slots(frags, mb)
    ensures Within(frags, both + [p]) && Within(frags, mq + [p]) && Within(frags, mb + [p])
    ensures Slots(frags, if isq || isb then both + [p] else both)
            == Slots(frags, if isq then mq + [p] else mq) + Slots(frags, if isb then mb + [p] else mb)
  {
    SlotsAppend(frags, mq, p);
    SlotsAppend(frags, mb, p);
    SlotsAppend(frags, both, p);
  }

  /** The last decision adds to one list at most. */
  lemma LastDecision(dec: seq<nat>, q: nat, b: nat) returns (mq: seq<nat>, mb: seq<nat>, both: seq<nat>)
    requires dec != [] && q != b
    ensures var front, p := dec[..|dec| - 1], |dec| - 1;
            && mq == Members(front, q) && mb == Members(front, b) && both == Addressed(front, q, b)
            && Members(dec, q) == (if dec[p] == q then mq + [p] else mq)
            && Members(dec, b) == (if dec[p] == b then mb + [p] else mb)
            && Addressed(dec, q, b) == (if dec[p] == q || dec[p] == b then both + [p] else both)
  {
    var front := dec[..|dec| - 1];
    mq, mb, both := Members(front, q), Members(front, b), Addressed(front, q, b);
  }

  lemma {:induction false} SlotsAddressed(frags: seq<nat>, dec: seq<nat>, q: nat, b: nat)
    requires |dec| <= |frags| && q != b
    ensures Slots(frags, Addressed(dec, q, b)) == Slots(frags, Members(dec, q)) + Slots(frags, Members(dec, b))
  {
    if dec != [] {
      var p := |dec| - 1;
      SlotsAddressed(frags, dec[..p], q, b);
      var mq, mb, both := LastDecision(dec, q, b);
      SlotsMore(frags, mq, mb, both, p, dec[p] == q, dec[p] == b);
    }
  }

  /* ---- what a destination receives ---- */

  /** A slot as the switch writes it: the bytes copied, the length, the flags. */
  datatype Sent = Sent(data: seq<byte>, len: nat, flags: nat)

  /** One fragment out of cnt.  Copies are in units of 64 bytes; one that would overflow a buffer is cut to 64. */
  function Copied(f: Frag, cnt: nat, last: bool, size: nat): Sent
    requires 64 <= |f.buf|
  {
    var copy := (f.len + 63) / 64 * 64;
    var flags := if last then cnt * 256 else cnt * 256 + NS_MOREFRAG;
    if size < copy || |f.buf| < copy then Sent(f.buf[..64], 64, flags)
    else Sent(f.buf[..copy], f.len, flags)
  }

  /** Packets are made of whole fragments of the batch. */
  ghost predicate Whole(ft: seq<Frag>, frags: seq<nat>, ps: seq<nat>) {
    && |frags| == |ft| && (forall i :: 0 <= i < |ft| ==> 64 <= |ft[i].buf|)
    && forall k :: 0 <= k < |ps| ==> ps[k] < |ft| && 1 <= frags[ps[k]] && ps[k] + frags[ps[k]] <= |ft|
  }

  /** The slots of the packet at p. */
  ghost function Packet(ft: seq<Frag>, p: nat, cnt: nat, size: nat): seq<Sent>
    requires p + cnt <= |ft| && forall i :: 0 <= i < |ft| ==> 64 <= |ft[i].buf|
  {
    seq(cnt, k requires 0 <= k < cnt => Copied(ft[p + k], cnt, k == cnt - 1, size))
  }

  /** The slots of some packets, back to back. */
  ghost function Rendered(ft: seq<Frag>, frags: seq<nat>, ps: seq<nat>, size: nat): seq<Sent>
    requires Whole(ft, frags, ps)
  {
    if ps == [] then [] else Packet(ft, ps[0], frags[ps[0]], size) + Rendered(ft, frags, ps[1..], size)
  }

  /** A fragment that fits both buffers arrives unchanged; of any other the first 64 bytes do.  The upper byte of the flags
      is the number of fragments, and the lower one announces another fragment. */
  lemma CopyIsFaithful(f: Frag, cnt: nat, last: bool, size: nat)
    requires 64 <= |f.buf|
    ensures var s := Copied(f, cnt, last, size);
            (s.len == f.len <= |s.data| && s.data[..s.len] == f.buf[..f.len])
            <==> ((f.len + 63) / 64 * 64 <= size && (f.len + 63) / 64 * 64 <= |f.buf|) || f.len == 64
    ensures var s := Copied(f, cnt, last, size);
            || (s.len == f.len <= |s.data| && s.data[..s.len] == f.buf[..f.len])
            || (s.len == 64 == |s.data| && s.data == f.buf[..64])
    ensures var s := Copied(f, cnt, last, size); s.flags / 256 == cnt && s.flags % 256 == if last then 0 else 32
  {
  }

  lemma {:induction false} MergeWhole(ft: seq<Frag>, frags: seq<nat>, a: seq<nat>, b: seq<nat>)
    requires Whole(ft, frags, a) && Whole(ft, frags, b)
    ensures Whole(ft, frags, Merge(a, b))
  {
    if a != [] && b != [] {
      if a[0] < b[0] { MergeWhole(ft, frags, a[1..], b); } else { MergeWhole(ft, frags, a, b[1..]); }
    }
  }

  /** What a lease of `room` slots gets of the packets ps. */
  ghost function Delivered(ft: seq<Frag>, frags: seq<nat>, ps: seq<nat>, room: nat, size: nat): seq<Sent>
    requires Whole(ft, frags, ps)
  {
    Rendered(ft, frags, Fitting(frags, ps, room), size)
  }

  lemma DeliverOne(ft: seq<Frag>, frags: seq<nat>, ps: seq<nat>, room: nat, size: nat)
    requires Whole(ft, frags, ps) && ps != []
    ensures Whole(ft, frags, ps[1..])
    ensures Delivered(ft, frags, ps, room, size) ==
            if room < frags[ps[0]] then []
            else Packet(ft, ps[0], frags[ps[0]], size) + Delivered(ft, frags, ps[1..], room - frags[ps[0]], size)
  {
    if frags[ps[0]] <= room {
      assert Fitting(frags, ps, room)[1..] == Fitting(frags, ps[1..], room - frags[ps[0]]);
    }
  }

  /** What is out already and what is to come. */
  ghost predicate ToDeliver(all: seq<Sent>, out: seq<Sent>, ft: seq<Frag>, frags: seq<nat>, ps: seq<nat>, room: nat,
                            size: nat)
  {
    Whole(ft, frags, ps) && all == out + Delivered(ft, frags, ps, room, size)
  }

  lemma DeliverNext(all: seq<Sent>, out: seq<Sent>, ft: seq<Frag>, frags: seq<nat>, ps: seq<nat>, room: nat, size: nat)
    requires ToDeliver(all, out, ft, frags, ps, room, size) && ps != []
    ensures Whole(ft, frags, [ps[0]])
    ensures if room < frags[ps[0]] then all == out
            else ToDeliver(all, out + Packet(ft, ps[0], frags[ps[0]], size), ft, frags, ps[1..], room - frags[ps[0]], size)
  {
    DeliverOne(ft, frags, ps, room, size);
  }

  lemma DeliverEnd(all: seq<Sent>, out: seq<Sent>, ft: seq<Frag>, frags: seq<nat>, ps: seq<nat>, room: nat, size: nat)
    requires ToDeliver(all, out, ft, frags, ps, room, size) && (ps == [] || room == 0)
    ensures all == out
  {
    if ps != [] { DeliverOne(ft, frags, ps, room, size); }
  }

  /** The copies fill exactly the slots of the packets. */
  lemma {:induction false} RenderedLength(ft: seq<Frag>, frags: seq<nat>, ps: seq<nat>, size: nat)
    requires Whole(ft, frags, ps)
    ensures |Rendered(ft, frags, ps, size)| == Slots(frags, ps)
  {
    if ps != [] {
      SlotsFront(frags, ps);
      RenderedLength(ft, frags, ps[1..], size);
    }
  }

  lemma RenderedFirst(ft: seq<Frag>, frags: seq<nat>, ps: seq<nat>, size: nat, k: nat)
    requires Whole(ft, frags, ps) && ps != [] && k < frags[ps[0]]
    ensures k < |Rendered(ft, frags, ps, size)|
    ensures Rendered(ft, frags, ps, size)[k] == Copied(ft[ps[0] + k], frags[ps[0]], k + 1 == frags[ps[0]], size)
  {
  }

  lemma RenderedLater(ft: seq<Frag>, frags: seq<nat>, ps: seq<nat>, size: nat, j: nat)
    requires Whole(ft, frags, ps) && ps != [] && j < |Rendered(ft, frags, ps[1..], size)|
    ensures frags[ps[0]] + j < |Rendered(ft, frags, ps, size)|
    ensures Rendered(ft, frags, ps, size)[frags[ps[0]] + j] == Rendered(ft, frags, ps[1..], size)[j]
  {
  }

  lemma SlotsBefore(frags: seq<nat>, ps: seq<nat>, m: nat)
    requires Within(frags, ps) && 0 < m <= |ps|
    ensures Within(frags, ps[..m]) && Within(frags, ps[1..][..m - 1])
    ensures Slots(frags, ps[..m]) == frags[ps[0]] + Slots(frags, ps[1..][..m - 1])
  {
    SlotsFront(frags, ps[..m]);
    assert ps[..m][1..] == ps[1..][..m - 1];
  }

  /** The fragments of a packet arrive in order, after the packets before it. */
  lemma {:induction false} RenderedAt(ft: seq<Frag>, frags: seq<nat>, ps: seq<nat>, size: nat, m: nat, k: nat)
    requires Whole(ft, frags, ps) && m < |ps| && k < frags[ps[m]]
    ensures Slots(frags, ps[..m]) + k < |Rendered(ft, frags, ps, size)|
    ensures Rendered(ft, frags, ps, size)[Slots(frags, ps[..m]) + k]
            == Copied(ft[ps[m] + k], frags[ps[m]], k + 1 == frags[ps[m]], size)
  {
    if m == 0 {
      assert ps[..0] == [];
      RenderedFirst(ft, frags, ps, size, k);
    } else {
      RenderedAt(ft, frags, ps[1..], size, m - 1, k);
      SlotsBefore(frags, ps, m);
      RenderedLater(ft, frags, ps, size, Slots(frags, ps[1..][..m - 1]) + k);
    }
  }

  /* ---- the per-packet switch ---- */

  /** The hash, the source port and its virtio-net header length, and the ports attached to the bridge. */
  datatype Source = Source(hash: Mac -> nat, hdrLen: nat, me: nat, active: seq<nat>)

  ghost predicate Ports(c: Source) {
    && c.hdrLen <= 12 && c.me < MAXPORTS && HashInRange(c.hash)
    && (forall j :: 0 <= j < |c.active| ==> c.active[j] < MAXPORTS)
    && forall j, k :: 0 <= j < k < |c.active| ==> c.active[j] != c.active[k]
  }

  /** The queue for a looked-up destination; the learning function always picks ring 0. */
  function Queue(c: Source, dst: nat): nat {
    if dst == NOPORT || MAXPORTS < dst then NOQ
    else if dst == BROADCAST then BRDQ
    else if dst == c.me || dst !in c.active then NOQ
    else dst * MAXRINGS
  }

  /** One packet: what is learned from it, and where it goes. */
  function Decision(c: Source, log: seq<Seen>, pkt: seq<Frag>): (seq<Seen>, nat)
    requires WellFormed(pkt, c.hdrLen)
  {
    if pkt[0].len < c.hdrLen then (log, NOQ)
    else (Learned(log, pkt, c.hdrLen, c.me), Queue(c, Destination(log, c.hash, pkt, c.hdrLen, c.me)))
  }

  /** From fragment i on, the batch is made of complete packets. */
  ghost predicate Batch(ft: seq<Frag>, frags: seq<nat>, hdrLen: nat, i: nat)
    requires |frags| == |ft|
    decreases |ft| - i
  {
    || i == |ft|
    || (i < |ft| && 1 <= frags[i] && i + frags[i] <= |ft| && WellFormed(ft[i..i + frags[i]], hdrLen)
        && Batch(ft, frags, hdrLen, i + frags[i]))
  }

  /** The packets from i on, one at a time: the final log, and a decision for each fragment. */
  ghost function Switched(c: Source, log: seq<Seen>, ft: seq<Frag>, frags: seq<nat>, i: nat): (seq<Seen>, seq<nat>)
    requires |frags| == |ft| && Batch(ft, frags, c.hdrLen, i)
    decreases |ft| - i
  {
    if i == |ft| then (log, [])
    else
      var (log', q) := Decision(c, log, ft[i..i + frags[i]]);
      var rest := Switched(c, log', ft, frags, i + frags[i]);
      (rest.0, Only(q, frags[i]) + rest.1)
  }

  ghost function After(dec: seq<nat>, r: (seq<Seen>, seq<nat>)): (seq<Seen>, seq<nat>) {
    (r.0, dec + r.1)
  }

  lemma SwitchedStep(c: Source, log: seq<Seen>, ft: seq<Frag>, frags: seq<nat>, i: nat, dec: seq<nat>)
    requires |frags| == |ft| && Batch(ft, frags, c.hdrLen, i) && i < |ft|
    ensures 1 <= frags[i] && i + frags[i] <= |ft| && WellFormed(ft[i..i + frags[i]], c.hdrLen)
    ensures Batch(ft, frags, c.hdrLen, i + frags[i])
    ensures var d := Decision(c, log, ft[i..i + frags[i]]);
            After(dec, Switched(c, log, ft, frags, i))
            == After(dec + Only(d.1, frags[i]), Switched(c, d.0, ft, frags, i + frags[i]))
  {
    var d := Decision(c, log, ft[i..i + frags[i]]);
    var rest := Switched(c, d.0, ft, frags, i + frags[i]).1;
    assert dec + (Only(d.1, frags[i]) + rest) == (dec + Only(d.1, frags[i])) + rest;
  }

  /** With the packets before i decided, those from i on complete the whole. */
  ghost predicate OnTheWay(all: (seq<Seen>, seq<nat>), dec: seq<nat>, c: Source, log: seq<Seen>, ft: seq<Frag>,
                           frags: seq<nat>, i: nat)
  {
    |frags| == |ft| && Batch(ft, frags, c.hdrLen, i) && all == After(dec, Switched(c, log, ft, frags, i))
  }

  lemma Begin(c: Source, log: seq<Seen>, ft: seq<Frag>, frags: seq<nat>, i: nat)
    requires |frags| == |ft| && Batch(ft, frags, c.hdrLen, i)
    ensures OnTheWay(Switched(c, log, ft, frags, i), [], c, log, ft, frags, i)
  {
    var r := Switched(c, log, ft, frags, i).1;
    assert [] + r == r;
  }

  lemma Proceed(all: (seq<Seen>, seq<nat>), dec: seq<nat>, c: Source, log: seq<Seen>, ft: seq<Frag>, frags: seq<nat>, i: nat)
    requires OnTheWay(all, dec, c, log, ft, frags, i) && i < |ft|
    ensures 1 <= frags[i] && i + frags[i] <= |ft| && WellFormed(ft[i..i + frags[i]], c.hdrLen)
    ensures var d := Decision(c, log, ft[i..i + frags[i]]);
            OnTheWay(all, dec + Only(d.1, frags[i]), c, d.0, ft, frags, i + frags[i])
  {
    SwitchedStep(c, log, ft, frags, i, dec);
  }

  lemma Arrive(all: (seq<Seen>, seq<nat>), dec: seq<nat>, c: Source, log: seq<Seen>, ft: seq<Frag>, frags: seq<nat>, i: nat)
    requires OnTheWay(all, dec, c, log, ft, frags, i) && |ft| <= i
    ensures all == (log, dec)
  {
    assert dec + [] == dec;
  }

  /** The first fragment of a packet stands for all. */
  function Only(q: nat, cnt: nat): (r: seq<nat>)
    requires 1 <= cnt
    ensures |r| == cnt
  {
    [q] + seq(cnt - 1, _ => NOQ)
  }

  /* ---- the linked lists ---- */

  /** The list from h to t through the links is ms. */
  ghost predicate Chain(h: nat, t: nat, next: seq<nat>, frags: seq<nat>, ms: seq<nat>) {
    && |next| == FT_NULL && |frags| <= FT_NULL && Within(frags, ms)
    && if ms == [] then h == FT_NULL else
         && h == ms[0] && t == ms[|ms| - 1]
         && forall k {:trigger next[ms[k]]} :: 0 <= k < |ms| ==> next[ms[k]] == Following(ms, k)
  }

  /** It takes l slots. */
  ghost predicate Counted(l: nat, frags: seq<nat>, ms: seq<nat>) {
    Within(frags, ms) && l == Slots(frags, ms)
  }

  function Following(ms: seq<nat>, k: nat): nat {
    if k + 1 < |ms| then ms[k + 1] else FT_NULL
  }

  /** ms are packets put on queue q, in arrival order. */
  ghost predicate Owned(ms: seq<nat>, dec: seq<nat>, q: nat) {
    && (forall k :: 0 <= k < |ms| ==> ms[k] < |dec| && dec[ms[k]] == q)
    && forall k, l :: 0 <= k < l < |ms| ==> ms[k] < ms[l]
  }

  ghost predicate Counts(len: seq<nat>, frags: seq<nat>, lists: seq<seq<nat>>) {
    |len| == |lists| == BRDQ + 1 && forall q {:trigger len[q]} :: 0 <= q <= BRDQ ==> Counted(len[q], frags, lists[q])
  }

  ghost predicate Chains(head: seq<nat>, tail: seq<nat>, next: seq<nat>, frags: seq<nat>, dec: seq<nat>,
                         lists: seq<seq<nat>>)
  {
    && |head| == |tail| == |lists| == BRDQ + 1 && |next| == FT_NULL && |dec| <= |frags| <= FT_NULL
    && (forall q {:trigger head[q]} :: 0 <= q <= BRDQ ==> Chain(head[q], tail[q], next, frags, lists[q]))
    && (forall q {:trigger lists[q]} :: 0 <= q <= BRDQ ==> Owned(lists[q], dec, q))
    && forall i :: |dec| <= i < |frags| ==> next[i] == FT_NULL
  }

  lemma CountMore(len: seq<nat>, frags: seq<nat>, lists: seq<seq<nat>>, q: nat, p: nat)
    requires Counts(len, frags, lists) && q <= BRDQ && p < |frags|
    ensures Counts(len[q := len[q] + frags[p]], frags, lists[q := lists[q] + [p]])
  {
    assert Counted(len[q], frags, lists[q]);
    SlotsAppend(frags, lists[q], p);
  }

  /** A list is not touched by a link from the tail of another one. */
  lemma OtherChain(h: nat, t: nat, next: seq<nat>, frags: seq<nat>, ms: seq<nat>, dec: seq<nat>, q: nat, x: nat, i: nat)
    requires Chain(h, t, next, frags, ms) && Owned(ms, dec, q) && x < |dec| <= |next| && dec[x] != q
    ensures Chain(h, t, next[x := i], frags, ms)
  {
  }

  /** One more packet on a list. */
  lemma OwnChain(h: nat, t: nat, next: seq<nat>, frags: seq<nat>, ms: seq<nat>, dec: seq<nat>, q: nat)
    requires Chain(h, t, next, frags, ms) && Owned(ms, dec, q) && |dec| < |frags| && next[|dec|] == FT_NULL
    ensures h == FT_NULL <==> ms == []
    ensures ms == [] ==> Chain(|dec|, |dec|, next, frags, ms + [|dec|])
    ensures ms != [] ==> t < |dec| && dec[t] == q && Chain(h, |dec|, next[t := |dec|], frags, ms + [|dec|])
    ensures Owned(ms + [|dec|], dec + [q], q)
  {
  }

  lemma AppendFirst(head: seq<nat>, tail: seq<nat>, next: seq<nat>, frags: seq<nat>, dec: seq<nat>,
                    lists: seq<seq<nat>>, q: nat)
    requires Chains(head, tail, next, frags, dec, lists) && q <= BRDQ && |dec| < |frags| && head[q] == FT_NULL
    ensures Chains(head[q := |dec|], tail[q := |dec|], next, frags, dec + [q], lists[q := lists[q] + [|dec|]])
  {
    OwnChain(head[q], tail[q], next, frags, lists[q], dec, q);
  }

  lemma AppendLater(head: seq<nat>, tail: seq<nat>, next: seq<nat>, frags: seq<nat>, dec: seq<nat>,
                    lists: seq<seq<nat>>, q: nat)
    requires Chains(head, tail, next, frags, dec, lists) && q <= BRDQ && |dec| < |frags| && head[q] != FT_NULL
    ensures tail[q] < |dec|
    ensures Chains(head, tail[q := |dec|], next[tail[q] := |dec|], frags, dec + [q], lists[q := lists[q] + [|dec|]])
  {
    OwnChain(head[q], tail[q], next, frags, lists[q], dec, q);
    forall p | 0 <= p <= BRDQ && p != q ensures Chain(head[p], tail[p], next[tail[q] := |dec|], frags, lists[p]) {
      OtherChain(head[p], tail[p], next, frags, lists[p], dec, p, tail[q], |dec|);
    }
  }

  ghost predicate AsDecided(lists: seq<seq<nat>>, dec: seq<nat>) {
    |lists| == BRDQ + 1 && forall q :: 0 <= q <= BRDQ ==> lists[q] == Members(dec, q)
  }

  lemma {:induction false} MembersDropped(dec: seq<nat>, more: seq<nat>, q: nat)
    requires forall k :: 0 <= k < |more| ==> more[k] != q
    ensures Members(dec + more, q) == Members(dec, q)
  {
    if more == [] {
      assert dec + more == dec;
    } else {
      assert (dec + more)[..|dec + more| - 1] == dec + more[..|more| - 1];
      MembersDropped(dec, more[..|more| - 1], q);
    }
  }

  /** A packet is on the list of its queue, if it has one, and on no other. */
  lemma MembersOnly(dec: seq<nat>, x: nat, cnt: nat, q: nat)
    requires 1 <= cnt && q < NOQ
    ensures Members(dec + Only(x, cnt), q) == if x == q then Members(dec, q) + [|dec|] else Members(dec, q)
  {
    assert dec + Only(x, cnt) == (dec + [x]) + Only(x, cnt)[1..];
    MembersDropped(dec + [x], Only(x, cnt)[1..], q);
    assert (dec + [x])[..|dec|] == dec;
  }

  lemma AsDecidedOnly(lists: seq<seq<nat>>, dec: seq<nat>, x: nat, cnt: nat)
    requires AsDecided(lists, dec) && x <= NOQ && 1 <= cnt
    ensures AsDecided(if x == NOQ then lists else lists[x := lists[x] + [|dec|]], dec + Only(x, cnt)) == true
  {
    forall q | 0 <= q <= BRDQ
      ensures Members(dec + Only(x, cnt), q) == if x == q then Members(dec, q) + [|dec|] else Members(dec, q)
    {
      MembersOnly(dec, x, cnt, q);
    }
  }

  lemma ChainsDropped(head: seq<nat>, tail: seq<nat>, next: seq<nat>, frags: seq<nat>, dec: seq<nat>,
                      lists: seq<seq<nat>>, more: seq<nat>)
    requires Chains(head, tail, next, frags, dec, lists) && |dec + more| <= |frags|
    ensures Chains(head, tail, next, frags, dec + more, lists)
  {
    forall q | 0 <= q <= BRDQ ensures Owned(lists[q], dec + more, q) {
      assert Owned(lists[q], dec, q);
    }
  }

  /** The inner loop over the fragments of a packet; the last one loses its flag at the end. */
  method CopyPacket(ft: seq<Frag>, p: nat, cnt: nat, size: nat) returns (out: seq<Sent>)
    requires 1 <= cnt && p + cnt <= |ft| && forall i :: 0 <= i < |ft| ==> 64 <= |ft[i].buf|
    ensures out == Packet(ft, p, cnt, size)
  {
    out := [];
    var k := 0;
    while k < cnt
      invariant 0 <= k <= cnt && |out| == k
      invariant forall m :: 0 <= m < k ==> out[m] == Copied(ft[p + m], cnt, false, size)
    {
      var f := ft[p + k];
      var copy, len := (f.len + 63) / 64 * 64, f.len;
      if size < copy || |f.buf| < copy {
        copy, len := 64, 64;
      }
      out := out + [Sent(f.buf[..copy], len, cnt * 256 + NS_MOREFRAG)];
      k := k + 1;
    }
    ghost var flagged := out;
    out := out[cnt - 1 := out[cnt - 1].(flags := cnt * 256)];
    forall m | 0 <= m < cnt ensures out[m] == Packet(ft, p, cnt, size)[m] {
      assert flagged[m] == Copied(ft[p + m], cnt, false, size);
      assert out[m] == Copied(ft[p + m], cnt, m == cnt - 1, size);
    }
  }

  /** x points to what is left, a, of the list ms. */
  ghost predicate Cursor(x: nat, a: seq<nat>, ms: seq<nat>) {
    |a| <= |ms| && a == ms[|ms| - |a|..] && x == First(a)
  }

  function First(a: seq<nat>): nat {
    if a == [] then FT_NULL else a[0]
  }

  /** Following a link. */
  lemma Step(h: nat, t: nat, next: seq<nat>, frags: seq<nat>, ms: seq<nat>, a: seq<nat>)
    requires Chain(h, t, next, frags, ms) && Cursor(First(a), a, ms) && a != []
    ensures a[0] < FT_NULL && Cursor(next[a[0]], a[1..], ms)
  {
    assert a[0] == ms[|ms| - |a|];
    assert next[ms[|ms| - |a|]] == Following(ms, |ms| - |a|);
  }

  /** No packets on any queue. */
  ghost function Nothing(): (r: seq<seq<nat>>)
    ensures |r| == BRDQ + 1 && AsDecided(r, [])
  {
    seq(BRDQ + 1, _ => [])
  }

  /** The packets on the queues lie within the batch. */
  ghost predicate Sized(frags: seq<nat>, dec: seq<nat>) {
    && |dec| <= |frags|
    && forall k :: 0 <= k < |dec| && dec[k] != NOQ ==> 1 <= frags[k] && k + frags[k] <= |frags|
  }

  ghost predicate Distinct(s: seq<nat>) {
    forall j, k :: 0 <= j < k < |s| ==> s[j] != s[k]
  }

  /** dsts are the queues to scan: each non-empty one, once. */
  ghost predicate Pending(dsts: seq<nat>, lists: seq<seq<nat>>) {
    && |lists| == BRDQ + 1 && Distinct(dsts)
    && forall q :: q in dsts <==> 0 <= q < BRDQ && lists[q] != []
  }

  lemma PendingAppend(dsts: seq<nat>, lists: seq<seq<nat>>, q: nat, i: nat)
    requires Pending(dsts, lists) && q <= BRDQ
    ensures Pending(if lists[q] == [] && q != BRDQ then dsts + [q] else dsts, lists[q := lists[q] + [i]]) == true
  {
    var lists' := lists[q := lists[q] + [i]];
    assert lists'[q] != [] && forall p :: 0 <= p <= BRDQ && p != q ==> lists'[p] == lists[p];
  }

  /** The queues hold what was decided, and dsts what is to be scanned. */
  ghost predicate Queued(frags: seq<nat>, dec: seq<nat>, lists: seq<seq<nat>>, dsts: seq<nat>) {
    AsDecided(lists, dec) && Sized(frags, dec) && Pending(dsts, lists)
  }

  lemma QueuedDrop(frags: seq<nat>, dec: seq<nat>, lists: seq<seq<nat>>, dsts: seq<nat>)
    requires Queued(frags, dec, lists, dsts) && |dec| < |frags|
    requires 1 <= frags[|dec|] && |dec| + frags[|dec|] <= |frags|
    ensures Queued(frags, dec + Only(NOQ, frags[|dec|]), lists, dsts)
  {
    AsDecidedOnly(lists, dec, NOQ, frags[|dec|]);
  }

  lemma QueuedAppend(frags: seq<nat>, dec: seq<nat>, lists: seq<seq<nat>>, dsts: seq<nat>, q: nat)
    returns (lists': seq<seq<nat>>)
    requires Queued(frags, dec, lists, dsts) && |dec| < |frags| && q <= BRDQ
    requires 1 <= frags[|dec|] && |dec| + frags[|dec|] <= |frags|
    ensures lists' == lists[q := lists[q] + [|dec|]]
    ensures Queued(frags, dec + Only(q, frags[|dec|]), lists',
                   if lists[q] == [] && q != BRDQ then dsts + [q] else dsts) == true
  {
    lists' := lists[q := lists[q] + [|dec|]];
    AsDecidedOnly(lists, dec, q, frags[|dec|]);
    SizedMore(frags, dec, q);
    PendingAppend(dsts, lists, q, |dec|);
  }

  lemma SizedMore(frags: seq<nat>, dec: seq<nat>, q: nat)
    requires Sized(frags, dec) && |dec| < |frags| && 1 <= frags[|dec|] && |dec| + frags[|dec|] <= |frags|
    ensures Sized(frags, dec + Only(q, frags[|dec|])) == true
  {
  }

  /** Each destination with packets is scanned once. */
  ghost predicate Scan(dsts: seq<nat>, lists: seq<seq<nat>>) {
    && |lists| == BRDQ + 1 && Distinct(dsts)
    && (forall i :: 0 <= i < |dsts| ==> dsts[i] < BRDQ && (lists[dsts[i]] != [] || lists[BRDQ] != []))
    && forall q :: 0 <= q < BRDQ && lists[q] != [] ==> q in dsts
  }

  /** Decisions name attached ports other than the source, or broadcast, or nothing. */
  ghost predicate Routed(c: Source, dec: seq<nat>) {
    forall k :: 0 <= k < |dec| ==> dec[k] == NOQ || dec[k] == BRDQ || (dec[k] < BRDQ && IsPort(c, c.active, dec[k]))
  }

  lemma QueueRouted(c: Source, dst: nat, cnt: nat)
    requires Ports(c) && 1 <= cnt
    ensures Routed(c, Only(Queue(c, dst), cnt))
  {
  }

  lemma {:induction false} SwitchedRouted(c: Source, log: seq<Seen>, ft: seq<Frag>, frags: seq<nat>, i: nat)
    requires |frags| == |ft| && Batch(ft, frags, c.hdrLen, i) && Ports(c)
    ensures Routed(c, Switched(c, log, ft, frags, i).1)
    decreases |ft| - i
  {
    if i != |ft| {
      var pkt := ft[i..i + frags[i]];
      SwitchedRouted(c, Decision(c, log, pkt).0, ft, frags, i + frags[i]);
      QueueRouted(c, Destination(log, c.hash, pkt, c.hdrLen, c.me), frags[i]);
    }
  }

  /* ---- where a packet goes, on its bytes ---- */

  /** A packet to address d is for queue q: group and forgotten addresses are for everyone, others for the port where they
      were last seen, unless it is the source or gone.  The zero address while its entry is clear is for port 0. */
  ghost predicate IsFor(c: Source, log: seq<Seen>, d: Mac, q: nat) {
    || d[0] % 2 == 1
    || if d == [0, 0, 0, 0, 0, 0] && LatestAt(log, c.hash, c.hash(d)) == [] then q == 0 && IsPort(c, c.active, q)
       else
         || Remembered(log, c.hash, d) == 254
         || (q == Remembered(log, c.hash, d) * 16 && IsPort(c, c.active, q))
  }

  /** The packet is long enough, and what is at the place of its destination address is for q. */
  ghost predicate Reaches(c: Source, log: seq<Seen>, pkt: seq<Frag>, q: nat)
    requires WellFormed(pkt, c.hdrLen)
  {
    if 14 + c.hdrLen <= pkt[0].len then IsFor(c, log, pkt[0].buf[c.hdrLen..c.hdrLen + 6], q)
    else pkt[0].len == c.hdrLen && pkt[0].flags / 32 % 2 == 1 && IsFor(c, log, pkt[1].buf[..6], q)
  }

  /** The packet at i is listed for exactly the queues that it is for. */
  ghost predicate Listed(c: Source, log: seq<Seen>, pkt: seq<Frag>, dec: seq<nat>, i: nat)
    requires WellFormed(pkt, c.hdrLen)
  {
    && (forall q: nat :: q < BRDQ ==> (i in Addressed(dec, q, BRDQ) <==> Reaches(c, log, pkt, q)))
    && forall q: nat, k :: q < BRDQ && i < k < i + |pkt| ==> k !in Addressed(dec, q, BRDQ)
  }

  /** So are all packets from i on, each with what is known by then. */
  ghost predicate Forwards(c: Source, log: seq<Seen>, log': seq<Seen>, ft: seq<Frag>, frags: seq<nat>, dec: seq<nat>,
                           i: nat)
    requires |frags| == |ft| == |dec| && Batch(ft, frags, c.hdrLen, i)
    decreases |ft| - i
  {
    if i == |ft| then log' == log
    else
      var pkt := ft[i..i + frags[i]];
      var next := Learned(log, pkt, c.hdrLen, c.me);
      && Listed(c, next, pkt, dec, i)
      && Forwards(c, next, log', ft, frags, dec, i + frags[i])
  }

  /** The queue of a packet is right. */
  lemma QueueIsRight(c: Source, d: Mac, s: Mac, log: seq<Seen>, log': seq<Seen>, dst: nat, q: nat)
    requires Ports(c) && AnsweredFor(d, s, c.me, c.hash, log, log', dst) && q < BRDQ
    ensures Queue(c, dst) == q || Queue(c, dst) == BRDQ <==> IsFor(c, log', d, q)
  {
  }

  /** The addresses are in the first fragment. */
  lemma FirstIsRight(c: Source, log: seq<Seen>, pkt: seq<Frag>, q: nat)
    requires Ports(c) && WellFormed(pkt, c.hdrLen) && q < BRDQ && 14 + c.hdrLen <= pkt[0].len
    ensures var d, log' := Queue(c, Destination(log, c.hash, pkt, c.hdrLen, c.me)), Learned(log, pkt, c.hdrLen, c.me);
            d == q || d == BRDQ <==> Reaches(c, log', pkt, q)
  {
    FrameIsAnswered(pkt, c.hdrLen, c.me, c.hash, log);
    var b := pkt[0].buf;
    QueueIsRight(c, b[c.hdrLen..c.hdrLen + 6], b[c.hdrLen + 6..c.hdrLen + 12], log, Learned(log, pkt, c.hdrLen, c.me),
                 Destination(log, c.hash, pkt, c.hdrLen, c.me), q);
  }

  /** They are in the second one. */
  lemma SecondIsRight(c: Source, log: seq<Seen>, pkt: seq<Frag>, q: nat)
    requires Ports(c) && WellFormed(pkt, c.hdrLen) && q < BRDQ && pkt[0].len == c.hdrLen && MoreFrag(pkt[0])
    ensures var d, log' := Queue(c, Destination(log, c.hash, pkt, c.hdrLen, c.me)), Learned(log, pkt, c.hdrLen, c.me);
            d == q || d == BRDQ <==> Reaches(c, log', pkt, q)
  {
    FrameIsAnswered(pkt, c.hdrLen, c.me, c.hash, log);
    QueueIsRight(c, pkt[1].buf[..6], pkt[1].buf[6..12], log, Learned(log, pkt, c.hdrLen, c.me),
                 Destination(log, c.hash, pkt, c.hdrLen, c.me), q);
  }

  lemma DecisionIsRight(c: Source, log: seq<Seen>, pkt: seq<Frag>, q: nat)
    requires Ports(c) && WellFormed(pkt, c.hdrLen) && q < BRDQ
    ensures var d := Decision(c, log, pkt);
            && d.0 == Learned(log, pkt, c.hdrLen, c.me)
            && (d.1 == q || d.1 == BRDQ <==> Reaches(c, d.0, pkt, q))
  {
    if 14 + c.hdrLen <= pkt[0].len {
      FirstIsRight(c, log, pkt, q);
    } else if pkt[0].len == c.hdrLen && MoreFrag(pkt[0]) {
      SecondIsRight(c, log, pkt, q);
    }
  }

  lemma ListedRight(c: Source, log: seq<Seen>, pkt: seq<Frag>, before: seq<nat>, rest: seq<nat>, dec: seq<nat>)
    requires Ports(c) && WellFormed(pkt, c.hdrLen) && dec == before + Only(Decision(c, log, pkt).1, |pkt|) + rest
    ensures Listed(c, Learned(log, pkt, c.hdrLen, c.me), pkt, dec, |before|)
  {
    var i, d := |before|, Decision(c, log, pkt).1;
    assert dec[i] == d && forall k :: i < k < i + |pkt| ==> dec[k] == NOQ;
    forall q: nat | q < BRDQ
      ensures i in Addressed(dec, q, BRDQ) <==> Reaches(c, Learned(log, pkt, c.hdrLen, c.me), pkt, q)
      ensures forall k :: i < k < i + |pkt| ==> k !in Addressed(dec, q, BRDQ)
    {
      AddressedExactly(dec, q, BRDQ);
      DecisionIsRight(c, log, pkt, q);
    }
  }

  /** The switch forwards every packet to those it is for, and to no other. */
  lemma {:induction false} SwitchForwards(c: Source, log: seq<Seen>, ft: seq<Frag>, frags: seq<nat>, i: nat, before: seq<nat>,
                                          all: (seq<Seen>, seq<nat>))
    requires OnTheWay(all, before, c, log, ft, frags, i) && Ports(c) && |before| == i
    ensures |all.1| == |ft| && Forwards(c, log, all.0, ft, frags, all.1, i)
    decreases |ft| - i
  {
    if i == |ft| {
      Arrive(all, before, c, log, ft, frags, i);
    } else {
      var pkt, next := ft[i..i + frags[i]], i + frags[i];
      var d := Decision(c, log, pkt);
      Proceed(all, before, c, log, ft, frags, i);
      SwitchForwards(c, d.0, ft, frags, next, before + Only(d.1, frags[i]), all);
      ListedRight(c, log, pkt, before, Switched(c, d.0, ft, frags, next).1, all.1);
    }
  }

  /** The queues to scan are those of the other ports that have something to receive. */
  lemma ScanIsAddressed(c: Source, dsts: seq<nat>, dec: seq<nat>, lists: seq<seq<nat>>)
    requires Ports(c) && Routed(c, dec) && AsDecided(lists, dec) && Distinct(dsts)
    requires forall q: nat :: q in dsts <==>
               (q < BRDQ && lists[q] != []) || (lists[BRDQ] != [] && IsPort(c, c.active, q))
    ensures Scan(dsts, lists)
    ensures forall q: nat :: q in dsts <==> IsPort(c, c.active, q) && Addressed(dec, q, BRDQ) != []
  {
    forall q: nat | q < BRDQ
      ensures Addressed(dec, q, BRDQ) != [] <==> lists[q] != [] || lists[BRDQ] != []
      ensures lists[q] != [] ==> IsPort(c, c.active, q)
    {
      MergeIsAddressed(dec, q, BRDQ);
      assert lists[q] == Members(dec, q) && lists[BRDQ] == Members(dec, BRDQ);
      if lists[q] != [] { assert dec[lists[q][0]] == q; }
    }
    forall q: nat | IsPort(c, c.active, q) ensures q < BRDQ {
      var j :| 0 <= j < |c.active| && c.active[j] == q / MAXRINGS;
    }
    assert forall i :: 0 <= i < |dsts| ==> dsts[i] in dsts;
  }

  /** The lists that are left after the first i destinations. */
  ghost predicate Left(left: seq<seq<nat>>, lists: seq<seq<nat>>, dsts: seq<nat>, i: nat) {
    && |left| == |lists| == BRDQ + 1 && Distinct(dsts) && i <= |dsts| && left[BRDQ] == lists[BRDQ]
    && (forall q :: 0 <= q < BRDQ && q in dsts[..i] ==> left[q] == [])
    && (forall q :: 0 <= q < BRDQ && q !in dsts[..i] ==> left[q] == lists[q])
  }

  lemma LeftOne(left: seq<seq<nat>>, lists: seq<seq<nat>>, dsts: seq<nat>, i: nat) returns (left': seq<seq<nat>>)
    requires Left(left, lists, dsts, i) && i < |dsts| && dsts[i] < BRDQ
    ensures left' == left[dsts[i] := []] && Left(left', lists, dsts, i + 1)
  {
    left' := left[dsts[i] := []];
    assert dsts[..i + 1] == dsts[..i] + [dsts[i]];
  }

  /** A destination: the free slots of its ring and the size of its buffers. */
  datatype Dest = Dest(room: nat, size: nat)

  ghost predicate Buffers(ft: seq<Frag>, frags: seq<nat>) {
    |frags| == |ft| && forall i :: 0 <= i < |ft| ==> 64 <= |ft[i].buf|
  }

  /** What destination q is to receive: in arrival order, the longest prefix of the packets for it that fits. */
  ghost function Received(ft: seq<Frag>, frags: seq<nat>, dec: seq<nat>, q: nat, b: nat, d: Dest): seq<Sent>
    requires Buffers(ft, frags) && Sized(frags, dec) && q != NOQ && b != NOQ
  {
    Delivered(ft, frags, Addressed(dec, q, b), d.room, d.size)
  }

  /** Each of these queues that accepts packets has received its own. */
  ghost predicate Served(out: map<nat, seq<Sent>>, queues: seq<nat>, dests: map<nat, Dest>, ft: seq<Frag>,
                         frags: seq<nat>, dec: seq<nat>)
  {
    && Buffers(ft, frags) && Sized(frags, dec)
    && (forall q: nat :: q in out <==> q in queues && q in dests)
    && (forall q: nat :: q in out ==> q < BRDQ && out[q] == Received(ft, frags, dec, q, BRDQ, dests[q]))
  }

  lemma ServedMore(out: map<nat, seq<Sent>>, queues: seq<nat>, dests: map<nat, Dest>, ft: seq<Frag>, frags: seq<nat>,
                   dec: seq<nat>, q: nat, copies: seq<Sent>)
    requires Served(out, queues, dests, ft, frags, dec) && q < BRDQ
    requires q in dests ==> copies == Received(ft, frags, dec, q, BRDQ, dests[q])
    ensures Served(if q in dests then out[q := copies] else out, queues + [q], dests, ft, frags, dec)
  {
  }

  /** Reserving no more than needed makes no difference. */
  lemma {:induction false} FittingCapped(frags: seq<nat>, ps: seq<nat>, room: nat)
    requires Within(frags, ps)
    ensures Slots(frags, ps) < room ==> Fitting(frags, ps, Slots(frags, ps)) == Fitting(frags, ps, room)
  {
    if ps != [] && Slots(frags, ps) < room {
      SlotsFront(frags, ps);
      FittingCapped(frags, ps[1..], room - frags[ps[0]]);
    }
  }

  lemma DeliveredCapped(ft: seq<Frag>, frags: seq<nat>, ps: seq<nat>, room: nat, size: nat, needed: nat)
    requires Whole(ft, frags, ps) && needed == Slots(frags, ps)
    ensures Delivered(ft, frags, ps, if needed < room then needed else room, size) == Delivered(ft, frags, ps, room, size)
  {
    FittingCapped(frags, ps, room);
  }

  /** What the two lists of a destination say together. */
  lemma BothLists(frags: seq<nat>, dec: seq<nat>, uni: seq<nat>, brd: seq<nat>, q: nat, b: nat)
    requires |dec| <= |frags| && q != b && uni == Members(dec, q) && brd == Members(dec, b)
    ensures Merge(uni, brd) == Addressed(dec, q, b) && Within(frags, uni) && Within(frags, brd)
    ensures Slots(frags, uni) + Slots(frags, brd) == Slots(frags, Addressed(dec, q, b))
  {
    MergeIsAddressed(dec, q, b);
    SlotsAddressed(frags, dec, q, b);
  }

  lemma AddressedWhole(ft: seq<Frag>, frags: seq<nat>, dec: seq<nat>, q: nat, b: nat)
    requires Buffers(ft, frags) && Sized(frags, dec) && q != NOQ && b != NOQ
    ensures Whole(ft, frags, Addressed(dec, q, b))
  {
  }

  lemma ReceivedByMerging(ft: seq<Frag>, frags: seq<nat>, dec: seq<nat>, uni: seq<nat>, brd: seq<nat>, q: nat, b: nat,
                          d: Dest, l: nat, lb: nat)
    requires Buffers(ft, frags) && Sized(frags, dec) && q != NOQ && b != NOQ && q != b
    requires uni == Members(dec, q) && brd == Members(dec, b) && Counted(l, frags, uni) && Counted(lb, frags, brd)
    ensures Whole(ft, frags, Merge(uni, brd))
    ensures Delivered(ft, frags, Merge(uni, brd), if l + lb < d.room then l + lb else d.room, d.size)
            == Received(ft, frags, dec, q, b, d)
  {
    BothLists(frags, dec, uni, brd, q, b);
    AddressedWhole(ft, frags, dec, q, b);
    DeliveredCapped(ft, frags, Addressed(dec, q, b), d.room, d.size, l + lb);
  }

  /** q is the queue of one of these ports, other than the source. */
  ghost predicate IsPort(c: Source, ports: seq<nat>, q: nat) {
    q % MAXRINGS == 0 && q / MAXRINGS in ports && q / MAXRINGS != c.me
  }

  /** The body of the first pass up to the choice of a queue. */
  method Place(b: Bridge, c: Source, pkt: seq<Frag>) returns (q: nat)
    requires b.Valid() && c.hash == b.hash && WellFormed(pkt, c.hdrLen) && Ports(c)
    modifies b, b.ht
    ensures b.Valid() && (b.log, q) == Decision(c, old(b.log), pkt) && q <= NOQ
  {
    if c.hdrLen > pkt[0].len { return NOQ; }
    var dst := b.Learn(pkt, c.hdrLen, c.me);
    if dst == NOPORT { return NOQ; }
    if dst > MAXPORTS { return NOQ; }
    if dst != BROADCAST {
      if dst == c.me || dst !in c.active { return NOQ; }
    }
    q := dst * MAXRINGS;
  }

  class Scratch {
    const next: array<nat> // ft_next
    const head: array<nat> // bq_head, bq_tail, bq_len
    const tail: array<nat>
    const len: array<nat>

    ghost predicate Shape()
    {
      && next.Length == FT_NULL && head.Length == tail.Length == len.Length == BRDQ + 1
      && next != head && next != tail && next != len && head != tail && head != len && tail != len
    }

    ghost predicate Lists(frags: seq<nat>, dec: seq<nat>, lists: seq<seq<nat>>)
      reads next, head, tail, len
    {
      Shape() && Chains(head[..], tail[..], next[..], frags, dec, lists) && Counts(len[..], frags, lists)
    }

    /** All queues are empty, as nm_alloc_bdgfwd makes them. */
    ghost predicate Empty()
      reads head, len
    {
      Shape() && forall q :: 0 <= q <= BRDQ ==> head[q] == FT_NULL && len[q] == 0
    }

    /** nm_alloc_bdgfwd */
    constructor ()
      ensures Empty() && fresh(next) && fresh(head) && fresh(tail) && fresh(len)
    {
      next := new nat[FT_NULL];
      head := new nat[BRDQ + 1](_ => FT_NULL);
      tail := new nat[BRDQ + 1](_ => FT_NULL);
      len := new nat[BRDQ + 1](_ => 0);
    }

    /** Put the packet at i, the next after those decided, on queue q. */
    method Append(q: nat, i: nat, frags: seq<nat>, ghost dec: seq<nat>, ghost lists: seq<seq<nat>>)
      returns (first: bool)
      requires q <= BRDQ && i == |dec| < |frags| && Lists(frags, dec, lists)
      modifies next, head, tail, len
      ensures Lists(frags, dec + [q], lists[q := lists[q] + [i]])
      ensures first <==> lists[q] == []
    {
      first := Link(q, i, frags, dec, lists);
      CountMore(len[..], frags, lists, q, i);
      len[q] := len[q] + frags[i];
      assert len[..] == old(len[..])[q := old(len[..])[q] + frags[i]];
    }

    /** The packet becomes the last one of its list. */
    method Link(q: nat, i: nat, ghost frags: seq<nat>, ghost dec: seq<nat>, ghost lists: seq<seq<nat>>)
      returns (first: bool)
      requires Shape() && q <= BRDQ && i == |dec| < |frags| && Chains(head[..], tail[..], next[..], frags, dec, lists)
      modifies next, head, tail
      ensures Chains(head[..], tail[..], next[..], frags, dec + [q], lists[q := lists[q] + [i]])
      ensures first <==> lists[q] == []
    {
      ghost var h, t, n := head[..], tail[..], next[..];
      first := head[q] == FT_NULL;
      if first {
        AppendFirst(h, t, n, frags, dec, lists, q);
        head[q], tail[q] := i, i;
        assert head[..] == h[q := i] && tail[..] == t[q := i] && next[..] == n;
      } else {
        AppendLater(h, t, n, frags, dec, lists, q);
        next[tail[q]] := i;
        tail[q] := i;
        assert head[..] == h && tail[..] == t[q := i] && next[..] == n[t[q] := i];
      }
    }

    /** The older of the two packets under the cursors. */
    method Pick(uni: nat, brd: nat, ghost q: nat, ghost frags: seq<nat>, ghost dec: seq<nat>,
                ghost lists: seq<seq<nat>>, ghost a: seq<nat>, ghost b: seq<nat>)
      returns (p: nat, uni': nat, brd': nat, ghost a': seq<nat>, ghost b': seq<nat>)
      requires Lists(frags, dec, lists) && q < BRDQ && (a != [] || b != [])
      requires Cursor(uni, a, lists[q]) && Cursor(brd, b, lists[BRDQ])
      ensures Cursor(uni', a', lists[q]) && Cursor(brd', b', lists[BRDQ])
      ensures Merge(a, b) == [p] + Merge(a', b')
    {
      p, uni', brd', a', b' := brd, uni, brd, a, b;
      if uni < brd {
        Step(head[q], tail[q], next[..], frags, lists[q], a);
        MergeUni(a, b);
        p, uni', a' := uni, next[uni], a[1..];
      } else {
        Step(head[BRDQ], tail[BRDQ], next[..], frags, lists[BRDQ], b);
        MergeBrd(a, b);
        brd', b' := next[brd], b[1..];
      }
    }

    /** What is left of the two lists of a destination. */
    ghost predicate Coming(uni: nat, brd: nat, a: seq<nat>, b: seq<nat>, q: nat, lists: seq<seq<nat>>)
      requires |lists| == BRDQ + 1 && q < BRDQ
    {
      (a != [] || b != []) && Cursor(uni, a, lists[q]) && Cursor(brd, b, lists[BRDQ])
    }

    /** The body of the copy loop: one packet, if it fits; `done` when it does not or when it was the last. */
    method CopyNext(uni: nat, brd: nat, howmany: nat, q: nat, ft: seq<Frag>, frags: seq<nat>, out: seq<Sent>, size: nat,
                    ghost dec: seq<nat>, ghost lists: seq<seq<nat>>, ghost a: seq<nat>, ghost b: seq<nat>, ghost all: seq<Sent>)
      returns (done: bool, uni': nat, brd': nat, howmany': nat, out': seq<Sent>, ghost a': seq<nat>, ghost b': seq<nat>)
      requires Lists(frags, dec, lists) && q < BRDQ && Coming(uni, brd, a, b, q, lists)
      requires ToDeliver(all, out, ft, frags, Merge(a, b), howmany, size)
      ensures done ==> all == out'
      ensures !done ==> && Coming(uni', brd', a', b', q, lists) && howmany' < howmany
                        && ToDeliver(all, out', ft, frags, Merge(a', b'), howmany', size)
    {
      ghost var ps := Merge(a, b);
      var p;
      p, uni', brd', a', b' := Pick(uni, brd, q, frags, dec, lists, a, b);
      DeliverNext(all, out, ft, frags, ps, howmany, size);
      assert ps[0] == p && ps[1..] == Merge(a', b');
      done, howmany', out' := true, howmany, out;
      var cnt := frags[p];
      if cnt > howmany { return; }
      var copy := CopyPacket(ft, p, cnt, size);
      out' := out + copy;
      howmany' := howmany - cnt;
      done := uni' == FT_NULL && brd' == FT_NULL;
      if done { DeliverEnd(all, out', ft, frags, Merge(a', b'), howmany', size); }
    }

    /** The copy loop: take packets from both lists, oldest first, while they fit. */
    method Deliver(q: nat, ft: seq<Frag>, frags: seq<nat>, room: nat, size: nat,
                   ghost dec: seq<nat>, ghost lists: seq<seq<nat>>) returns (out: seq<Sent>)
      requires Lists(frags, dec, lists) && q < BRDQ && (lists[q] != [] || lists[BRDQ] != [])
      requires Whole(ft, frags, Merge(lists[q], lists[BRDQ]))
      ensures out == Delivered(ft, frags, Merge(lists[q], lists[BRDQ]), room, size)
    {
      ghost var a, b := lists[q], lists[BRDQ];
      ghost var all := Delivered(ft, frags, Merge(a, b), room, size);
      var uni, brd, howmany := head[q], head[BRDQ], room;
      out := [];
      while howmany > 0
        invariant Coming(uni, brd, a, b, q, lists) == true
        invariant ToDeliver(all, out, ft, frags, Merge(a, b), howmany, size) == true
      {
        var done;
        done, uni, brd, howmany, out, a, b :=
          CopyNext(uni, brd, howmany, q, ft, frags, out, size, dec, lists, a, b, all);
        if done { return; }
      }
      DeliverEnd(all, out, ft, frags, Merge(a, b), howmany, size);
    }

    ghost predicate Ready(frags: seq<nat>, dec: seq<nat>, lists: seq<seq<nat>>, dsts: seq<nat>)
      reads next, head, tail, len
    {
      Lists(frags, dec, lists) && Queued(frags, dec, lists, dsts)
    }

    /** The rest of the body: put a packet with a destination on its queue. */
    method Enqueue(q: nat, i: nat, frags: seq<nat>, dsts: seq<nat>, ghost dec: seq<nat>, ghost lists: seq<seq<nat>>)
      returns (dsts': seq<nat>, ghost lists': seq<seq<nat>>)
      requires q <= BRDQ && i == |dec| < |frags| && Ready(frags, dec, lists, dsts)
      requires 1 <= frags[i] && i + frags[i] <= |frags|
      modifies next, head, tail, len
      ensures Ready(frags, dec + Only(q, frags[i]), lists', dsts')
    {
      var first := Append(q, i, frags, dec, lists);
      dsts' := dsts;
      if first && q != BRDQ {
        dsts' := dsts' + [q];
      }
      lists' := QueuedAppend(frags, dec, lists, dsts, q);
      ghost var more := Only(q, frags[i])[1..];
      ChainsDropped(head[..], tail[..], next[..], frags, dec + [q], lists', more);
      assert dec + [q] + more == dec + Only(q, frags[i]);
    }

    lemma ReadyAtFirst(frags: seq<nat>)
      requires Empty() && |frags| <= FT_NULL && forall i :: 0 <= i < |frags| ==> next[i] == FT_NULL
      ensures Ready(frags, [], Nothing(), [])
    {
    }

    /** The body of the first pass. */
    method Forward(b: Bridge, c: Source, pkt: seq<Frag>, i: nat, frags: seq<nat>, dsts: seq<nat>,
                   ghost dec: seq<nat>, ghost lists: seq<seq<nat>>)
      returns (dsts': seq<nat>, ghost dec': seq<nat>, ghost lists': seq<seq<nat>>)
      requires b.Valid() && c.hash == b.hash && WellFormed(pkt, c.hdrLen) && Ports(c)
      requires i == |dec| < |frags| && Ready(frags, dec, lists, dsts)
      requires 1 <= frags[i] && i + frags[i] <= |frags|
      modifies next, head, tail, len, b, b.ht
      ensures b.Valid() && Ready(frags, dec', lists', dsts')
      ensures var d := Decision(c, old(b.log), pkt); b.log == d.0 && dec' == dec + Only(d.1, frags[i])
    {
      var q := Place(b, c, pkt);
      dsts', lists' := dsts, lists;
      if q == NOQ {
        QueuedDrop(frags, dec, lists, dsts);
        ChainsDropped(head[..], tail[..], next[..], frags, dec, lists, Only(q, frags[i]));
      } else {
        dsts', lists' := Enqueue(q, i, frags, dsts, dec, lists);
      }
      dec' := dec + Only(q, frags[i]);
    }

    method ForwardNext(b: Bridge, c: Source, ft: seq<Frag>, frags: seq<nat>, i: nat, dsts: seq<nat>,
                       ghost dec: seq<nat>, ghost lists: seq<seq<nat>>, ghost all: (seq<Seen>, seq<nat>))
      returns (dsts': seq<nat>, ghost dec': seq<nat>, ghost lists': seq<seq<nat>>)
      requires b.Valid() && c.hash == b.hash && Ports(c) && i == |dec| < |ft|
      requires OnTheWay(all, dec, c, b.log, ft, frags, i) && Ready(frags, dec, lists, dsts)
      modifies next, head, tail, len, b, b.ht
      ensures 1 <= frags[i] && |dec'| == i + frags[i] <= |ft| && b.Valid()
      ensures OnTheWay(all, dec', c, b.log, ft, frags, i + frags[i]) && Ready(frags, dec', lists', dsts')
    {
      Proceed(all, dec, c, b.log, ft, frags, i);
      dsts', dec', lists' := Forward(b, c, ft[i..i + frags[i]], i, frags, dsts, dec, lists);
    }

    /** The first pass: find a destination for each packet, and list the destinations that have packets. */
    method FirstPass(b: Bridge, c: Source, ft: seq<Frag>, frags: seq<nat>)
      returns (dsts: seq<nat>, ghost dec: seq<nat>, ghost lists: seq<seq<nat>>)
      requires |frags| == |ft| && b.Valid() && Ports(c) && c.hash == b.hash && Batch(ft, frags, c.hdrLen, 0)
      requires Empty() && |ft| <= FT_NULL && forall i :: 0 <= i < |ft| ==> next[i] == FT_NULL
      modifies next, head, tail, len, b, b.ht
      ensures b.Valid() && (b.log, dec) == Switched(c, old(b.log), ft, frags, 0)
      ensures Ready(frags, dec, lists, dsts)
    {
      var i: nat := 0;
      ghost var all := Switched(c, b.log, ft, frags, i);
      dsts, dec, lists := [], [], Nothing();
      ReadyAtFirst(frags);
      Begin(c, b.log, ft, frags, i);
      while i < |ft|
        invariant i == |dec| <= |ft| && b.Valid()
        invariant Ready(frags, dec, lists, dsts)
        invariant OnTheWay(all, dec, c, b.log, ft, frags, i)
      {
        dsts, dec, lists := ForwardNext(b, c, ft, frags, i, dsts, dec, lists, all);
        i := i + frags[i];
      }
      Arrive(all, dec, c, b.log, ft, frags, i);
    }

    /** Broadcast traffic adds the other ports that have no packets of their own. */
    method AddBroadcast(c: Source, dsts: seq<nat>, ghost frags: seq<nat>, ghost dec: seq<nat>,
                        ghost lists: seq<seq<nat>>) returns (dsts': seq<nat>)
      requires Ports(c) && Lists(frags, dec, lists) && Pending(dsts, lists)
      ensures Distinct(dsts') && forall q: nat :: q in dsts' <==>
                (q < BRDQ && lists[q] != []) || (lists[BRDQ] != [] && IsPort(c, c.active, q))
    {
      dsts' := dsts;
      if head[BRDQ] == FT_NULL { return; }
      var j := 0;
      while j < |c.active|
        invariant 0 <= j <= |c.active| && Distinct(dsts')
        invariant forall q: nat :: q in dsts' <==> (q < BRDQ && lists[q] != []) || IsPort(c, c.active[..j], q)
      {
        var i := c.active[j];
        assert c.active[..j + 1] == c.active[..j] + [i];
        j := j + 1;
        if i == c.me { continue; }
        var q := i * MAXRINGS;
        if head[q] == FT_NULL {
          assert q !in dsts' && q / MAXRINGS == i;
          dsts' := dsts' + [q];
        }
      }
      assert c.active[..j] == c.active;
    }

    /** The clean-up at the end of a destination. */
    method Clear(q: nat, ghost frags: seq<nat>, ghost dec: seq<nat>, ghost lists: seq<seq<nat>>)
      requires q <= BRDQ && Lists(frags, dec, lists)
      modifies head, tail, len
      ensures Lists(frags, dec, lists[q := []])
    {
      ghost var h, t, l := head[..], tail[..], len[..];
      head[q], tail[q], len[q] := FT_NULL, FT_NULL, 0;
      assert head[..] == h[q := FT_NULL] && tail[..] == t[q := FT_NULL] && len[..] == l[q := 0];
    }

    /** One destination of the second pass: reserve what is needed or what there is, and copy. */
    method Serve(q: nat, d: Dest, ft: seq<Frag>, frags: seq<nat>, ghost dec: seq<nat>, ghost lists: seq<seq<nat>>)
      returns (out: seq<Sent>)
      requires Lists(frags, dec, lists) && Sized(frags, dec) && Buffers(ft, frags) && q < BRDQ
      requires lists[q] == Members(dec, q) && lists[BRDQ] == Members(dec, BRDQ)
      requires lists[q] != [] || lists[BRDQ] != []
      ensures out == Received(ft, frags, dec, q, BRDQ, d)
    {
      var needed := len[q] + len[BRDQ];
      var howmany := if needed < d.room then needed else d.room;
      ReceivedByMerging(ft, frags, dec, lists[q], lists[BRDQ], q, BRDQ, d, len[q], len[BRDQ]);
      out := Deliver(q, ft, frags, howmany, d.size, dec, lists);
    }

    /** The second pass: scan the destinations and clean up. */
    method SecondPass(dsts: seq<nat>, dests: map<nat, Dest>, ft: seq<Frag>, frags: seq<nat>,
                      ghost dec: seq<nat>, ghost lists: seq<seq<nat>>) returns (out: map<nat, seq<Sent>>)
      requires Lists(frags, dec, lists) && AsDecided(lists, dec) && Sized(frags, dec) && Buffers(ft, frags)
      requires Scan(dsts, lists)
      modifies head, tail, len
      ensures Empty() && Served(out, dsts, dests, ft, frags, dec)
    {
      ghost var left := lists;
      out := map[];
      var i := 0;
      while i < |dsts|
        invariant 0 <= i <= |dsts| && Lists(frags, dec, left) == true && Left(left, lists, dsts, i) == true
        invariant Served(out, dsts[..i], dests, ft, frags, dec) == true
      {
        var q := dsts[i];
        var copies := [];
        if q in dests {
          copies := Serve(q, dests[q], ft, frags, dec, left);
        }
        ServedMore(out, dsts[..i], dests, ft, frags, dec, q, copies);
        if q in dests {
          out := out[q := copies];
        }
        Clear(q, frags, dec, left);
        left := LeftOne(left, lists, dsts, i);
        assert dsts[..i + 1] == dsts[..i] + [q];
        i := i + 1;
      }
      assert dsts[..i] == dsts;
      Clear(BRDQ, frags, dec, left);
    }

    /** nm_bdg_flush: every port other than the source receives what the per-packet switch sends to it. */
    method Flush(b: Bridge, c: Source, ft: seq<Frag>, frags: seq<nat>, dests: map<nat, Dest>)
      returns (out: map<nat, seq<Sent>>, ghost dec: seq<nat>)
      requires b.Valid() && Ports(c) && c.hash == b.hash
      requires Buffers(ft, frags) && |ft| <= FT_NULL && Batch(ft, frags, c.hdrLen, 0)
      requires Empty() && forall i :: 0 <= i < |ft| ==> next[i] == FT_NULL
      modifies next, head, tail, len, b, b.ht
      ensures b.Valid() && (b.log, dec) == Switched(c, old(b.log), ft, frags, 0)
      ensures |dec| == |ft| && Forwards(c, old(b.log), b.log, ft, frags, dec, 0)
      ensures Empty() && Sized(frags, dec)
      ensures forall q: nat :: q in out <==> q in dests && IsPort(c, c.active, q) && Addressed(dec, q, BRDQ) != []
      ensures forall q: nat :: q in out ==> q < BRDQ && out[q] == Received(ft, frags, dec, q, BRDQ, dests[q])
    {
      var dsts;
      ghost var lists;
      dsts, dec, lists := FirstPass(b, c, ft, frags);
      dsts := AddBroadcast(c, dsts, frags, dec, lists);
      SwitchedRouted(c, old(b.log), ft, frags, 0);
      Begin(c, old(b.log), ft, frags, 0);
      SwitchForwards(c, old(b.log), ft, frags, 0, [], (b.log, dec));
      ScanIsAddressed(c, dsts, dec, lists);
      out := SecondPass(dsts, dests, ft, frags, dec, lists);
    }
  }
}
