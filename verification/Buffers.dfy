/** The buffers that slots point to, and their bytes. */
module Buffers {
  import opened KringModel

  ghost function Indices(slots: seq<Slot>): (r: seq<nat>)
    ensures |r| == |slots| && forall i {:trigger r[i]} :: 0 <= i < |r| ==> r[i] == slots[i].bufIdx
  {
    seq(|slots|, i requires 0 <= i < |slots| => slots[i].bufIdx)
  }

  /** The buffers of a ring. */
  ghost function Bufs(slots: seq<Slot>): multiset<nat> {
    multiset(Indices(slots))
  }

  /** Exchanging the buffers of two slots loses none and doubles none. */
  lemma ExchangeConserves(a: seq<Slot>, b: seq<Slot>, i: nat, j: nat, s: Slot, t: Slot)
    requires i < |a| && j < |b| && s.bufIdx == b[j].bufIdx && t.bufIdx == a[i].bufIdx
    ensures Bufs(a[i := s]) + Bufs(b[j := t]) == Bufs(a) + Bufs(b)
  {
    assert Indices(a[i := s]) == Indices(a)[i := s.bufIdx];
    assert Indices(b[j := t]) == Indices(b)[j := t.bufIdx];
  }

  /** Storing a slot puts one buffer in and takes one out. */
  lemma StoreBalances(a: seq<Slot>, i: nat, s: Slot)
    requires i < |a|
    ensures a[i].bufIdx in Bufs(a) && Bufs(a[i := s]) == Bufs(a) - multiset{a[i].bufIdx} + multiset{s.bufIdx}
  {
    assert Indices(a)[i] == a[i].bufIdx;
    assert Indices(a[i := s]) == Indices(a)[i := s.bufIdx];
  }

  lemma SameBufs(a: seq<Slot>, b: seq<Slot>)
    requires |a| == |b| && forall i {:trigger b[i]} :: 0 <= i < |a| ==> b[i].bufIdx == a[i].bufIdx
    ensures Bufs(b) == Bufs(a)
  {
    assert Indices(a) == Indices(b);
  }

  /** Each buffer is used once, and exists. */
  ghost predicate Owned(m: multiset<nat>, count: nat) {
    forall b {:trigger m[b]} :: m[b] <= 1 && (0 < m[b] ==> 0 <= b < count)
  }

  lemma {:induction false} Twice(s: seq<nat>, i: nat, j: nat)
    requires i < j < |s| && s[i] == s[j]
    ensures 2 <= multiset(s)[s[i]]
  {
    assert s == s[..j] + s[j..] && s[..j][i] == s[i] && s[j..][0] == s[j];
    assert s[i] in multiset(s[..j]) && s[j] in multiset(s[j..]);
  }

  /** Then two slots have two buffers. */
  lemma OwnedApart(slots: seq<Slot>, more: multiset<nat>, count: nat, i: nat, j: nat)
    requires Owned(Bufs(slots) + more, count) && i < |slots| && j < |slots| && i != j
    ensures slots[i].bufIdx < count && slots[i].bufIdx != slots[j].bufIdx
  {
    var m, b := Bufs(slots) + more, slots[i].bufIdx;
    assert Indices(slots)[i] == b && b in Bufs(slots);
    assert 0 < m[b];
    if slots[j].bufIdx == b {
      Twice(Indices(slots), if i < j then i else j, if i < j then j else i);
    }
  }

  /* ---- bytes ---- */

  /** NMB: the buffer of a slot; an index beyond the table stands for buffer 0. */
  function BufferOf(s: Slot, count: nat): (b: nat)
    ensures 0 < count ==> b < count
  {
    if s.bufIdx >= count then 0 else s.bufIdx
  }

  /** A buffer after data was copied to it. */
  function Over<T>(was: seq<T>, data: seq<T>): (r: seq<T>)
    requires |data| <= |was|
    ensures |r| == |was|
  {
    data + was[|data|..]
  }

  /** There are buffers, all of this size. */
  ghost predicate Uniform(mem: seq<seq<nat>>, size: nat) {
    0 < |mem| && forall b {:trigger mem[b]} :: 0 <= b < |mem| ==> |mem[b]| == size
  }

  /** These packets can be copied to these buffers. */
  ghost predicate Copies(mem: seq<seq<nat>>, bs: seq<nat>, ps: seq<seq<nat>>) {
    |bs| == |ps| && forall i {:trigger bs[i]} {:trigger ps[i]} :: 0 <= i < |bs| ==> bs[i] < |mem| && |ps[i]| <= |mem[bs[i]]|
  }

  /** The buffers after these packets were copied to buffers bs, one after the other. */
  ghost function CopiedTo(mem: seq<seq<nat>>, bs: seq<nat>, ps: seq<seq<nat>>): (r: seq<seq<nat>>)
    requires Copies(mem, bs, ps)
    ensures |r| == |mem| && forall b {:trigger r[b]} :: 0 <= b < |mem| ==> |r[b]| == |mem[b]|
    decreases |ps|
  {
    if ps == [] then mem
    else
      var k := |ps| - 1;
      var m := CopiedTo(mem, bs[..k], ps[..k]);
      m[bs[k] := Over(m[bs[k]], ps[k])]
  }

  lemma CopyMore(mem: seq<seq<nat>>, bs: seq<nat>, ps: seq<seq<nat>>, b: nat, p: seq<nat>)
    requires Copies(mem, bs, ps) && b < |mem| && |p| <= |mem[b]|
    ensures Copies(mem, bs + [b], ps + [p])
    ensures var m := CopiedTo(mem, bs, ps); CopiedTo(mem, bs + [b], ps + [p]) == m[b := Over(m[b], p)]
  {
    assert (bs + [b])[..|ps|] == bs && (ps + [p])[..|ps|] == ps;
  }

  /** Packet d is the last one that reaches byte i of buffer b. */
  ghost predicate Last(bs: seq<nat>, ps: seq<seq<nat>>, b: nat, i: nat, d: nat) {
    && d < |bs| == |ps| && bs[d] == b && i < |ps[d]|
    && forall e {:trigger bs[e]} :: d < e < |bs| && bs[e] == b ==> |ps[e]| <= i
  }

  /** No packet reaches byte i of buffer b. */
  ghost predicate Missed(bs: seq<nat>, ps: seq<seq<nat>>, b: nat, i: nat) {
    |bs| == |ps| && forall e {:trigger bs[e]} :: 0 <= e < |bs| && bs[e] == b ==> |ps[e]| <= i
  }

  /** A byte comes from the last packet that reaches it. */
  lemma {:induction false} ByteCopied(mem: seq<seq<nat>>, bs: seq<nat>, ps: seq<seq<nat>>, b: nat, i: nat) returns (d: nat)
    requires Copies(mem, bs, ps) && b < |mem| && i < |mem[b]|
    ensures Missed(bs, ps, b, i) || Last(bs, ps, b, i, d)
    ensures CopiedTo(mem, bs, ps)[b][i] == if Missed(bs, ps, b, i) then mem[b][i] else ps[d][i]
    decreases |ps|
  {
    d := 0;
    if ps != [] {
      var k := |ps| - 1;
      d := ByteCopied(mem, bs[..k], ps[..k], b, i);
      if bs[k] == b && i < |ps[k]| {
        d := k;
      }
    }
  }

  /** There is only one last packet. */
  lemma OneLast(bs: seq<nat>, ps: seq<seq<nat>>, b: nat, i: nat, d: nat, e: nat)
    requires Last(bs, ps, b, i, d) && (Last(bs, ps, b, i, e) || Missed(bs, ps, b, i))
    ensures Last(bs, ps, b, i, e) && e == d
  {
    assert bs[d] == b;
  }

  /** A buffer keeps its bytes exactly if each byte that is reached is the same in the last packet that reaches it. */
  lemma KeptExactly(mem: seq<seq<nat>>, bs: seq<nat>, ps: seq<seq<nat>>, b: nat)
    requires Copies(mem, bs, ps) && b < |mem|
    ensures CopiedTo(mem, bs, ps)[b] == mem[b]
            <==> forall d: nat, i: nat {:trigger Last(bs, ps, b, i, d)} :: Last(bs, ps, b, i, d) ==> ps[d][i] == mem[b][i]
  {
    var r := CopiedTo(mem, bs, ps)[b];
    forall d: nat, i: nat | Last(bs, ps, b, i, d) ensures i < |r| && r[i] == ps[d][i] {
      var e := ByteCopied(mem, bs, ps, b, i);
      OneLast(bs, ps, b, i, d, e);
    }
    if forall d: nat, i: nat {:trigger Last(bs, ps, b, i, d)} :: Last(bs, ps, b, i, d) ==> ps[d][i] == mem[b][i] {
      forall i | 0 <= i < |r| ensures r[i] == mem[b][i] {
        var d := ByteCopied(mem, bs, ps, b, i);
      }
    }
  }

  /** A packet of one byte for each buffer. */
  ghost function Single(k: nat, v: nat): (ps: seq<seq<nat>>)
    ensures |ps| == k && forall i {:trigger ps[i]} :: 0 <= i < k ==> ps[i] == [v]
  {
    seq(k, _ => [v])
  }

  /** Copying these packets leaves the bytes of buffer b as they are. */
  ghost predicate Keeps(mem: seq<seq<nat>>, bs: seq<nat>, ps: seq<seq<nat>>, b: nat) {
    Copies(mem, bs, ps) && b < |mem| ==> CopiedTo(mem, bs, ps)[b] == mem[b]
  }

  lemma KeptIf(mem: seq<seq<nat>>, bs: seq<nat>, ps: seq<seq<nat>>, b: nat)
    requires b !in bs
    ensures Keeps(mem, bs, ps, b)
  {
    if Copies(mem, bs, ps) && b < |mem| {
      KeptExactly(mem, bs, ps, b);
    }
  }

  lemma NotKept(mem: seq<seq<nat>>, bs: seq<nat>, size: nat, b: nat) returns (ps: seq<seq<nat>>)
    requires Uniform(mem, size) && 0 < size && forall i {:trigger bs[i]} :: 0 <= i < |bs| ==> bs[i] < |mem|
    requires b in bs
    ensures !Keeps(mem, bs, ps, b)
  {
    var v := if mem[b][0] == 0 then 1 else 0;
    ps := Single(|bs|, v);
    var d := ByteCopied(mem, bs, ps, b, 0);
  }

  /** A buffer keeps its bytes whatever the packets are, exactly if none goes to it. */
  lemma KeptWhatever(mem: seq<seq<nat>>, bs: seq<nat>, size: nat, b: nat)
    requires Uniform(mem, size) && 0 < size && forall i {:trigger bs[i]} :: 0 <= i < |bs| ==> bs[i] < |mem|
    ensures (forall ps {:trigger Keeps(mem, bs, ps, b)} :: Keeps(mem, bs, ps, b)) <==> b !in bs
  {
    if b in bs {
      var ps := NotKept(mem, bs, size, b);
    } else {
      forall ps ensures Keeps(mem, bs, ps, b) {
        KeptIf(mem, bs, ps, b);
      }
    }
  }

  /** After copying these packets, packet d can be read from its buffer. */
  ghost predicate Readable(mem: seq<seq<nat>>, bs: seq<nat>, ps: seq<seq<nat>>, d: nat) {
    Copies(mem, bs, ps) && d < |bs| ==> CopiedTo(mem, bs, ps)[bs[d]][..|ps[d]|] == ps[d]
  }

  lemma ShownIf(mem: seq<seq<nat>>, bs: seq<nat>, ps: seq<seq<nat>>, d: nat)
    requires d < |bs| && bs[d] !in bs[d + 1..]
    ensures Readable(mem, bs, ps, d)
  {
    if Copies(mem, bs, ps) {
      var b := bs[d];
      var r := CopiedTo(mem, bs, ps)[b];
      forall e | d < e < |bs| ensures bs[e] != b {
        assert bs[d + 1..][e - d - 1] == bs[e];
      }
      forall i | 0 <= i < |ps[d]| ensures r[i] == ps[d][i] {
        var e := ByteCopied(mem, bs, ps, b, i);
        assert Last(bs, ps, b, i, d);
        OneLast(bs, ps, b, i, d, e);
      }
    }
  }

  lemma NotShown(mem: seq<seq<nat>>, bs: seq<nat>, size: nat, d: nat, j: nat) returns (ps: seq<seq<nat>>)
    requires Uniform(mem, size) && 0 < size && forall i {:trigger bs[i]} :: 0 <= i < |bs| ==> bs[i] < |mem|
    requires d < j < |bs| && bs[j] == bs[d]
    ensures !Readable(mem, bs, ps, d)
  {
    ps := Single(|bs|, 1)[d := [0]];
    var e := ByteCopied(mem, bs, ps, bs[d], 0);
    assert CopiedTo(mem, bs, ps)[bs[d]][..1][0] == 1;
  }

  /** Packet d can be read from its buffer whatever the packets are, exactly if none goes there later. */
  lemma ShownWhatever(mem: seq<seq<nat>>, bs: seq<nat>, size: nat, d: nat)
    requires Uniform(mem, size) && 0 < size && d < |bs| && forall i {:trigger bs[i]} :: 0 <= i < |bs| ==> bs[i] < |mem|
    ensures (forall ps {:trigger Readable(mem, bs, ps, d)} :: Readable(mem, bs, ps, d)) <==> bs[d] !in bs[d + 1..]
  {
    if bs[d] in bs[d + 1..] {
      var j :| 0 <= j < |bs[d + 1..]| && bs[d + 1..][j] == bs[d];
      var ps := NotShown(mem, bs, size, d, d + 1 + j);
    } else {
      forall ps ensures Readable(mem, bs, ps, d) {
        ShownIf(mem, bs, ps, d);
      }
    }
  }
}
