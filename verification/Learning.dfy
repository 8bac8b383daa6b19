/** The learning table of a VALE switch (netmap_bdg_learning).

    The table has one entry per hash value, so it forgets; the log of all learned frames does not.
    The theorems say what a lookup in the table means in terms of the log. */
module Learning {
  import opened Bytes

  type Mac = m: seq<byte> | |m| == 6 witness [0, 0, 0, 0, 0, 0]

  const HASH_SIZE: nat := 1024   // NM_BDG_HASH
  const BROADCAST: nat := 254    // NM_BDG_BROADCAST
  const NOPORT: nat := 255       // NM_BDG_NOPORT
  const NS_MOREFRAG: nat := 0x20

  /** One entry of the forwarding scratchpad: the bytes of a buffer, the length in use, the slot flags. */
  datatype Frag = Frag(buf: seq<byte>, len: nat, flags: nat)

  /** struct nm_hash_ent */
  datatype Entry = Entry(mac: nat, ports: nat)

  /** A frame from `mac` arrived on `port`. */
  datatype Seen = Seen(mac: Mac, port: nat)

  /** The number that a little-endian load sees. */
  function Value(s: seq<byte>): nat {
    if s == [] then 0 else s[0] + 256 * Value(s[1..])
  }

  lemma {:induction false} ValueInjective(s: seq<byte>, t: seq<byte>)
    requires |s| == |t| && Value(s) == Value(t)
    ensures s == t
  {
    if s != [] {
      assert s[0] == t[0] && Value(s[1..]) == Value(t[1..]);
      ValueInjective(s[1..], t[1..]);
      assert s == [s[0]] + s[1..] && t == [t[0]] + t[1..];
    }
  }

  /** nm_bridge_rthash.  Masking with HASH_SIZE - 1 is written as a remainder. */
  function RtHash(m: Mac): (h: nat)
    ensures h < HASH_SIZE
  {
    var key: bv32 := 0x9e3779b9;
    var b := key + ((m[5] as bv32) << 8) + (m[4] as bv32);
    var a := key + ((m[3] as bv32) << 24) + ((m[2] as bv32) << 16) + ((m[1] as bv32) << 8) + (m[0] as bv32);
    var c: bv32 := 0;
    var a := (a - b - c) ^ (c >> 13);
    var b := (b - c - a) ^ (a << 8);
    var c := (c - a - b) ^ (b >> 13);
    var a := (a - b - c) ^ (c >> 12);
    var b := (b - c - a) ^ (a << 16);
    var c := (c - a - b) ^ (b >> 5);
    var a := (a - b - c) ^ (c >> 3);
    var b := (b - c - a) ^ (a << 10);
    var c := (c - a - b) ^ (b >> 15);
    (c as int) % HASH_SIZE
  }

  /** What is proved of any hash applies to the one of the switch. */
  lemma RtHashInRange()
    ensures HashInRange(RtHash)
  {
  }

  ghost predicate HashInRange(hash: Mac -> nat) {
    forall m: Mac :: hash(m) < HASH_SIZE
  }

  /* ---- what the log says ---- */

  /** The latest frame whose source address hashes to h. */
  function LatestAt(log: seq<Seen>, hash: Mac -> nat, h: nat): (r: seq<Seen>)
    ensures |r| <= 1
  {
    if log == [] then []
    else if hash(log[|log| - 1].mac) == h then [log[|log| - 1]]
    else LatestAt(log[..|log| - 1], hash, h)
  }

  /** The ports on which m was last seen: at most one. */
  function LastPort(log: seq<Seen>, m: Mac): (r: seq<nat>)
    ensures |r| <= 1
  {
    if log == [] then []
    else if log[|log| - 1].mac == m then [log[|log| - 1].port]
    else LastPort(log[..|log| - 1], m)
  }

  /** What the table answers for a unicast destination. */
  function Answer(log: seq<Seen>, hash: Mac -> nat, m: Mac): nat {
    var e := LatestAt(log, hash, hash(m));
    if e == [] then (if Value(m) == 0 then 0 else BROADCAST)
    else if e[0].mac == m then e[0].port else BROADCAST
  }

  /** A collision: since m was last seen, another address with the same hash was. */
  ghost predicate Evicted(log: seq<Seen>, hash: Mac -> nat, m: Mac) {
    exists i :: 0 <= i < |log| && hash(log[i].mac) == hash(m) && log[i].mac != m
             && forall j :: i < j < |log| ==> log[j].mac != m
  }

  /** What a switch with an unbounded memory would answer, except that it forgets evicted addresses. */
  ghost function Remembered(log: seq<Seen>, hash: Mac -> nat, m: Mac): nat {
    if LastPort(log, m) == [] || Evicted(log, hash, m) then BROADCAST else LastPort(log, m)[0]
  }

  /** A frame with another hash does not matter. */
  lemma EvictedEarlier(front: seq<Seen>, last: Seen, hash: Mac -> nat, m: Mac)
    requires hash(last.mac) != hash(m)
    ensures Evicted(front + [last], hash, m) <==> Evicted(front, hash, m)
  {
    var log := front + [last];
    if Evicted(front, hash, m) {
      var i :| 0 <= i < |front| && hash(front[i].mac) == hash(m) && front[i].mac != m
            && forall j :: i < j < |front| ==> front[j].mac != m;
      assert log[i] == front[i];
    }
    if Evicted(log, hash, m) {
      var i :| 0 <= i < |log| && hash(log[i].mac) == hash(m) && log[i].mac != m
            && forall j :: i < j < |log| ==> log[j].mac != m;
      assert front[i] == log[i] && forall j :: i < j < |front| ==> front[j] == log[j];
    }
  }

  /** The latest frame with the hash of m decides. */
  lemma EvictedNow(front: seq<Seen>, last: Seen, hash: Mac -> nat, m: Mac)
    requires hash(last.mac) == hash(m)
    ensures Evicted(front + [last], hash, m) <==> last.mac != m
  {
    var log := front + [last];
    assert log[|front|] == last;
  }

  /** The answer is exact, a collision apart: the port of the latest frame from m, or broadcast.  The one
      exception is the zero address while its entry is clear: it is answered with port 0. */
  lemma {:induction false} AnswerIsLatest(log: seq<Seen>, hash: Mac -> nat, m: Mac)
    ensures Answer(log, hash, m) == Remembered(log, hash, m)
            <==> Value(m) != 0 || LatestAt(log, hash, hash(m)) != []
  {
    if log != [] {
      var front, last := log[..|log| - 1], log[|log| - 1];
      assert log == front + [last];
      if hash(last.mac) == hash(m) {
        EvictedNow(front, last, hash, m);
      } else {
        EvictedEarlier(front, last, hash, m);
        AnswerIsLatest(front, hash, m);
      }
    }
  }

  /* ---- one frame ---- */

  predicate MoreFrag(f: Frag) {
    f.flags / NS_MOREFRAG % 2 == 1
  }

  /** Buffers hold at least a virtio-net header and an ethernet header, and a fragment
      flag announces another fragment. */
  predicate WellFormed(ft: seq<Frag>, hdrLen: nat) {
    && hdrLen <= 12 && 0 < |ft| && (forall f :: f in ft ==> 64 <= |f.buf|)
    && (MoreFrag(ft[0]) ==> 1 < |ft|)
  }

  /** Where the ethernet header starts, if the frame has a form that the switch accepts. */
  function EthernetHeader(ft: seq<Frag>, hdrLen: nat): (r: seq<byte>)
    requires WellFormed(ft, hdrLen)
    ensures r == [] || 14 <= |r|
  {
    if 14 + hdrLen <= ft[0].len then ft[0].buf[hdrLen..]
    else if ft[0].len == hdrLen && MoreFrag(ft[0]) then ft[1].buf
    else []
  }

  /** The first 14 bytes of the frame, taken from one fragment, if that has them. */
  function HeaderOfFrame(ft: seq<Frag>, hdrLen: nat): seq<byte>
    requires WellFormed(ft, hdrLen)
  {
    if 14 + hdrLen <= ft[0].len && hdrLen + 14 <= |ft[0].buf| then ft[0].buf[hdrLen..hdrLen + 14]
    else if ft[0].len == hdrLen && MoreFrag(ft[0]) && 14 <= ft[1].len then ft[1].buf[..14]
    else []
  }

  /** The switch tests the length of the first fragment only: the header that it reads lies within the frame exactly if
      it is in the first fragment, or the second one has as many bytes. */
  lemma HeaderWithinFrame(ft: seq<Frag>, hdrLen: nat)
    requires WellFormed(ft, hdrLen) && EthernetHeader(ft, hdrLen) != []
    ensures EthernetHeader(ft, hdrLen)[..14] == HeaderOfFrame(ft, hdrLen) <==> 14 + hdrLen <= ft[0].len || 14 <= ft[1].len
  {
  }

  /** A frame of 2 bytes after its virtio-net header, from which the switch learns an address. */
  lemma HeaderBeyondFrame(buf: seq<byte>, h: seq<byte>)
    requires |buf| == |h| == 64 && buf[6] % 2 == 0
    ensures var ft := [Frag(h, 12, NS_MOREFRAG), Frag(buf, 2, 0)];
            WellFormed(ft, 12) && Learned([], ft, 12, 3) == [Seen(buf[6..12], 3)] && HeaderOfFrame(ft, 12) == []
  {
  }

  /** What a switch without collisions in its memory does with one frame: it notes the source address of
      the frame unless that is a group address, and answers with a port, BROADCAST or NOPORT. */
  function Learned(log: seq<Seen>, ft: seq<Frag>, hdrLen: nat, port: nat): seq<Seen>
    requires WellFormed(ft, hdrLen)
  {
    var e := EthernetHeader(ft, hdrLen);
    if e != [] && e[6] % 2 == 0 then log + [Seen(e[6..12], port)] else log
  }

  function Destination(log: seq<Seen>, hash: Mac -> nat, ft: seq<Frag>, hdrLen: nat, port: nat): nat
    requires WellFormed(ft, hdrLen)
  {
    var e := EthernetHeader(ft, hdrLen);
    if e == [] then NOPORT
    else if e[0] % 2 == 0 then Answer(Learned(log, ft, hdrLen, port), hash, e[..6])
    else BROADCAST
  }

  /* ---- the same, on the bytes of the frame ---- */

  /** A frame from address s to address d came in on `port`: what is noted, and the port that is the answer. */
  ghost predicate AnsweredFor(d: Mac, s: Mac, port: nat, hash: Mac -> nat, log: seq<Seen>, log': seq<Seen>, dst: nat) {
    && log' == (if s[0] % 2 == 0 then log + [Seen(s, port)] else log)
    && dst == if d[0] % 2 == 1 then 254
              else if d == [0, 0, 0, 0, 0, 0] && LatestAt(log', hash, hash(d)) == [] then 0
              else Remembered(log', hash, d)
  }

  /** The addresses follow the virtio-net header, or start the second fragment if the first is just that header. */
  ghost predicate Answered(ft: seq<Frag>, hdrLen: nat, port: nat, hash: Mac -> nat, log: seq<Seen>, log': seq<Seen>,
                           dst: nat)
    requires WellFormed(ft, hdrLen)
  {
    if 14 + hdrLen <= ft[0].len then
      AnsweredFor(ft[0].buf[hdrLen..hdrLen + 6], ft[0].buf[hdrLen + 6..hdrLen + 12], port, hash, log, log', dst)
    else if ft[0].len == hdrLen && ft[0].flags / 32 % 2 == 1 then
      AnsweredFor(ft[1].buf[..6], ft[1].buf[6..12], port, hash, log, log', dst)
    else
      log' == log && dst == 255
  }

  lemma {:induction false} ValueIsZero(s: seq<byte>)
    ensures Value(s) == 0 <==> forall k :: 0 <= k < |s| ==> s[k] == 0
  {
    if s != [] {
      ValueIsZero(s[1..]);
      assert s == [s[0]] + s[1..];
    }
  }

  lemma AddressesAnswered(d: Mac, s: Mac, port: nat, hash: Mac -> nat, log: seq<Seen>)
    ensures var log' := if s[0] % 2 == 0 then log + [Seen(s, port)] else log;
            AnsweredFor(d, s, port, hash, log, log', if d[0] % 2 == 0 then Answer(log', hash, d) else BROADCAST)
  {
    var log' := if s[0] % 2 == 0 then log + [Seen(s, port)] else log;
    AnswerIsLatest(log', hash, d);
    ValueIsZero(d);
    assert (forall k :: 0 <= k < 6 ==> d[k] == 0) ==> d == [0, 0, 0, 0, 0, 0];
  }

  /** The source address is noted with the port, and the destination address is looked up. */
  lemma FrameIsAnswered(ft: seq<Frag>, hdrLen: nat, port: nat, hash: Mac -> nat, log: seq<Seen>)
    requires WellFormed(ft, hdrLen)
    ensures Answered(ft, hdrLen, port, hash, log, Learned(log, ft, hdrLen, port), Destination(log, hash, ft, hdrLen, port))
  {
    var e := EthernetHeader(ft, hdrLen);
    if e != [] {
      AddressesAnswered(e[..6], e[6..12], port, hash, log);
      var b := ft[0].buf;
      assert b[hdrLen..][..6] == b[hdrLen..hdrLen + 6] && b[hdrLen..][6..12] == b[hdrLen + 6..hdrLen + 12];
    }
  }

  class Bridge {
    const hash: Mac -> nat
    const ht: array<Entry>
    /** All frames learned since the table was cleared. */
    ghost var log: seq<Seen>

    ghost predicate Valid()
      reads this, ht
    {
      && HashInRange(hash) && ht.Length == HASH_SIZE
      && forall h :: 0 <= h < HASH_SIZE ==> ht[h] == Stored(LatestAt(log, hash, h))
    }

    static function Stored(e: seq<Seen>): Entry {
      if e == [] then Entry(0, 0) else Entry(Value(e[0].mac), e[0].port)
    }

    /** The table as nm_find_bridge clears it. */
    constructor (h: Mac -> nat)
      requires HashInRange(h)
      ensures Valid() && hash == h && log == [] && fresh(ht)
    {
      hash, log := h, [];
      ht := new Entry[HASH_SIZE](_ => Entry(0, 0));
    }

    /** The part after the tests of the layout: the frame starts with this header. */
    method LearnFrom(buf: seq<byte>, port: nat) returns (dst: nat)
      requires Valid() && 14 <= |buf|
      modifies this, ht
      ensures Valid() && log == if buf[6] % 2 == 0 then old(log) + [Seen(buf[6..12], port)] else old(log)
      ensures dst == if buf[0] % 2 == 0 then Answer(log, hash, buf[..6]) else BROADCAST
    {
      var d, s := buf[..6], buf[6..12];
      if buf[6] % 2 == 0 {
        ht[hash(s)] := Entry(Value(s), port);
        log := log + [Seen(s, port)];
      }
      dst := BROADCAST;
      if buf[0] % 2 == 0 {
        if ht[hash(d)].mac == Value(d) {
          var e := LatestAt(log, hash, hash(d));
          if e != [] { ValueInjective(e[0].mac, d); }
          dst := ht[hash(d)].ports;
        }
      }
    }

    /** netmap_bdg_learning */
    method Learn(ft: seq<Frag>, hdrLen: nat, port: nat) returns (dst: nat)
      requires Valid() && WellFormed(ft, hdrLen)
      modifies this, ht
      ensures Valid() && log == Learned(old(log), ft, hdrLen, port)
      ensures dst == Destination(old(log), hash, ft, hdrLen, port)
      ensures Answered(ft, hdrLen, port, hash, old(log), log, dst)
    {
      var buf := ft[0].buf;
      if 14 + hdrLen <= ft[0].len {
        buf := buf[hdrLen..];
      } else if ft[0].len == hdrLen && MoreFrag(ft[0]) {
        buf := ft[1].buf;
      } else {
        return NOPORT;
      }
      dst := LearnFrom(buf, port);
      FrameIsAnswered(ft, hdrLen, port, hash, old(log));
    }
  }
}
