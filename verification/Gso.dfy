/** Segmentation of GSO packets in the mismatch datapath of the VALE switch (bdg_mismatch_datapath).

    A packet larger than the maximum frame size of its destination (mfs) is cut into segments, each with a copy
    of the original headers in which a few fields are adjusted. */
module Gso {
  import opened Bytes
  import opened Checksum

  type word = x: int | 0 <= x < 0x1_0000

  /* ---- header fields, in network byte order ---- */

  function Get16(b: seq<byte>, i: nat): (v: nat)
    requires i + 2 <= |b|
    ensures v < M16
  {
    Word(b[i], b[i + 1])
  }

  function Get32(b: seq<byte>, i: nat): (v: nat)
    requires i + 4 <= |b|
    ensures v < M32
  {
    M16 * Get16(b, i) + Get16(b, i + 2)
  }

  /** The two differ only from lo to hi. */
  ghost predicate Differ(b: seq<byte>, r: seq<byte>, lo: nat, hi: nat) {
    |r| == |b| && forall j {:trigger r[j]} :: 0 <= j < |b| && !(lo <= j < hi) ==> r[j] == b[j]
  }

  ghost predicate Same(b: seq<byte>, r: seq<byte>, lo: nat, hi: nat) {
    |r| == |b| && forall j {:trigger r[j]} :: lo <= j < hi && j < |b| ==> r[j] == b[j]
  }

  /** r is b with v stored at i. */
  ghost predicate Holds16(b: seq<byte>, r: seq<byte>, i: nat, v: nat) {
    Differ(b, r, i, i + 2) && i + 2 <= |r| && Get16(r, i) == v
  }

  method Put16(buf: array<byte>, i: nat, v: nat)
    requires i + 2 <= buf.Length && v < M16
    modifies buf
    ensures Holds16(old(buf[..]), buf[..], i, v)
  {
    buf[i], buf[i + 1] := v / 256, v % 256;
  }

  method Put32(buf: array<byte>, i: nat, v: nat)
    requires i + 4 <= buf.Length && v < M32
    modifies buf
    ensures Differ(old(buf[..]), buf[..], i, i + 4) && Get32(buf[..], i) == v
  {
    Put16(buf, i, v / M16);
    Put16(buf, i + 2, v % M16);
  }

  /** TCP or UDP, and the length of the IP header: 20 for IPv4, 40 for IPv6. */
  datatype Kind = Kind(tcp: bool, iphlen: nat)

  predicate Known(k: Kind) {
    k.iphlen == 20 || k.iphlen == 40
  }

  /** The first byte of the TCP or UDP header. */
  function L4(k: Kind): nat {
    14 + k.iphlen
  }

  /** The least a TCP or UDP header takes. */
  function L4Min(k: Kind): nat {
    if k.tcp then 20 else 8
  }

  /** flags & ~(0x8 | 0x1): bits 4 to 7, and 1 and 2. */
  function Cleared(flags: byte): byte {
    flags / 16 * 16 + flags / 2 % 4 * 2
  }

  /** The flags f of a packet and g of one of its segments: only the last one keeps bits 0 and 3, and all keep the others. */
  ghost predicate FlagsSay(f: byte, g: byte, last: bool) {
    if last then g == f else g % 2 == 0 && g / 8 % 2 == 0 && g / 2 % 4 == f / 2 % 4 && g / 16 == f / 16
  }

  lemma ClearedSays(f: byte)
    ensures FlagsSay(f, Cleared(f), false)
  {
    EvenBits(f / 16, f / 2 % 4);
  }

  lemma EvenBits(a: nat, m: nat)
    requires m < 4
    ensures var g := 16 * a + 2 * m; g % 2 == 0 && g / 8 % 2 == 0 && g / 2 % 4 == m && g / 16 == a
  {
    assert (16 * a + 2 * m) / 8 == 2 * a;
  }

  /** A segment before its headers are fixed: its number, the payload before it, and whether it is the last. */
  datatype Raw = Raw(bytes: seq<byte>, idx: nat, sent: nat, last: bool)

  /* ---- what a fixed segment says about itself ---- */

  ghost predicate Ipv4Says(b: seq<byte>, r: seq<byte>, idx: nat) {
    && 34 <= |b| == |r| && Same(b, r, 20, 24)
    && Get16(r, 16) == (|b| - 14) % M16 && Get16(r, 18) == (Get16(b, 18) + idx) % M16
    && Ones(Words(r[14..34])) == 0xFFFF
  }

  ghost predicate Ipv6Says(b: seq<byte>, r: seq<byte>) {
    && 54 <= |b| == |r| && Same(b, r, 16, 18) && Same(b, r, 20, 54) && Get16(r, 18) == (|b| - 54) % M16
  }

  /** The checksum at i is that of all other bytes. */
  ghost predicate SumSays(r: seq<byte>, i: nat, sum: seq<byte> -> word) {
    i + 2 <= |r| && Get16(r, i) == sum(r[i := 0][i + 1 := 0])
  }

  ghost predicate TcpSays(b: seq<byte>, r: seq<byte>, o: nat, sent: nat, last: bool) {
    && o + 20 <= |b| == |r|
    && Get32(r, o + 4) == (Get32(b, o + 4) + sent) % M32 && FlagsSay(b[o + 13], r[o + 13], last)
    && Same(b, r, o, o + 4) && Same(b, r, o + 8, o + 13) && Same(b, r, o + 14, o + 16) && Same(b, r, o + 18, |b|)
  }

  ghost predicate UdpSays(b: seq<byte>, r: seq<byte>, o: nat) {
    o + 8 <= |b| == |r| && Get16(r, o + 4) == (|b| - o) % M16 && Same(b, r, o, o + 4) && Same(b, r, o + 8, |b|)
  }

  /** The fields of segment r, made from the raw segment, and all that was left alone. */
  ghost predicate Fixes(raw: Raw, r: seq<byte>, k: Kind, sum: seq<byte> -> word) {
    && |r| == |raw.bytes| && Same(raw.bytes, r, 0, 16)
    && (if k.iphlen == 20 then Ipv4Says(raw.bytes, r, raw.idx) && Same(raw.bytes, r, 26, 34)
        else Ipv6Says(raw.bytes, r))
    && (if k.tcp then TcpSays(raw.bytes, r, 14 + k.iphlen, raw.sent, raw.last) else UdpSays(raw.bytes, r, 14 + k.iphlen))
    && SumSays(r, 14 + k.iphlen + (if k.tcp then 16 else 6), sum)
  }

  /* ---- gso_fix_segment ---- */

  /** The words of b from lo to hi, with one at m set apart. */
  lemma WordsAround(b: seq<byte>, lo: nat, m: nat, hi: nat)
    requires lo <= m && m + 2 <= hi <= |b| && (m - lo) % 2 == 0
    ensures Words(b[lo..hi]) == Words(b[lo..m]) + Get16(b, m) + Words(b[m + 2..hi])
  {
    var word := [b[m], b[m + 1]];
    assert b[lo..hi] == b[lo..m] + (word + b[m + 2..hi]) && word[2..] == [];
    WordsAppend(b[lo..m], word + b[m + 2..hi]);
    WordsAppend(word, b[m + 2..hi]);
  }

  /** The checksum c that is stored at m makes the header from lo to hi check. */
  lemma HeaderChecks(b: seq<byte>, r: seq<byte>, lo: nat, m: nat, hi: nat, c: nat)
    requires lo <= m && m + 2 <= hi <= |b| && (m - lo) % 2 == 0
    requires Get16(b, m) == 0 && c == 0xFFFF - Ones(Words(b[lo..hi])) && Holds16(b, r, m, c)
    ensures Ones(Words(r[lo..hi])) == 0xFFFF
  {
    WordsReplaced(b, r, lo, m, hi, c);
    OwnChecksum(Words(b[lo..hi]));
  }

  lemma WordsReplaced(b: seq<byte>, r: seq<byte>, lo: nat, m: nat, hi: nat, c: nat)
    requires lo <= m && m + 2 <= hi <= |b| && (m - lo) % 2 == 0 && Get16(b, m) == 0 && Holds16(b, r, m, c)
    ensures Words(r[lo..hi]) == Words(b[lo..hi]) + c
  {
    WordsAround(b, lo, m, hi);
    WordsAround(r, lo, m, hi);
    assert r[lo..m] == b[lo..m] && r[m + 2..hi] == b[m + 2..hi];
  }

  /** A store leaves other fields alone. */
  lemma FieldKept(b: seq<byte>, r: seq<byte>, i: nat, v: nat, j: nat)
    requires Holds16(b, r, i, v) && j + 2 <= |b| && (j + 2 <= i || i + 2 <= j)
    ensures Get16(r, j) == Get16(b, j)
  {
  }

  lemma SameThrough(b: seq<byte>, c: seq<byte>, r: seq<byte>, i: nat, v: nat, lo: nat, hi: nat)
    requires Same(b, c, lo, hi) && Holds16(c, r, i, v) && (hi <= i || i + 2 <= lo)
    ensures Same(b, r, lo, hi)
  {
  }

  lemma DifferThrough(b: seq<byte>, c: seq<byte>, r: seq<byte>, i: nat, v: nat, lo: nat, hi: nat)
    requires Differ(b, c, lo, hi) && Holds16(c, r, i, v) && lo <= i && i + 2 <= hi
    ensures Differ(b, r, lo, hi)
  {
  }

  /** What the four stores into an IPv4 header leave there. */
  lemma Ipv4Fields(b: seq<byte>, b1: seq<byte>, b2: seq<byte>, b3: seq<byte>, r: seq<byte>, len: nat, id: nat, c: nat)
    requires 34 <= |b| && Holds16(b, b1, 16, len) && Holds16(b1, b2, 18, id)
    requires Holds16(b2, b3, 24, 0) && Holds16(b3, r, 24, c)
    ensures Differ(b, r, 16, 26) && Get16(b1, 18) == Get16(b, 18)
    ensures Get16(r, 16) == len && Get16(r, 18) == id && Same(b, r, 20, 24)
  {
    FieldKept(b, b1, 16, len, 18);
    FieldKept(b1, b2, 18, id, 16);
    FieldKept(b2, b3, 24, 0, 16);
    FieldKept(b3, r, 24, c, 16);
    FieldKept(b2, b3, 24, 0, 18);
    FieldKept(b3, r, 24, c, 18);
    Ipv4Rest(b, b1, b2, b3, r, len, id, c);
  }

  lemma Ipv4Rest(b: seq<byte>, b1: seq<byte>, b2: seq<byte>, b3: seq<byte>, r: seq<byte>, len: nat, id: nat, c: nat)
    requires 34 <= |b| && Holds16(b, b1, 16, len) && Holds16(b1, b2, 18, id)
    requires Holds16(b2, b3, 24, 0) && Holds16(b3, r, 24, c)
    ensures Differ(b, r, 16, 26) && Same(b, r, 20, 24)
  {
    DifferThrough(b, b, b1, 16, len, 16, 26);
    DifferThrough(b, b1, b2, 18, id, 16, 26);
    DifferThrough(b, b2, b3, 24, 0, 16, 26);
    DifferThrough(b, b3, r, 24, c, 16, 26);
    SameThrough(b, b, b1, 16, len, 20, 24);
    SameThrough(b, b1, b2, 18, id, 20, 24);
    SameThrough(b, b2, b3, 24, 0, 20, 24);
    SameThrough(b, b3, r, 24, c, 20, 24);
  }

  /** The IPv4 header: total length, identification and checksum. */
  method FixIpv4(buf: array<byte>, idx: nat)
    requires 34 <= buf.Length
    modifies buf
    ensures Ipv4Says(old(buf[..]), buf[..], idx) && Differ(old(buf[..]), buf[..], 16, 26)
  {
    ghost var b := buf[..];
    var len := (buf.Length - 14) % M16;
    Put16(buf, 16, len);
    ghost var b1 := buf[..];
    var id := (Get16(buf[..], 18) + idx) % M16;
    Put16(buf, 18, id);
    ghost var b2 := buf[..];
    Put16(buf, 24, 0);
    ghost var b3 := buf[..];
    var c := HeaderSum(buf[14..34]);
    Put16(buf, 24, c);
    Ipv4Fields(b, b1, b2, b3, buf[..], len, id, c);
    HeaderChecks(b3, buf[..], 14, 24, 34, c);
  }

  /** nm_csum_ipv4 in host byte order: the store of its result swaps the bytes back. */
  method HeaderSum(header: seq<byte>) returns (c: nat)
    requires |header| == 20
    ensures c == 0xFFFF - Ones(Words(header))
  {
    var stored := Ipv4(header);
    c := Swap(stored);
    OwnChecksum(Words(header));
  }

  /** The IPv6 header: payload length. */
  method FixIpv6(buf: array<byte>)
    requires 54 <= buf.Length
    modifies buf
    ensures Ipv6Says(old(buf[..]), buf[..]) && Differ(old(buf[..]), buf[..], 18, 20)
  {
    Put16(buf, 18, (buf.Length - 14 - 40) % M16);
  }

  /** The checksum field at i is cleared and computed. */
  method PutSum(buf: array<byte>, i: nat, sum: seq<byte> -> word)
    requires i + 2 <= buf.Length
    modifies buf
    ensures SumSays(buf[..], i, sum) && Differ(old(buf[..]), buf[..], i, i + 2)
  {
    Put16(buf, i, 0);
    ghost var b := buf[..];
    Put16(buf, i, sum(buf[..]));
    assert buf[..][i := 0][i + 1 := 0] == b;
  }

  /** The TCP header at o: sequence number, flags and checksum. */
  method FixTcp(buf: array<byte>, o: nat, sent: nat, last: bool, sum: seq<byte> -> word)
    requires o + 20 <= buf.Length
    modifies buf
    ensures TcpSays(old(buf[..]), buf[..], o, sent, last) && Differ(old(buf[..]), buf[..], o + 4, o + 18)
    ensures SumSays(buf[..], o + 16, sum)
  {
    Put32(buf, o + 4, (Get32(buf[..], o + 4) + sent) % M32);
    if !last {
      ClearedSays(buf[o + 13]);
      buf[o + 13] := Cleared(buf[o + 13]);
    }
    PutSum(buf, o + 16, sum);
  }

  /** The UDP header at o: length and checksum. */
  method FixUdp(buf: array<byte>, o: nat, sum: seq<byte> -> word)
    requires o + 8 <= buf.Length
    modifies buf
    ensures UdpSays(old(buf[..]), buf[..], o) && Differ(old(buf[..]), buf[..], o + 4, o + 8)
    ensures SumSays(buf[..], o + 6, sum)
  {
    Put16(buf, o + 4, (buf.Length - o) % M16);
    PutSum(buf, o + 6, sum);
  }

  /** The IP header is not changed by what comes later. */
  lemma AfterL4(b: seq<byte>, p: seq<byte>, r: seq<byte>, idx: nat, k: Kind)
    requires Known(k) && L4(k) <= |b| && Differ(b, p, 16, 26) && Differ(p, r, L4(k), |b|)
    requires if k.iphlen == 20 then Ipv4Says(b, p, idx) else Ipv6Says(b, p)
    ensures Same(b, r, 0, 16)
    ensures if k.iphlen == 20 then Ipv4Says(b, r, idx) && Same(b, r, 26, 34) else Ipv6Says(b, r)
  {
    if k.iphlen == 20 { assert r[14..34] == p[14..34]; }
  }

  /** The TCP header was not changed by what came before. */
  lemma TcpAfterIp(b: seq<byte>, p: seq<byte>, r: seq<byte>, o: nat, sent: nat, last: bool)
    requires 26 <= o && Differ(b, p, 16, 26) && TcpSays(p, r, o, sent, last)
    ensures TcpSays(b, r, o, sent, last)
  {
    assert Get16(p, o + 4) == Get16(b, o + 4) && Get16(p, o + 6) == Get16(b, o + 6);
    assert p[o + 13] == b[o + 13];
  }

  /** gso_fix_segment.  sum stands for the TCP or UDP checksum, which is computed elsewhere. */
  method FixSegment(buf: array<byte>, idx: nat, sent: nat, last: bool, k: Kind, sum: seq<byte> -> word)
    requires Known(k) && L4(k) + L4Min(k) <= buf.Length
    modifies buf
    ensures Fixes(Raw(old(buf[..]), idx, sent, last), buf[..], k, sum)
  {
    ghost var b := buf[..];
    if k.iphlen == 20 {
      FixIpv4(buf, idx);
    } else {
      FixIpv6(buf);
    }
    ghost var p := buf[..];
    if k.tcp {
      FixTcp(buf, L4(k), sent, last, sum);
    } else {
      FixUdp(buf, L4(k), sum);
    }
    AfterL4(b, p, buf[..], idx, k);
    if k.tcp { TcpAfterIp(b, p, buf[..], L4(k), sent, last); }
  }

  /* ---- what segmentation means ---- */

  /** Cut data into pieces of the given size, except for the last one. */
  function Chunks(data: seq<byte>, size: nat): (r: seq<seq<byte>>)
    requires 0 < size
    ensures |r| >= 1
  {
    if |data| <= size then [data] else [data[..size]] + Chunks(data[size..], size)
  }

  function Concat(parts: seq<seq<byte>>): seq<byte> {
    if parts == [] then [] else parts[0] + Concat(parts[1..])
  }

  /** The pieces make up the data. */
  lemma {:induction false} ChunksConcat(data: seq<byte>, size: nat)
    requires 0 < size
    ensures Concat(Chunks(data, size)) == data
  {
    if size < |data| {
      ChunksConcat(data[size..], size);
      assert Chunks(data, size)[1..] == Chunks(data[size..], size);
    } else {
      var one: seq<seq<byte>> := [data];
      assert one[1..] == [];
    }
  }

  /** All pieces but the last are full, and none is empty. */
  lemma {:induction false} ChunksFull(data: seq<byte>, size: nat, i: nat)
    requires 0 < size && i < |Chunks(data, size)| && data != []
    ensures i < |Chunks(data, size)| - 1 ==> |Chunks(data, size)[i]| == size
    ensures 0 < |Chunks(data, size)[i]| <= size
  {
    if size < |data| && 0 < i { ChunksFull(data[size..], size, i - 1); }
  }

  lemma {:induction false} ChunksBefore(data: seq<byte>, size: nat, i: nat)
    requires 0 < size && i < |Chunks(data, size)|
    ensures |Concat(Chunks(data, size)[..i])| == i * size
  {
    if 0 < i {
      assert Chunks(data, size)[..i][1..] == Chunks(data[size..], size)[..i - 1];
      ChunksBefore(data[size..], size, i - 1);
    }
  }

  /** How many pieces there are at most, for any smaller size d and any larger amount of data. */
  lemma {:induction false} ChunksCount(data: seq<byte>, size: nat, d: nat, most: nat)
    requires 0 < d <= size && |data| <= most
    ensures |Chunks(data, size)| <= most / d + 1
  {
    if size < |data| {
      ChunksCount(data[size..], size, d, most - size);
      Quotient(most, size, d);
    }
  }

  lemma Quotient(x: nat, size: nat, d: nat)
    requires 0 < d <= size < x
    ensures (x - size) / d + 1 <= x / d
  {
    var q := (x - size) / d;
    assert (q + 1) * d <= x;
  }

  /** And how many exactly: g pieces are enough for g times the size, and for no more. */
  lemma {:induction false} ChunksExactly(data: seq<byte>, size: nat, g: nat)
    requires 0 < size && data != []
    ensures |Chunks(data, size)| <= g <==> |data| <= g * size
  {
    if size < |data| {
      if 0 < g {
        ChunksExactly(data[size..], size, g - 1);
        assert g * size == (g - 1) * size + size;
      }
    } else if 0 < g {
      assert size <= g * size;
    }
  }

  /** The raw segments for these pieces. */
  function Segments(hdr: seq<byte>, parts: seq<seq<byte>>, idx: nat, sent: nat): (r: seq<Raw>)
    ensures |r| == |parts|
  {
    if parts == [] then []
    else [Raw(hdr + parts[0], idx, sent, |parts| == 1)] + Segments(hdr, parts[1..], idx + 1, sent + |parts[0]|)
  }

  lemma {:induction false} SegmentsAt(hdr: seq<byte>, parts: seq<seq<byte>>, idx: nat, sent: nat, i: nat)
    requires i < |parts|
    ensures Segments(hdr, parts, idx, sent)[i]
            == Raw(hdr + parts[i], idx + i, sent + |Concat(parts[..i])|, i == |parts| - 1)
  {
    if 0 < i {
      SegmentsAt(hdr, parts[1..], idx + 1, sent + |parts[0]|, i - 1);
      assert parts[..i][1..] == parts[1..][..i - 1];
    }
  }

  /* ---- the loop ---- */

  /** What the loop has still to produce, with `piece` already in the current segment. */
  function Rest(hdr: seq<byte>, piece: seq<byte>, rest: seq<byte>, mfs: nat, idx: nat, sent: nat): seq<Raw>
    requires |hdr| < mfs
  {
    if rest == [] then [] else Segments(hdr, Chunks(piece + rest, mfs - |hdr|), idx, sent)
  }

  /** A segment is complete. */
  lemma SegmentDone(hdr: seq<byte>, piece: seq<byte>, copied: seq<byte>, rest: seq<byte>, mfs: nat, idx: nat, sent: nat)
    requires |hdr| < mfs && copied != [] && |hdr| + |piece + copied| <= mfs
    requires |hdr| + |piece + copied| == mfs || rest == []
    ensures Rest(hdr, piece, copied + rest, mfs, idx, sent)
            == [Raw(hdr + (piece + copied), idx, sent, rest == [])]
                 + Rest(hdr, [], rest, mfs, idx + 1, sent + |piece + copied|)
  {
    var done, size := piece + copied, mfs - |hdr|;
    assert piece + (copied + rest) == done + rest && [] + rest == rest;
    var one: seq<seq<byte>> := [done];
    if rest == [] {
      assert done + rest == done && one[1..] == [];
    } else {
      assert (done + rest)[..size] == done && (done + rest)[size..] == rest;
      assert (one + Chunks(rest, size))[1..] == Chunks(rest, size);
    }
  }

  /** A segment goes on. */
  lemma SegmentGoesOn(hdr: seq<byte>, piece: seq<byte>, copied: seq<byte>, rest: seq<byte>, mfs: nat, idx: nat, sent: nat)
    requires |hdr| < mfs && rest != []
    ensures Rest(hdr, piece, copied + rest, mfs, idx, sent) == Rest(hdr, piece + copied, rest, mfs, idx, sent)
  {
    Regroup(piece, copied, rest);
    SameRest(hdr, piece, copied + rest, piece + copied, rest, mfs, idx, sent);
  }

  lemma SameRest(hdr: seq<byte>, p1: seq<byte>, r1: seq<byte>, p2: seq<byte>, r2: seq<byte>, mfs: nat, idx: nat, sent: nat)
    requires |hdr| < mfs && r1 != [] && r2 != [] && p1 + r1 == p2 + r2
    ensures Rest(hdr, p1, r1, mfs, idx, sent) == Rest(hdr, p2, r2, mfs, idx, sent)
  {
  }

  lemma Fragments(frags: seq<seq<byte>>, f: nat)
    requires f <= |frags| && forall i :: 0 <= i < |frags| ==> frags[i] != []
    ensures Concat(frags[f..]) == [] <==> f == |frags|
    ensures f < |frags| ==> Concat(frags[f..]) == frags[f] + Concat(frags[f + 1..])
  {
    if f < |frags| { assert frags[f..][1..] == frags[f + 1..]; }
  }

  lemma RegroupRaw(log: seq<Raw>, x: Raw, more: seq<Raw>)
    ensures log + ([x] + more) == (log + [x]) + more
  {
  }

  /** What the loop has done so far, and has still to do. */
  ghost predicate Cutting(all: seq<Raw>, log: seq<Raw>, hdr: seq<byte>, piece: seq<byte>, rest: seq<byte>, mfs: nat,
                          sent: nat)
  {
    |hdr| + |piece| < mfs && all == log + Rest(hdr, piece, rest, mfs, |log|, sent)
  }

  /** The effect of one copy: a segment is completed, or goes on. */
  lemma CopyDone(all: seq<Raw>, log: seq<Raw>, hdr: seq<byte>, piece: seq<byte>, copied: seq<byte>, rest: seq<byte>,
                 mfs: nat, sent: nat)
    requires Cutting(all, log, hdr, piece, copied + rest, mfs, sent)
    requires copied != [] && |hdr| + |piece + copied| <= mfs
    requires |hdr| + |piece + copied| == mfs || rest == []
    ensures Cutting(all, log + [Raw(hdr + (piece + copied), |log|, sent, rest == [])], hdr, [], rest, mfs,
                    sent + |piece + copied|)
  {
    var x := Raw(hdr + (piece + copied), |log|, sent, rest == []);
    var more := Rest(hdr, [], rest, mfs, |log| + 1, sent + |piece + copied|);
    SegmentDone(hdr, piece, copied, rest, mfs, |log|, sent);
    OneMore(all, log, x, more, Rest(hdr, piece, copied + rest, mfs, |log|, sent));
  }

  lemma OneMore(all: seq<Raw>, log: seq<Raw>, x: Raw, more: seq<Raw>, rest: seq<Raw>)
    requires all == log + rest && rest == [x] + more
    ensures all == (log + [x]) + more && |log + [x]| == |log| + 1
  {
    RegroupRaw(log, x, more);
  }

  lemma CopyGoesOn(all: seq<Raw>, log: seq<Raw>, hdr: seq<byte>, piece: seq<byte>, copied: seq<byte>, rest: seq<byte>,
                   mfs: nat, sent: nat)
    requires Cutting(all, log, hdr, piece, copied + rest, mfs, sent)
    requires rest != [] && |hdr| + |piece + copied| < mfs
    ensures Cutting(all, log, hdr, piece + copied, rest, mfs, sent)
  {
    SegmentGoesOn(hdr, piece, copied, rest, mfs, |log|, sent);
  }

  lemma Regroup(a: seq<byte>, b: seq<byte>, c: seq<byte>)
    ensures (a + b) + c == a + (b + c)
  {
  }

  ghost predicate AllFixed(log: seq<Raw>, out: seq<seq<byte>>, k: Kind, sum: seq<byte> -> word) {
    |log| == |out| && forall i :: 0 <= i < |out| ==> Fixes(log[i], out[i], k, sum)
  }

  /** A complete segment goes to the next slot of the destination. */
  method Emit(seg: seq<byte>, ghost log: seq<Raw>, out: seq<seq<byte>>, sent: nat, last: bool, k: Kind,
              sum: seq<byte> -> word) returns (out': seq<seq<byte>>)
    requires Known(k) && L4(k) + L4Min(k) <= |seg| && AllFixed(log, out, k, sum)
    ensures AllFixed(log + [Raw(seg, |log|, sent, last)], out', k, sum)
  {
    var dst := new byte[|seg|](i requires 0 <= i < |seg| => seg[i]);
    assert dst[..] == seg;
    FixSegment(dst, |out|, sent, last, k, sum);
    out' := out + [dst[..]];
  }

  /** The body of the loop: copy what fits into the current segment; `final` says that src is the last fragment. */
  method CopyOne(hdr: seq<byte>, seg: seq<byte>, src: seq<byte>, final: bool, out: seq<seq<byte>>, sent: nat, mfs: nat,
                 k: Kind, sum: seq<byte> -> word,
                 ghost all: seq<Raw>, ghost log: seq<Raw>, ghost piece: seq<byte>, ghost tail: seq<byte>)
    returns (seg': seq<byte>, src': seq<byte>, out': seq<seq<byte>>, sent': nat,
             ghost log': seq<Raw>, ghost piece': seq<byte>)
    requires Known(k) && L4(k) + L4Min(k) <= |hdr| && src != [] && (final <==> tail == [])
    requires seg == (if piece == [] then [] else hdr + piece)
    requires Cutting(all, log, hdr, piece, src + tail, mfs, sent) && AllFixed(log, out, k, sum)
    ensures |src'| < |src| && seg' == if piece' == [] then [] else hdr + piece'
    ensures Cutting(all, log', hdr, piece', src' + tail, mfs, sent') && AllFixed(log', out', k, sum)
  {
    seg' := seg;
    if seg' == [] { seg' := hdr; }
    var copy := |src|;
    if |seg'| + copy > mfs { copy := mfs - |seg'|; }
    ghost var copied, rest := src[..copy], src[copy..] + tail;
    assert src == copied + src[copy..] && seg' == hdr + piece;
    Regroup(copied, src[copy..], tail);
    Regroup(hdr, piece, copied);
    seg', src' := seg' + src[..copy], src[copy..];
    out', sent', log', piece' := out, sent, log, piece + copied;
    if |seg'| >= mfs || (src' == [] && final) {
      CopyDone(all, log, hdr, piece, copied, rest, mfs, sent);
      out' := Emit(seg', log, out, sent, src' == [] && final, k, sum);
      log' := log + [Raw(seg', |log|, sent, rest == [])];
      sent' := sent + |seg'| - |hdr|;
      seg', piece' := [], [];
    } else {
      CopyGoesOn(all, log, hdr, piece, copied, rest, mfs, sent);
    }
  }

  /** The loop is within fragment f - 1, of which src is left. */
  ghost predicate AtFragment(all: seq<Raw>, log: seq<Raw>, out: seq<seq<byte>>, hdr: seq<byte>, seg: seq<byte>, piece: seq<byte>,
                             src: seq<byte>, frags: seq<seq<byte>>, f: nat, mfs: nat, sent: nat, k: Kind,
                             sum: seq<byte> -> word)
  {
    && f <= |frags| && seg == (if piece == [] then [] else hdr + piece)
    && Cutting(all, log, hdr, piece, src + Concat(frags[f..]), mfs, sent) && AllFixed(log, out, k, sum)
  }

  /** One turn of the loop. */
  method CutOne(hdr: seq<byte>, seg: seq<byte>, src: seq<byte>, frags: seq<seq<byte>>, f: nat, out: seq<seq<byte>>, sent: nat,
                mfs: nat, k: Kind, sum: seq<byte> -> word, ghost all: seq<Raw>, ghost log: seq<Raw>, ghost piece: seq<byte>)
    returns (seg': seq<byte>, src': seq<byte>, f': nat, out': seq<seq<byte>>, sent': nat, ghost log': seq<Raw>, ghost piece': seq<byte>)
    requires Known(k) && L4(k) + L4Min(k) <= |hdr| < mfs && src != [] && forall i :: 0 <= i < |frags| ==> frags[i] != []
    requires AtFragment(all, log, out, hdr, seg, piece, src, frags, f, mfs, sent, k, sum)
    ensures AtFragment(all, log', out', hdr, seg', piece', src', frags, f', mfs, sent', k, sum)
    ensures (f' == f && |src'| < |src|) || f' == f + 1
    ensures src' == [] ==> f' == |frags|
  {
    Fragments(frags, f);
    seg', src', out', sent', log', piece' :=
      CopyOne(hdr, seg, src, f == |frags|, out, sent, mfs, k, sum, all, log, piece, Concat(frags[f..]));
    f' := f;
    if src' == [] && f < |frags| {
      assert src' + Concat(frags[f..]) == frags[f] + Concat(frags[f + 1..]);
      src', f' := frags[f], f + 1;
    }
  }

  /** The loop over the fragments: src is what is left of the current one. */
  method Cut(hdr: seq<byte>, first: seq<byte>, frags: seq<seq<byte>>, mfs: nat, k: Kind, sum: seq<byte> -> word)
    returns (out: seq<seq<byte>>)
    requires Known(k) && L4(k) + L4Min(k) <= |hdr| < mfs && forall i :: 0 <= i < |frags| ==> frags[i] != []
    ensures AllFixed(Rest(hdr, [], first + Concat(frags), mfs, 0, 0), out, k, sum)
  {
    var src, f := first, 0;
    out := [];
    Fragments(frags, f);
    assert frags[0..] == frags;
    if src == [] {
      if f == |frags| { return; }
      src, f := frags[f], f + 1;
      assert first + Concat(frags) == src + Concat(frags[1..]);
    }
    var seg, sent: nat := [], 0;
    ghost var piece: seq<byte>, log: seq<Raw> := [], [];
    ghost var all := Rest(hdr, [], first + Concat(frags), mfs, 0, 0);
    while src != []
      invariant AtFragment(all, log, out, hdr, seg, piece, src, frags, f, mfs, sent, k, sum)
      invariant src == [] ==> f == |frags|
      decreases |frags| - f, |src|
    {
      seg, src, f, out, sent, log, piece := CutOne(hdr, seg, src, frags, f, out, sent, mfs, k, sum, all, log, piece);
    }
    CutDone(all, log, out, hdr, piece, frags, mfs, sent, k, sum);
  }

  lemma CutDone(all: seq<Raw>, log: seq<Raw>, out: seq<seq<byte>>, hdr: seq<byte>, piece: seq<byte>, frags: seq<seq<byte>>,
                mfs: nat, sent: nat, k: Kind, sum: seq<byte> -> word)
    requires Cutting(all, log, hdr, piece, [] + Concat(frags[|frags|..]), mfs, sent) && AllFixed(log, out, k, sum)
    ensures AllFixed(all, out, k, sum)
  {
    assert frags[|frags|..] == [] && log + [] == log;
  }

  /* ---- a whole packet ---- */

  /** The kind of a packet, from the ethertype in its first bytes. */
  function KindOf(first: seq<byte>, tcp: bool): (k: Kind)
    requires 14 <= |first|
    ensures Known(k)
  {
    Kind(tcp, if Get16(first, 12) == 0x0800 then 20 else 40)
  }

  /** Ethernet, IP, and TCP header with its options or UDP header. */
  function HeaderLen(first: seq<byte>, k: Kind): nat
    requires L4(k) + L4Min(k) <= |first|
  {
    if k.tcp then L4(k) + 4 * (first[L4(k) + 12] / 16) else L4(k) + 8
  }

  /** No fragment is empty, the headers are well formed and lie in the first one, and a segment has room for
      some payload. */
  predicate Segmentable(frags: seq<seq<byte>>, tcp: bool, mfs: nat) {
    && frags != [] && (forall i :: 0 <= i < |frags| ==> frags[i] != []) && 14 <= |frags[0]|
    && var k := KindOf(frags[0], tcp);
       && L4(k) + L4Min(k) <= |frags[0]|
       && L4(k) + L4Min(k) <= HeaderLen(frags[0], k) <= |frags[0]|
       && HeaderLen(frags[0], k) < mfs
  }

  function Header(frags: seq<seq<byte>>, tcp: bool, mfs: nat): seq<byte>
    requires Segmentable(frags, tcp, mfs)
  {
    frags[0][..HeaderLen(frags[0], KindOf(frags[0], tcp))]
  }

  function Payload(frags: seq<seq<byte>>, tcp: bool, mfs: nat): seq<byte>
    requires Segmentable(frags, tcp, mfs)
  {
    frags[0][HeaderLen(frags[0], KindOf(frags[0], tcp))..] + Concat(frags[1..])
  }

  /** The segments of a packet, but for the fields that differ; without payload there are none. */
  function RawSegments(hdr: seq<byte>, payload: seq<byte>, mfs: nat): seq<Raw>
    requires |hdr| < mfs
  {
    if payload == [] then [] else Segments(hdr, Chunks(payload, mfs - |hdr|), 0, 0)
  }

  /** The GSO branch of bdg_mismatch_datapath, on the fragments that follow the virtio-net header. */
  method Segment(frags: seq<seq<byte>>, tcp: bool, mfs: nat, sum: seq<byte> -> word) returns (out: seq<seq<byte>>)
    requires Segmentable(frags, tcp, mfs)
    ensures var hdr := Header(frags, tcp, mfs);
            AllFixed(RawSegments(hdr, Payload(frags, tcp, mfs), mfs), out, KindOf(frags[0], tcp), sum)
  {
    assert [] + Payload(frags, tcp, mfs) == Payload(frags, tcp, mfs);
    var k := KindOf(frags[0], tcp);
    var h := HeaderLen(frags[0], k);
    out := Cut(frags[0][..h], frags[0][h..], frags[1..], mfs, k, sum);
  }

  /** The payloads of the segments. */
  function Payloads(out: seq<seq<byte>>, h: nat): (r: seq<seq<byte>>)
    requires forall i :: 0 <= i < |out| ==> h <= |out[i]|
  {
    seq(|out|, i requires 0 <= i < |out| => out[i][h..])
  }

  /** Segmentation preserves the stream: payloads concatenate to the original one, all segments but the last are
      exactly mfs bytes long, and each says where it belongs. */
  lemma StreamPreserved(hdr: seq<byte>, payload: seq<byte>, mfs: nat, out: seq<seq<byte>>, k: Kind, sum: seq<byte> -> word)
    requires Known(k) && L4(k) + L4Min(k) <= |hdr| < mfs && payload != []
    requires AllFixed(RawSegments(hdr, payload, mfs), out, k, sum)
    ensures forall i :: 0 <= i < |out| ==> |hdr| < |out[i]| <= mfs && (i < |out| - 1 ==> |out[i]| == mfs)
    ensures Concat(Payloads(out, |hdr|)) == payload
  {
    var size := mfs - |hdr|;
    var parts := Chunks(payload, size);
    forall i | 0 <= i < |out|
      ensures |out[i]| == |hdr| + |parts[i]| && out[i][|hdr|..] == parts[i]
      ensures 0 < |parts[i]| <= size && (i < |out| - 1 ==> |parts[i]| == size)
    {
      SegmentsAt(hdr, parts, 0, 0, i);
      ChunksFull(payload, size, i);
      PayloadKept(Segments(hdr, parts, 0, 0)[i], out[i], k, sum, hdr, parts[i]);
    }
    assert Payloads(out, |hdr|) == parts;
    ChunksConcat(payload, size);
  }

  lemma PayloadKept(raw: Raw, r: seq<byte>, k: Kind, sum: seq<byte> -> word, hdr: seq<byte>, part: seq<byte>)
    requires Known(k) && Fixes(raw, r, k, sum) && raw.bytes == hdr + part && L4(k) + L4Min(k) <= |hdr|
    ensures |r| == |hdr| + |part| && r[|hdr|..] == part
  {
    assert r[|hdr|..] == raw.bytes[|hdr|..];
  }

  /** Segment i of a packet: it carries chunk i and follows i chunks of full size. */
  function Nth(hdr: seq<byte>, payload: seq<byte>, size: nat, i: nat): Raw
    requires 0 < size && i < |Chunks(payload, size)|
  {
    Raw(hdr + Chunks(payload, size)[i], i, i * size, i == |Chunks(payload, size)| - 1)
  }

  /** What segment i says: its number, the payload before it, and whether it is the last. */
  lemma SegmentSays(hdr: seq<byte>, payload: seq<byte>, mfs: nat, out: seq<seq<byte>>, k: Kind, sum: seq<byte> -> word, i: nat)
    requires |hdr| < mfs && payload != [] && AllFixed(RawSegments(hdr, payload, mfs), out, k, sum)
    requires i < |out| && i < |Chunks(payload, mfs - |hdr|)|
    ensures Fixes(Nth(hdr, payload, mfs - |hdr|, i), out[i], k, sum)
    ensures k.tcp && L4(k) + 14 <= |hdr| && i + 1 < |out| ==>
              var f, g := hdr[14 + k.iphlen + 13], out[i][14 + k.iphlen + 13];
              g % 2 == 0 && g / 8 % 2 == 0 && g / 2 % 4 == f / 2 % 4 && g / 16 == f / 16
    ensures k.tcp && L4(k) + 14 <= |hdr| && i + 1 == |out| ==> out[i][14 + k.iphlen + 13] == hdr[14 + k.iphlen + 13]
  {
    SegmentsAt(hdr, Chunks(payload, mfs - |hdr|), 0, 0, i);
    ChunksBefore(payload, mfs - |hdr|, i);
  }

  /* ---- the reservation ---- */

  const WORST_CASE_GSO_HEADER: nat := 114

  /** The slots that nm_bdg_flush asks for when the destination has the smaller maximum frame size. */
  function Needed(frags: nat, srcMfs: nat, dstMfs: nat): nat
    requires WORST_CASE_GSO_HEADER < dstMfs
  {
    frags * srcMfs / (dstMfs - WORST_CASE_GSO_HEADER) + 1
  }

  lemma {:induction false} ConcatBound(frags: seq<seq<byte>>, mfs: nat)
    requires forall i :: 0 <= i < |frags| ==> |frags[i]| <= mfs
    ensures |Concat(frags)| <= |frags| * mfs
  {
    if frags != [] {
      ConcatBound(frags[1..], mfs);
      assert |frags| * mfs == mfs + (|frags| - 1) * mfs;
    }
  }

  lemma PayloadBound(first: seq<byte>, rest: seq<seq<byte>>, h: nat)
    requires h <= |first|
    ensures |first[h..] + Concat(rest)| <= |Concat([first] + rest)|
  {
    assert ([first] + rest)[1..] == rest;
  }

  /** The segments of one GSO packet never outnumber the slots asked for, however many fragments were counted
      besides those with data. */
  lemma ReservationSuffices(frags: seq<seq<byte>>, tcp: bool, srcMfs: nat, dstMfs: nat, slots: nat)
    requires Segmentable(frags, tcp, dstMfs) && WORST_CASE_GSO_HEADER < dstMfs < srcMfs && |frags| <= slots
    requires forall i :: 0 <= i < |frags| ==> |frags[i]| <= srcMfs
    requires |Header(frags, tcp, dstMfs)| <= WORST_CASE_GSO_HEADER
    ensures |RawSegments(Header(frags, tcp, dstMfs), Payload(frags, tcp, dstMfs), dstMfs)|
            <= Needed(slots, srcMfs, dstMfs)
  {
    var hdr, payload, d := Header(frags, tcp, dstMfs), Payload(frags, tcp, dstMfs), dstMfs - WORST_CASE_GSO_HEADER;
    ConcatBound(frags, srcMfs);
    PayloadBound(frags[0], frags[1..], |hdr|);
    assert [frags[0]] + frags[1..] == frags;
    MoreSlots(|frags|, slots, srcMfs);
    ChunksCount(payload, dstMfs - |hdr|, d, slots * srcMfs);
  }

  /** The segments take no more than g slots exactly if the payload fits them; the number of fragments, which the switch
      compares with what it was granted, does not matter. */
  lemma SegmentsWithin(hdr: seq<byte>, payload: seq<byte>, mfs: nat, g: nat)
    requires |hdr| < mfs
    ensures |RawSegments(hdr, payload, mfs)| <= g <==> |payload| <= g * (mfs - |hdr|)
  {
    if payload != [] {
      ChunksExactly(payload, mfs - |hdr|, g);
    }
  }

  /** For every maximum frame size and every number of slots there is a packet of one fragment that needs one more. */
  lemma OneFragmentTooMany(mfs: nat, g: nat) returns (frags: seq<seq<byte>>)
    requires 54 < mfs
    ensures |frags| == 1 && Segmentable(frags, true, mfs)
    ensures |RawSegments(Header(frags, true, mfs), Payload(frags, true, mfs), mfs)| == g + 1
  {
    var size := mfs - 54;
    var len := g * size + 1;
    var hdr, payload;
    frags, hdr, payload := OneFragment(mfs, len);
    OneTooMany(hdr, payload, mfs, size, g);
  }

  lemma OneFragment(mfs: nat, len: nat) returns (frags: seq<seq<byte>>, hdr: seq<byte>, payload: seq<byte>)
    requires 54 < mfs
    ensures |frags| == 1 && Segmentable(frags, true, mfs)
    ensures hdr == Header(frags, true, mfs) && |hdr| == 54 && payload == Payload(frags, true, mfs) && |payload| == len
  {
    frags := [PlainTcp(len)];
    assert frags[1..] == [];
    hdr, payload := Header(frags, true, mfs), Payload(frags, true, mfs);
  }

  lemma OneTooMany(hdr: seq<byte>, payload: seq<byte>, mfs: nat, size: nat, g: nat)
    requires |hdr| < mfs && size == mfs - |hdr| && |payload| == g * size + 1
    ensures |RawSegments(hdr, payload, mfs)| == g + 1
  {
    assert (g + 1) * size == g * size + size;
    SegmentsWithin(hdr, payload, mfs, g);
    SegmentsWithin(hdr, payload, mfs, g + 1);
  }

  /** An IPv4 packet with a TCP header of 20 bytes, otherwise zero. */
  function PlainTcp(len: nat): (b: seq<byte>)
    ensures |b| == 54 + len && Get16(b, 12) == 0x0800 && HeaderLen(b, KindOf(b, true)) == 54
  {
    var zeros: seq<byte> := seq(54 + len, _ => 0);
    zeros[12 := 8][46 := 80]
  }

  lemma MoreSlots(a: nat, b: nat, m: nat)
    requires a <= b
    ensures a * m <= b * m
  {
  }

  /* ---- the virtio-net header ---- */

  /** The fragments without the virtio-net header; one that holds nothing else is skipped. */
  function Stripped(ft: seq<seq<byte>>, vhl: nat): (r: seq<seq<byte>>)
    requires ft != [] && vhl <= |ft[0]|
    ensures |r| <= |ft|
  {
    if |ft[0]| == vhl then ft[1..] else [ft[0][vhl..]] + ft[1..]
  }

  const GSO_UDP: nat := 3
  const GSO_ECN: nat := 0x80

  /** TCP unless the type, without the ECN bit, is UDP. */
  predicate IsTcp(gsoType: byte) {
    gsoType % GSO_ECN != GSO_UDP
  }

  /* ---- the same, on the bytes of the frame ---- */

  /** The length of the IP header, from the ethertype; where the payload starts. */
  ghost function IpLen(frame: seq<byte>): nat
    requires 14 <= |frame|
  {
    if frame[12] == 8 && frame[13] == 0 then 20 else 40
  }

  ghost function DataStart(frame: seq<byte>, tcp: bool): nat
    requires 14 <= |frame| && 14 + IpLen(frame) + (if tcp then 20 else 8) <= |frame|
  {
    14 + IpLen(frame) + if tcp then frame[14 + IpLen(frame) + 12] / 16 * 4 else 8
  }

  /** Segment r, number i, of the frame whose payload starts at h: the headers of the frame with the fields fixed. */
  ghost predicate SegmentOf(frame: seq<byte>, h: nat, r: seq<byte>, i: nat, last: bool, mfs: nat, k: Kind,
                            sum: seq<byte> -> word)
  {
    && h <= |frame| && h < |r| <= mfs && (!last ==> |r| == mfs)
    && Fixes(Raw(frame[..h] + r[h..], i, i * (mfs - h), last), r, k, sum)
  }

  /** The segments carry the payload of the frame in order, all but the last as much as fits. */
  ghost predicate Segmented(frame: seq<byte>, tcp: bool, mfs: nat, out: seq<seq<byte>>, sum: seq<byte> -> word) {
    && 14 <= |frame| && 14 + IpLen(frame) + (if tcp then 20 else 8) <= |frame|
    && var h := DataStart(frame, tcp);
       && h <= |frame|
       && (forall i {:trigger out[i]} :: 0 <= i < |out| ==>
             SegmentOf(frame, h, out[i], i, i == |out| - 1, mfs, Kind(tcp, IpLen(frame)), sum))
       && Concat(Payloads(out, h)) == frame[h..]
  }

  /** The fragments without the virtio-net header make up the frame after it. */
  lemma StrippedIsFrame(ft: seq<seq<byte>>, vhl: nat)
    requires ft != [] && vhl <= |ft[0]|
    ensures vhl <= |Concat(ft)| && Concat(Stripped(ft, vhl)) == Concat(ft)[vhl..]
  {
    var r := Stripped(ft, vhl);
    if |ft[0]| != vhl { assert r[1..] == ft[1..]; }
  }

  /** Header and payload are the two parts of the frame. */
  lemma FrameParts(frags: seq<seq<byte>>, tcp: bool, mfs: nat)
    requires Segmentable(frags, tcp, mfs)
    ensures var frame := Concat(frags);
            && 14 <= |frame| && 14 + IpLen(frame) + (if tcp then 20 else 8) <= |frame|
            && KindOf(frags[0], tcp) == Kind(tcp, IpLen(frame))
            && DataStart(frame, tcp) <= |frame|
            && Header(frags, tcp, mfs) == frame[..DataStart(frame, tcp)]
            && Payload(frags, tcp, mfs) == frame[DataStart(frame, tcp)..]
  {
    var first := frags[0];
    var k := KindOf(first, tcp);
    assert Concat(frags) == first + Concat(frags[1..]);
    assert Get16(first, 12) == 0x0800 <==> first[12] == 8 && first[13] == 0;
  }

  lemma SegmentIsOf(frame: seq<byte>, h: nat, mfs: nat, out: seq<seq<byte>>, k: Kind, sum: seq<byte> -> word, i: nat)
    requires Known(k) && h < |frame| && L4(k) + L4Min(k) <= h < mfs && i < |out|
    requires AllFixed(RawSegments(frame[..h], frame[h..], mfs), out, k, sum)
    ensures SegmentOf(frame, h, out[i], i, i == |out| - 1, mfs, k, sum)
  {
    SegmentFits(frame[..h], frame[h..], mfs, out, k, sum, i);
    var raw := RawOf(frame[..h], frame[h..], mfs, mfs - h, out, k, sum, i);
  }

  lemma SegmentFits(hdr: seq<byte>, payload: seq<byte>, mfs: nat, out: seq<seq<byte>>, k: Kind, sum: seq<byte> -> word, i: nat)
    requires Known(k) && L4(k) + L4Min(k) <= |hdr| < mfs && payload != [] && i < |out|
    requires AllFixed(RawSegments(hdr, payload, mfs), out, k, sum)
    ensures |hdr| < |out[i]| <= mfs && (i < |out| - 1 ==> |out[i]| == mfs)
  {
    StreamPreserved(hdr, payload, mfs, out, k, sum);
  }

  /** The raw segment that it was made from is the headers of the frame with its own payload. */
  lemma RawOf(hdr: seq<byte>, payload: seq<byte>, mfs: nat, size: nat, out: seq<seq<byte>>, k: Kind, sum: seq<byte> -> word, i: nat)
    returns (raw: Raw)
    requires Known(k) && L4(k) + L4Min(k) <= |hdr| < mfs && size == mfs - |hdr| && payload != [] && i < |out|
    requires AllFixed(RawSegments(hdr, payload, mfs), out, k, sum)
    ensures |hdr| <= |out[i]| && raw.bytes == hdr + out[i][|hdr|..] && raw.idx == i && raw.sent == i * size
    ensures (raw.last <==> i == |out| - 1) && Fixes(raw, out[i], k, sum) == true
  {
    SegmentSays(hdr, payload, mfs, out, k, sum, i);
    raw := Nth(hdr, payload, size, i);
    PayloadKept(raw, out[i], k, sum, hdr, Chunks(payload, size)[i]);
  }

  lemma FrameSegmented(frags: seq<seq<byte>>, tcp: bool, mfs: nat, out: seq<seq<byte>>, sum: seq<byte> -> word)
    requires Segmentable(frags, tcp, mfs)
    requires AllFixed(RawSegments(Header(frags, tcp, mfs), Payload(frags, tcp, mfs), mfs), out, KindOf(frags[0], tcp), sum)
    ensures Segmented(Concat(frags), tcp, mfs, out, sum)
  {
    FrameParts(frags, tcp, mfs);
    var frame := Concat(frags);
    var h := DataStart(frame, tcp);
    if h < |frame| {
      forall i | 0 <= i < |out| ensures SegmentOf(frame, h, out[i], i, i == |out| - 1, mfs, Kind(tcp, IpLen(frame)), sum) {
        SegmentIsOf(frame, h, mfs, out, Kind(tcp, IpLen(frame)), sum, i);
      }
      StreamPreserved(frame[..h], frame[h..], mfs, out, Kind(tcp, IpLen(frame)), sum);
    }
  }

  /** bdg_mismatch_datapath from a port with virtio-net headers to one without, for a GSO packet. */
  method Datapath(ft: seq<seq<byte>>, vhl: nat, gsoType: byte, mfs: nat, sum: seq<byte> -> word)
    returns (out: seq<seq<byte>>)
    requires ft != [] && vhl <= |ft[0]|
    requires Stripped(ft, vhl) != [] ==> Segmentable(Stripped(ft, vhl), IsTcp(gsoType), mfs)
    ensures var frame := Concat(ft)[vhl..];
            if frame == [] then out == [] else Segmented(frame, gsoType % 128 != 3, mfs, out, sum)
  {
    StrippedIsFrame(ft, vhl);
    var frags := Stripped(ft, vhl);
    out := [];
    if frags != [] {
      out := Segment(frags, IsTcp(gsoType), mfs, sum);
      FrameSegmented(frags, IsTcp(gsoType), mfs, out, sum);
    }
  }
}
