/** The two implementations of the Internet checksum (RFC 1071): the kernel's, which adds words in 32 bits and
    folds at the end, and pkt-gen's, which keeps the sum within 16 bits all along. */
module Checksum {
  import opened Bytes

  const M16: nat := 0x1_0000
  const M32: nat := 0x1_0000_0000

  /** A big-endian word. */
  function Word(hi: byte, lo: byte): (w: nat)
    ensures w < M16
  {
    256 * hi + lo
  }

  /** The sum of the words of some data; an odd byte at the end is a high byte. */
  function Words(data: seq<byte>): nat {
    if data == [] then 0
    else if |data| == 1 then Word(data[0], 0)
    else Word(data[0], data[1]) + Words(data[2..])
  }

  lemma {:induction false} WordsAppend(data: seq<byte>, more: seq<byte>)
    requires |data| % 2 == 0
    ensures Words(data + more) == Words(data) + Words(more)
  {
    if data == [] {
      assert data + more == more;
    } else {
      assert (data + more)[2..] == data[2..] + more;
      WordsAppend(data[2..], more);
    }
  }

  /** One iteration of either loop. */
  lemma WordsStep(data: seq<byte>, i: nat)
    requires i % 2 == 0 && i + 1 < |data|
    ensures Words(data[..i + 2]) == Words(data[..i]) + Word(data[i], data[i + 1])
  {
    var more := [data[i], data[i + 1]];
    assert data[..i + 2] == data[..i] + more && more[2..] == [];
    WordsAppend(data[..i], more);
  }

  /** The odd byte. */
  lemma WordsLast(data: seq<byte>, i: nat)
    requires i % 2 == 0 && i + 1 == |data|
    ensures Words(data) == Words(data[..i]) + Word(data[i], 0)
  {
    assert data == data[..i] + [data[i]];
    WordsAppend(data[..i], [data[i]]);
  }

  lemma {:induction false} WordsBound(data: seq<byte>)
    ensures Words(data) <= 0xFFFF * ((|data| + 1) / 2)
  {
    if 2 <= |data| { WordsBound(data[2..]); }
  }

  /** The one's complement sum of words that add up to x: congruent to x modulo 0xFFFF, and zero only for zero. */
  function Ones(x: nat): (s: nat)
    ensures s <= 0xFFFF && (s == 0 <==> x == 0)
  {
    if x == 0 then 0 else 1 + (x - 1) % 0xFFFF
  }

  lemma OnesIs(x: nat, y: nat, k: nat)
    requires x == y + 0xFFFF * k && (x == 0 <==> y == 0)
    ensures Ones(x) == Ones(y)
  {
    if x != 0 {
      var a, b := (x - 1) % 0xFFFF, (y - 1) % 0xFFFF;
      var p, q := (x - 1) / 0xFFFF, (y - 1) / 0xFFFF;
      assert a - b == 0xFFFF * (q + k - p);
    }
  }

  /** htobe16 on a little-endian machine. */
  function Swap(v: nat): (r: nat)
    requires v < M16
    ensures r < M16
  {
    v % 256 * 256 + v / 256
  }

  /** A sum in a 32-bit variable. */
  function Wrap32(x: nat): nat {
    if x < M32 then x else x % M32
  }

  lemma Carry(x: nat, w: nat)
    ensures Wrap32(Wrap32(x) + w) == Wrap32(x + w)
  {
  }

  /** One more word in a 32-bit sum. */
  lemma RawStep(data: seq<byte>, sum: nat, i: nat)
    requires i % 2 == 0 && i + 1 < |data|
    ensures Wrap32(Wrap32(sum + Words(data[..i])) + Word(data[i], data[i + 1])) == Wrap32(sum + Words(data[..i + 2]))
  {
    WordsStep(data, i);
    Carry(sum + Words(data[..i]), Word(data[i], data[i + 1]));
  }

  lemma RawLast(data: seq<byte>, sum: nat, i: nat)
    requires i % 2 == 0 && i + 1 == |data|
    ensures Wrap32(Wrap32(sum + Words(data[..i])) + Word(data[i], 0)) == Wrap32(sum + Words(data))
  {
    WordsLast(data, i);
    Carry(sum + Words(data[..i]), Word(data[i], 0));
  }

  /** nm_csum_raw: the sum is 32 bits wide. */
  method Raw(data: seq<byte>, sum: nat) returns (r: nat)
    requires sum < M32
    ensures r == Wrap32(sum + Words(data))
  {
    var p: nat;
    r, p := RawWords(data, sum, |data| / 2);
    if |data| % 2 == 1 {
      RawLast(data, sum, p);
      r := Wrap32(r + Word(data[|data| - 1], 0));
    } else {
      assert data[..p] == data;
    }
  }

  /** The loop of nm_csum_raw over nw words. */
  method RawWords(data: seq<byte>, sum: nat, nw: nat) returns (r: nat, p: nat)
    requires sum < M32 && 2 * nw <= |data|
    ensures p == 2 * nw && r == Wrap32(sum + Words(data[..p]))
  {
    r, p := sum, 0;
    var i := 0;
    while i < nw
      invariant i <= nw && p == 2 * i && r == Wrap32(sum + Words(data[..p]))
    {
      RawStep(data, sum, p);
      r := Wrap32(r + Word(data[p], data[p + 1]));
      i, p := i + 1, p + 2;
    }
  }

  /** nm_csum_fold */
  method Fold(sum: nat) returns (r: nat)
    requires sum < M32
    ensures r == Swap(0xFFFF - Ones(sum))
  {
    var s: nat := sum;
    while s >= M16
      invariant Ones(s) == Ones(sum)
      decreases s
    {
      OnesIs(s, s % M16 + s / M16, s / M16);
      s := s % M16 + s / M16;
    }
    r := Swap(0xFFFF - s);
  }

  /** One turn of the loop of pkt-gen's checksum. */
  method AddWord(s: nat, data: seq<byte>, i: nat, ghost sum: nat) returns (s': nat)
    requires i + 2 <= |data| && i % 2 == 0 && s == Ones(sum + Words(data[..i]))
    ensures s' == Ones(sum + Words(data[..i + 2]))
  {
    WordsStep(data, i);
    s' := Within16(s + Word(data[i], data[i + 1]), sum + Words(data[..i]), Word(data[i], data[i + 1]));
  }

  /** pkt-gen's checksum */
  method Running(data: seq<byte>, sum: nat) returns (s: nat)
    requires sum <= 0xFFFF
    ensures s == Ones(sum + Words(data))
  {
    s := sum;
    var i := 0;
    while i < |data| - |data| % 2
      invariant 0 <= i <= |data| - |data| % 2 && i % 2 == 0
      invariant s == Ones(sum + Words(data[..i]))
    {
      s := AddWord(s, data, i, sum);
      i := i + 2;
    }
    assert data[..|data|] == data;
    if i < |data| {
      WordsLast(data, i);
      s := Within16(s + Word(data[i], 0), sum + Words(data[..i]), Word(data[i], 0));
    }
  }

  /** The carry of one addition. */
  method Within16(t: nat, ghost x: nat, ghost w: nat) returns (s: nat)
    requires t == Ones(x) + w && w < M16
    ensures s == Ones(x + w)
  {
    s := t;
    if s > 0xFFFF { s := s - 0xFFFF; }
    OnesIs(x + w, Ones(x) + w, if x == 0 then 0 else (x - 1) / 0xFFFF);
  }

  /** pkt-gen's wrapsum */
  function Wrapsum(sum: nat): nat
    requires sum <= 0xFFFF
  {
    Swap(0xFFFF - sum)
  }

  /** Both give the same value for all data of up to 65535 bytes. */
  method Agree(data: seq<byte>) returns (kernel: nat, pktgen: nat)
    requires |data| <= 0xFFFF
    ensures kernel == pktgen == Swap(0xFFFF - Ones(Words(data)))
  {
    WordsBound(data);
    var raw := Raw(data, 0);
    kernel := Fold(raw);
    var s := Running(data, 0);
    pktgen := Wrapsum(s);
  }

  /** An IPv4 header of 20 bytes with this value in its checksum field, which the machine stores swapped. */
  function WithCheck(header: seq<byte>, check: nat): (r: seq<byte>)
    requires |header| == 20 && check < M16
    ensures |r| == 20
  {
    header[..10] + [check % 256, check / 256] + header[12..]
  }

  lemma WordsWithCheck(header: seq<byte>, check: nat)
    requires |header| == 20 && check < M16
    ensures Words(WithCheck(header, check)) == Words(header[..10]) + Words(header[12..]) + Swap(check)
  {
    var field: seq<byte> := [check % 256, check / 256];
    WordsAppend(header[..10] + field, header[12..]);
    WordsAppend(header[..10], field);
    assert field[2..] == [];
  }

  /** nm_csum_ipv4 */
  method Ipv4(header: seq<byte>) returns (r: nat)
    requires |header| == 20
    ensures r == Swap(0xFFFF - Ones(Words(header)))
  {
    WordsBound(header);
    var raw := Raw(header, 0);
    r := Fold(raw);
  }

  /** A header that holds its own checksum has checksum zero. */
  method SelfCheck(header: seq<byte>) returns (stored: seq<byte>, again: nat)
    requires |header| == 20
    ensures stored == WithCheck(header, Swap(0xFFFF - Ones(Words(WithCheck(header, 0)))))
    ensures again == 0
  {
    var check := Ipv4(WithCheck(header, 0));
    stored := WithCheck(header, check);
    again := Ipv4(stored);
    OwnWords(header, check);
  }

  lemma OwnWords(header: seq<byte>, check: nat)
    requires |header| == 20 && check < M16 && check == Swap(0xFFFF - Ones(Words(WithCheck(header, 0))))
    ensures Ones(Words(WithCheck(header, check))) == 0xFFFF
  {
    WordsWithCheck(header, 0);
    WordsWithCheck(header, check);
    OwnChecksum(Words(WithCheck(header, 0)));
  }

  lemma OwnChecksum(x: nat)
    ensures Ones(x + (0xFFFF - Ones(x))) == 0xFFFF
    ensures Swap(Swap(0xFFFF - Ones(x))) == 0xFFFF - Ones(x)
  {
    var k := Complement(x);
    OnesIs(x + (0xFFFF - Ones(x)), 0xFFFF, k);
    SwapTwice(0xFFFF - Ones(x));
  }

  lemma Complement(x: nat) returns (k: nat)
    ensures x + (0xFFFF - Ones(x)) == 0xFFFF + 0xFFFF * k
  {
    k := if x == 0 then 0 else (x - 1) / 0xFFFF;
  }

  lemma SwapTwice(v: nat)
    requires v < M16
    ensures Swap(Swap(v)) == v
  {
    var a, b := v / 256, v % 256;
    assert Swap(v) == b * 256 + a && a < 256;
  }
}
