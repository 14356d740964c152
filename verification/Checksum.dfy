/** The Internet checksum (RFC 1071) as the source computes it, on a host of either byte order. */
module Checksum {
  import opened Arith
  import opened Bytes

  /** A 16-bit word as a host of the given byte order loads it. */
  function Load16(first: Byte, second: Byte, little: bool): (w: nat)
    ensures w < 65536
  {
    if little then first + 256 * second else 256 * first + second
  }

  /** What the first loop adds up; a last odd byte counts as it is. */
  function Sum(data: seq<Byte>, little: bool): nat {
    if data == [] then 0
    else if |data| == 1 then data[0]
    else Load16(data[0], data[1], little) + Sum(data[2..], little)
  }

  /** Folding the carries back in, again and again, leaves the one of 1 .. 65535 with the same
      remainder modulo 65535, or zero for zero. */
  function Folded(sum: nat): (r: nat)
    ensures r < 65536
  {
    if sum == 0 then 0 else (sum - 1) % 65535 + 1
  }

  lemma FoldOnce(sum: nat)
    ensures Folded(sum % 65536 + sum / 65536) == Folded(sum)
    ensures sum >= 65536 ==> sum % 65536 + sum / 65536 < sum
  {
    var h, l := sum / 65536, sum % 65536;
    SameRemainder(l + h, sum, h);
  }

  /** Numbers above zero that differ by a multiple of 65535 fold to the same. */
  lemma SameRemainder(a: nat, b: nat, k: int)
    requires b == a + 65535 * k && (a == 0 <==> b == 0)
    ensures Folded(a) == Folded(b)
  {
    if a > 0 {
      DivModUnique(b - 1, 65535, (a - 1) / 65535 + k, (a - 1) % 65535);
    }
  }

  lemma FoldedSmall(w: nat)
    requires w < 65536
    ensures Folded(w) == w
  {
    if w > 0 { DivModUnique(w - 1, 65535, 0, w - 1); }
  }

  /** checksum(): both loops, and the complement of the result. */
  method ComputeChecksum(data: seq<Byte>, little: bool) returns (r: nat)
    requires |data| < 0x8000_0000
    ensures r == Sum16(data, little)
  {
    var sum: nat, length, i := 0, |data|, 0;
    while length > 1
      invariant length >= 0 && i == |data| - length
      invariant sum + Sum(data[i..], little) == Sum(data, little)
      invariant sum <= i * 65535 && sum < 0x1_0000_0000_0000_0000
    {
      assert data[i..][2..] == data[i + 2..];
      sum := sum + Load16(data[i], data[i + 1], little);
      i := i + 2;
      length := length - 2;
    }
    if length > 0 {
      sum := sum + data[i];
    }
    while sum / 65536 != 0
      invariant Folded(sum) == Folded(Sum(data, little))
      decreases sum
    {
      FoldOnce(sum);
      sum := sum % 65536 + sum / 65536;
    }
    FoldedSmall(sum);
    r := 65535 - sum;
  }

  /** The checksum of a packet: the complement of the one's complement sum of its words. */
  function Sum16(data: seq<Byte>, little: bool): (r: nat)
    ensures r < 65536
  {
    65535 - Folded(Sum(data, little))
  }

  // ---------------------------------------------------------------- checking a packet

  /** The bytes of a 16-bit word in memory. */
  function Store16(w: nat, little: bool): (r: (Byte, Byte))
    requires w < 65536
    ensures Load16(r.0, r.1, little) == w
  {
    if little then (w % 256, w / 256) else (w / 256, w % 256)
  }

  function Put16(data: seq<Byte>, at: nat, w: nat, little: bool): (r: seq<Byte>)
    requires at + 1 < |data| && w < 65536
    ensures |r| == |data|
  {
    data[at := Store16(w, little).0][at + 1 := Store16(w, little).1]
  }

  lemma {:induction false} SumWithWord(data: seq<Byte>, at: nat, w: nat, little: bool)
    requires at % 2 == 0 && at + 1 < |data| && w < 65536 && data[at] == data[at + 1] == 0
    ensures Sum(Put16(data, at, w, little), little) == Sum(data, little) + w
    decreases |data|
  {
    var r := Put16(data, at, w, little);
    if at == 0 {
      assert r[2..] == data[2..];
    } else {
      assert r[2..] == Put16(data[2..], at - 2, w, little);
      SumWithWord(data[2..], at - 2, w, little);
    }
  }

  /** A packet with its checksum stored in an aligned field that was zero checks out. */
  lemma StoredChecksumVerifies(data: seq<Byte>, at: nat, little: bool)
    requires at % 2 == 0 && at + 1 < |data| && data[at] == data[at + 1] == 0
    ensures Sum16(Put16(data, at, Sum16(data, little), little), little) == 0
  {
    var s := Sum(data, little);
    SumWithWord(data, at, Sum16(data, little), little);
    FoldedSmall(65535);
    SameRemainder(65535, s + 65535 - Folded(s), if s == 0 then 0 else (s - 1) / 65535);
  }

  // ---------------------------------------------------------------- byte order

  function Swap16(w: nat): (r: nat)
    requires w < 65536
    ensures r < 65536
  {
    w % 256 * 256 + w / 256
  }

  /** Seen with the other byte order, a sum of whole words is 256 times as large, modulo 65535. */
  lemma {:induction false} SumsInBothOrders(data: seq<Byte>) returns (k: int)
    requires |data| % 2 == 0
    ensures 256 * Sum(data, true) == Sum(data, false) + 65535 * k
    ensures Sum(data, true) == 0 <==> Sum(data, false) == 0
    decreases |data|
  {
    if data == [] {
      k := 0;
    } else {
      k := SumsInBothOrders(data[2..]);
      assert 256 * Load16(data[0], data[1], true) == Load16(data[0], data[1], false) + 65535 * (data[1] as int);
      k := k + data[1] as int;
    }
  }

  /** Hosts of different byte order compute the same bytes for packets of whole words. */
  lemma ByteOrderIndependent(data: seq<Byte>)
    requires |data| % 2 == 0
    ensures Sum16(data, false) == Swap16(Sum16(data, true))
    ensures Store16(Sum16(data, false), false) == Store16(Sum16(data, true), true)
  {
    var s, t := Sum(data, true), Sum(data, false);
    var k := SumsInBothOrders(data);
    SwapFolded(s, t, k);
    SwapComplement(Folded(s));
    StoreSwapped(Sum16(data, true));
  }

  lemma StoreSwapped(w: nat)
    requires w < 65536
    ensures Store16(Swap16(w), false) == Store16(w, true)
  {
    DivModUnique(Swap16(w), 256, w % 256, w / 256);
  }

  lemma SwapFolded(s: nat, t: nat, k: int)
    requires 256 * s == t + 65535 * k && (s == 0 <==> t == 0)
    ensures Folded(t) == Swap16(Folded(s))
  {
    var f := Folded(s);
    var l := if s == 0 then 0 else (s - 1) / 65535;
    assert s == f + 65535 * l;
    assert 256 * f == Swap16(f) + 65535 * (f / 256);
    SameRemainder(t, Swap16(f), k - 256 * l - f / 256);
    FoldedSmall(Swap16(f));
  }

  lemma SwapComplement(w: nat)
    requires w < 65536
    ensures Swap16(65535 - w) == 65535 - Swap16(w)
  {
    DivModUnique(65535 - w, 256, 255 - w / 256, 255 - w % 256);
  }

  /** An odd last byte is padded with a zero byte on a little endian host; on a big endian one it is
      not, unless it is zero itself. */
  lemma OddLengthPadding(data: seq<Byte>, little: bool)
    requires |data| % 2 == 1
    ensures Sum16(data, little) == Sum16(data + [0], little) <==> little || data[|data| - 1] == 0
  {
    SumPadded(data, little);
    var s, b := Sum(data, little), data[|data| - 1] as int;
    if b > 0 { FoldedDiffers(s, 255 * b); }
  }

  /** A single octet on a big endian host. */
  lemma OddOctet()
    ensures Sum16([1], false) == 65534 && Sum16([1, 0], false) == 65279
  {
    assert Sum([1], false) == 1 && Sum([1, 0], false) == 256 by {
      assert [1, 0][2..] == [];
    }
  }

  lemma FoldedDiffers(s: nat, d: nat)
    requires s > 0 && 0 < d < 65535
    ensures Folded(s) != Folded(s + d)
  {
    var r, q := (s - 1) % 65535, (s - 1) / 65535;
    if r + d < 65535 {
      DivModUnique(s + d - 1, 65535, q, r + d);
    } else {
      DivModUnique(s + d - 1, 65535, q + 1, r + d - 65535);
    }
  }

  lemma {:induction false} SumPadded(data: seq<Byte>, little: bool)
    requires |data| % 2 == 1
    ensures Sum(data + [0], little) == Sum(data, little) + (if little then 0 else 255 * (data[|data| - 1] as int))
    ensures data[|data| - 1] > 0 ==> Sum(data, little) > 0
    decreases |data|
  {
    if |data| > 1 {
      assert (data + [0])[2..] == data[2..] + [0];
      SumPadded(data[2..], little);
    }
  }
}
