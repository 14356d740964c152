/** Octets, and 16-bit numbers in network order. */
module Bytes {
  import opened Seqs

  type Byte = b: int | 0 <= b < 256

  function Be16(n: nat): (r: seq<Byte>)
    requires n < 65536
    ensures |r| == 2
  {
    [n / 256, n % 256]
  }

  function At16(s: seq<Byte>, i: nat): (n: nat)
    requires i + 1 < |s|
    ensures n < 65536
  {
    s[i] as int * 256 + s[i + 1]
  }

  lemma Be16At(s: seq<Byte>, i: nat, n: nat)
    requires n < 65536 && Holds(s, i, Be16(n))
    ensures At16(s, i) == n
  {
    HoldsAt(s, i, Be16(n), 0);
    HoldsAt(s, i, Be16(n), 1);
  }
}
