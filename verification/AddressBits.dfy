/**
 The bit layer below the address trie. A machine word is the sequence of its bits, most significant
 first, and an address the sequence of its bits in network order.
 */
module AddressBits {

  type Bits = seq<bool>

  datatype Family = Inet | Inet6

  datatype Address = Address(family: Family, bits: Bits) {
    predicate Valid() {
      |bits| == Width(family)
    }
  }

  function Width(f: Family): nat {
    if f == Inet then 32 else 128
  }

  // ---------------------------------------------------------------- words

  /** Reverses the order of the bytes of a word. */
  function Swap(w: Bits): (r: Bits)
    requires |w| == 16 || |w| == 32
    ensures |r| == |w|
  {
    if |w| == 16 then w[8..] + w[..8] else w[24..] + w[16..24] + w[8..16] + w[..8]
  }

  /** ntohl() and ntohs(), which is also what loading a word in network order amounts to. */
  function Ntoh(w: Bits, little: bool): (r: Bits)
    requires |w| == 16 || |w| == 32
    ensures |r| == |w|
  {
    if little then Swap(w) else w
  }

  function And(a: Bits, b: Bits): (r: Bits)
    requires |a| == |b|
    ensures |r| == |a|
  {
    seq(|a|, i requires 0 <= i < |a| => a[i] && b[i])
  }

  predicate NonZero(w: Bits) {
    exists i :: 0 <= i < |w| && w[i]
  }

  /** The `k` highest of `n` bits are set: all ones shifted left. */
  function Top(n: nat, k: int): (r: Bits)
    ensures |r| == n
  {
    seq(n, i requires 0 <= i < n => i < k)
  }

  /** The highest of `n` bits shifted right by `k`. */
  function OneBit(n: nat, k: nat): (r: Bits)
    ensures |r| == n
  {
    seq(n, i requires 0 <= i < n => i == k)
  }

  /** Shift a mask right by one and set its highest bit. */
  function Widen(mask: Bits): (r: Bits)
    requires |mask| > 0
    ensures |r| == |mask|
  {
    [true] + mask[..|mask| - 1]
  }

  /** The 16-bit block of an IPv6 address, as it is in memory. */
  function Block(a: Bits, i: nat): (r: Bits)
    requires |a| == 128 && i < 8
    ensures |r| == 16
  {
    a[i * 16 .. i * 16 + 16]
  }

  // ---------------------------------------------------------------- what the layer is for

  /** The number of leading bits that two sequences share. */
  function CommonPrefix(a: Bits, b: Bits): (n: nat)
    ensures n <= |a| && n <= |b|
    ensures a[..n] == b[..n]
    ensures n < |a| && n < |b| ==> a[n] != b[n]
  {
    if a == [] || b == [] || a[0] != b[0] then 0
    else
      var n := CommonPrefix(a[1..], b[1..]);
      assert a[..n + 1] == [a[0]] + a[1..][..n];
      assert b[..n + 1] == [b[0]] + b[1..][..n];
      n + 1
  }

  /** The first `len` bits agree, or all of them if there are fewer. */
  predicate Agree(a: Bits, b: Bits, len: nat)
    requires |a| == |b|
  {
    var n := if len < |a| then len else |a|;
    a[..n] == b[..n]
  }

  lemma AgreeIffCommonPrefix(a: Bits, b: Bits, len: nat)
    requires |a| == |b|
    ensures Agree(a, b, len) <==> CommonPrefix(a, b) >= len || CommonPrefix(a, b) == |a|
  {
    var n, c := if len < |a| then len else |a|, CommonPrefix(a, b);
    if n <= c {
      assert a[..n] == a[..c][..n] && b[..n] == b[..c][..n];
    } else {
      assert a[..n][c] != b[..n][c];
    }
  }

  // ---------------------------------------------------------------- masks

  /** Byte order does not matter when the same mask is laid over two words. */
  lemma MaskInAnyOrder(a: Bits, b: Bits, mask: Bits, little: bool)
    requires |a| == |b| == |mask| && (|a| == 16 || |a| == 32)
    ensures And(Ntoh(a, little), Ntoh(mask, little)) == And(Ntoh(b, little), Ntoh(mask, little)) <==>
            And(a, mask) == And(b, mask)
    ensures NonZero(And(Ntoh(a, little), Ntoh(mask, little))) <==> NonZero(And(a, mask))
  {
    if little {
      SwapAnd(a, mask);
      SwapAnd(b, mask);
      SwapTwice(And(a, mask));
      SwapTwice(And(b, mask));
      SwapNonZero(And(a, mask));
    }
  }

  lemma SwapAnd(a: Bits, mask: Bits)
    requires |a| == |mask| && (|a| == 16 || |a| == 32)
    ensures And(Swap(a), Swap(mask)) == Swap(And(a, mask))
  {
  }

  lemma SwapTwice(w: Bits)
    requires |w| == 16 || |w| == 32
    ensures Swap(Swap(w)) == w
  {
    var r := Swap(w);
    if |w| == 16 {
      assert r[8..] == w[..8] && r[..8] == w[8..];
    } else {
      assert r[24..] == w[..8] && r[16..24] == w[8..16] && r[8..16] == w[16..24] && r[..8] == w[24..];
    }
  }

  lemma SwapNonZero(w: Bits)
    requires |w| == 16 || |w| == 32
    ensures NonZero(Swap(w)) <==> NonZero(w)
  {
    var r := Swap(w);
    assert w == Swap(r) by { SwapTwice(w); }
    assert forall x :: x in r <==> x in w;
    assert NonZero(w) <==> true in w;
    assert NonZero(r) <==> true in r;
  }

  lemma TopMask(a: Bits, b: Bits, k: nat)
    requires |a| == |b| && k <= |a|
    ensures And(a, Top(|a|, k)) == And(b, Top(|a|, k)) <==> a[..k] == b[..k]
  {
    var x, y := And(a, Top(|a|, k)), And(b, Top(|a|, k));
    if x == y {
      forall i | 0 <= i < k
        ensures a[i] == b[i]
      {
        assert x[i] == y[i];
      }
    }
    if a[..k] == b[..k] {
      forall i | 0 <= i < |a|
        ensures x[i] == y[i]
      {
        if i < k { assert a[..k][i] == b[..k][i]; }
      }
    }
  }

  lemma WidenTop(n: nat, k: nat)
    requires n > 0 && 0 < k
    ensures Widen(Top(n, k)) == Top(n, k + 1)
  {
  }

  // ---------------------------------------------------------------- the functions of the source

  /** get_bit_at_index(): -1 when the index is outside the address. */
  method GetBitAtIndex(a: Address, index: int, little: bool) returns (r: int)
    requires a.Valid()
    ensures r == BitAt(a.bits, index)
  {
    if index < 0 || index >= Width(a.family) {
      return -1;
    }
    if a.family == Inet {
      var offset := Ntoh(OneBit(32, index), little);
      r := if NonZero(And(Ntoh(a.bits, little), offset)) then 1 else 0;
      MaskInAnyOrder(a.bits, a.bits, OneBit(32, index), little);
      OneBitMask(a.bits, index);
    } else {
      var field := index / 16;
      var offset := Ntoh(OneBit(16, index % 16), little);
      r := if NonZero(And(Ntoh(Block(a.bits, field), little), offset)) then 1 else 0;
      MaskInAnyOrder(Block(a.bits, field), Block(a.bits, field), OneBit(16, index % 16), little);
      OneBitMask(Block(a.bits, field), index % 16);
    }
  }

  /** The bit at an index, or -1 outside the address. */
  function BitAt(a: Bits, index: int): (r: int)
    ensures (r == 1 <==> 0 <= index < |a| && a[index]) && (r == 0 <==> 0 <= index < |a| && !a[index])
    ensures r == -1 <==> index < 0 || index >= |a|
  {
    if 0 <= index < |a| then (if a[index] then 1 else 0) else -1
  }

  lemma OneBitMask(a: Bits, k: nat)
    requires k < |a|
    ensures NonZero(And(a, OneBit(|a|, k))) <==> a[k]
  {
    if a[k] { assert And(a, OneBit(|a|, k))[k]; }
  }

  /** get_matching_prefix_length() counts the leading bits that match. */
  method GetMatchingPrefixLength(a: Address, b: Address, little: bool) returns (count: int)
    requires a.Valid() && b.Valid()
    ensures a.family != b.family ==> count == -1
    ensures a.family == b.family ==> count == CommonPrefix(a.bits, b.bits)
    ensures a.family == b.family && count < Width(a.family) ==> BitAt(a.bits, count) != BitAt(b.bits, count)
  {
    if a.family != b.family {
      return -1;
    }
    if a.family == Inet {
      count := CountBits(a.bits, b.bits, 0, little);
      MatchIsCommonPrefix(a.bits, b.bits, count);
    } else {
      count := 0;
      for i := 0 to 8
        invariant count == i * 16
        invariant a.bits[..count] == b.bits[..count]
      {
        var x, y := Ntoh(Block(a.bits, i), little), Ntoh(Block(b.bits, i), little);
        if x == y {
          SameBlock(Block(a.bits, i), Block(b.bits, i), little);
          NextBlock(a.bits, b.bits, i, 16);
          count := count + 16;
        } else {
          SameBlock(Block(a.bits, i), Block(b.bits, i), little);
          var extra := CountBits(Block(a.bits, i), Block(b.bits, i), count, little);
          NextBlock(a.bits, b.bits, i, extra);
          count := count + extra;
          assert a.bits[count] == Block(a.bits, i)[extra] && b.bits[count] == Block(b.bits, i)[extra];
          break;
        }
      }
      MatchIsCommonPrefix(a.bits, b.bits, count);
    }
  }

  lemma SameBlock(x: Bits, y: Bits, little: bool)
    requires |x| == |y| == 16
    ensures Ntoh(x, little) == Ntoh(y, little) <==> x == y
  {
    SwapTwice(x);
    SwapTwice(y);
  }

  lemma NextBlock(a: Bits, b: Bits, i: nat, k: nat)
    requires |a| == |b| == 128 && i < 8 && k <= 16
    requires a[..i * 16] == b[..i * 16] && Block(a, i)[..k] == Block(b, i)[..k]
    ensures a[..i * 16 + k] == b[..i * 16 + k]
  {
    assert a[..i * 16 + k] == a[..i * 16] + Block(a, i)[..k];
    assert b[..i * 16 + k] == b[..i * 16] + Block(b, i)[..k];
  }

  lemma MatchIsCommonPrefix(a: Bits, b: Bits, n: nat)
    requires |a| == |b| && n <= |a|
    requires a[..n] == b[..n] && (n < |a| ==> a[n] != b[n])
    ensures CommonPrefix(a, b) == n
  {
    var c := CommonPrefix(a, b);
    if c < n { AtIndex(a, b, n, c); }
    if n < c { AtIndex(a, b, c, n); }
  }

  lemma AtIndex(a: Bits, b: Bits, n: nat, i: nat)
    requires i < n <= |a| && n <= |b| && a[..n] == b[..n]
    ensures a[i] == b[i]
  {
    assert a[i] == a[..n][i];
  }

  /** The loop that widens a mask over one word until the masked words differ, started when `counted`
      bits have been counted. What stops it over a block of an IPv6 address is that the blocks differ. */
  method CountBits(a: Bits, b: Bits, counted: int, little: bool) returns (count: nat)
    requires |a| == |b| && (|a| == 16 || |a| == 32)
    requires if |a| == 32 then counted == 0 else 0 <= counted <= 112 && a != b
    ensures count <= |a| && a[..count] == b[..count]
    ensures count < |a| ==> a[count] != b[count]
    ensures |a| == 16 ==> count < 16
  {
    var mask := Top(|a|, 1);
    var maxlen := if |a| == 32 then 32 else 128;
    count := 0;
    while counted + count < maxlen &&
        And(Ntoh(a, little), Ntoh(mask, little)) == And(Ntoh(b, little), Ntoh(mask, little))
      invariant count <= |a| && (|a| == 16 ==> count < 16)
      invariant mask == Top(|a|, count + 1)
      invariant a[..count] == b[..count]
    {
      MaskedMatch(a, b, count, little);
      WidenTop(|a|, count + 1);
      count := count + 1;
      mask := Widen(mask);
    }
    if count < |a| { MaskedMatch(a, b, count, little); }
  }

  /** With `k` leading bits known to match, the mask of one bit more tests the next bit. */
  lemma MaskedMatch(a: Bits, b: Bits, k: nat, little: bool)
    requires |a| == |b| && (|a| == 16 || |a| == 32) && k < |a| && a[..k] == b[..k]
    ensures var mask := Ntoh(Top(|a|, k + 1), little);
            And(Ntoh(a, little), mask) == And(Ntoh(b, little), mask) <==> a[k] == b[k]
    ensures a[k] == b[k] ==> a[..k + 1] == b[..k + 1] && (k + 1 == |a| ==> a == b)
  {
    MaskInAnyOrder(a, b, Top(|a|, k + 1), little);
    TopMask(a, b, k + 1);
    OneMore(a, b, k);
  }

  lemma OneMore(a: Bits, b: Bits, k: nat)
    requires k < |a| == |b| && a[..k] == b[..k]
    ensures a[..k + 1] == b[..k + 1] <==> a[k] == b[k]
    ensures k + 1 == |a| ==> (a == b <==> a[k] == b[k])
  {
    assert a[..k + 1] == a[..k] + [a[k]] && b[..k + 1] == b[..k] + [b[k]];
    assert a[..|a|] == a && b[..|a|] == b;
  }

  /** How two words of the same size compare as numbers, and two byte strings under memcmp(). */
  function Order(a: Bits, b: Bits): (r: int)
    requires |a| == |b|
    ensures r == 0 <==> a == b
  {
    var c := CommonPrefix(a, b);
    assert c == |a| ==> a[..c] == a && b[..c] == b;
    if c == |a| then 0 else if a[c] then 1 else -1
  }

  /** compare_addresses(), of which only zero or not is told: it is zero just when the families agree
      and so do the first `len` bits. */
  method CompareAddresses(a: Address, b: Address, len: nat, little: bool) returns (r: int)
    requires a.Valid() && b.Valid() && len < 256
    ensures r == 0 <==> a.family == b.family && Agree(a.bits, b.bits, len)
  {
    if a.family != b.family {
      return if a.family == Inet6 then 1 else -1;
    }
    if len == 0 {
      return 0;
    }
    if a.family == Inet {
      if len < 32 {
        var mask := Ntoh(Top(32, len), little);
        MaskInAnyOrder(a.bits, b.bits, Top(32, len), little);
        TopMask(a.bits, b.bits, len);
        return Order(And(Ntoh(a.bits, little), mask), And(Ntoh(b.bits, little), mask));
      }
      assert a.bits[..32] == a.bits && b.bits[..32] == b.bits;
      return Order(a.bits, b.bits);
    }
    if len < 128 {
      var mask := Top(16, 16);
      var i := 0;
      while i < 8 && mask == Top(16, 16)
        invariant 0 <= i <= 8
        invariant mask == Top(16, 16) ==> i * 16 <= len && a.bits[..i * 16] == b.bits[..i * 16]
        invariant mask != Top(16, 16) ==> a.bits[..len] == b.bits[..len]
        decreases 8 - i
      {
        var bits := if len < (i + 1) * 16 then len - i * 16 else 16;
        if len < (i + 1) * 16 {
          mask := Ntoh(Top(16, len - i * 16), little);
          NotFull(len - i * 16, little);
        } else {
          FullAnyOrder(little);
        }
        var x, y := Block(a.bits, i), Block(b.bits, i);
        MaskInAnyOrder(x, y, Top(16, bits), little);
        TopMask(x, y, bits);
        if And(Ntoh(x, little), mask) != And(Ntoh(y, little), mask) {
          DifferIn(a.bits, b.bits, i, bits, len);
          return Order(And(Ntoh(x, little), mask), And(Ntoh(y, little), mask));
        }
        NextBlock(a.bits, b.bits, i, bits);
        i := i + 1;
      }
      return 0;
    }
    assert a.bits[..128] == a.bits && b.bits[..128] == b.bits;
    return Order(a.bits, b.bits);
  }

  lemma DifferIn(a: Bits, b: Bits, i: nat, k: nat, len: nat)
    requires |a| == |b| == 128 && i < 8 && k <= 16 && i * 16 + k <= len <= 128
    requires Block(a, i)[..k] != Block(b, i)[..k]
    ensures !Agree(a, b, len)
  {
    assert Block(a, i)[..k] == a[..len][i * 16 .. i * 16 + k];
    assert Block(b, i)[..k] == b[..len][i * 16 .. i * 16 + k];
  }

  lemma NotFull(k: nat, little: bool)
    requires k < 16
    ensures Ntoh(Top(16, k), little) != Top(16, 16)
  {
    var m := Top(16, k);
    assert !m[15];
    assert !Swap(m)[7];
    assert Top(16, 16)[15] && Top(16, 16)[7];
  }

  lemma FullAnyOrder(little: bool)
    ensures Ntoh(Top(16, 16), little) == Top(16, 16)
  {
  }
}
