/**
 The packets of the fastping test: an echo request with a 16-bit sequence number in its header and the
 full 64-bit one in its payload, in the byte order of the host, and what is read from a reply.
 */
module FastpingPacket {
  import opened Arith
  import opened Bytes
  import opened Seqs
  import opened Checksum
  import opened AddressBits

  const IP_HEADER := 20
  const IP6_HEADER := 40
  const ICMP_HEADER := 8
  const MINIMUM_SIZE := IP6_HEADER + ICMP_HEADER + 8
  const RESPONSE_LENGTH := IP_HEADER + 60 + ICMP_HEADER + 8

  // ---------------------------------------------------------------- words of 64 bits

  function Pow256(k: nat): (r: nat)
    ensures r > 0
  {
    if k == 0 then 1 else 256 * Pow256(k - 1)
  }

  /** A number in memory, the lowest octet first. */
  function Little(n: nat, k: nat): (r: seq<Byte>)
    ensures |r| == k
  {
    if k == 0 then [] else [n % 256] + Little(n / 256, k - 1)
  }

  function FromLittle(s: seq<Byte>): nat {
    if s == [] then 0 else s[0] + 256 * FromLittle(s[1..])
  }

  lemma {:induction false} LittleRoundTrip(n: nat, k: nat)
    requires n < Pow256(k)
    ensures FromLittle(Little(n, k)) == n
  {
    if k > 0 {
      LittleRoundTrip(n / 256, k - 1);
      Cons((n % 256) as Byte, Little(n / 256, k - 1));
    }
  }

  lemma ReversedTwice(s: seq<Byte>)
    ensures Reversed(Reversed(s)) == s
  {
  }

  /** A 64-bit number in the memory of a host of either byte order. */
  function Store64(n: nat, little: bool): (r: seq<Byte>)
    ensures |r| == 8
  {
    if little then Little(n, 8) else Reversed(Little(n, 8))
  }

  function Load64(s: seq<Byte>, little: bool): nat
    requires |s| == 8
  {
    FromLittle(if little then s else Reversed(s))
  }

  lemma LoadStored(n: nat, little: bool)
    requires n < TWO_64
    ensures Load64(Store64(n, little), little) == n
  {
    EightOctets();
    LittleRoundTrip(n, 8);
    ReversedTwice(Little(n, 8));
  }

  /** A 64-bit number as a signed one. */
  function Signed(n: nat): int
    requires n < TWO_64
  {
    if n < TWO_63 then n else n - TWO_64
  }

  /** It is the one number of that range with the same remainder. */
  lemma SignedIs(n: nat)
    requires n < TWO_64
    ensures -TWO_63 <= Signed(n) < TWO_63 && Signed(n) % TWO_64 == n
  {
  }

  // ---------------------------------------------------------------- probes

  function HeaderLength(f: Family): nat {
    if f == Inet then IP_HEADER else IP6_HEADER
  }

  function EchoRequest(f: Family): Byte {
    if f == Inet then 8 else 128
  }

  function EchoReply(f: Family): Byte {
    if f == Inet then 0 else 129
  }

  function Zeros(n: nat): (r: seq<Byte>)
    ensures |r| == n && forall i :: 0 <= i < n ==> r[i] == 0
  {
    seq(n, _ => 0)
  }

  /** What a probe holds behind its checksum. */
  function Body(length: nat, seqno: nat, ident: nat, magic: nat, little: bool): (r: seq<Byte>)
    requires length >= 16 && seqno < 65536 && ident < 65536
    ensures |r| == length - 4
  {
    Be16(ident) + Be16(seqno) + Store64(magic, little) + Zeros(length - 16)
  }

  function Unsummed(f: Family, length: nat, seqno: nat, ident: nat, magic: nat, little: bool): (r: seq<Byte>)
    requires length >= 16 && seqno < 65536 && ident < 65536
    ensures |r| == length && r[2] == 0 && r[3] == 0
  {
    [EchoRequest(f), 0, 0, 0] + Body(length, seqno, ident, magic, little)
  }

  /** A probe; the kernel fills in the checksum of ICMPv6. */
  function Probe(f: Family, length: nat, seqno: nat, ident: nat, magic: nat, little: bool): (r: seq<Byte>)
    requires length >= 16 && seqno < 65536 && ident < 65536
    ensures |r| == length
  {
    var p := Unsummed(f, length, seqno, ident, magic, little);
    if f == Inet then Put16(p, 2, Sum16(p, little), little) else p
  }

  /** A probe of a size is what is left of it behind the IP header: an echo request of RFC 792 or RFC 4443
      with the numbers in their places, and zeros behind them. */
  lemma ProbeFields(f: Family, size: nat, seqno: nat, ident: nat, magic: nat, little: bool)
    requires size >= MINIMUM_SIZE && seqno < 65536 && ident < 65536 && magic < TWO_64
    ensures var p := Probe(f, size - HeaderLength(f), seqno, ident, magic, little);
            && |p| + (if f == Inet then 20 else 40) == size && |p| >= 16
            && p[0] == (if f == Inet then 8 else 128) && p[1] == 0
            && (f == Inet6 ==> p[2] == 0 && p[3] == 0)
            && At16(p, 4) == ident && At16(p, 6) == seqno
            && Load64(p[8..16], little) == magic && forall i :: 16 <= i < |p| ==> p[i] == 0
  {
    var length := size - HeaderLength(f);
    ProbeFront(f, length, seqno, ident, magic, little);
    BodyFields(Probe(f, length, seqno, ident, magic, little), length, seqno, ident, magic, little);
  }

  lemma ProbeFront(f: Family, length: nat, seqno: nat, ident: nat, magic: nat, little: bool)
    requires length >= 16 && seqno < 65536 && ident < 65536
    ensures var p := Probe(f, length, seqno, ident, magic, little);
            && p[4..] == Body(length, seqno, ident, magic, little) && p[0] == EchoRequest(f) && p[1] == 0
            && (f == Inet6 ==> p[2] == 0 && p[3] == 0)
  {
  }

  lemma BodyFields(p: seq<Byte>, length: nat, seqno: nat, ident: nat, magic: nat, little: bool)
    requires length >= 16 && seqno < 65536 && ident < 65536 && magic < TWO_64
    requires |p| == length && p[4..] == Body(length, seqno, ident, magic, little)
    ensures At16(p, 4) == ident && At16(p, 6) == seqno && Load64(p[8..16], little) == magic
    ensures forall i :: 16 <= i < length ==> p[i] == 0
  {
    var body := p[4..];
    assert p[4] == body[0] && p[5] == body[1] && p[6] == body[2] && p[7] == body[3];
    assert p[8..16] == body[4..12] == Store64(magic, little);
    LoadStored(magic, little);
    assert forall i :: 16 <= i < length ==> p[i] == body[i - 4];
  }

  /** The checksum of an IPv4 probe checks out. */
  lemma ProbeChecksOut(length: nat, seqno: nat, ident: nat, magic: nat, little: bool)
    requires length >= 16 && seqno < 65536 && ident < 65536
    ensures Sum16(Probe(Inet, length, seqno, ident, magic, little), little) == 0
  {
    StoredChecksumVerifies(Unsummed(Inet, length, seqno, ident, magic, little), 2, little);
  }

  /** The fields of a probe, in a packet of zeros. */
  method FillFields(f: Family, packet: array<Byte>, seqno: nat, ident: nat, magic: nat, little: bool)
    requires packet.Length >= 16 && seqno < 65536 && ident < 65536 && magic < TWO_64
    requires forall i :: 0 <= i < packet.Length ==> packet[i] == 0
    modifies packet
    ensures packet[..] == Unsummed(f, packet.Length, seqno, ident, magic, little)
  {
    packet[0] := EchoRequest(f);
    packet[4], packet[5] := ident / 256, ident % 256;
    packet[6], packet[7] := seqno / 256, seqno % 256;
    var word := Store64(magic, little);
    forall i | 0 <= i < 8 {
      packet[ICMP_HEADER + i] := word[i];
    }
  }

  /** build_packet(). */
  method BuildPacket(f: Family, packet: array<Byte>, seqno: nat, ident: nat, magic: nat, little: bool)
    returns (length: nat)
    requires MINIMUM_SIZE <= packet.Length < 65536 && seqno < 65536 && ident < 65536 && magic < TWO_64
    modifies packet
    ensures length == packet.Length - HeaderLength(f)
    ensures packet[..length] == Probe(f, length, seqno, ident, magic, little)
    ensures packet[length..] == Zeros(HeaderLength(f))
  {
    forall i | 0 <= i < packet.Length {
      packet[i] := 0;
    }
    FillFields(f, packet, seqno, ident, magic, little);
    length := packet.Length - HeaderLength(f);
    Shorter(f, packet.Length, length, seqno, ident, magic, little);
    if f == Inet {
      var sum := ComputeChecksum(packet[..length], little);
      packet[2], packet[3] := Store16(sum, little).0, Store16(sum, little).1;
    }
  }

  lemma Shorter(f: Family, size: nat, length: nat, seqno: nat, ident: nat, magic: nat, little: bool)
    requires 16 <= length <= size && seqno < 65536 && ident < 65536
    ensures var p := Unsummed(f, size, seqno, ident, magic, little);
            p[..length] == Unsummed(f, length, seqno, ident, magic, little) && p[length..] == Zeros(size - length)
  {
  }

  // ---------------------------------------------------------------- replies

  /** extract_data() on the response buffer: the number in the payload of a reply to one of our probes,
      or a negative number. */
  function ExtractData(f: Family, response: seq<Byte>, length: nat, ident: nat, fromDestination: bool,
                       little: bool): int
    requires |response| == RESPONSE_LENGTH && ident < 65536
  {
    if f == Inet && length < MINIMUM_SIZE then -1
    else if f == Inet6 && length < ICMP_HEADER + 8 then -1
    else
      var icmp := if f == Inet then response[0] % 16 * 4 else 0;
      if response[icmp] != EchoReply(f) then -1
      else if At16(response, icmp + 4) != ident then -1
      else if !fromDestination then -1
      else
        var magic := LoadWord(response, (if f == Inet then IP_HEADER else 0) + ICMP_HEADER, little);
        if magic % 65536 != At16(response, icmp + 6) then -1
        else Signed(magic)
  }

  /** A packet is credited to a number just when it is long enough, is an echo reply with our identifier from
      the destination, and the signed number where the payload is read is not negative and ends in its
      sequence number. */
  lemma CreditedIff(f: Family, response: seq<Byte>, length: nat, ident: nat, fromDestination: bool, little: bool,
                    n: nat)
    requires |response| == RESPONSE_LENGTH && ident < 65536
    ensures var icmp := if f == Inet then response[0] % 16 * 4 else 0;
            var at := if f == Inet then 28 else 8;
            ExtractData(f, response, length, ident, fromDestination, little) == n <==>
            && length >= (if f == Inet then MINIMUM_SIZE else 16)
            && response[icmp] == (if f == Inet then 0 else 129) && At16(response, icmp + 4) == ident
            && fromDestination && n < TWO_63
            && LoadWord(response, at, little) == n && At16(response, icmp + 6) == n % 65536
  {
  }

  function LoadWord(s: seq<Byte>, at: nat, little: bool): (n: nat)
    requires at + 8 <= |s|
    ensures n < TWO_64
  {
    LoadBound(s[at..at + 8], little);
    Load64(s[at..at + 8], little)
  }

  lemma {:induction false} FromLittleBound(s: seq<Byte>)
    ensures FromLittle(s) < Pow256(|s|)
  {
    if s != [] { FromLittleBound(s[1..]); }
  }

  lemma EightOctets()
    ensures Pow256(8) == TWO_64
  {
    assert Pow256(2) == 65536;
    assert Pow256(4) == 65536 * Pow256(2);
    assert Pow256(6) == 65536 * Pow256(4);
    assert Pow256(8) == 65536 * Pow256(6);
  }

  lemma LoadBound(s: seq<Byte>, little: bool)
    requires |s| == 8
    ensures Load64(s, little) < TWO_64
  {
    EightOctets();
    FromLittleBound(if little then s else Reversed(s));
  }

  /** The response buffer holds a packet, cut to the length of the buffer or with older octets behind. */
  predicate Received(response: seq<Byte>, length: nat, packet: seq<Byte>) {
    && |response| == RESPONSE_LENGTH
    && length == (if |packet| <= RESPONSE_LENGTH then |packet| else RESPONSE_LENGTH)
    && response[..length] == packet[..length]
  }

  /** Where the payload of a reply is read. */
  function PayloadAt(f: Family): nat {
    (if f == Inet then IP_HEADER else 0) + ICMP_HEADER
  }

  /** The echo of a probe: the IPv4 header in front of it, a type and checksum of its own, and the fields
      of the probe. */
  datatype Reply = Reply(family: Family, headers: seq<Byte>, sum: (Byte, Byte), size: nat,
                         seqno: nat, ident: nat, magic: nat)
  {
    predicate Valid() {
      && MINIMUM_SIZE <= size && seqno < 65536 && ident < 65536 && magic < TWO_64
      && if family == Inet then IP_HEADER <= |headers| <= 60 && |headers| == headers[0] % 16 * 4 else headers == []
    }

    predicate Plain() {
      |headers| == if family == Inet then IP_HEADER else 0
    }

    function Head(): (r: seq<Byte>)
      ensures |r| == |headers| + 4
    {
      headers + [EchoReply(family), 0, sum.0, sum.1]
    }

    /** The octets up to the end of the payload. */
    function Front(little: bool): (r: seq<Byte>)
      requires Valid()
      ensures |r| == |headers| + 16
    {
      Head() + (Be16(ident) + Be16(seqno) + Store64(magic, little))
    }

    function Octets(little: bool): seq<Byte>
      requires Valid()
    {
      Head() + Body(size - HeaderLength(family), seqno, ident, magic, little)
    }

    /** The octets at the place where the payload is read, and the number in them. */
    function Window(little: bool): (r: seq<Byte>)
      requires Valid()
      ensures |r| == 8
    {
      Front(little)[PayloadAt(family)..PayloadAt(family) + 8]
    }

    function Word(little: bool): (n: nat)
      requires Valid()
      ensures n < TWO_64
    {
      LoadBound(Window(little), little);
      Load64(Window(little), little)
    }
  }

  /** A reply repeats the probe behind its checksum. */
  lemma ReplyEchoes(r: Reply, little: bool)
    requires r.Valid()
    ensures var probe := Probe(r.family, r.size - HeaderLength(r.family), r.seqno, r.ident, r.magic, little);
            r.Octets(little) == r.Head() + probe[4..]
  {
  }

  /** A reply in the response buffer is credited to the number at the place where the payload is read, if
      it comes from the destination, carries our identifier, and the number ends in the sequence number;
      otherwise it is refused. */
  lemma EchoRead(r: Reply, response: seq<Byte>, length: nat, ours: nat, fromDestination: bool, little: bool)
    requires r.Valid() && ours < 65536 && Received(response, length, r.Octets(little))
    ensures ExtractData(r.family, response, length, ours, fromDestination, little) ==
            if fromDestination && r.ident == ours && r.Word(little) % 65536 == r.seqno then Signed(r.Word(little))
            else -1
  {
    EchoFields(r, response, length, little);
  }

  lemma EchoFields(r: Reply, response: seq<Byte>, length: nat, little: bool)
    requires r.Valid() && Received(response, length, r.Octets(little))
    ensures var at := |r.headers|;
            && length >= (if r.family == Inet then MINIMUM_SIZE else ICMP_HEADER + 8)
            && (r.family == Inet ==> response[0] % 16 * 4 == at) && response[at] == EchoReply(r.family)
            && At16(response, at + 4) == r.ident && At16(response, at + 6) == r.seqno
            && LoadWord(response, PayloadAt(r.family), little) == r.Word(little)
  {
    var at, mark := |r.headers|, [EchoReply(r.family), 0, r.sum.0, r.sum.1];
    var fields := Be16(r.ident) + Be16(r.seqno) + Store64(r.magic, little);
    FrontStands(r, response, length, little);
    HoldsSlice(response, r.Front(little), PayloadAt(r.family), PayloadAt(r.family) + 8);
    HoldsBoth(response, 0, r.Head(), fields);
    HoldsBoth(response, 0, r.headers, mark);
    HoldsAt(response, at, mark, 0);
    if r.family == Inet {
      HoldsAt(response, 0, r.headers, 0);
    }
    HoldsBoth(response, at + 4, Be16(r.ident) + Be16(r.seqno), Store64(r.magic, little));
    HoldsBoth(response, at + 4, Be16(r.ident), Be16(r.seqno));
    Be16At(response, at + 4, r.ident);
    Be16At(response, at + 6, r.seqno);
  }

  lemma FrontStands(r: Reply, response: seq<Byte>, length: nat, little: bool)
    requires r.Valid() && Received(response, length, r.Octets(little))
    ensures Holds(response, 0, r.Front(little))
  {
    var n := |r.headers| + 16;
    assert r.Octets(little)[..n] == r.Front(little);
    assert response[..n] == response[..length][..n] == r.Octets(little)[..length][..n] == r.Octets(little)[..n];
  }

  /** Without options the payload is read where it is. */
  lemma PlainWord(r: Reply, little: bool)
    requires r.Valid() && r.Plain()
    ensures r.Word(little) == r.magic
  {
    assert r.Window(little) == Store64(r.magic, little);
    LoadStored(r.magic, little);
  }

  /** The reply to the probe with a 63-bit number is credited to that number just when the number stands
      where the payload is read, as it does without options. */
  lemma EchoCreditedIff(r: Reply, response: seq<Byte>, length: nat, n: nat, little: bool)
    requires r.Valid() && n < TWO_63 && r.magic == n && r.seqno == n % 65536
    requires Received(response, length, r.Octets(little))
    ensures ExtractData(r.family, response, length, r.ident, true, little) == n <==> r.Word(little) == n
    ensures r.Plain() ==> ExtractData(r.family, response, length, r.ident, true, little) == n
  {
    EchoRead(r, response, length, r.ident, true, little);
    if r.Plain() { PlainWord(r, little); }
  }

  // ---------------------------------------------------------------- replies with IP options

  lemma {:induction false} FromLittleConcat(a: seq<Byte>, b: seq<Byte>)
    ensures FromLittle(a + b) == FromLittle(a) + Pow256(|a|) * FromLittle(b)
    decreases |a|
  {
    if a == [] {
      assert a + b == b;
    } else {
      FromLittleConcat(a[1..], b);
      assert (a + b)[1..] == a[1..] + b;
      MulAssoc(256, Pow256(|a| - 1), FromLittle(b));
    }
  }

  lemma MulAssoc(x: int, y: int, z: int)
    ensures x * (y * z) == x * y * z
  {
  }

  /** The low octets of a number, and the others. */
  lemma {:induction false} LittleSplit(n: nat, k: nat, j: nat)
    requires j <= k
    ensures Little(n, k)[..j] == Little(n, j) && Little(n, k)[j..] == Little(n / Pow256(j), k - j)
    decreases j
  {
    if j > 0 {
      LittleSplit(n / 256, k - 1, j - 1);
      DivTwice(n, 256, Pow256(j - 1));
      var rest := Little(n / 256, k - 1);
      assert ([(n % 256) as Byte] + rest)[..j] == [(n % 256) as Byte] + rest[..j - 1];
      assert ([(n % 256) as Byte] + rest)[j..] == rest[j - 1..];
    }
  }

  lemma {:induction false} LittleMod(n: nat, k: nat)
    ensures FromLittle(Little(n, k)) == n % Pow256(k)
    decreases k
  {
    if k > 0 {
      LittleMod(n / 256, k - 1);
      Cons((n % 256) as Byte, Little(n / 256, k - 1));
      ModTwice(n, Pow256(k - 1));
    }
  }

  lemma ModTwice(n: nat, b: nat)
    requires b > 0
    ensures n % 256 + 256 * (n / 256 % b) == n % (256 * b)
  {
    var q, m := n / 256 / b, n / 256 % b;
    assert n / 256 == q * b + m;
    assert q * (256 * b) == 256 * (q * b);
    assert 256 * m <= 256 * (b - 1);
    DivModUnique(n, 256 * b, q, n % 256 + 256 * m);
  }

  lemma Powers()
    ensures Pow256(2) == 65536 && Pow256(4) == 0x1_0000_0000 && Pow256(8) == TWO_64
  {
    assert Pow256(4) == 65536 * Pow256(2);
    EightOctets();
  }

  /** The lower and the upper half of a number as they stand in memory. */
  lemma Halves(n: nat)
    requires n < TWO_64
    ensures FromLittle(Store64(n, true)[..4]) == n % 0x1_0000_0000
    ensures FromLittle(Reversed(Store64(n, false)[..4])) == n / 0x1_0000_0000
  {
    Powers();
    var all := Little(n, 8);
    LittleSplit(n, 8, 4);
    LittleMod(n, 4);
    assert Reversed(Reversed(all)[..4]) == all[4..];
    LittleRoundTrip(n / 0x1_0000_0000, 4);
  }

  lemma ConcatBy(a: seq<Byte>, b: seq<Byte>, p: nat)
    requires Pow256(|a|) == p
    ensures FromLittle(a + b) == FromLittle(a) + p * FromLittle(b)
  {
    FromLittleConcat(a, b);
  }

  /** Octets in groups of two, two and four, and of four, two and two. */
  lemma Groups(a: seq<Byte>, b: seq<Byte>, four: seq<Byte>)
    requires |a| == |b| == 2 && |four| == 4
    ensures FromLittle(a + b + four) == FromLittle(a) + 65536 * FromLittle(b) + 0x1_0000_0000 * FromLittle(four)
    ensures FromLittle(four + (a + b)) ==
            FromLittle(four) + 0x1_0000_0000 * FromLittle(a) + 0x1_0000_0000_0000 * FromLittle(b)
  {
    Powers();
    ConcatBy(a, b, 65536);
    ConcatBy(a + b, four, 0x1_0000_0000);
    ConcatBy(four, a + b, 0x1_0000_0000);
  }

  lemma TwoOctets(a: Byte, b: Byte)
    ensures FromLittle([a, b]) == a as int + 256 * b as int
  {
    var one: seq<Byte>, two: seq<Byte> := [b], [a, b];
    assert one[1..] == [] && FromLittle(one) == b;
    assert two[1..] == one;
  }

  lemma ShortAsWord(x: nat)
    requires x < 65536
    ensures FromLittle(Be16(x)) == Swap16(x) && FromLittle(Reversed(Be16(x))) == x
  {
    TwoOctets(x / 256, x % 256);
    TwoOctets(x % 256, x / 256);
    assert Reversed(Be16(x)) == [x % 256, x / 256];
  }

  /** Two 16-bit fields and four octets, as a number of either byte order. */
  lemma FieldsAsWord(x: nat, y: nat, four: seq<Byte>)
    requires x < 65536 && y < 65536 && |four| == 4
    ensures var w := Be16(x) + Be16(y) + four;
            && FromLittle(w) == Swap16(x) + 65536 * Swap16(y) + 0x1_0000_0000 * FromLittle(four)
            && FromLittle(Reversed(w)) == FromLittle(Reversed(four)) + 0x1_0000_0000 * y + 0x1_0000_0000_0000 * x
  {
    ShortAsWord(x);
    ShortAsWord(y);
    Groups(Be16(x), Be16(y), four);
    Groups(Reversed(Be16(y)), Reversed(Be16(x)), Reversed(four));
    ReversedGroups(Be16(x), Be16(y), four);
  }

  lemma ReversedGroups(a: seq<Byte>, b: seq<Byte>, c: seq<Byte>)
    ensures Reversed(a + b + c) == Reversed(c) + (Reversed(b) + Reversed(a))
  {
    ReversedBoth(a + b, c);
    ReversedBoth(a, b);
  }

  lemma ReversedBoth(a: seq<Byte>, b: seq<Byte>)
    ensures Reversed(a + b) == Reversed(b) + Reversed(a)
  {
  }

  lemma Ending(x: nat, k: nat)
    requires x < 65536
    ensures (x + 65536 * k) % 65536 == x
  {
    DivModUnique(x + 65536 * k, 65536, k, x);
  }

  lemma EndingOf(x: nat, k: nat)
    ensures (x + 65536 * k) % 65536 == x % 65536
  {
    DivModUnique(x + 65536 * k, 65536, x / 65536 + k, x % 65536);
  }

  /** Four octets of options: what is read are the identifier, the sequence number and one half of the
      number, so the number ends in the identifier or in the middle of the right number. */
  lemma FourOptionOctets(r: Reply, little: bool)
    requires r.Valid() && r.family == Inet && |r.headers| == IP_HEADER + 4
    ensures r.Word(little) == FourWord(r.ident, r.seqno, r.magic, little)
    ensures r.Word(little) % 65536 == if little then Swap16(r.ident) else r.magic / 0x1_0000_0000 % 65536
  {
    var four := Store64(r.magic, little)[..4];
    assert r.Window(little) == Be16(r.ident) + Be16(r.seqno) + four;
    FieldsAsWord(r.ident, r.seqno, four);
    Halves(r.magic);
    FourWordEnds(r.ident, r.seqno, r.magic, little);
  }

  function FourWord(ident: nat, seqno: nat, magic: nat, little: bool): nat
    requires ident < 65536 && seqno < 65536
  {
    if little then Swap16(ident) + 65536 * Swap16(seqno) + 0x1_0000_0000 * (magic % 0x1_0000_0000)
    else magic / 0x1_0000_0000 + 0x1_0000_0000 * seqno + 0x1_0000_0000_0000 * ident
  }

  lemma FourWordEnds(ident: nat, seqno: nat, magic: nat, little: bool)
    requires ident < 65536 && seqno < 65536
    ensures FourWord(ident, seqno, magic, little) % 65536 ==
            if little then Swap16(ident) else magic / 0x1_0000_0000 % 65536
  {
    if little {
      Ending(Swap16(ident), Swap16(seqno) + 65536 * (magic % 0x1_0000_0000));
    } else {
      EndingOf(magic / 0x1_0000_0000, 65536 * seqno + 0x1_0000_0000 * ident);
    }
  }

  /** Eight octets of options: what is read are the type, the checksum, the identifier and the sequence
      number, so the number ends in zeros or always in the sequence number. */
  lemma EightOptionOctets(r: Reply, little: bool)
    requires r.Valid() && r.family == Inet && |r.headers| == IP_HEADER + 8
    ensures r.Word(little) == EightWord(256 * r.sum.0 as int + r.sum.1, r.ident, r.seqno, little)
    ensures r.Word(little) % 65536 == if little then 0 else r.seqno
  {
    var sum := 256 * r.sum.0 as int + r.sum.1;
    assert Be16(sum) == [r.sum.0, r.sum.1];
    assert r.Window(little) == Be16(0) + Be16(sum) + (Be16(r.ident) + Be16(r.seqno));
    EightAsWord(sum, r.ident, r.seqno);
    EightWordEnds(sum, r.ident, r.seqno, little);
  }

  function EightWord(sum: nat, ident: nat, seqno: nat, little: bool): nat
    requires sum < 65536 && ident < 65536 && seqno < 65536
  {
    if little then 65536 * Swap16(sum) + 0x1_0000_0000 * Swap16(ident) + 0x1_0000_0000_0000 * Swap16(seqno)
    else seqno + 65536 * ident + 0x1_0000_0000 * sum
  }

  lemma EightAsWord(sum: nat, ident: nat, seqno: nat)
    requires sum < 65536 && ident < 65536 && seqno < 65536
    ensures var w := Be16(0) + Be16(sum) + (Be16(ident) + Be16(seqno));
            && FromLittle(w) == EightWord(sum, ident, seqno, true)
            && FromLittle(Reversed(w)) == EightWord(sum, ident, seqno, false)
  {
    var i, s := Be16(ident), Be16(seqno);
    FieldsAsWord(0, sum, i + s);
    Powers();
    ConcatBy(i, s, 65536);
    ConcatBy(Reversed(s), Reversed(i), 65536);
    ReversedBoth(i, s);
    ShortAsWord(ident);
    ShortAsWord(seqno);
  }

  lemma EightWordEnds(sum: nat, ident: nat, seqno: nat, little: bool)
    requires sum < 65536 && ident < 65536 && seqno < 65536
    ensures EightWord(sum, ident, seqno, little) % 65536 == if little then 0 else seqno
  {
    if little {
      Ending(0, Swap16(sum) + 65536 * Swap16(ident) + 0x1_0000_0000 * Swap16(seqno));
    } else {
      Ending(seqno, ident + 65536 * sum);
    }
  }

  /** Twelve octets of options or more: what is read begins with options, and from sixteen on is nothing
      else. */
  lemma ManyOptionOctets(r: Reply, little: bool)
    requires r.Valid() && r.family == Inet && |r.headers| >= IP_HEADER + 12
    ensures r.Window(little) == if |r.headers| == IP_HEADER + 12
                                then r.headers[28..] + [EchoReply(Inet), 0, r.sum.0, r.sum.1] else r.headers[28..36]
  {
  }

  /** With four or eight octets of options the reply to a probe is refused, or credited to the number that
      happens to be read, just as the identifier and the number decide. */
  lemma OptionsMisread(r: Reply, response: seq<Byte>, length: nat, n: nat, little: bool)
    requires r.Valid() && r.family == Inet && |r.headers| in {IP_HEADER + 4, IP_HEADER + 8}
    requires n < TWO_63 && r.magic == n && r.seqno == n % 65536 && Received(response, length, r.Octets(little))
    ensures var four := |r.headers| == IP_HEADER + 4;
            var accepted := if four then (if little then Swap16(r.ident) else n / 0x1_0000_0000 % 65536) == n % 65536
                            else !little || n % 65536 == 0;
            ExtractData(Inet, response, length, r.ident, true, little) ==
            if accepted then Signed(r.Word(little)) else -1
  {
    EchoRead(r, response, length, r.ident, true, little);
    if |r.headers| == IP_HEADER + 4 {
      FourOptionOctets(r, little);
    } else {
      EightOptionOctets(r, little);
    }
  }

  /** What is read from the echo of a priming packet ends in its sequence number never without options,
      with four octets of them only on a little endian host with that identifier, and with eight on every
      big endian host and on no other. */
  lemma PrimingWord(r: Reply, little: bool)
    requires r.Valid() && r.magic == 0 && r.seqno == 65535
    ensures r.Plain() ==> r.Word(little) % 65536 != 65535
    ensures r.family == Inet && |r.headers| == IP_HEADER + 4 ==>
              (r.Word(little) % 65536 == 65535 <==> little && r.ident == 65535)
    ensures r.family == Inet && |r.headers| == IP_HEADER + 8 ==> (r.Word(little) % 65536 == 65535 <==> !little)
  {
    if r.Plain() {
      PlainWord(r, little);
    } else if r.family == Inet && |r.headers| == IP_HEADER + 4 {
      FourOptionOctets(r, little);
      AllOnes(r.ident);
    } else if r.family == Inet && |r.headers| == IP_HEADER + 8 {
      EightOptionOctets(r, little);
    }
  }

  /** The echo of a priming packet is refused unless what is read ends in its sequence number, and so
      always without options. */
  lemma PrimingRead(r: Reply, response: seq<Byte>, length: nat, fromDestination: bool, little: bool)
    requires r.Valid() && r.magic == 0 && r.seqno == 65535 && Received(response, length, r.Octets(little))
    ensures ExtractData(r.family, response, length, r.ident, fromDestination, little) ==
            if fromDestination && r.Word(little) % 65536 == 65535 then Signed(r.Word(little)) else -1
    ensures r.Plain() ==> ExtractData(r.family, response, length, r.ident, fromDestination, little) == -1
  {
    EchoRead(r, response, length, r.ident, fromDestination, little);
    PrimingWord(r, little);
  }

  lemma AllOnes(x: nat)
    requires x < 65536
    ensures Swap16(x) == 65535 <==> x == 65535
  {
  }

  /** With eight octets of options on a big endian host, the echo of a priming packet is credited to a
      number that follows from its checksum and our identifier, if that number is not negative. */
  lemma PrimingCredited(r: Reply, response: seq<Byte>, length: nat)
    requires r.Valid() && r.magic == 0 && r.seqno == 65535 && Received(response, length, r.Octets(false))
    requires r.family == Inet && |r.headers| == IP_HEADER + 8
    ensures ExtractData(Inet, response, length, r.ident, true, false) ==
            65535 + 65536 * r.ident + 0x1_0000_0000 * (256 * r.sum.0 as int + r.sum.1)
  {
    PrimingRead(r, response, length, true, false);
    EightOptionOctets(r, false);
  }
}
