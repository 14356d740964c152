/**
 The query of the DNS test: a header, one question, and an OPT record of section 6.1.2 of RFC 6891 when
 a payload size, DNSSEC or an NSID option of section 2.1 of RFC 5001 is asked for.
 */
module DnsQuery {
  import opened Options
  import opened Bytes
  import opened Seqs
  import opened DnsName
  import opened DnsPacket

  datatype QueryOptions = QueryOptions(query: seq<Byte>, qtype: nat, qclass: nat, payload: nat,
                                       recurse: bool, dnssec: bool, nsid: bool) {
    /** Numbers of 16 bits, and a C string that fits the buffer for encoded names. */
    predicate Valid() {
      && |query| <= MAX_DNS_NAME_LEN - 2 && 0 !in query
      && qtype < 65536 && qclass < 65536 && payload < 65536
    }

    predicate Extended() {
      dnssec || nsid || payload > 0
    }
  }

  // ---------------------------------------------------------------- the octets of a query

  /** The question ends with the first zero octet of the encoded name. */
  function Question(q: seq<Byte>): seq<Byte> {
    Wire(UpToEmpty(Split(q)))
  }

  function NsidOption(): (r: seq<Byte>)
    ensures |r| == 4
  {
    Be16(NSID_CODE) + Be16(0)
  }

  function OptRecord(o: QueryOptions): (w: WireRecord)
    requires o.Valid()
    ensures w.Valid()
  {
    WireRecord([0], OPT_TYPE, Be16(o.payload) + [0, 0] + Be16(if o.dnssec then 0x8000 else 0),
               if o.nsid then NsidOption() else [])
  }

  function Additional(o: QueryOptions): (ws: seq<WireRecord>)
    requires o.Valid()
    ensures AllValid(ws)
  {
    if o.Extended() then [OptRecord(o)] else []
  }

  /** A packet with the question and the additional record of a query. */
  function QueryWith(ident: nat, flags: (Byte, Byte), o: QueryOptions): seq<Byte>
    requires ident < 65536 && o.Valid()
  {
    Packet(ident, flags, (0, 0, |Additional(o)|), Question(o.query), Be16(o.qtype) + Be16(o.qclass), Additional(o))
  }

  function QueryFlags(recurse: bool, qr: bool): (r: (Byte, Byte))
    ensures (r.0 >= 128 <==> qr) && (r.0 % 2 == 1 <==> recurse) && r.1 == 0
  {
    ((if qr then 128 else 0) + (if recurse then 1 else 0), 0)
  }

  /** The query, or with the QR bit set, its echo. */
  function QueryPacket(ident: nat, o: QueryOptions, qr: bool): seq<Byte>
    requires ident < 65536 && o.Valid()
  {
    QueryWith(ident, QueryFlags(o.recurse, qr), o)
  }

  // ---------------------------------------------------------------- the walk over a query

  /** The walk over a query whose QR bit is set: it reads the question that was asked, visits the OPT
      record and its options when there are any, and stops at the end of the packet. */
  lemma QueryWalk(ident: nat, o: QueryOptions, little: bool, before: Info)
    requires ident < 65536 && o.Valid() && Encodable(UpToEmpty(Split(o.query)))
    ensures var data := QueryPacket(ident, o, true);
            && HeaderCode(data, little) == (if o.Extended() then ResponseOk else NotFound)
            && Ends(data, HEADER) && Text(data, HEADER) == Join(UpToEmpty(Split(o.query)))
            && Walkable(data, little) && VisitedEnd(data, little) == |data|
            && Visited(data, little) == (if o.Extended() then [Record([], OPT_TYPE, OptRecord(o).rdata)] else [])
            && Sounds(Visited(data, little))
            && NoteAll(before, Visited(data, little)) == before.(nsid := if o.nsid then Some([]) else before.nsid)
  {
    var flags := QueryFlags(o.recurse, true);
    EchoWalk(ident, flags, o, little);
    EchoCode(ident, flags, o, little);
    QuestionEnds(ident, flags, o);
    AdditionalNoted(o, before);
  }

  lemma EchoWalk(ident: nat, flags: (Byte, Byte), o: QueryOptions, little: bool)
    requires ident < 65536 && o.Valid() && Encodable(UpToEmpty(Split(o.query)))
    ensures var data := QueryWith(ident, flags, o);
            && |data| >= HEADER && Walkable(data, little) && VisitedEnd(data, little) == |data|
            && Visited(data, little) == if o.Extended() then [Record([], OPT_TYPE, OptRecord(o).rdata)] else []
  {
    var data, ws := QueryWith(ident, flags, o), Additional(o);
    var question, kind := Question(o.query), Be16(o.qtype) + Be16(o.qclass);
    WrittenIsLaidOut(ident, flags, (0, 0, |ws|), question, kind, ws);
    QuestionEnds(ident, flags, o);
    ClosedWire(UpToEmpty(Split(o.query)), 0, question);
    AdditionalEnds(data, HEADER + |question| + 4, o);
    PacketWalk(data, (0, 0, |ws|), question, ws, little);
  }

  lemma EchoCode(ident: nat, flags: (Byte, Byte), o: QueryOptions, little: bool)
    requires ident < 65536 && o.Valid() && flags.0 >= 128 && flags.1 == 0
    ensures var data := QueryWith(ident, flags, o);
            |data| >= HEADER && HeaderCode(data, little) == if o.Extended() then ResponseOk else NotFound
  {
    QueryHeader(ident, o, flags);
    SmallCountIsRight(QueryWith(ident, flags, o), little);
  }

  /** What a server reads in a query: the identifier, no response, recursion if it is desired, one question
      of the type and class asked for, and for an extended query one additional record. */
  lemma QueryAsks(ident: nat, o: QueryOptions)
    requires ident < 65536 && o.Valid()
    ensures var data := QueryPacket(ident, o, false);
            var kind := HEADER + |Question(o.query)|;
            && |data| >= kind + 4 && At16(data, 0) == ident && data[2] < 128
            && (data[2] % 2 == 1 <==> o.recurse) && data[3] == 0
            && At16(data, 4) == 1 && At16(data, 6) == 0 && At16(data, 8) == 0
            && At16(data, 10) == (if o.dnssec || o.nsid || o.payload > 0 then 1 else 0)
            && At16(data, kind) == o.qtype && At16(data, kind + 2) == o.qclass
  {
    var flags := QueryFlags(o.recurse, false);
    var front := HeaderBytes(ident, flags, 1, (0, 0, |Additional(o)|)) + Question(o.query);
    KindStands(front, o.qtype, o.qclass, AllOctets(Additional(o)));
    QueryHeader(ident, o, flags);
  }

  lemma QueryHeader(ident: nat, o: QueryOptions, flags: (Byte, Byte))
    requires ident < 65536 && o.Valid()
    ensures var data := QueryWith(ident, flags, o);
            && |data| >= HEADER && At16(data, 0) == ident && data[2] == flags.0 && data[3] == flags.1
            && At16(data, 4) == 1 && At16(data, 6) == 0 && At16(data, 8) == 0 && At16(data, 10) == |Additional(o)|
  {
    var h := HeaderBytes(ident, flags, 1, (0, 0, |Additional(o)|));
    var kind := Be16(o.qtype) + Be16(o.qclass);
    PacketParts(h, Question(o.query), kind, AllOctets(Additional(o)));
    HeaderStands(QueryWith(ident, flags, o), h);
  }

  lemma KindStands(front: seq<Byte>, qtype: nat, qclass: nat, octets: seq<Byte>)
    requires qtype < 65536 && qclass < 65536
    ensures var data := front + (Be16(qtype) + Be16(qclass)) + octets;
            At16(data, |front|) == qtype && At16(data, |front| + 2) == qclass
  {
    var data := front + (Be16(qtype) + Be16(qclass)) + octets;
    assert Holds(data, 0, data);
    HoldsBoth(data, 0, front + (Be16(qtype) + Be16(qclass)), octets);
    HoldsBoth(data, 0, front, Be16(qtype) + Be16(qclass));
    HoldsBoth(data, |front|, Be16(qtype), Be16(qclass));
    Be16At(data, |front|, qtype);
    Be16At(data, |front| + 2, qclass);
  }

  /** What a server reads in the OPT record, whose fields section 6.1.2 of RFC 6891 gives: the root as its
      name, the payload size, version 0, and the DNSSEC OK bit alone if DNSSEC is asked for; and an NSID
      option without data if that is asked for. */
  lemma OptAsks(o: QueryOptions)
    requires o.Valid()
    ensures var data := OptRecord(o).Octets();
            && |data| >= 11 && data[0] == 0 && At16(data, 1) == 41 && At16(data, 3) == o.payload
            && data[5] == 0 && data[6] == 0
            && At16(data, 7) == (if o.dnssec then 32768 else 0)
            && At16(data, 9) == |data| - 11
            && OptionsFill(data[11..])
            && OptionList(data[11..]) == if o.nsid then [EdnsOption(3, [])] else []
  {
    OptOctets(o);
    var data := OptRecord(o).Octets();
    assert data[..11] == OptFixed(o);
    assert forall i :: 0 <= i < 11 ==> data[i] == data[..11][i];
    if o.nsid {
      assert data[11..] == NsidOption();
      NsidRead(Info(false, None));
    }
  }

  lemma QuestionEnds(ident: nat, flags: (Byte, Byte), o: QueryOptions)
    requires ident < 65536 && o.Valid() && Encodable(UpToEmpty(Split(o.query)))
    ensures var data := QueryWith(ident, flags, o);
            Ends(data, HEADER) && Text(data, HEADER) == Join(UpToEmpty(Split(o.query)))
  {
    var ws := Additional(o);
    var h, question := HeaderBytes(ident, flags, 1, (0, 0, |ws|)), Question(o.query);
    var kind, octets := Be16(o.qtype) + Be16(o.qclass), AllOctets(ws);
    RoundTrip(o.query, h, kind + octets);
    Assoc(h + question, kind, octets);
  }

  lemma {:induction false} ClosedWire(ls: Labels, pos: nat, wire: seq<Byte>)
    requires Encodable(ls) && Holds(wire, pos, Wire(ls)) && pos + |Wire(ls)| == |wire|
    ensures Closed(wire, pos)
    decreases |ls|
  {
    HoldsAt(wire, pos, Wire(ls), 0);
    if ls != [] {
      HoldsBoth(wire, pos, [|ls[0]| % 256] + ls[0], Wire(ls[1..]));
      ClosedWire(ls[1..], pos + 1 + |ls[0]|, wire);
    }
  }

  lemma AdditionalEnds(data: seq<Byte>, at: nat, o: QueryOptions)
    requires o.Valid() && Holds(data, at, AllOctets(Additional(o)))
    ensures NamesEnd(data, at, Additional(o))
    ensures ReadAs(data, at, Additional(o)) ==
            if o.Extended() then [Record([], OPT_TYPE, OptRecord(o).rdata)] else []
  {
    if o.Extended() {
      var w := OptRecord(o);
      assert Additional(o)[1..] == [];
      HoldsBoth(data, at, w.Octets(), AllOctets([]));
      RecordParts(data, at, w);
      HoldsAt(data, at, w.name, 0);
      assert Denote(data, at, 1) == Some([]);
      LabelsUnique(data, at, 1);
    }
  }

  lemma AdditionalNoted(o: QueryOptions, before: Info)
    requires o.Valid()
    ensures var rs := if o.Extended() then [Record([], OPT_TYPE, OptRecord(o).rdata)] else [];
            && Sounds(rs)
            && NoteAll(before, rs) == before.(nsid := if o.nsid then Some([]) else before.nsid)
  {
    if o.Extended() {
      var r := Record([], OPT_TYPE, OptRecord(o).rdata);
      if o.nsid {
        NsidRead(before);
      }
      assert [r][1..] == [];
    }
  }

  lemma NsidRead(before: Info)
    ensures OptionsFill(NsidOption()) && OptionList(NsidOption()) == [EdnsOption(3, [])]
    ensures NoteOptions(before, OptionList(NsidOption())) == before.(nsid := Some([]))
  {
    var rdata := NsidOption();
    assert rdata[4..] == [] && rdata[4..4] == [];
    var o := EdnsOption(NSID_CODE, []);
    assert OptionList(rdata) == [o];
    assert [o][1..] == [];
  }

  // ---------------------------------------------------------------- building a query

  /** Octets that are not zero up to the last, which is. */
  ghost predicate ZeroEnded(s: seq<Byte>) {
    s != [] && s[|s| - 1] == 0 && forall i :: 0 <= i < |s| - 1 ==> s[i] != 0
  }

  predicate Clear(l: seq<Byte>) {
    0 !in l && |l| < 256
  }

  lemma {:induction false} QuestionInWire(ls: Labels)
    requires forall i :: 0 <= i < |ls| ==> Clear(ls[i])
    ensures Wire(UpToEmpty(ls)) <= Wire(ls) && ZeroEnded(Wire(UpToEmpty(ls)))
    decreases |ls|
  {
    if ls != [] && ls[0] != [] {
      QuestionInWire(ls[1..]);
      Cons(ls[0], UpToEmpty(ls[1..]));
      PutBehind(ls[0], Wire(UpToEmpty(ls[1..])), Wire(ls[1..]));
    }
  }

  lemma PutBehind(l: seq<Byte>, q: seq<Byte>, w: seq<Byte>)
    requires l != [] && Clear(l) && q <= w && ZeroEnded(q)
    ensures var head: seq<Byte> := [|l| % 256] + l;
            head + q <= head + w && ZeroEnded(head + q)
  {
    var head: seq<Byte> := [|l| % 256] + l;
    PrefixBehind(head, q, w);
  }

  /** The encoded name up to its first zero octet is the question. */
  lemma NameUpToZero(q: seq<Byte>, name: seq<Byte>)
    requires |q| <= MAX_DNS_NAME_LEN - 2 && 0 !in q && |q| + 2 <= |name| && name[..|q| + 2] == Wire(Split(q))
    ensures Question(q) <= name && ZeroEnded(Question(q))
  {
    LabelsOf(q);
    QuestionInWire(Split(q));
  }

  lemma {:induction false} LabelsOf(q: seq<Byte>)
    requires 0 !in q
    ensures forall i :: 0 <= i < |Split(q)| ==> 0 !in Split(q)[i] && |Split(q)[i]| <= |q|
    decreases |q|
  {
    var d := FirstDot(q);
    if d < |q| {
      LabelsOf(q[d + 1..]);
    }
  }

  /** strlen() of an encoded name. */
  method StrLen(name: array<Byte>, ghost text: seq<Byte>) returns (n: nat)
    requires text <= name[..] && ZeroEnded(text)
    ensures n + 1 == |text|
  {
    n := 0;
    ghost var zero := |text| - 1;
    while name[n] != 0
      invariant n <= zero
      decreases zero - n
    {
      n := n + 1;
    }
  }

  /** The part of the buffer from a place on holds only zeros. */
  ghost predicate Blank(a: array<Byte>, at: nat)
    reads a
  {
    forall i :: at <= i < a.Length ==> a[i] == 0
  }

  /** htons() into the buffer. */
  method PutShort(a: array<Byte>, at: nat, v: nat)
    requires at + 1 < a.Length && v < 65536
    modifies a
    ensures a[at] == v / 256 && a[at + 1] == v % 256
    ensures forall i :: 0 <= i < a.Length && i != at && i != at + 1 ==> a[i] == old(a[i])
  {
    a[at] := v / 256;
    a[at + 1] := v % 256;
  }

  method PutHeader(a: array<Byte>, ident: nat, o: QueryOptions)
    requires ident < 65536 && o.Valid() && a.Length >= HEADER && Blank(a, 0)
    modifies a
    ensures a[..HEADER] == HeaderBytes(ident, QueryFlags(o.recurse, false), 1, (0, 0, |Additional(o)|))
    ensures Blank(a, HEADER)
  {
    if o.recurse {
      a[2] := 1;
    }
    PutShort(a, 0, ident);
    PutShort(a, 4, 1);
    if o.Extended() {
      PutShort(a, 10, 1);
    }
  }

  method PutQuestion(a: array<Byte>, name: array<Byte>, length: nat, o: QueryOptions)
    requires o.Valid() && a != name && length <= name.Length && a.Length >= HEADER + length + 4 && Blank(a, HEADER)
    modifies a
    ensures a[..HEADER] == old(a[..HEADER])
    ensures a[HEADER..HEADER + length + 4] == name[..length] + (Be16(o.qtype) + Be16(o.qclass))
    ensures Blank(a, HEADER + length + 4)
  {
    for i := 0 to length
      invariant a[..HEADER] == old(a[..HEADER])
      invariant forall k :: 0 <= k < i ==> a[HEADER + k] == name[k]
      invariant Blank(a, HEADER + i)
    {
      a[HEADER + i] := name[i];
    }
    PutShort(a, HEADER + length, o.qtype);
    PutShort(a, HEADER + length + 2, o.qclass);
  }

  /** The octets of the OPT record one by one. */
  function OptFixed(o: QueryOptions): (r: seq<Byte>)
    requires o.Valid()
    ensures |r| == RR_FIXED + 1
  {
    [0, 0, 41, o.payload / 256, o.payload % 256, 0, 0, if o.dnssec then 0x80 else 0, 0, 0, if o.nsid then 4 else 0]
  }

  lemma OptOctets(o: QueryOptions)
    requires o.Valid()
    ensures OptRecord(o).Octets() == OptFixed(o) + (if o.nsid then [0, 3, 0, 0] else [])
    ensures AllOctets([OptRecord(o)]) == OptRecord(o).Octets()
  {
    var w := OptRecord(o);
    assert w.Fixed() == OptFixed(o)[1..];
    assert [w][1..] == [];
  }

  method PutOpt(a: array<Byte>, at: nat, o: QueryOptions)
    requires o.Valid() && a.Length == at + RR_FIXED + 1 + (if o.nsid then 4 else 0) && Blank(a, at)
    modifies a
    ensures a[..at] == old(a[..at]) && a[at..] == OptFixed(o) + (if o.nsid then [0, 3, 0, 0] else [])
  {
    var additional := at + 1;
    PutShort(a, additional, OPT_TYPE);
    PutShort(a, additional + 2, o.payload);
    if o.dnssec {
      PutShort(a, additional + 6, 0x8000);
    }
    if o.nsid {
      var nsid := additional + RR_FIXED;
      PutShort(a, nsid, NSID_CODE);
      PutShort(a, nsid + 2, 0);
      PutShort(a, additional + 8, 4);
    }
  }

  /** create_dns_query(). */
  method CreateDnsQuery(ident: nat, o: QueryOptions) returns (query: array<Byte>, length: nat)
    requires ident < 65536 && o.Valid()
    ensures fresh(query) && length == query.Length && query[..] == QueryPacket(ident, o, false)
  {
    var name := Encode(o.query);
    NameUpToZero(o.query, name[..]);
    var nameLength := StrLen(name, Question(o.query));
    nameLength := nameLength + 1;
    length := HEADER + nameLength + 4;
    if o.Extended() {
      length := length + RR_FIXED + 1;
      if o.nsid {
        length := length + 4;
      }
    }
    query := new Byte[length](_ => 0);
    Fill(query, ident, name, nameLength, o);
  }

  method Fill(query: array<Byte>, ident: nat, name: array<Byte>, nameLength: nat, o: QueryOptions)
    requires ident < 65536 && o.Valid() && query != name && Blank(query, 0)
    requires nameLength <= name.Length && name[..nameLength] == Question(o.query)
    requires query.Length == HEADER + nameLength + 4 +
                             (if o.Extended() then RR_FIXED + 1 + (if o.nsid then 4 else 0) else 0)
    modifies query
    ensures query[..] == QueryPacket(ident, o, false)
  {
    PutHeader(query, ident, o);
    PutQuestion(query, name, nameLength, o);
    var at := HEADER + nameLength + 4;
    ghost var begin := query[..at];
    if o.Extended() {
      PutOpt(query, at, o);
      OptOctets(o);
    }
    assert query[..at] == begin;
    assert query[..HEADER] == begin[..HEADER] && query[HEADER..at] == begin[HEADER..];
    QueryFromParts(query[..], ident, QueryFlags(o.recurse, false), o);
  }

  lemma QueryFromParts(data: seq<Byte>, ident: nat, flags: (Byte, Byte), o: QueryOptions)
    requires ident < 65536 && o.Valid()
    requires var at := HEADER + |Question(o.query)| + 4;
             && at <= |data|
             && data[..HEADER] == HeaderBytes(ident, flags, 1, (0, 0, |Additional(o)|))
             && data[HEADER..at] == Question(o.query) + (Be16(o.qtype) + Be16(o.qclass))
             && data[at..] == AllOctets(Additional(o))
    ensures data == QueryWith(ident, flags, o)
  {
    ThreeParts(data, HEADER, HEADER + |Question(o.query)| + 4);
    Assoc(data[..HEADER], Question(o.query), Be16(o.qtype) + Be16(o.qclass));
  }
}
