/**
 Responses to the DNS test: the checks of the header, the walk over the records (with OPT records of
 section 6.1.2 of RFC 6891 and RRSIG records), and the walk over the options of an OPT record.
 */
module DnsPacket {
  import opened Options
  import opened Arith
  import opened Bytes
  import opened Seqs
  import opened DnsName
  import Checksum

  const HEADER := 12
  const RR_FIXED := 10
  const OPT_TYPE := 41
  const RRSIG_TYPE := 46
  const NSID_CODE := 3

  // ---------------------------------------------------------------- records

  /** A resource record: its name, its type and its data. */
  datatype Record = Record(labels: Labels, rtype: nat, rdata: seq<Byte>)

  /** The record at a place of the packet ends inside the packet. */
  ghost predicate HasRecord(data: seq<Byte>, pos: nat) {
    && Ends(data, pos)
    && var e := InPlaceEnd(data, pos);
       e + RR_FIXED <= |data| && e + RR_FIXED + At16(data, e + 8) <= |data|
  }

  ghost function NextAt(data: seq<Byte>, pos: nat): nat
    requires HasRecord(data, pos)
  {
    var e := InPlaceEnd(data, pos);
    e + RR_FIXED + At16(data, e + 8)
  }

  ghost function RecordAt(data: seq<Byte>, pos: nat): Record
    requires HasRecord(data, pos)
  {
    var e := InPlaceEnd(data, pos);
    Record(LabelsAt(data, pos), At16(data, e), data[e + RR_FIXED..NextAt(data, pos)])
  }

  /** There are `n` records one after the other. */
  ghost predicate HasRecords(data: seq<Byte>, pos: nat, n: nat)
    decreases n
  {
    n == 0 || (HasRecord(data, pos) && HasRecords(data, NextAt(data, pos), n - 1))
  }

  ghost function Records(data: seq<Byte>, pos: nat, n: nat): seq<Record>
    requires HasRecords(data, pos, n)
    decreases n
  {
    if n == 0 then [] else [RecordAt(data, pos)] + Records(data, NextAt(data, pos), n - 1)
  }

  /** The place after the last of them. */
  ghost function RecordsEnd(data: seq<Byte>, pos: nat, n: nat): nat
    requires HasRecords(data, pos, n)
    decreases n
  {
    if n == 0 then pos else RecordsEnd(data, NextAt(data, pos), n - 1)
  }

  /** An option of an OPT record. */
  datatype EdnsOption = EdnsOption(code: nat, data: seq<Byte>)

  /** The data of an OPT record is filled exactly by options. */
  predicate OptionsFill(rdata: seq<Byte>)
    decreases |rdata|
  {
    rdata == [] ||
    (|rdata| >= 4 && 4 + At16(rdata, 2) <= |rdata| && OptionsFill(rdata[4 + At16(rdata, 2)..]))
  }

  function OptionList(rdata: seq<Byte>): seq<EdnsOption>
    requires OptionsFill(rdata)
    decreases |rdata|
  {
    if rdata == [] then []
    else
      var end := 4 + At16(rdata, 2);
      [EdnsOption(At16(rdata, 0), rdata[4..end])] + OptionList(rdata[end..])
  }

  /** What the walk records of a response. */
  datatype Info = Info(rrsig: bool, nsid: Option<seq<Byte>>)

  function NoteOptions(info: Info, os: seq<EdnsOption>): Info
    decreases |os|
  {
    if os == [] then info else NoteOptions(NoteOption(info, os[0]), os[1..])
  }

  function NoteOption(info: Info, o: EdnsOption): Info {
    if o.code == NSID_CODE then info.(nsid := Some(o.data)) else info
  }

  predicate Sound(r: Record) {
    r.rtype == OPT_TYPE && |r.rdata| >= 4 ==> OptionsFill(r.rdata)
  }

  function Note(info: Info, r: Record): Info {
    if r.rtype == OPT_TYPE && |r.rdata| >= 4 && Sound(r) then NoteOptions(info, OptionList(r.rdata))
    else if r.rtype == RRSIG_TYPE then info.(rrsig := true)
    else info
  }

  function NoteAll(info: Info, rs: seq<Record>): Info
    decreases |rs|
  {
    if rs == [] then info else NoteAll(Note(info, rs[0]), rs[1..])
  }

  /** Noting the options that are left leads to the goal. */
  ghost predicate OptionsLead(info: Info, option: seq<Byte>, goal: Info) {
    OptionsFill(option) && NoteOptions(info, OptionList(option)) == goal
  }

  lemma NextOption(info: Info, option: seq<Byte>, goal: Info)
    requires option != [] && OptionsLead(info, option, goal)
    ensures |option| >= 4 && 4 + At16(option, 2) <= |option|
    ensures var end := 4 + At16(option, 2);
            OptionsLead(NoteOption(info, EdnsOption(At16(option, 0), option[4..end])), option[end..], goal)
  {
    var end := 4 + At16(option, 2);
    Cons(EdnsOption(At16(option, 0), option[4..end]), OptionList(option[end..]));
  }

  /** process_opt_rr(): the loop that counts the 16-bit length down to zero. */
  method ProcessOptRr(rr: seq<Byte>, before: Info) returns (info: Info)
    requires 4 <= |rr| < 65536 && OptionsFill(rr)
    ensures info == NoteOptions(before, OptionList(rr))
  {
    info := before;
    var option, rrlen, more := rr, |rr|, true;
    ghost var goal := NoteOptions(before, OptionList(rr));
    while more
      invariant rrlen == |option| < 65536 && (more <==> option != []) && OptionsLead(info, option, goal)
      decreases |option|
    {
      NextOption(info, option, goal);
      var code, length := At16(option, 0), At16(option, 2);
      if code == NSID_CODE {
        info := info.(nsid := Some(option[4..4 + length]));
      }
      option := option[4 + length..];
      rrlen := (rrlen - 4) % 65536;
      rrlen := (rrlen - length) % 65536;
      more := rrlen > 0;
    }
  }

  // ---------------------------------------------------------------- the header

  datatype Code = ResponseOk | InvalidResponse | NotFound

  /** The sum of the record counts, added up before their byte order is put right. */
  function ResponseCount(data: seq<Byte>, little: bool): nat
    requires |data| >= HEADER
  {
    var count := (Checksum.Load16(data[6], data[7], little) + Checksum.Load16(data[8], data[9], little) +
                  Checksum.Load16(data[10], data[11], little)) % 65536;
    if little then Checksum.Swap16(count) else count
  }

  /** On a little endian host the sum is right just when neither the low nor the high octets overflow an
      octet, and on a big endian host just when it fits 16 bits. */
  lemma ResponseCountRightIff(data: seq<Byte>, little: bool)
    requires |data| >= HEADER
    ensures var sum := At16(data, 6) + At16(data, 8) + At16(data, 10);
            ResponseCount(data, little) == sum <==>
            if little then data[6] as int + data[8] as int + data[10] as int < 256
                           && data[7] as int + data[9] as int + data[11] as int < 256
            else sum < 65536
  {
    if little {
      var h := data[6] as int + data[8] as int + data[10] as int;
      var l := data[7] as int + data[9] as int + data[11] as int;
      SwappedSum(h, l);
    }
  }

  /** Two hundred answers and a hundred other records are taken for 44 on a little endian host. */
  lemma ResponseCountWrong(data: seq<Byte>)
    requires |data| >= HEADER && data[6..12] == [0, 200, 0, 100, 0, 0]
    ensures ResponseCount(data, true) == 44 && ResponseCount(data, false) == 300
  {
    assert forall i :: 0 <= i < 6 ==> data[6 + i] == data[6..12][i];
    assert data[6] == 0 && data[7] == 200 && data[8] == 0 && data[9] == 100 && data[10] == 0 && data[11] == 0;
  }

  lemma SmallCountIsRight(data: seq<Byte>, little: bool)
    requires |data| >= HEADER && At16(data, 6) + At16(data, 8) + At16(data, 10) < 256
    ensures ResponseCount(data, little) == At16(data, 6) + At16(data, 8) + At16(data, 10)
  {
    ResponseCountRightIff(data, little);
  }

  lemma SwappedSum(h: nat, l: nat)
    requires h < 768 && l < 768
    ensures var raw := (h + 256 * l) % 65536;
            raw % 256 * 256 + raw / 256 == 256 * h + l <==> h < 256 && l < 256
  {
    var carry, h0 := h / 256, h % 256;
    var t := l + carry;
    var t0 := t % 256;
    DivModUnique(h + 256 * l, 65536, t / 256, h0 + 256 * t0);
    DivModUnique(h0 + 256 * t0, 256, t0, h0);
  }

  /** What the header says about the response. */
  function HeaderCode(data: seq<Byte>, little: bool): Code
    requires |data| >= HEADER
  {
    if data[2] < 128 then InvalidResponse
    else if At16(data, 4) != 1 then InvalidResponse
    else if data[3] % 16 != 0 then NotFound
    else if ResponseCount(data, little) < 1 then NotFound
    else ResponseOk
  }

  /** The records that the walk visits, and where it stops. */
  ghost function Visited(data: seq<Byte>, little: bool): seq<Record>
    requires |data| >= HEADER && Walkable(data, little)
  {
    Records(data, InPlaceEnd(data, HEADER) + 4, ResponseCount(data, little))
  }

  ghost function VisitedEnd(data: seq<Byte>, little: bool): nat
    requires |data| >= HEADER && Walkable(data, little)
  {
    RecordsEnd(data, InPlaceEnd(data, HEADER) + 4, ResponseCount(data, little))
  }

  /** The names and records that the header promises end inside the packet. */
  ghost predicate Walkable(data: seq<Byte>, little: bool)
    requires |data| >= HEADER
  {
    && Ends(data, HEADER)
    && HasRecords(data, InPlaceEnd(data, HEADER) + 4, ResponseCount(data, little))
  }

  /** Options fill the OPT records, and names fit the buffer for them. */
  ghost predicate Sounds(rs: seq<Record>) {
    forall i :: 0 <= i < |rs| ==> Sound(rs[i]) && |Join(Copied(rs[i].labels))| < MAX_DNS_NAME_LEN
  }

  /** The record walk of process_packet(). */
  method ProcessPacket(packet: seq<Byte>, before: Info, little: bool) returns (code: Code, bytes: nat, info: Info)
    requires |packet| >= HEADER
    requires HeaderCode(packet, little) != InvalidResponse ==>
               Walkable(packet, little) && Sounds(Visited(packet, little))
    ensures code == HeaderCode(packet, little)
    ensures code == InvalidResponse ==> bytes == 0 && info == before
    ensures code != InvalidResponse ==>
              bytes == VisitedEnd(packet, little) && info == NoteAll(before, Visited(packet, little))
  {
    info := before;
    code := ResponseOk;
    var responseCount := ResponseCount(packet, little);
    if packet[2] < 128 {
      code := InvalidResponse;
    } else if At16(packet, 4) != 1 {
      code := InvalidResponse;
    } else if packet[3] % 16 != 0 {
      code := NotFound;
    } else if responseCount < 1 {
      code := NotFound;
    }
    if code == InvalidResponse {
      return code, 0, info;
    }
    bytes := SkipQuestions(packet, At16(packet, 4));
    bytes, info := WalkRecords(packet, bytes, responseCount, info);
  }

  /** The loop over the question section, which holds one question. */
  method SkipQuestions(packet: seq<Byte>, count: nat) returns (start: nat)
    requires count == 1 && Ends(packet, HEADER)
    ensures start == InPlaceEnd(packet, HEADER) + 4
  {
    start := HEADER;
    for i := 0 to count
      invariant start == if i == 0 then HEADER else InPlaceEnd(packet, HEADER) + 4
    {
      start := Decode(null, packet, start);
      start := start + 4;
    }
  }

  /** The loop over the records. */
  method WalkRecords(packet: seq<Byte>, begin: nat, count: nat, before: Info) returns (start: nat, info: Info)
    requires HasRecords(packet, begin, count) && Sounds(Records(packet, begin, count))
    ensures start == RecordsEnd(packet, begin, count)
    ensures info == NoteAll(before, Records(packet, begin, count))
  {
    start, info := begin, before;
    ghost var goal := NoteAll(before, Records(packet, begin, count));
    ghost var end := RecordsEnd(packet, begin, count);
    for i := 0 to count
      invariant RecordsLead(packet, start, count - i, info, goal, end)
    {
      NextRecord(packet, start, count - i, info, goal, end);
      start, info := ProcessRecord(packet, start, info);
    }
  }

  /** Noting the records that are left leads to the goal and to the end. */
  ghost predicate RecordsLead(data: seq<Byte>, pos: nat, n: nat, info: Info, goal: Info, end: nat) {
    && HasRecords(data, pos, n) && Sounds(Records(data, pos, n))
    && NoteAll(info, Records(data, pos, n)) == goal && RecordsEnd(data, pos, n) == end
  }

  lemma NextRecord(data: seq<Byte>, pos: nat, n: nat, info: Info, goal: Info, end: nat)
    requires n > 0 && RecordsLead(data, pos, n, info, goal, end)
    ensures HasRecord(data, pos) && Sounds([RecordAt(data, pos)])
    ensures RecordsLead(data, NextAt(data, pos), n - 1, Note(info, RecordAt(data, pos)), goal, end)
  {
    var r, rs := RecordAt(data, pos), Records(data, NextAt(data, pos), n - 1);
    Cons(r, rs);
    SoundsBoth(r, rs);
  }

  lemma SoundsBoth(r: Record, rs: seq<Record>)
    requires Sounds([r] + rs)
    ensures Sounds([r]) && Sounds(rs)
  {
    assert ([r] + rs)[0] == r;
    forall i | 0 <= i < |rs|
      ensures Sound(rs[i]) && |Join(Copied(rs[i].labels))| < MAX_DNS_NAME_LEN
    {
      assert ([r] + rs)[i + 1] == rs[i];
    }
  }

  /** One round of the loop over the records. */
  method ProcessRecord(packet: seq<Byte>, start: nat, before: Info) returns (next: nat, info: Info)
    requires HasRecord(packet, start) && Sounds([RecordAt(packet, start)])
    ensures next == NextAt(packet, start)
    ensures info == Note(before, RecordAt(packet, start))
  {
    assert Sound([RecordAt(packet, start)][0]);
    info := before;
    var name := new Byte[MAX_DNS_NAME_LEN](_ => 0);
    var fixed := Decode(name, packet, start);
    var rtype, rdlen := At16(packet, fixed), At16(packet, fixed + 8);
    if rtype == OPT_TYPE {
      if rdlen >= 4 {
        info := ProcessOptRr(packet[fixed + RR_FIXED..fixed + RR_FIXED + rdlen], info);
      }
    } else if rtype == RRSIG_TYPE {
      info := info.(rrsig := true);
    }
    next := fixed + RR_FIXED + rdlen;
  }

  // ---------------------------------------------------------------- records that were written

  /** A record as it is written: a name in any encoding, the type, six octets of class and time to
      live, and the data behind its length. */
  datatype WireRecord = WireRecord(name: seq<Byte>, rtype: nat, mid: seq<Byte>, rdata: seq<Byte>) {
    predicate Valid() {
      Closed(name, 0) && rtype < 65536 && |mid| == 6 && |rdata| < 65536
    }

    function Fixed(): (r: seq<Byte>)
      requires rtype < 65536 && |mid| == 6 && |rdata| < 65536
      ensures |r| == RR_FIXED
    {
      Be16(rtype) + mid + Be16(|rdata|)
    }

    function Octets(): seq<Byte>
      requires Valid()
    {
      name + Fixed() + rdata
    }
  }

  /** The octets of a name from `pos` on are whole labels up to an empty one or a pointer. */
  predicate Closed(name: seq<Byte>, pos: nat)
    decreases |name| - pos
  {
    pos < |name| &&
    if IsPointer(name[pos]) then pos + 2 == |name|
    else if name[pos] == 0 then pos + 1 == |name|
    else Closed(name, pos + 1 + name[pos])
  }

  lemma {:induction false} ClosedInPlace(data: seq<Byte>, at: nat, name: seq<Byte>, pos: nat)
    requires Holds(data, at, name) && Closed(name, pos)
    ensures InPlaceEnd(data, at + pos) == at + |name|
    decreases |name| - pos
  {
    HoldsAt(data, at, name, pos);
    if !IsPointer(name[pos]) && name[pos] != 0 {
      ClosedInPlace(data, at, name, pos + 1 + name[pos]);
    }
  }

  /** A written record is read back, whatever its name, provided the name ends. */
  lemma RecordReadBack(data: seq<Byte>, at: nat, w: WireRecord)
    requires w.Valid() && Holds(data, at, w.Octets()) && Ends(data, at)
    ensures HasRecord(data, at) && NextAt(data, at) == at + |w.Octets()|
    ensures RecordAt(data, at) == Record(LabelsAt(data, at), w.rtype, w.rdata)
  {
    RecordParts(data, at, w);
    ClosedInPlace(data, at, w.name, 0);
  }

  lemma RecordParts(data: seq<Byte>, at: nat, w: WireRecord)
    requires w.Valid() && Holds(data, at, w.Octets())
    ensures var e := at + |w.name|;
            && Holds(data, at, w.name) && Holds(data, e + RR_FIXED, w.rdata)
            && At16(data, e) == w.rtype && At16(data, e + 8) == |w.rdata|
  {
    var e := at + |w.name|;
    HoldsBoth(data, at, w.name + w.Fixed(), w.rdata);
    HoldsBoth(data, at, w.name, w.Fixed());
    HoldsBoth(data, e, Be16(w.rtype) + w.mid, Be16(|w.rdata|));
    HoldsBoth(data, e, Be16(w.rtype), w.mid);
    Be16At(data, e, w.rtype);
    Be16At(data, e + 8, |w.rdata|);
  }

  predicate AllValid(ws: seq<WireRecord>) {
    forall i :: 0 <= i < |ws| ==> ws[i].Valid()
  }

  function AllOctets(ws: seq<WireRecord>): seq<Byte>
    requires AllValid(ws)
  {
    if ws == [] then [] else ws[0].Octets() + AllOctets(ws[1..])
  }

  /** The names of written records end. */
  ghost predicate NamesEnd(data: seq<Byte>, pos: nat, ws: seq<WireRecord>)
    requires AllValid(ws)
    decreases |ws|
  {
    ws == [] || (Ends(data, pos) && NamesEnd(data, pos + |ws[0].Octets()|, ws[1..]))
  }

  /** What written records are when they are read. */
  ghost function ReadAs(data: seq<Byte>, pos: nat, ws: seq<WireRecord>): seq<Record>
    requires AllValid(ws) && NamesEnd(data, pos, ws)
    decreases |ws|
  {
    if ws == [] then []
    else [Record(LabelsAt(data, pos), ws[0].rtype, ws[0].rdata)] + ReadAs(data, pos + |ws[0].Octets()|, ws[1..])
  }

  /** However many records are written one after the other, each is visited once and in order, and the
      walk stops exactly behind the last. */
  lemma {:induction false} RecordsReadBack(data: seq<Byte>, at: nat, ws: seq<WireRecord>)
    requires AllValid(ws) && Holds(data, at, AllOctets(ws)) && NamesEnd(data, at, ws)
    ensures HasRecords(data, at, |ws|) && RecordsEnd(data, at, |ws|) == at + |AllOctets(ws)|
    ensures Records(data, at, |ws|) == ReadAs(data, at, ws)
    decreases |ws|
  {
    if ws != [] {
      HoldsBoth(data, at, ws[0].Octets(), AllOctets(ws[1..]));
      RecordReadBack(data, at, ws[0]);
      RecordsReadBack(data, at + |ws[0].Octets()|, ws[1..]);
    }
  }

  /** The flags of a header, as section 4.1.1 of RFC 1035 lays them out. */
  datatype Flags = Flags(qr: bool, opcode: nat, aa: bool, tc: bool, rd: bool, ra: bool, z: nat, rcode: nat) {
    predicate Valid() {
      opcode < 16 && z < 8 && rcode < 16
    }

    function Octets(): (Byte, Byte)
      requires Valid()
    {
      (128 * Bit(qr) + 8 * opcode + 4 * Bit(aa) + 2 * Bit(tc) + Bit(rd), 128 * Bit(ra) + 16 * z + rcode)
    }
  }

  function Bit(b: bool): (n: nat)
    ensures n <= 1
  {
    if b then 1 else 0
  }

  function HeaderBytes(id: nat, flags: (Byte, Byte), questions: nat, counts: (nat, nat, nat)): (h: seq<Byte>)
    requires id < 65536 && questions < 65536 && counts.0 < 65536 && counts.1 < 65536 && counts.2 < 65536
    ensures |h| == HEADER
    ensures At16(h, 0) == id && h[2] == flags.0 && h[3] == flags.1 && At16(h, 4) == questions
    ensures At16(h, 6) == counts.0 && At16(h, 8) == counts.1 && At16(h, 10) == counts.2
  {
    Be16(id) + [flags.0, flags.1] + Be16(questions) + Be16(counts.0) + Be16(counts.1) + Be16(counts.2)
  }

  /** A packet is invalid just when its header is no response or has not one question; otherwise there is
      nothing found just when it has an error code or no records. */
  lemma HeaderCodeIs(data: seq<Byte>, id: nat, f: Flags, questions: nat, counts: (nat, nat, nat), little: bool)
    requires f.Valid() && id < 65536 && questions < 65536
    requires counts.0 < 65536 && counts.1 < 65536 && counts.2 < 65536
    requires Holds(data, 0, HeaderBytes(id, f.Octets(), questions, counts))
    ensures |data| >= HEADER
    ensures HeaderCode(data, little) == InvalidResponse <==> !f.qr || questions != 1
    ensures HeaderCode(data, little) == NotFound <==>
            f.qr && questions == 1 && (f.rcode != 0 || ResponseCount(data, little) == 0)
    ensures counts.0 + counts.1 + counts.2 < 256 ==>
              (ResponseCount(data, little) == 0 <==> counts.0 == counts.1 == counts.2 == 0)
  {
    var h := HeaderBytes(id, f.Octets(), questions, counts);
    HeaderStands(data, h);
    FlagBits(f);
    if counts.0 + counts.1 + counts.2 < 256 {
      SmallCountIsRight(data, little);
    }
  }

  lemma FlagBits(f: Flags)
    requires f.Valid()
    ensures f.Octets().0 >= 128 <==> f.qr
    ensures f.Octets().1 % 16 == f.rcode && (f.Octets().0 % 2 == 1 <==> f.rd)
  {
    assert f.Octets().1 == 16 * (8 * Bit(f.ra) + f.z) + f.rcode;
    assert f.Octets().0 == 2 * (64 * Bit(f.qr) + 4 * f.opcode + 2 * Bit(f.aa) + Bit(f.tc)) + Bit(f.rd);
  }

  /** An answer that the name does not exist, with one record of the authority. */
  lemma NoSuchName(data: seq<Byte>, little: bool)
    requires HEADER <= |data| && data[..HEADER] == [0, 1, 0x81, 0x83, 0, 1, 0, 0, 0, 1, 0, 0]
    ensures HeaderCode(data, little) == NotFound
  {
    assert forall i :: 0 <= i < HEADER ==> data[i] == data[..HEADER][i];
  }

  /** A packet with one question and some records. */
  function Packet(id: nat, flags: (Byte, Byte), counts: (nat, nat, nat), question: seq<Byte>, kind: seq<Byte>,
                  ws: seq<WireRecord>): seq<Byte>
    requires id < 65536 && counts.0 < 65536 && counts.1 < 65536 && counts.2 < 65536 && AllValid(ws)
  {
    HeaderBytes(id, flags, 1, counts) + question + kind + AllOctets(ws)
  }

  /** The counts of the header, one question and the records stand where they belong in the packet. */
  ghost predicate LaidOut(data: seq<Byte>, counts: (nat, nat, nat), question: seq<Byte>, ws: seq<WireRecord>)
    requires AllValid(ws)
  {
    && |data| == HEADER + |question| + 4 + |AllOctets(ws)|
    && At16(data, 4) == 1 && At16(data, 6) == counts.0 && At16(data, 8) == counts.1 && At16(data, 10) == counts.2
    && Holds(data, HEADER, question)
    && Holds(data, HEADER + |question| + 4, AllOctets(ws))
  }

  /** The walk over a packet that was written visits its records and stops at its end. */
  lemma PacketWalk(data: seq<Byte>, counts: (nat, nat, nat), question: seq<Byte>, ws: seq<WireRecord>, little: bool)
    requires counts.0 + counts.1 + counts.2 == |ws| < 256 && AllValid(ws) && Closed(question, 0)
    requires LaidOut(data, counts, question, ws)
    requires Ends(data, HEADER) && NamesEnd(data, HEADER + |question| + 4, ws)
    ensures ResponseCount(data, little) == |ws|
    ensures Walkable(data, little) && VisitedEnd(data, little) == |data|
    ensures Visited(data, little) == ReadAs(data, HEADER + |question| + 4, ws)
  {
    var begin := HEADER + |question| + 4;
    LaidOutCount(data, counts, question, ws, little);
    ClosedInPlace(data, HEADER, question, 0);
    RecordsReadBack(data, begin, ws);
    VisitedFrom(data, begin, |ws|, little);
  }

  lemma LaidOutCount(data: seq<Byte>, counts: (nat, nat, nat), question: seq<Byte>, ws: seq<WireRecord>, little: bool)
    requires counts.0 + counts.1 + counts.2 == |ws| < 256 && AllValid(ws) && LaidOut(data, counts, question, ws)
    ensures ResponseCount(data, little) == |ws|
  {
    SmallCountIsRight(data, little);
  }

  lemma VisitedFrom(data: seq<Byte>, begin: nat, n: nat, little: bool)
    requires |data| >= HEADER && Ends(data, HEADER) && InPlaceEnd(data, HEADER) + 4 == begin
    requires ResponseCount(data, little) == n && HasRecords(data, begin, n)
    ensures Walkable(data, little) && VisitedEnd(data, little) == RecordsEnd(data, begin, n)
    ensures Visited(data, little) == Records(data, begin, n)
  {
  }

  lemma WrittenIsLaidOut(id: nat, flags: (Byte, Byte), counts: (nat, nat, nat), question: seq<Byte>,
                         kind: seq<Byte>, ws: seq<WireRecord>)
    requires id < 65536 && counts.0 < 65536 && counts.1 < 65536 && counts.2 < 65536
    requires AllValid(ws) && |kind| == 4
    ensures var data := Packet(id, flags, counts, question, kind, ws);
            data[2] == flags.0 && data[3] == flags.1 && LaidOut(data, counts, question, ws)
  {
    var data := Packet(id, flags, counts, question, kind, ws);
    var h := HeaderBytes(id, flags, 1, counts);
    PacketParts(h, question, kind, AllOctets(ws));
    HeaderStands(data, h);
  }

  lemma HeaderStands(data: seq<Byte>, h: seq<Byte>)
    requires Holds(data, 0, h)
    ensures forall i {:trigger data[i]} {:trigger h[i]} :: 0 <= i < |h| ==> data[i] == h[i]
  {
    forall i | 0 <= i < |h|
      ensures data[i] == h[i]
    {
      HoldsAt(data, 0, h, i);
    }
  }

  lemma PacketParts(h: seq<Byte>, question: seq<Byte>, kind: seq<Byte>, octets: seq<Byte>)
    ensures var data := h + question + kind + octets;
            && Holds(data, 0, h) && Holds(data, |h|, question)
            && Holds(data, |h| + |question| + |kind|, octets)
  {
    var data := h + question + kind + octets;
    assert Holds(data, 0, data);
    HoldsBoth(data, 0, h + question + kind, octets);
    HoldsBoth(data, 0, h + question, kind);
    HoldsBoth(data, 0, h, question);
  }
}
