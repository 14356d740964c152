/**
 The loop that sends a stream of pings and collects the replies: which packets are counted, which slot
 each reply fills, and when the loop ends.
 */
module FastpingStream {
  import opened Arith
  import opened AddressBits
  import opened Bytes
  import opened FastpingPacket
  import opened FastpingStats

  const LOSS_TIMEOUT := 3_000_000

  // ---------------------------------------------------------------- the outside

  /** A packet in the response buffer, whether it comes from the destination, and when it came. */
  datatype Arrival =
    | NoArrival
    | Arrival(response: seq<Byte>, length: nat, fromDestination: bool, time: nat)

  /** What one iteration meets: select() fails or is interrupted, or reports the socket; the time after
      it, the time when the last packet was sent, the time at which a packet goes out, and the packet
      that is read. */
  datatype Turn =
    | Interrupted
    | Failed
    | Selected(writable: bool, now: nat, stopTime: nat, sendTime: nat, arrival: Arrival)

  /** Packets are in the whole of the response buffer. */
  predicate Buffered(t: Turn) {
    t.Selected? && t.arrival.Arrival? ==> |t.arrival.response| == RESPONSE_LENGTH
  }

  /** Clocks are past the epoch. */
  predicate Timely(t: Turn) {
    Buffered(t) && (t.Selected? ==> t.stopTime > 0 && (t.arrival.Arrival? ==> t.arrival.time > 0))
  }

  predicate AllBuffered(turns: seq<Turn>) {
    forall i :: 0 <= i < |turns| ==> Buffered(turns[i])
  }

  predicate AllTimely(turns: seq<Turn>) {
    forall i :: 0 <= i < |turns| ==> Timely(turns[i])
  }

  /** The headers and the checksum that a reply comes with. */
  datatype Envelope = Envelope(headers: seq<Byte>, sum: (Byte, Byte)) {
    /** No IP options. */
    predicate Plain(f: Family) {
      if f == Inet then |headers| == IP_HEADER && headers[0] % 16 == 5 else headers == []
    }

    function Echo(f: Family, probe: seq<Byte>): seq<Byte>
      requires |probe| >= 4
    {
      headers + [EchoReply(f), 0, sum.0, sum.1] + probe[4..]
    }
  }

  /** The packet is the echo of a probe, without IP options, from the destination. */
  ghost predicate IsEcho(a: Arrival, f: Family, probe: seq<Byte>) {
    && a.Arrival? && a.fromDestination && |probe| >= 4
    && exists e: Envelope :: e.Plain(f) && Received(a.response, a.length, e.Echo(f, probe))
  }

  /** The echo of the probe with a number is read as that number. */
  lemma EchoNumber(a: Arrival, f: Family, size: nat, ident: nat, n: nat, little: bool)
    requires MINIMUM_SIZE <= size && ident < 65536 && n < TWO_63
    requires IsEcho(a, f, Probe(f, size - HeaderLength(f), n % 65536, ident, n, little))
    ensures |a.response| == RESPONSE_LENGTH
    ensures ExtractData(f, a.response, a.length, ident, a.fromDestination, little) == n
  {
    var probe := Probe(f, size - HeaderLength(f), n % 65536, ident, n, little);
    var e: Envelope :| e.Plain(f) && Received(a.response, a.length, e.Echo(f, probe));
    EnvelopeNumber(a.response, a.length, e, f, size, ident, n, little);
  }

  lemma EnvelopeNumber(response: seq<Byte>, length: nat, e: Envelope, f: Family, size: nat, ident: nat, n: nat,
                       little: bool)
    requires MINIMUM_SIZE <= size && ident < 65536 && n < TWO_63 && e.Plain(f)
    requires Received(response, length, e.Echo(f, Probe(f, size - HeaderLength(f), n % 65536, ident, n, little)))
    ensures ExtractData(f, response, length, ident, true, little) == n
  {
    var r := Reply(f, e.headers, e.sum, size, n % 65536, ident, n);
    ReplyEchoes(r, little);
    EchoCreditedIff(r, response, length, n, little);
  }

  // ---------------------------------------------------------------- what the slots hold

  /** The packets that were answered. */
  function Filled(slots: seq<Slot>): nat {
    if slots == [] then 0
    else Filled(slots[..|slots| - 1]) + if slots[|slots| - 1].received != 0 then 1 else 0
  }

  lemma {:induction false} FilledOneMore(slots: seq<Slot>, k: nat, time: nat)
    requires k < |slots| && slots[k].received == 0 && time != 0
    ensures Filled(slots[k := slots[k].(received := time)]) == Filled(slots) + 1
  {
    var n := |slots| - 1;
    var slots' := slots[k := slots[k].(received := time)];
    if k < n {
      assert slots'[..n] == slots[..n][k := slots[k].(received := time)];
      FilledOneMore(slots[..n], k, time);
    } else {
      assert slots'[..n] == slots[..n];
    }
  }

  lemma {:induction false} FilledSame(slots: seq<Slot>, slots': seq<Slot>)
    requires |slots| == |slots'|
    requires forall i :: 0 <= i < |slots| ==> slots[i].received == slots'[i].received
    ensures Filled(slots) == Filled(slots')
  {
    if slots != [] { FilledSame(slots[..|slots| - 1], slots'[..|slots| - 1]); }
  }

  lemma {:induction false} FilledBound(slots: seq<Slot>, n: nat)
    requires n <= |slots| && forall i :: n <= i < |slots| ==> slots[i].received == 0
    ensures Filled(slots) <= n
    ensures Filled(slots) == |slots| ==> forall i :: 0 <= i < |slots| ==> slots[i].received != 0
  {
    if slots != [] {
      var m := |slots| - 1;
      FilledBound(slots[..m], if n <= m then n else m);
      assert forall i :: 0 <= i < m ==> slots[..m][i] == slots[i];
    }
  }

  // ---------------------------------------------------------------- the loop on values

  /** The options of a stream, the time it starts, and our identifier. */
  datatype Setup = Setup(count: nat, gap: nat, startTime: nat, family: Family, ident: nat, size: nat, little: bool) {
    predicate Valid() {
      MINIMUM_SIZE <= size < 65536 && ident < 65536 && count < TWO_63
    }

    /** When a packet is due. */
    function Due(k: nat): nat {
      startTime + (k + 1) * gap
    }

    /** The probe with a number. */
    function ProbeOf(k: nat): seq<Byte>
      requires Valid() && k < TWO_64
    {
      Probe(family, size - HeaderLength(family), k % 65536, ident, k, little)
    }

    /** The number that is read from a packet. */
    function Number(a: Arrival): int
      requires a.Arrival? && |a.response| == RESPONSE_LENGTH && Valid()
    {
      ExtractData(family, a.response, a.length, ident, a.fromDestination, little)
    }
  }

  /** How an iteration leaves the loop: it goes on, all replies came, no more replies came in time, or
      select() failed. */
  datatype Status = GoesOn | AllReceived | TimedOut | SelectFailed

  datatype Progress = Progress(sent: nat, received: nat, stopTime: nat, slots: seq<Slot>, status: Status)

  function Begin(c: Setup): Progress {
    Progress(0, 0, 0, seq(c.count, _ => Slot(0, 0)), GoesOn)
  }

  predicate Looping(c: Setup, p: Progress) {
    p.status == GoesOn && (p.sent < c.count || p.received < c.count)
  }

  predicate IsDue(c: Setup, p: Progress, t: Turn) {
    t.Selected? && p.sent < c.count && t.now >= c.Due(p.sent)
  }

  /** The packet that is due goes out at the time of the turn. */
  function Sent(p: Progress, time: nat): Progress
    requires p.sent < |p.slots|
  {
    p.(sent := p.sent + 1, slots := p.slots[p.sent := p.slots[p.sent].(sent := time)])
  }

  /** All packets are sent, and the wait for replies is over. */
  predicate IsLate(c: Setup, p: Progress, now: nat) {
    p.sent >= c.count && p.stopTime != 0 && now >= p.stopTime + LOSS_TIMEOUT
  }

  function Stopped(c: Setup, p: Progress, time: nat): Progress {
    if p.sent >= c.count && p.stopTime == 0 then p.(stopTime := time) else p
  }

  /** A reply counts when its number is that of a packet that was sent and not yet answered. */
  predicate Fills(p: Progress, sequence: int) {
    0 <= sequence < p.sent && sequence < |p.slots| && p.slots[sequence].received == 0
  }

  function Took(c: Setup, p: Progress, sequence: int, time: nat): Progress {
    if !Fills(p, sequence) then p
    else
      p.(slots := p.slots[sequence := p.slots[sequence].(received := time)], received := p.received + 1,
         status := if p.received + 1 >= c.count then AllReceived else p.status)
  }

  /** The rest of an iteration, after a packet that was due is sent. */
  function Collected(c: Setup, p: Progress, t: Turn): Progress
    requires c.Valid() && t.Selected? && Buffered(t)
  {
    if IsLate(c, p, t.now) then p.(status := TimedOut)
    else if t.arrival.Arrival? then Took(c, Stopped(c, p, t.stopTime), c.Number(t.arrival), t.arrival.time)
    else Stopped(c, p, t.stopTime)
  }

  /** An iteration of the loop. */
  function Step(c: Setup, p: Progress, t: Turn): Progress
    requires c.Valid() && |p.slots| == c.count && Buffered(t)
  {
    if t.Interrupted? then p
    else if t.Failed? then p.(status := SelectFailed)
    else if !IsDue(c, p, t) then Collected(c, p, t)
    else if t.writable then Collected(c, Sent(p, t.sendTime), t)
    else p
  }

  /** Where a sequence of turns leads; turns after the end of the loop are not taken. */
  function Course(c: Setup, turns: seq<Turn>): (p: Progress)
    requires c.Valid() && AllBuffered(turns)
    ensures |p.slots| == c.count
  {
    if turns == [] then Begin(c)
    else
      var p := Course(c, turns[..|turns| - 1]);
      if Looping(c, p) then Step(c, p, turns[|turns| - 1]) else p
  }

  lemma {:induction false} CourseOneMore(c: Setup, turns: seq<Turn>, i: nat)
    requires c.Valid() && AllBuffered(turns) && i < |turns|
    ensures Course(c, turns[..i + 1]) ==
            var p := Course(c, turns[..i]); if Looping(c, p) then Step(c, p, turns[i]) else p
  {
    assert turns[..i + 1][..i] == turns[..i];
  }

  lemma {:induction false} CourseStops(c: Setup, turns: seq<Turn>, i: nat)
    requires c.Valid() && AllBuffered(turns) && i <= |turns| && !Looping(c, Course(c, turns[..i]))
    ensures Course(c, turns) == Course(c, turns[..i])
    decreases |turns|
  {
    if i == |turns| {
      assert turns[..i] == turns;
    } else {
      var n := |turns| - 1;
      assert turns[..n][..i] == turns[..i];
      CourseStops(c, turns[..n], i);
    }
  }

  // ---------------------------------------------------------------- what every run keeps

  /** Replies are counted once each and for packets that were sent, the stop time is set once all packets
      are sent, and the loop ends for the reason it gives. */
  ghost predicate Good(c: Setup, p: Progress) {
    && Counted(c, p)
    && (p.stopTime != 0 ==> p.sent == c.count > 0)
    && (p.status in {AllReceived, TimedOut} ==> p.stopTime != 0)
    && (p.status == AllReceived ==> p.received == c.count)
    && (p.status == GoesOn && c.count > 0 ==> p.received < c.count)
  }

  ghost predicate Counted(c: Setup, p: Progress) {
    && |p.slots| == c.count && p.received == Filled(p.slots) && p.received <= p.sent <= c.count
    && forall k :: p.sent <= k < c.count ==> p.slots[k].received == 0
  }

  lemma BeginGood(c: Setup)
    ensures Good(c, Begin(c))
  {
    FilledBound(Begin(c).slots, 0);
  }

  lemma SentGood(c: Setup, p: Progress, time: nat)
    requires Good(c, p) && p.sent < c.count
    ensures Good(c, Sent(p, time))
  {
    FilledSame(p.slots, Sent(p, time).slots);
  }

  lemma TookCounted(c: Setup, p: Progress, sequence: int, time: nat)
    requires Counted(c, p) && time > 0
    ensures Counted(c, Took(c, p, sequence, time))
  {
    if Fills(p, sequence) {
      FilledOneMore(p.slots, sequence, time);
      FilledBound(Took(c, p, sequence, time).slots, p.sent);
    }
  }

  lemma TookGood(c: Setup, p: Progress, sequence: int, time: nat)
    requires Good(c, p) && p.status == GoesOn && c.count > 0 && time > 0 && (p.sent == c.count ==> p.stopTime != 0)
    ensures Good(c, Took(c, p, sequence, time))
  {
    TookCounted(c, p, sequence, time);
  }

  lemma CollectedGood(c: Setup, p: Progress, t: Turn)
    requires c.Valid() && Good(c, p) && t.Selected? && Timely(t) && p.status == GoesOn && c.count > 0
    ensures Good(c, Collected(c, p, t))
  {
    if !IsLate(c, p, t.now) && t.arrival.Arrival? {
      TookGood(c, Stopped(c, p, t.stopTime), c.Number(t.arrival), t.arrival.time);
    }
  }

  lemma StepGood(c: Setup, p: Progress, t: Turn)
    requires c.Valid() && Good(c, p) && Looping(c, p) && Timely(t)
    ensures Good(c, Step(c, p, t))
  {
    if t.Selected? {
      if !IsDue(c, p, t) {
        CollectedGood(c, p, t);
      } else if t.writable {
        SentGood(c, p, t.sendTime);
        CollectedGood(c, Sent(p, t.sendTime), t);
      }
    }
  }

  lemma {:induction false} CourseGood(c: Setup, turns: seq<Turn>)
    requires c.Valid() && AllTimely(turns)
    ensures Good(c, Course(c, turns))
    decreases |turns|
  {
    if turns == [] {
      BeginGood(c);
    } else {
      var n := |turns| - 1;
      CourseGood(c, turns[..n]);
      if Looping(c, Course(c, turns[..n])) {
        StepGood(c, Course(c, turns[..n]), turns[n]);
      }
    }
  }

  /** However a run ends, unless select() failed, the stop time is set just when there was a packet to
      send; all slots are filled if it ends for having received all replies, and all packets are sent if
      it ends for waiting too long. */
  lemma {:induction false} HowRunsEnd(c: Setup, turns: seq<Turn>)
    requires c.Valid() && AllTimely(turns) && !Looping(c, Course(c, turns))
    ensures var p := Course(c, turns);
            && (p.status != SelectFailed ==> (p.stopTime != 0 <==> c.count > 0))
            && (p.status == AllReceived ==> forall k :: 0 <= k < c.count ==> p.slots[k].received != 0)
            && (p.status == TimedOut ==> p.sent == c.count)
  {
    CourseGood(c, turns);
    FilledBound(Course(c, turns).slots, c.count);
  }

  // ---------------------------------------------------------------- which replies fill which slots

  /** The state in which the packet that arrives in a turn is looked at. */
  function AtReading(c: Setup, p: Progress, t: Turn): Progress
    requires |p.slots| == c.count
  {
    if IsDue(c, p, t) then Sent(p, t.sendTime) else p
  }

  /** The loop gets to the packet that arrives in a turn: it has not ended, the socket was not too busy
      for a packet that was due, and the wait for replies is not over. */
  predicate IsRead(c: Setup, p: Progress, t: Turn)
    requires |p.slots| == c.count
  {
    && Looping(c, p) && t.Selected? && t.arrival.Arrival? && (IsDue(c, p, t) ==> t.writable)
    && !IsLate(c, AtReading(c, p, t), t.now)
  }

  /** The packet that is read in a turn carries the number of a packet that was sent by then. */
  predicate Names(c: Setup, p: Progress, t: Turn, k: nat)
    requires c.Valid() && Buffered(t) && |p.slots| == c.count
  {
    IsRead(c, p, t) && c.Number(t.arrival) == k && k < AtReading(c, p, t).sent
  }

  /** The same of turn `i` of a run. */
  predicate NamesIn(c: Setup, turns: seq<Turn>, i: nat, k: nat)
    requires c.Valid() && AllBuffered(turns) && i < |turns|
  {
    Names(c, Course(c, turns[..i]), turns[i], k)
  }

  /** A turn fills an empty slot with the time of its packet just when that packet names the slot, and
      leaves a filled slot alone. */
  lemma StepFills(c: Setup, p: Progress, t: Turn, k: nat)
    requires c.Valid() && Good(c, p) && Looping(c, p) && Timely(t) && k < c.count
    ensures Step(c, p, t).slots[k].received ==
            if p.slots[k].received == 0 && Names(c, p, t, k) then t.arrival.time else p.slots[k].received
  {
    if t.Selected? && (IsDue(c, p, t) ==> t.writable) {
      CollectedFills(c, AtReading(c, p, t), t, k);
    }
  }

  lemma CollectedFills(c: Setup, p: Progress, t: Turn, k: nat)
    requires c.Valid() && |p.slots| == c.count && p.sent <= c.count && t.Selected? && Buffered(t) && k < c.count
    ensures var fills := !IsLate(c, p, t.now) && t.arrival.Arrival? && c.Number(t.arrival) == k && Fills(p, k);
            Collected(c, p, t).slots[k].received == if fills then t.arrival.time else p.slots[k].received
  {
  }

  lemma {:induction false} TurnFills(c: Setup, turns: seq<Turn>, i: nat, k: nat)
    requires c.Valid() && AllTimely(turns) && i < |turns| && k < c.count
    ensures var was, now := Course(c, turns[..i]).slots[k].received, Course(c, turns[..i + 1]).slots[k].received;
            now == if was == 0 && NamesIn(c, turns, i, k) then turns[i].arrival.time else was
  {
    CourseOneMore(c, turns, i);
    CourseGood(c, turns[..i]);
    if Looping(c, Course(c, turns[..i])) {
      StepFills(c, Course(c, turns[..i]), turns[i], k);
    }
  }

  lemma {:induction false} SameNames(c: Setup, turns: seq<Turn>, n: nat, i: nat, k: nat)
    requires c.Valid() && AllBuffered(turns) && i < n <= |turns|
    ensures NamesIn(c, turns[..n], i, k) <==> NamesIn(c, turns, i, k)
  {
    assert turns[..n][..i] == turns[..i];
  }

  /** Some packet that was read names a slot. */
  ghost predicate Named(c: Setup, turns: seq<Turn>, k: nat)
    requires c.Valid() && AllBuffered(turns)
  {
    exists i :: 0 <= i < |turns| && NamesIn(c, turns, i, k)
  }

  lemma {:induction false} NamedOneMore(c: Setup, turns: seq<Turn>, n: nat, k: nat)
    requires c.Valid() && AllBuffered(turns) && n + 1 == |turns|
    ensures Named(c, turns, k) <==> Named(c, turns[..n], k) || NamesIn(c, turns, n, k)
  {
    forall i | 0 <= i < n
      ensures NamesIn(c, turns[..n], i, k) <==> NamesIn(c, turns, i, k)
    {
      SameNames(c, turns, n, i, k);
    }
  }

  /** A slot is filled just when some packet that was read names it. */
  lemma {:induction false} FilledIff(c: Setup, turns: seq<Turn>, k: nat)
    requires c.Valid() && AllTimely(turns) && k < c.count
    ensures Course(c, turns).slots[k].received != 0 <==> Named(c, turns, k)
    decreases |turns|
  {
    if turns != [] {
      var n := |turns| - 1;
      FilledIff(c, turns[..n], k);
      TurnFills(c, turns, n, k);
      NamedOneMore(c, turns, n, k);
      assert turns[..n + 1] == turns;
    }
  }

  /** It holds the time of the first of them. */
  lemma {:induction false} FirstFills(c: Setup, turns: seq<Turn>, i: nat, k: nat)
    requires c.Valid() && AllTimely(turns) && i < |turns| && k < c.count && NamesIn(c, turns, i, k)
    requires forall j :: 0 <= j < i ==> !NamesIn(c, turns, j, k)
    ensures Course(c, turns).slots[k].received == turns[i].arrival.time
  {
    FilledIff(c, turns[..i], k);
    forall j | 0 <= j < i
      ensures !NamesIn(c, turns[..i], j, k)
    {
      SameNames(c, turns, i, j, k);
    }
    TurnFills(c, turns, i, k);
    StaysFilled(c, turns, i + 1, k);
  }

  lemma {:induction false} StaysFilled(c: Setup, turns: seq<Turn>, i: nat, k: nat)
    requires c.Valid() && AllTimely(turns) && i <= |turns| && k < c.count
    requires Course(c, turns[..i]).slots[k].received != 0
    ensures Course(c, turns).slots[k].received == Course(c, turns[..i]).slots[k].received
    decreases |turns| - i
  {
    if i == |turns| {
      assert turns[..i] == turns;
    } else {
      TurnFills(c, turns, i, k);
      StaysFilled(c, turns, i + 1, k);
    }
  }

  /** Over a whole run, every echo of a packet that is read after that packet was sent leaves its slot
      filled. */
  lemma {:induction false} EchoFills(c: Setup, turns: seq<Turn>, i: nat, k: nat)
    requires c.Valid() && AllTimely(turns) && i < |turns| && k < c.count
    requires var p := Course(c, turns[..i]); IsRead(c, p, turns[i]) && k < AtReading(c, p, turns[i]).sent
    requires IsEcho(turns[i].arrival, c.family, c.ProbeOf(k))
    ensures Course(c, turns).slots[k].received != 0
  {
    EchoNumber(turns[i].arrival, c.family, c.size, c.ident, k, c.little);
    assert NamesIn(c, turns, i, k);
    FilledIff(c, turns, k);
  }

  // ---------------------------------------------------------------- when packets are sent

  /** The first packet is due one gap after the start, and every other one gap after the one before it. */
  lemma DueIs(c: Setup, k: nat)
    ensures c.Due(0) == c.startTime + c.gap && c.Due(k + 1) == c.Due(k) + c.gap
  {
  }

  lemma StepSends(c: Setup, p: Progress, t: Turn)
    requires c.Valid() && |p.slots| == c.count && Buffered(t)
    ensures Step(c, p, t).sent == p.sent + if IsDue(c, p, t) && t.writable then 1 else 0
  {
    if t.Selected? && (IsDue(c, p, t) ==> t.writable) {
      CollectedSends(c, AtReading(c, p, t), t);
    }
  }

  /** A turn sends the next packet just when the loop goes on, the packet is due by then and the socket
      takes it. */
  lemma {:induction false} SendsIff(c: Setup, turns: seq<Turn>, i: nat)
    requires c.Valid() && AllBuffered(turns) && i < |turns|
    ensures var p, t, sent' := Course(c, turns[..i]), turns[i], Course(c, turns[..i + 1]).sent;
            && (sent' == p.sent || sent' == p.sent + 1)
            && (sent' == p.sent + 1 <==>
                && p.status == GoesOn && p.sent < c.count
                && t.Selected? && t.writable && t.now >= c.Due(p.sent))
  {
    CourseOneMore(c, turns, i);
    var p := Course(c, turns[..i]);
    if Looping(c, p) {
      StepSends(c, p, turns[i]);
    }
  }

  lemma CollectedSends(c: Setup, p: Progress, t: Turn)
    requires c.Valid() && t.Selected? && Buffered(t)
    ensures Collected(c, p, t).sent == p.sent && |Collected(c, p, t).slots| == |p.slots|
    ensures forall k :: 0 <= k < |p.slots| ==> Collected(c, p, t).slots[k].sent == p.slots[k].sent
  {
  }

  /** Only the packet that a turn sends gets a send time from it. */
  lemma {:induction false} TurnSends(c: Setup, turns: seq<Turn>, i: nat, k: nat)
    requires c.Valid() && AllBuffered(turns) && i < |turns| && k < c.count
    ensures var p, p' := Course(c, turns[..i]), Course(c, turns[..i + 1]);
            if p.sent == k && p'.sent == k + 1
            then turns[i].Selected? && p'.slots[k].sent == turns[i].sendTime
            else p'.slots[k].sent == p.slots[k].sent
  {
    CourseOneMore(c, turns, i);
    SendsIff(c, turns, i);
    var p := Course(c, turns[..i]);
    if Looping(c, p) && turns[i].Selected? && (IsDue(c, p, turns[i]) ==> turns[i].writable) {
      CollectedSends(c, AtReading(c, p, turns[i]), turns[i]);
    }
  }

  lemma {:induction false} KeepsSent(c: Setup, turns: seq<Turn>, i: nat, k: nat)
    requires c.Valid() && AllBuffered(turns) && i <= |turns| && k < c.count && k < Course(c, turns[..i]).sent
    ensures Course(c, turns).slots[k].sent == Course(c, turns[..i]).slots[k].sent
    decreases |turns| - i
  {
    if i == |turns| {
      assert turns[..i] == turns;
    } else {
      SendsIff(c, turns, i);
      TurnSends(c, turns, i, k);
      KeepsSent(c, turns, i + 1, k);
    }
  }

  /** Over a whole run, the slot of a packet keeps the time at which the packet went out. */
  lemma {:induction false} SendTimeKept(c: Setup, turns: seq<Turn>, i: nat, k: nat)
    requires c.Valid() && AllBuffered(turns) && i < |turns|
    requires Course(c, turns[..i]).sent == k && Course(c, turns[..i + 1]).sent == k + 1
    ensures k < c.count && turns[i].Selected? && Course(c, turns).slots[k].sent == turns[i].sendTime
  {
    SendsIff(c, turns, i);
    TurnSends(c, turns, i, k);
    KeepsSent(c, turns, i + 1, k);
  }

  /** The round trip time that is reported for a packet is the time of the first packet that names it less
      the time at which it went out; it stands behind those of the packets answered before it. */
  lemma {:induction false} ReportedLatency(c: Setup, turns: seq<Turn>, sentIn: nat, readIn: nat, k: nat)
    requires c.Valid() && AllTimely(turns) && sentIn < |turns| && readIn < |turns|
    requires Course(c, turns[..sentIn]).sent == k && Course(c, turns[..sentIn + 1]).sent == k + 1
    requires NamesIn(c, turns, readIn, k) && forall j :: 0 <= j < readIn ==> !NamesIn(c, turns, j, k)
    ensures k < c.count && turns[sentIn].Selected?
    ensures var slots := Course(c, turns).slots;
            var at := |Latencies(slots[..k])|;
            at < |Latencies(slots)| && Latencies(slots)[at] == turns[readIn].arrival.time - turns[sentIn].sendTime
  {
    SendTimeKept(c, turns, sentIn, k);
    FirstFills(c, turns, readIn, k);
    LatencyCount(Course(c, turns).slots, k);
  }

  // ---------------------------------------------------------------- when the wait is over

  /** A run ends for waiting too long just in a turn that comes three seconds after the stop time. */
  lemma {:induction false} TimesOutIff(c: Setup, turns: seq<Turn>, i: nat)
    requires c.Valid() && AllTimely(turns) && i < |turns| && Looping(c, Course(c, turns[..i]))
    ensures var p, t := Course(c, turns[..i]), turns[i];
            Course(c, turns[..i + 1]).status == TimedOut <==>
            t.Selected? && p.stopTime != 0 && t.now >= p.stopTime + 3_000_000
  {
    CourseOneMore(c, turns, i);
    CourseGood(c, turns[..i]);
  }

  /** The stop time is that of the turn in which the last packet was sent. */
  lemma {:induction false} StopTimeIs(c: Setup, turns: seq<Turn>, i: nat)
    requires c.Valid() && AllTimely(turns) && i < |turns|
    requires Course(c, turns[..i]).sent < c.count && Course(c, turns[..i + 1]).sent == c.count
    ensures turns[i].Selected? && Course(c, turns).stopTime == turns[i].stopTime
  {
    CourseOneMore(c, turns, i);
    CourseGood(c, turns[..i]);
    StopTimeStays(c, turns, i + 1);
  }

  lemma {:induction false} StopTimeStays(c: Setup, turns: seq<Turn>, i: nat)
    requires c.Valid() && AllBuffered(turns) && i <= |turns| && Course(c, turns[..i]).stopTime != 0
    ensures Course(c, turns).stopTime == Course(c, turns[..i]).stopTime
    decreases |turns| - i
  {
    if i == |turns| {
      assert turns[..i] == turns;
    } else {
      CourseOneMore(c, turns, i);
      StopTimeStays(c, turns, i + 1);
    }
  }

  // ---------------------------------------------------------------- the loop

  class IcmpStream {
    const c: Setup
    const timing: array<Slot>
    const packet: array<Byte>
    var sent: nat
    var received: nat
    var nextPacket: nat
    var stopTime: nat
    var lossTimeout: nat
    ghost var wire: seq<seq<Byte>>

    /** The packets that went out are the probes with the numbers of their slots, and the next one is
        ready. */
    ghost predicate Wired()
      reads this`sent, this`wire, packet
    {
      Sized() && |wire| == sent <= c.count && Probes() && Prepared(sent)
    }

    ghost predicate Sized() {
      c.Valid() && packet.Length == c.size
    }

    ghost predicate Probes()
      requires Sized()
      reads this`wire
    {
      |wire| <= c.count && forall k :: 0 <= k < |wire| ==> wire[k] == c.ProbeOf(k)
    }

    ghost predicate Prepared(k: nat)
      requires Sized() && k < TWO_64
      reads packet
    {
      packet[..packet.Length - HeaderLength(c.family)] == c.ProbeOf(k)
    }

    /** The times of the next packet and of the end of the wait follow from the other fields. */
    ghost predicate Valid()
      reads this, timing
    {
      && timing.Length == c.count && nextPacket == c.Due(sent)
      && (stopTime != 0 ==> lossTimeout == stopTime + LOSS_TIMEOUT)
    }

    ghost function View(status: Status): Progress
      reads this, timing
    {
      Progress(sent, received, stopTime, timing[..], status)
    }

    constructor (c: Setup)
      requires c.Valid()
      ensures Valid() && Sized() && fresh(timing) && fresh(packet) && this.c == c
      ensures View(GoesOn) == Begin(c) && wire == []
    {
      this.c := c;
      timing := new Slot[c.count](_ => Slot(0, 0));
      packet := new Byte[c.size](_ => 0);
      sent, received, stopTime, lossTimeout, nextPacket := 0, 0, 0, 0, c.startTime + c.gap;
      wire := [];
    }

    /** The packet that is ready goes out. */
    method Transmit()
      requires Sized() && Probes() && |wire| < c.count && Prepared(|wire|)
      modifies this`wire
      ensures |wire| == old(|wire|) + 1 && Probes()
    {
      wire := wire + [packet[..packet.Length - HeaderLength(c.family)]];
    }

    /** The packet with a number is built. */
    method Prepare(k: nat)
      requires Sized() && k < TWO_64
      modifies packet
      ensures Prepared(k)
    {
      var _ := BuildPacket(c.family, packet, k % 65536, c.ident, k, c.little);
    }

    /** A packet is counted as sent. */
    method CountSent(time: nat, ghost status: Status)
      requires Valid() && sent < c.count
      modifies this`sent, this`nextPacket, timing
      ensures Valid() && View(status) == Sent(old(View(status)), time)
    {
      timing[sent] := timing[sent].(sent := time);
      nextPacket := nextPacket + c.gap;
      sent := sent + 1;
    }

    /** A packet goes out, and the next one is built. */
    method Send(time: nat, ghost status: Status)
      requires Valid() && Wired() && sent < c.count
      modifies this`sent, this`nextPacket, this`wire, timing, packet
      ensures Valid() && Wired() && View(status) == Sent(old(View(status)), time)
    {
      Transmit();
      CountSent(time, status);
      Prepare(sent);
    }

    /** The time at which all packets were sent is kept; later, the wait for replies may be over. */
    method CheckStop(now: nat, stop: nat, ghost status: Status) returns (late: bool)
      requires Valid()
      modifies this`stopTime, this`lossTimeout
      ensures Valid() && late == IsLate(c, old(View(status)), now)
      ensures View(status) == if late then old(View(status)) else Stopped(c, old(View(status)), stop)
    {
      late := false;
      if sent >= c.count {
        if stopTime == 0 {
          stopTime, lossTimeout := stop, stop + LOSS_TIMEOUT;
        } else {
          late := now >= lossTimeout;
        }
      }
    }

    /** A reply is counted when its number is that of a packet that was sent and not yet answered. */
    method Receive(sequence: int, time: nat) returns (status: Status)
      requires Valid() && sent <= c.count
      modifies this`received, timing
      ensures Valid() && View(status) == Took(c, old(View(GoesOn)), sequence, time)
    {
      status := GoesOn;
      if 0 <= sequence < sent {
        if timing[sequence].received == 0 {
          timing[sequence] := timing[sequence].(received := time);
          received := received + 1;
          if received >= c.count {
            status := AllReceived;
          }
        }
      }
    }

    /** An iteration of the loop. */
    method Iterate(t: Turn) returns (status: Status)
      requires Valid() && Wired() && Buffered(t)
      modifies this, timing, packet
      ensures Valid() && Wired() && View(status) == Step(c, old(View(GoesOn)), t)
    {
      status := GoesOn;
      if t.Failed? {
        status := SelectFailed;
      } else if t.Selected? {
        var busy := SendIfDue(t);
        if !busy {
          status := Collect(t);
        }
      }
    }

    method SendIfDue(t: Turn) returns (busy: bool)
      requires Valid() && Wired() && t.Selected?
      modifies this`sent, this`nextPacket, this`wire, timing, packet
      ensures Valid() && Wired() && busy == (IsDue(c, old(View(GoesOn)), t) && !t.writable)
      ensures var p := old(View(GoesOn));
              View(GoesOn) == if IsDue(c, p, t) && t.writable then Sent(p, t.sendTime) else p
    {
      busy := false;
      if sent < c.count && t.now >= nextPacket {
        if t.writable {
          Send(t.sendTime, GoesOn);
        } else {
          busy := true;
        }
      }
    }

    /** The rest of an iteration, after a packet that was due is sent. */
    method Collect(t: Turn) returns (status: Status)
      requires Valid() && t.Selected? && Buffered(t) && c.Valid() && sent <= c.count
      modifies this`stopTime, this`lossTimeout, this`received, timing
      ensures Valid() && View(status) == Collected(c, old(View(GoesOn)), t)
    {
      status := GoesOn;
      var late := CheckStop(t.now, t.stopTime, GoesOn);
      if late {
        status := TimedOut;
      } else if t.arrival.Arrival? {
        var sequence := c.Number(t.arrival);
        status := Receive(sequence, t.arrival.time);
      }
    }

    /** The first packet is built, and then the loop runs over any sequence of turns, as far as it takes
        them. */
    method Run(turns: seq<Turn>) returns (status: Status, consumed: nat)
      requires Valid() && Sized() && View(GoesOn) == Begin(c) && wire == [] && AllBuffered(turns)
      modifies this, timing, packet
      ensures Valid() && Wired() && View(status) == Course(c, turns)
      ensures consumed <= |turns| && View(status) == Course(c, turns[..consumed])
      ensures consumed == |turns| || !Looping(c, View(status))
      ensures consumed > 0 ==> Looping(c, Course(c, turns[..consumed - 1]))
    {
      Prepare(0);
      status, consumed := GoesOn, 0;
      while consumed < |turns| && status == GoesOn && (sent < c.count || received < c.count)
        invariant Valid() && Wired() && consumed <= |turns| && View(status) == Course(c, turns[..consumed])
        invariant consumed > 0 ==> Looping(c, Course(c, turns[..consumed - 1]))
      {
        CourseOneMore(c, turns, consumed);
        status := Iterate(turns[consumed]);
        consumed := consumed + 1;
      }
      if consumed == |turns| {
        assert turns[..consumed] == turns;
      } else {
        CourseStops(c, turns, consumed);
      }
    }
  }
}
