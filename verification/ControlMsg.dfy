/**
 Framing of control messages: a message travels behind its length, over a stream that takes and gives
 bytes in pieces of any size and that may fail at any time.
 */
module ControlMsg {
  import opened Options
  import opened Arith
  import opened Bytes
  import opened Seqs

  const MAX_CONTROL_MESSAGE_SIZE := 1024 * 1024 * 10

  /** What one call of select(), and of BIO_write() or BIO_read() after it, comes to. A call of select()
      that is interrupted is made again at once, while a round that moves nothing for now, because the
      descriptor is not ready after all or the BIO asks for a retry, goes through the test at the end of
      the loop. A script that has run out leaves the connection silent. */
  datatype Io = Timeout | SelectError | Interrupted | Closed | Fatal | Retry | Moved(n: nat)

  datatype End = Done | Failed | Shut

  /** How many bytes a loop has moved, how it ended and what is left of the script. */
  datatype Transfer = Transfer(moved: nat, end: End, script: seq<Io>)

  /** The first round that is not interrupted, and what follows it. */
  function FirstRound(script: seq<Io>): (io: Io)
    ensures !io.Interrupted?
  {
    if script == [] then Timeout else if script[0].Interrupted? then FirstRound(script[1..]) else script[0]
  }

  function LaterRounds(script: seq<Io>): (rest: seq<Io>)
    ensures |rest| < |script| || rest == script == []
  {
    if script == [] then [] else if script[0].Interrupted? then LaterRounds(script[1..]) else script[1..]
  }

  /** The do-while loops of do_control_write() and do_control_read(): move `left` bytes, of which the
      stream has `avail`. */
  function Move(left: nat, avail: nat, script: seq<Io>): (t: Transfer)
    ensures t.moved <= left && t.moved <= avail
    ensures t.end == Done ==> t.moved == left
    ensures t.end != Done && left > 0 ==> t.moved < left
    decreases |script|
  {
    var rest := LaterRounds(script);
    match FirstRound(script)
    case Timeout => Transfer(0, Failed, rest)
    case SelectError => Transfer(0, Failed, rest)
    case Fatal => Transfer(0, Failed, rest)
    case Closed => Transfer(0, Shut, rest)
    case Retry => if left == 0 then Transfer(0, Done, rest) else Move(left, avail, rest)
    case Moved(n) =>
      var m := Min(n, Min(left, avail));
      if m == 0 then Transfer(0, Shut, rest)
      else if m == left then Transfer(m, Done, rest)
      else
        var t := Move(left - m, avail - m, rest);
        t.(moved := t.moved + m)
  }

  function Min(a: nat, b: nat): nat {
    if a < b then a else b
  }

  // ---------------------------------------------------------------- frames

  /** A 32-bit length in network order. */
  function Header(n: nat): (h: seq<Byte>)
    requires n < 0x1_0000_0000
    ensures |h| == 4
  {
    [n / 0x100_0000, n / 0x1_0000 % 0x100, n / 0x100 % 0x100, n % 0x100]
  }

  function HeaderValue(h: seq<Byte>): (n: nat)
    requires |h| == 4
    ensures n < 0x1_0000_0000
  {
    h[0] as int * 0x100_0000 + h[1] as int * 0x1_0000 + h[2] as int * 0x100 + h[3]
  }

  lemma HeaderRoundTrip(n: nat)
    requires n < 0x1_0000_0000
    ensures HeaderValue(Header(n)) == n
  {
    DivTwice(n, 0x100, 0x100);
    DivTwice(n, 0x1_0000, 0x100);
  }

  lemma HeaderUnique(h: seq<Byte>)
    requires |h| == 4
    ensures Header(HeaderValue(h)) == h
  {
    var n, a, b, c, d := HeaderValue(h), h[0] as int, h[1] as int, h[2] as int, h[3] as int;
    DivModUnique(n, 0x100_0000, a, b * 0x1_0000 + c * 0x100 + d);
    DivModUnique(n, 0x1_0000, a * 0x100 + b, c * 0x100 + d);
    DivModUnique(n, 0x100, a * 0x1_0000 + b * 0x100 + c, d);
    DivModUnique(a * 0x100 + b, 0x100, a, b);
    DivModUnique(a * 0x1_0000 + b * 0x100 + c, 0x100, a * 0x100 + b, c);
  }

  /** A message whose length write_control_packet() can return. */
  predicate Writable(m: seq<Byte>) {
    |m| < 0x8000_0000
  }

  predicate AllWritable(ms: seq<seq<Byte>>) {
    forall i :: 0 <= i < |ms| ==> Writable(ms[i])
  }

  /** A message that can be sent and received whatever rounds it takes. */
  predicate Sendable(m: seq<Byte>) {
    1 <= |m| <= MAX_CONTROL_MESSAGE_SIZE
  }

  predicate AllSendable(ms: seq<seq<Byte>>) {
    forall i :: 0 <= i < |ms| ==> Sendable(ms[i])
  }

  function Frame(m: seq<Byte>): seq<Byte>
    requires |m| < 0x1_0000_0000
  {
    Header(|m|) + m
  }

  // ---------------------------------------------------------------- the functions of the source

  /** What write_control_packet() appends to the stream, its return value and the script after it. */
  function WritePacket(m: seq<Byte>, script: seq<Io>): (r: (seq<Byte>, int, seq<Io>))
    requires Writable(m)
  {
    var h := Move(4, 4, script);
    if h.end != Done then (Header(|m|)[..h.moved], -1, h.script)
    else
      var d := Move(|m|, |m|, h.script);
      (Header(|m|) + m[..d.moved], if d.end == Done then |m| else -1, d.script)
  }

  /** The message that read_control_packet() finds at the start of a stream, if it returns one, what is
      left of the stream and the script after it. */
  function ReadPacket(s: seq<Byte>, script: seq<Io>): (r: (Option<seq<Byte>>, seq<Byte>, seq<Io>)) {
    var h := Move(4, |s|, script);
    if h.end != Done then (None, s[h.moved..], h.script)
    else
      var n, rest := HeaderValue(s[..4]), s[4..];
      if n > MAX_CONTROL_MESSAGE_SIZE then (None, rest, h.script)
      else
        var d := Move(n, |rest|, h.script);
        if d.end == Done || (n == 0 && d.end == Shut) then (Some(rest[..n]), rest[n..], d.script)
        else (None, rest[d.moved..], d.script)
  }

  /** A transfer that has moved `total` bytes goes on as `u`. */
  ghost predicate Resumes(t: Transfer, u: Transfer, total: nat) {
    t.moved == u.moved + total && t.end == u.end && t.script == u.script
  }

  lemma AppendPiece(s: seq<Byte>, data: seq<Byte>, total: nat, n: nat)
    requires total + n <= |data|
    ensures s + data[..total] + data[total..total + n] == s + data[..total + n]
  {
  }

  /** The connection, with all that the peer sends and what the network will do. */
  class Bio {
    var outgoing: seq<Byte>
    var incoming: seq<Byte>
    var script: seq<Io>

    /** The loop that calls select() again as long as it is interrupted. */
    method NextRound() returns (io: Io)
      modifies this`script
      ensures io == FirstRound(old(script)) && script == LaterRounds(old(script))
    {
      io := Interrupted;
      while io.Interrupted?
        invariant if io.Interrupted?
                  then FirstRound(script) == FirstRound(old(script)) && LaterRounds(script) == LaterRounds(old(script))
                  else io == FirstRound(old(script)) && script == LaterRounds(old(script))
        decreases io.Interrupted?, |script|
      {
        if script == [] {
          io := Timeout;
        } else {
          io, script := script[0], script[1..];
        }
      }
    }

    method DoControlWrite(data: seq<Byte>) returns (r: int)
      modifies this`outgoing, this`script
      ensures var t := Move(|data|, |data|, old(script));
              && outgoing == old(outgoing) + data[..t.moved]
              && script == t.script
              && r == if t.end == Done then |data| else -1
    {
      var total: nat, more := 0, true;
      ghost var t := Move(|data|, |data|, script);
      assert outgoing == outgoing + data[..0];
      while more
        invariant total <= |data| && outgoing == old(outgoing) + data[..total]
        invariant if more then Resumes(t, Move(|data| - total, |data| - total, script), total)
                  else total == |data| && t == Transfer(total, Done, script)
        invariant more && |data| > 0 ==> total < |data|
        decreases more, |script|
      {
        var io := NextRound();
        if io.Moved? {
          var bytes := Min(io.n, |data| - total);
          if bytes == 0 {
            return -1;
          }
          outgoing := outgoing + data[total..total + bytes];
          AppendPiece(old(outgoing), data, total, bytes);
          total := total + bytes;
        } else if !io.Retry? {
          return -1;
        }
        more := total < |data|;
      }
      r := total;
    }

    /** BIO_read() with an outcome of at most `n` bytes. */
    method Read(n: nat, want: nat) returns (bytes: seq<Byte>)
      modifies this`incoming
      ensures |bytes| == Min(n, Min(want, |old(incoming)|)) && bytes + incoming == old(incoming)
    {
      var k := Min(n, Min(want, |incoming|));
      bytes, incoming := incoming[..k], incoming[k..];
    }

    /** The body of the loop of do_control_read(): whether there is a result already, which it is, and the
        bytes that were read. */
    method ReadRound(want: nat) returns (ended: bool, r: int, bytes: seq<Byte>)
      modifies this`incoming, this`script
      ensures bytes + incoming == old(incoming)
      ensures var t := Move(want, |old(incoming)|, old(script));
              if ended
              then bytes == [] && t == Transfer(0, if r == 0 then Shut else Failed, script) && (r == 0 || r == -1)
              else if |bytes| < want
              then |script| < |old(script)| && Resumes(t, Move(want - |bytes|, |incoming|, script), |bytes|)
              else t == Transfer(want, Done, script) && |bytes| == want
    {
      var io := NextRound();
      ended, r, bytes := false, 0, [];
      if io.Moved? {
        bytes := Read(io.n, want);
        ended := bytes == [];
      } else if io.Closed? {
        ended := true;
      } else if !io.Retry? {
        ended, r := true, -1;
      }
    }

    method DoControlRead(datalen: nat) returns (r: int, data: seq<Byte>)
      modifies this`incoming, this`script
      ensures var t := Move(datalen, |old(incoming)|, old(script));
              && data + incoming == old(incoming) && |data| == t.moved
              && script == t.script
              && r == (match t.end case Done => datalen case Shut => 0 case Failed => -1)
    {
      ghost var t := Move(datalen, |incoming|, script);
      data := [];
      var more := true;
      while more
        invariant |data| <= datalen && data + incoming == old(incoming)
        invariant if more then Resumes(t, Move(datalen - |data|, |incoming|, script), |data|)
                  else t == Transfer(datalen, Done, script) && |data| == datalen
        decreases more, |script|
      {
        var ended, code, bytes := ReadRound(datalen - |data|);
        if ended {
          return code, data;
        }
        Assoc(data, bytes, incoming);
        data := data + bytes;
        more := |data| < datalen;
      }
      r := |data|;
    }

    method WriteControlPacket(data: seq<Byte>) returns (r: int)
      requires Writable(data)
      modifies this`outgoing, this`script
      ensures var (bytes, code, after) := WritePacket(data, old(script));
              outgoing == old(outgoing) + bytes && r == code && script == after
    {
      var n := DoControlWrite(Header(|data|));
      if n != 4 {
        return -1;
      }
      n := DoControlWrite(data);
      if n != |data| {
        return -1;
      }
      r := |data|;
    }

    method ReadControlPacket() returns (r: int, data: seq<Byte>)
      modifies this`incoming, this`script
      ensures var (m, rest, after) := ReadPacket(old(incoming), old(script));
              && incoming == rest && script == after
              && (m.Some? ==> r == |m.value| && data == m.value)
              && (m.None? ==> r == -1)
    {
      var header;
      r, header := DoControlRead(4);
      if r != 4 {
        return -1, [];
      }
      var datalen := HeaderValue(header);
      if datalen > MAX_CONTROL_MESSAGE_SIZE {
        return -1, [];
      }
      r, data := DoControlRead(datalen);
      if r != datalen {
        return -1, [];
      }
    }
  }

  // ---------------------------------------------------------------- single messages

  /** Whatever the stream holds and however it is cut up: a message that is read is a frame of the
      stream, and what is left is the rest of the stream. */
  lemma ReadIsFrame(s: seq<Byte>, script: seq<Io>)
    ensures var (m, rest, after) := ReadPacket(s, script);
            && (m.Some? ==> |m.value| <= MAX_CONTROL_MESSAGE_SIZE && s == Frame(m.value) + rest)
            && (m.None? ==> |rest| <= |s| && rest == s[|s| - |rest|..])
  {
    if Move(4, |s|, script).end == Done {
      HeaderUnique(s[..4]);
      var n := HeaderValue(s[..4]);
      if n <= |s| - 4 { assert s == s[..4] + (s[4..][..n] + s[4..][n..]); }
    }
  }

  /** Two frames at the start of one stream are one frame. */
  lemma FrameUnique(m: seq<Byte>, rest: seq<Byte>, m': seq<Byte>, rest': seq<Byte>)
    requires |m| < 0x1_0000_0000 && |m'| < 0x1_0000_0000
    requires Frame(m) + rest == Frame(m') + rest'
    ensures m == m' && rest == rest'
  {
    var s := Frame(m) + rest;
    assert Header(|m|) == s[..4] && Header(|m'|) == (Frame(m') + rest')[..4];
    HeaderRoundTrip(|m|);
    HeaderRoundTrip(|m'|);
    assert m == s[4..4 + |m|] && m' == (Frame(m') + rest')[4..4 + |m|];
    assert rest == s[4 + |m|..] && rest' == (Frame(m') + rest')[4 + |m|..];
  }

  /** A write that succeeds puts exactly the frame on the stream, and one that fails leaves the frame
      unfinished, unless the message is empty and its length is all there is of it. */
  lemma WriteIsFrame(m: seq<Byte>, script: seq<Io>)
    requires Writable(m)
    ensures var (bytes, code, after) := WritePacket(m, script);
            && |bytes| <= |Frame(m)| && bytes == Frame(m)[..|bytes|]
            && (code == |m| || code == -1)
            && (code == |m| ==> bytes == Frame(m))
            && (code == -1 ==> |bytes| < |Frame(m)| || m == [])
  {
    var h := Move(4, 4, script);
    if h.end == Done {
      var d := Move(|m|, |m|, h.script);
      assert m[..|m|] == m;
      assert Header(|m|) + m[..d.moved] == Frame(m)[..4 + d.moved];
    } else {
      assert Header(|m|)[..h.moved] == Frame(m)[..h.moved];
    }
  }

  /** A message without content is sent just when its length goes out and the round after it asks for a
      retry; that its length is on the stream does not mean that the write succeeds. */
  lemma EmptyWriteIff(script: seq<Io>)
    ensures var h := Move(4, 4, script);
            && (WritePacket([], script).1 == 0 <==> h.end == Done && FirstRound(h.script).Retry?)
            && (WritePacket([], script).0 == Frame([]) <==> h.end == Done)
  {
  }

  /** A message without content is received just when the round after its length neither fails nor
      times out, even when it finds the connection closed. */
  lemma EmptyReadIff(rest: seq<Byte>, script: seq<Io>)
    ensures var s := Frame([]) + rest;
            var h := Move(4, |s|, script);
            ReadPacket(s, script).0 == Some([]) <==>
            h.end == Done && FirstRound(h.script) !in {Timeout, SelectError, Fatal}
  {
    var s := Frame([]) + rest;
    var h := Move(4, |s|, script);
    assert s[..4] == Header(0);
    HeaderRoundTrip(0);
  }

  /** A script over which an empty message is sent, one over which its length arrives but the write
      fails, and one over which a message that was not sent is received. */
  lemma EmptyMessages()
    ensures WritePacket([], [Moved(4), Retry]).1 == 0
    ensures WritePacket([], [Moved(4), Moved(1)]) == (Frame([]), -1, [])
    ensures ReadPacket(Frame([]), [Moved(4), Closed]).0 == Some([])
  {
    EmptyWriteIff([Moved(4), Retry]);
    EmptyReadIff([], [Moved(4), Closed]);
    assert Frame([]) + [] == Frame([]);
    assert [Moved(4), Retry][1..] == [Retry] && [Moved(4), Closed][1..] == [Closed];
    assert [Moved(4), Moved(1)][1..] == [Moved(1)] && [Moved(1)][1..] == [];
  }

  // ---------------------------------------------------------------- whole sessions

  /** Messages written one after the other until a write fails: the bytes on the stream, and how many
      writes succeeded. */
  function WriteAll(ms: seq<seq<Byte>>, script: seq<Io>): (r: (seq<Byte>, nat))
    requires AllWritable(ms)
    ensures r.1 <= |ms|
    decreases |ms|
  {
    if ms == [] then ([], 0)
    else
      var (bytes, code, after) := WritePacket(ms[0], script);
      if code < 0 then (bytes, 0)
      else
        var (more, n) := WriteAll(ms[1..], after);
        (bytes + more, n + 1)
  }

  /** Messages read one after the other until a read fails. */
  function ReadAll(s: seq<Byte>, script: seq<Io>): seq<seq<Byte>>
    decreases |s|
  {
    ReadIsFrame(s, script);
    var (m, rest, after) := ReadPacket(s, script);
    if m.None? then [] else [m.value] + ReadAll(rest, after)
  }

  /** The messages that may be received when the first `sent` were written: those, and an empty one that
      was given up after its length. */
  function Arrivable(ms: seq<seq<Byte>>, sent: nat): seq<seq<Byte>>
    requires sent <= |ms|
  {
    if sent < |ms| && ms[sent] == [] then ms[..sent + 1] else ms[..sent]
  }

  /** Rounds for which an empty message arrives whose write failed. */
  lemma GivenUpArrives()
    ensures WriteAll([[]], [Moved(4)]) == (Frame([]), 0)
    ensures ReadAll(Frame([]), [Moved(4), Retry]) == [[]]
  {
    var h := [Moved(4)];
    assert h[1..] == [] && [Moved(4), Retry][1..] == [Retry] && [Retry][1..] == [];
    EmptyWriteIff(h);
    EmptyReadIff([], [Moved(4), Retry]);
    assert Frame([]) + [] == Frame([]);
  }

  /** However writes and reads are cut up and wherever they fail, the messages received are the first of
      those whose write succeeded, in order and unchanged, and at most an empty one more. */
  lemma {:induction false} NothingElseArrives(ms: seq<seq<Byte>>, ws: seq<Io>, rs: seq<Io>)
    requires AllWritable(ms)
    ensures var (bytes, sent) := WriteAll(ms, ws);
            ReadAll(bytes, rs) <= Arrivable(ms, sent)
    decreases |ms|
  {
    if ms == [] {
      NothingFromNothing(rs);
    } else {
      WriteIsFrame(ms[0], ws);
      var (first, code, ws') := WritePacket(ms[0], ws);
      if code < 0 {
        ReadsGivenUp(ms[0], first, rs);
      } else {
        var (more, n) := WriteAll(ms[1..], ws');
        var after := ReadsFrame(ms[0], more, rs);
        NothingElseArrives(ms[1..], ws', after);
        PrefixCons(ms, n, ReadAll(more, after));
      }
    }
  }

  /** From a stream that begins with a frame, nothing is read or the message of the frame first. */
  lemma ReadsFrame(m: seq<Byte>, more: seq<Byte>, rs: seq<Io>) returns (after: seq<Io>)
    requires Writable(m)
    ensures ReadAll(Frame(m) + more, rs) == [] || ReadAll(Frame(m) + more, rs) == [m] + ReadAll(more, after)
  {
    var s := Frame(m) + more;
    ReadIsFrame(s, rs);
    var (r, rest, rs') := ReadPacket(s, rs);
    after := rs';
    if r.Some? {
      FrameUnique(m, more, r.value, rest);
    }
  }

  lemma ReadsGivenUp(m: seq<Byte>, bytes: seq<Byte>, rs: seq<Io>)
    requires Writable(m) && |bytes| <= |Frame(m)| && bytes == Frame(m)[..|bytes|]
    requires |bytes| < |Frame(m)| || m == []
    ensures ReadAll(bytes, rs) <= if m == [] then [m] else []
  {
    ReadIsFrame(bytes, rs);
    var (r, rest, after) := ReadPacket(bytes, rs);
    if r.Some? {
      GivenUp(m, bytes, r.value, rest);
      NothingFromNothing(after);
    }
  }

  /** What arrives of a message whose write failed is nothing, or an empty message. */
  lemma GivenUp(m: seq<Byte>, bytes: seq<Byte>, m': seq<Byte>, rest: seq<Byte>)
    requires Writable(m) && |m'| < 0x1_0000_0000 && |bytes| <= |Frame(m)| && bytes == Frame(m)[..|bytes|]
    requires |bytes| < |Frame(m)| || m == []
    requires bytes == Frame(m') + rest
    ensures m == m' == [] && rest == []
  {
    assert Header(|m'|) == bytes[..4] == Header(|m|);
    HeaderRoundTrip(|m|);
    HeaderRoundTrip(|m'|);
  }

  lemma NothingFromNothing(script: seq<Io>)
    ensures ReadAll([], script) == []
  {
  }

  lemma PrefixCons(ms: seq<seq<Byte>>, n: nat, r: seq<seq<Byte>>)
    requires ms != [] && n <= |ms| - 1 && r <= Arrivable(ms[1..], n)
    ensures [ms[0]] + r <= Arrivable(ms, n + 1)
  {
    assert Arrivable(ms, n + 1) == [ms[0]] + Arrivable(ms[1..], n);
  }

  /** A message over the limit is never received, and neither is anything written behind it. */
  lemma TooLargeBlocks(ms: seq<seq<Byte>>, i: nat, ws: seq<Io>, rs: seq<Io>)
    requires AllWritable(ms) && i < |ms| && |ms[i]| > MAX_CONTROL_MESSAGE_SIZE
    ensures ReadAll(WriteAll(ms, ws).0, rs) <= ms[..i]
  {
    var r := ReadAll(WriteAll(ms, ws).0, rs);
    NothingElseArrives(ms, ws, rs);
    ReceivedFit(WriteAll(ms, ws).0, rs);
    assert forall k :: 0 <= k < |r| ==> r[k] == ms[k];
  }

  lemma {:induction false} ReceivedFit(s: seq<Byte>, script: seq<Io>)
    ensures forall i :: 0 <= i < |ReadAll(s, script)| ==> |ReadAll(s, script)[i]| <= MAX_CONTROL_MESSAGE_SIZE
    decreases |s|
  {
    ReadIsFrame(s, script);
    var (m, rest, after) := ReadPacket(s, script);
    if m.Some? { ReceivedFit(rest, after); }
  }

  /** The script never fails and moves something at least `k` times. */
  predicate Lively(script: seq<Io>, k: nat) {
    if script == [] then k == 0
    else match script[0]
      case Retry => Lively(script[1..], k)
      case Interrupted => Lively(script[1..], k)
      case Moved(n) => n > 0 && Lively(script[1..], if k == 0 then 0 else k - 1)
      case _ => false
  }

  lemma {:induction false} LivelyRound(script: seq<Io>, k: nat)
    requires k > 0 && Lively(script, k)
    ensures |LaterRounds(script)| < |script|
    ensures match FirstRound(script)
            case Retry => Lively(LaterRounds(script), k)
            case Moved(n) => n > 0 && Lively(LaterRounds(script), k - 1)
            case _ => false
    decreases |script|
  {
    if script[0].Interrupted? { LivelyRound(script[1..], k); }
  }

  lemma {:induction false} LivelyMoves(left: nat, avail: nat, script: seq<Io>, k: nat)
    requires 0 < left <= avail && left <= k && Lively(script, k)
    ensures Move(left, avail, script).end == Done
    ensures Lively(Move(left, avail, script).script, k - left)
    decreases |script|
  {
    var rest := LaterRounds(script);
    LivelyRound(script, k);
    if FirstRound(script).Retry? {
      LivelyMoves(left, avail, rest, k);
    } else {
      var m := Min(FirstRound(script).n, left);
      if m < left {
        LivelyMoves(left - m, avail - m, rest, k - 1);
        LivelyLess(Move(left - m, avail - m, rest).script, k - 1 - (left - m), k - left);
      } else {
        LivelyLess(rest, k - 1, k - left);
      }
    }
  }

  lemma {:induction false} LivelyLess(script: seq<Io>, k: nat, k': nat)
    requires Lively(script, k) && k' <= k
    ensures Lively(script, k')
    decreases |script|
  {
    if script != [] {
      if !script[0].Moved? {
        LivelyLess(script[1..], k, k');
      } else {
        LivelyLess(script[1..], if k == 0 then 0 else k - 1, if k' == 0 then 0 else k' - 1);
      }
    }
  }

  /** The bytes of some messages. */
  function Frames(ms: seq<seq<Byte>>): seq<Byte>
    requires AllSendable(ms)
  {
    if ms == [] then [] else Frame(ms[0]) + Frames(ms[1..])
  }

  /** Over a connection that keeps moving, in pieces of any size and with as many of them as there are
      bytes, every message is written. */
  lemma {:induction false} EverythingIsWritten(ms: seq<seq<Byte>>, ws: seq<Io>)
    requires AllSendable(ms) && AllWritable(ms) && Lively(ws, |Frames(ms)|)
    ensures WriteAll(ms, ws) == (Frames(ms), |ms|)
    decreases |ms|
  {
    if ms != [] {
      var rest := |Frames(ms[1..])|;
      LivelyMoves(4, 4, ws, |Frames(ms)|);
      LivelyMoves(|ms[0]|, |ms[0]|, Move(4, 4, ws).script, |ms[0]| + rest);
      WriteIsFrame(ms[0], ws);
      EverythingIsWritten(ms[1..], WritePacket(ms[0], ws).2);
    }
  }

  lemma {:induction false} EverythingIsRead(ms: seq<seq<Byte>>, rs: seq<Io>)
    requires AllSendable(ms)
    requires Lively(rs, |Frames(ms)|)
    ensures ReadAll(Frames(ms), rs) == ms
    decreases |ms|
  {
    var s := Frames(ms);
    if ms == [] {
      assert Move(4, 0, rs).end != Done;
    } else {
      var rest := Frames(ms[1..]);
      ReadsFirst(ms[0], rest, rs);
      EverythingIsRead(ms[1..], ReadPacket(s, rs).2);
    }
  }

  /** Over connections that keep moving, every message that is written arrives. */
  lemma EverythingArrives(ms: seq<seq<Byte>>, ws: seq<Io>, rs: seq<Io>)
    requires AllSendable(ms) && AllWritable(ms) && Lively(ws, |Frames(ms)|) && Lively(rs, |Frames(ms)|)
    ensures WriteAll(ms, ws).1 == |ms| && ReadAll(WriteAll(ms, ws).0, rs) == ms
  {
    EverythingIsWritten(ms, ws);
    EverythingIsRead(ms, rs);
  }

  lemma ReadsFirst(m: seq<Byte>, rest: seq<Byte>, rs: seq<Io>)
    requires Sendable(m) && Lively(rs, |Frame(m)| + |rest|)
    ensures var (r, left, after) := ReadPacket(Frame(m) + rest, rs);
            r == Some(m) && left == rest && Lively(after, |rest|)
  {
    var s := Frame(m) + rest;
    LivelyMoves(4, |s|, rs, |s|);
    assert s[..4] == Header(|m|) && s[4..] == m + rest;
    HeaderRoundTrip(|m|);
    LivelyMoves(|m|, |m + rest|, Move(4, |s|, rs).script, |m + rest|);
    assert (m + rest)[..|m|] == m && (m + rest)[|m|..] == rest;
  }
}
