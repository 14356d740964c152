/**
 The replies of the whois server: a stream of lines that arrives in pieces of any size, is gathered in
 a fixed buffer, and leaves it line by line.
 */
module AsnStream {
  import opened Bytes
  import opened Seqs

  const NEWLINE: Byte := 10
  const BUFLEN := 1024
  const BULK: seq<Byte> := [66, 117, 108, 107]
  const ERROR: seq<Byte> := [69, 114, 114, 111, 114]

  // ---------------------------------------------------------------- the stream at once

  function FirstNewline(s: seq<Byte>): (r: nat)
    ensures r <= |s| && (r < |s| ==> s[r] == NEWLINE)
    ensures forall i :: 0 <= i < r ==> s[i] != NEWLINE
  {
    if s == [] || s[0] == NEWLINE then 0 else 1 + FirstNewline(s[1..])
  }

  /** The lines that a newline ends. */
  function Lines(s: seq<Byte>): seq<seq<Byte>>
    decreases |s|
  {
    var d := FirstNewline(s);
    if d == |s| then [] else [s[..d]] + Lines(s[d + 1..])
  }

  /** What stands behind the last newline. */
  function Tail(s: seq<Byte>): seq<Byte>
    decreases |s|
  {
    var d := FirstNewline(s);
    if d == |s| then s else Tail(s[d + 1..])
  }

  /** The header of a bulk reply and error messages. */
  predicate Ignored(line: seq<Byte>) {
    BULK <= line || ERROR <= line
  }

  function Answers(lines: seq<seq<Byte>>): seq<seq<Byte>> {
    if lines == [] then []
    else if Ignored(lines[0]) then Answers(lines[1..])
    else [lines[0]] + Answers(lines[1..])
  }

  /** Text without zero octets and without empty lines. */
  predicate Proper(s: seq<Byte>) {
    && 0 !in s
    && forall i :: 0 <= i < |s| && s[i] == NEWLINE ==> i > 0 && s[i - 1] != NEWLINE
  }

  /** No line, finished or not, is longer than the buffer holds. */
  predicate Short(s: seq<Byte>) {
    |Tail(s)| < BUFLEN - 1 && forall i :: 0 <= i < |Lines(s)| ==> |Lines(s)[i]| < BUFLEN - 1
  }

  // ---------------------------------------------------------------- the stream in pieces

  lemma {:induction false} FirstNewlineOf(s: seq<Byte>, d: nat)
    requires d < |s| && s[d] == NEWLINE && forall i :: 0 <= i < d ==> s[i] != NEWLINE
    ensures FirstNewline(s) == d
  {
    if d > 0 { FirstNewlineOf(s[1..], d - 1); }
  }

  /** Splitting a stream is splitting its first part, and then what that left over with the rest. */
  lemma {:induction false} SplitOnce(a: seq<Byte>, b: seq<Byte>)
    ensures Lines(a + b) == Lines(a) + Lines(Tail(a) + b)
    ensures Tail(a + b) == Tail(Tail(a) + b)
    decreases |a|
  {
    var d := FirstNewline(a);
    if d < |a| {
      FirstNewlineOf(a + b, d);
      CutBehind(a, b, d);
      SplitOnce(a[d + 1..], b);
      Assoc([a[..d]], Lines(a[d + 1..]), Lines(Tail(a[d + 1..]) + b));
    } else {
      NothingBefore(Lines(a + b));
    }
  }

  lemma CutBehind(a: seq<Byte>, b: seq<Byte>, d: nat)
    requires d < |a|
    ensures (a + b)[..d] == a[..d] && (a + b)[d + 1..] == a[d + 1..] + b
  {
  }

  lemma NothingBefore(ls: seq<seq<Byte>>)
    ensures [] + ls == ls
  {
  }

  lemma {:induction false} AnswersConcat(a: seq<seq<Byte>>, b: seq<seq<Byte>>)
    ensures Answers(a + b) == Answers(a) + Answers(b)
    decreases |a|
  {
    if a == [] {
      NothingBefore(b);
      NothingBefore(Answers(b));
    } else {
      AnswersConcat(a[1..], b);
      assert (a + b)[0] == a[0] && (a + b)[1..] == a[1..] + b;
      Assoc([a[0]], Answers(a[1..]), Answers(b));
    }
  }

  function Flat(chunks: seq<seq<Byte>>): seq<Byte> {
    if chunks == [] then [] else chunks[0] + Flat(chunks[1..])
  }

  /** Receiving pieces one by one, and taking the finished lines out each time. */
  function Feed(held: seq<Byte>, chunks: seq<seq<Byte>>): (seq<seq<Byte>>, seq<Byte>)
    decreases |chunks|
  {
    if chunks == [] then ([], held)
    else
      var now := held + chunks[0];
      var (later, left) := Feed(Tail(now), chunks[1..]);
      (Answers(Lines(now)) + later, left)
  }

  /** However a stream is cut into pieces, the same answers are read from it and the same unfinished
      line is left. */
  lemma {:induction false} PiecesIrrelevant(held: seq<Byte>, chunks: seq<seq<Byte>>)
    requires FirstNewline(held) == |held|
    ensures Feed(held, chunks) == (Answers(Lines(held + Flat(chunks))), Tail(held + Flat(chunks)))
    decreases |chunks|
  {
    if chunks == [] {
      assert held + [] == held;
    } else {
      var now, rest := held + chunks[0], Flat(chunks[1..]);
      TailUnfinished(now);
      PiecesIrrelevant(Tail(now), chunks[1..]);
      Assoc(held, chunks[0], rest);
      SplitOnce(now, rest);
      AnswersConcat(Lines(now), Lines(Tail(now) + rest));
    }
  }

  lemma {:induction false} TailUnfinished(s: seq<Byte>)
    ensures FirstNewline(Tail(s)) == |Tail(s)| && |Tail(s)| <= |s|
    decreases |s|
  {
    var d := FirstNewline(s);
    if d < |s| { TailUnfinished(s[d + 1..]); }
  }

  /** When the lines of a stream fit the buffer, there is always room to receive more of it. */
  lemma {:induction false} RoomLeft(a: seq<Byte>, b: seq<Byte>)
    requires Short(a + b)
    ensures |Tail(a)| < BUFLEN - 1
  {
    SplitOnce(a, b);
    var t := Tail(a);
    TailUnfinished(a);
    var d := FirstNewline(t + b);
    if d < |t + b| {
      var i := |Lines(a)|;
      assert Lines(a + b)[i] == (t + b)[..d];
      UnfinishedFirst(t, b);
    }
  }

  lemma UnfinishedFirst(t: seq<Byte>, b: seq<Byte>)
    requires FirstNewline(t) == |t|
    ensures FirstNewline(t + b) >= |t|
  {
    assert forall i :: 0 <= i < |t| ==> (t + b)[i] == t[i];
  }

  // ---------------------------------------------------------------- the buffer

  /** What the string functions see of some octets: those before the first zero. */
  function CString(s: seq<Byte>): (r: seq<Byte>)
    ensures r <= s && (forall i :: 0 <= i < |r| ==> r[i] != 0) && (|r| < |s| ==> s[|r|] == 0)
  {
    if s == [] || s[0] == 0 then [] else [s[0]] + CString(s[1..])
  }

  /** How many newlines stand in front. */
  function Skip(s: seq<Byte>): (r: nat)
    ensures r <= |s| && (r < |s| ==> s[r] != NEWLINE)
    ensures forall i :: 0 <= i < r ==> s[i] == NEWLINE
  {
    if s == [] || s[0] != NEWLINE then 0 else 1 + Skip(s[1..])
  }

  datatype Token = NoToken | Token(text: seq<Byte>)

  /** What strtok_r() finds: newlines in front are passed over, and the token ends before the next. */
  function FirstToken(s: seq<Byte>): (r: Token)
    ensures r.Token? ==> 0 < |r.text| && Skip(s) + |r.text| <= |s|
  {
    var begin := s[Skip(s)..];
    if begin == [] then NoToken else Token(begin[..FirstNewline(begin)])
  }

  /** The token is the first line of a text just when that line is not empty. */
  lemma TokenIsLineIff(s: seq<Byte>)
    requires FirstNewline(s) < |s|
    ensures FirstToken(s) == Token(Lines(s)[0]) <==> Lines(s)[0] != []
  {
    if s[0] != NEWLINE {
      assert s[0..] == s;
    }
  }

  predicate HasLine(s: seq<Byte>) {
    FirstNewline(CString(s)) < |CString(s)|
  }

  lemma TokenFits(s: seq<Byte>)
    requires FirstNewline(s) < |s| && FirstToken(s).Token?
    ensures |FirstToken(s).text| < |s|
  {
    if Skip(s) == 0 {
      assert s[0..] == s;
    }
  }

  /** What the buffer holds after a pass: the token is closed with a zero octet, and as many octets as the
      token has and one more are taken off the front. */
  function AfterPass(s: seq<Byte>): (r: seq<Byte>)
    requires HasLine(s) && FirstToken(CString(s)).Token?
    ensures |r| < |s|
  {
    var text := CString(s);
    var n := |FirstToken(text).text|;
    TokenFits(text);
    var end := Skip(text) + n;
    (if end < |s| then s[end := 0] else s)[n + 1..]
  }

  /** What process_buffer() makes of the octets that are held: the answers and what is left, unless there
      are but empty lines and strlen() is given nothing. */
  datatype Drained = Crashed | Drained(answers: seq<seq<Byte>>, held: seq<Byte>)

  function Drain(s: seq<Byte>): Drained
    decreases |s|
  {
    if !HasLine(s) then Drained([], s)
    else if FirstToken(CString(s)).NoToken? then Crashed
    else
      var line := FirstToken(CString(s)).text;
      match Drain(AfterPass(s))
      case Crashed => Crashed
      case Drained(answers, held) => Drained((if Ignored(line) then [] else [line]) + answers, held)
  }

  lemma {:induction false} WholeString(s: seq<Byte>)
    requires 0 !in s
    ensures CString(s) == s
  {
    if s != [] { WholeString(s[1..]); }
  }

  /** A pass over a text that does not begin with an empty line takes its first line off. */
  lemma PassTakesLine(s: seq<Byte>)
    requires 0 !in s && FirstNewline(s) < |s| && s[0] != NEWLINE
    ensures HasLine(s) && FirstToken(CString(s)) == Token(s[..FirstNewline(s)])
    ensures AfterPass(s) == s[FirstNewline(s) + 1..]
  {
    WholeString(s);
    assert s[0..] == s;
  }

  /** The loop takes exactly the finished lines out of a text and leaves the unfinished one, just when none
      of them is empty. */
  lemma {:induction false} DrainIff(s: seq<Byte>)
    requires 0 !in s
    ensures Drain(s) == Drained(Answers(Lines(s)), Tail(s)) <==> [] !in Lines(s)
    decreases |s|
  {
    if [] in Lines(s) {
      EmptyIsAnswer(Lines(s));
      NoEmptyAnswers(s);
    } else {
      DrainLines(s);
    }
  }

  lemma {:induction false} DrainLines(s: seq<Byte>)
    requires 0 !in s && [] !in Lines(s)
    ensures Drain(s) == Drained(Answers(Lines(s)), Tail(s))
    decreases |s|
  {
    var d := FirstNewline(s);
    if d == |s| {
      DrainNothing(s);
    } else {
      NoneEmpty(s);
      DrainLines(s[d + 1..]);
      DrainOneMore(s);
    }
  }

  lemma DrainNothing(s: seq<Byte>)
    requires 0 !in s && FirstNewline(s) == |s|
    ensures Drain(s) == Drained(Answers(Lines(s)), Tail(s))
  {
    WholeString(s);
  }

  lemma NoneEmpty(s: seq<Byte>)
    requires 0 !in s && FirstNewline(s) < |s| && [] !in Lines(s)
    ensures var rest := s[FirstNewline(s) + 1..]; s[0] != NEWLINE && 0 !in rest && [] !in Lines(rest)
  {
    NotInParts([], s[..FirstNewline(s)], Lines(s[FirstNewline(s) + 1..]));
  }

  lemma DrainOneMore(s: seq<Byte>)
    requires 0 !in s && FirstNewline(s) < |s| && s[0] != NEWLINE
    requires var rest := s[FirstNewline(s) + 1..]; Drain(rest) == Drained(Answers(Lines(rest)), Tail(rest))
    ensures Drain(s) == Drained(Answers(Lines(s)), Tail(s))
  {
    DrainStep(s);
    AnswersCons(s[..FirstNewline(s)], Lines(s[FirstNewline(s) + 1..]));
  }

  lemma DrainStep(s: seq<Byte>)
    requires 0 !in s && FirstNewline(s) < |s| && s[0] != NEWLINE
    ensures var line, rest := s[..FirstNewline(s)], Drain(s[FirstNewline(s) + 1..]);
            Drain(s) == if rest.Crashed? then Crashed
                        else Drained((if Ignored(line) then [] else [line]) + rest.answers, rest.held)
  {
    PassTakesLine(s);
  }

  lemma AnswersCons(line: seq<Byte>, lines: seq<seq<Byte>>)
    ensures Answers([line] + lines) == (if Ignored(line) then [] else [line]) + Answers(lines)
  {
    Cons(line, lines);
    NothingBefore(Answers(lines));
  }

  lemma NotInParts(x: seq<Byte>, line: seq<Byte>, lines: seq<seq<Byte>>)
    requires x !in [line] + lines
    ensures x != line && x !in lines
  {
    assert ([line] + lines)[0] == line;
    assert forall i :: 0 <= i < |lines| ==> lines[i] == ([line] + lines)[i + 1];
  }

  lemma {:induction false} EmptyIsAnswer(lines: seq<seq<Byte>>)
    requires [] in lines
    ensures [] in Answers(lines)
  {
    if lines[0] != [] { EmptyIsAnswer(lines[1..]); }
  }

  lemma {:induction false} NoEmptyAnswers(s: seq<Byte>)
    ensures Drain(s).Drained? ==> [] !in Drain(s).answers
    decreases |s|
  {
    if HasLine(s) && FirstToken(CString(s)).Token? { NoEmptyAnswers(AfterPass(s)); }
  }

  /** An empty line alone: strlen() is given nothing. */
  lemma EmptyLineCrashes(s: seq<Byte>)
    requires s == [NEWLINE]
    ensures Drain(s) == Crashed
  {
    WholeString(s);
    assert s[1..] == [] && Skip(s) == 1;
  }

  /** An empty line before two others, "A" and "B": the last one is left behind a zero octet. */
  lemma EmptyLineLoses(s: seq<Byte>)
    requires s == [NEWLINE, 65, NEWLINE, 66, NEWLINE]
    ensures Drain(s) == Drained([[65]], [0, 66, NEWLINE])
  {
    EmptyLinePass(s);
    var left: seq<Byte> := [0, 66, NEWLINE];
    assert Drain(left) == Drained([], left);
  }

  lemma EmptyLinePass(s: seq<Byte>)
    requires s == [NEWLINE, 65, NEWLINE, 66, NEWLINE]
    ensures HasLine(s) && FirstToken(CString(s)) == Token([65]) && AfterPass(s) == [0, 66, NEWLINE]
  {
    WholeString(s);
    var begin: seq<Byte> := [65, NEWLINE, 66, NEWLINE];
    assert s[1..] == begin && Skip(s) == 1;
    FirstNewlineOf(begin, 1);
    FirstNewlineOf(s, 0);
  }

  class ReplyBuffer {
    const buffer: array<Byte>
    var offset: nat

    ghost predicate Valid()
      reads this, buffer
    {
      buffer.Length == BUFLEN && offset < BUFLEN && buffer[offset] == 0
    }

    ghost function Held(): seq<Byte>
      requires Valid()
      reads this, buffer
    {
      buffer[..offset]
    }

    constructor ()
      ensures Valid() && fresh(buffer) && Held() == []
    {
      buffer := new Byte[BUFLEN](_ => 0);
      offset := 0;
    }

    /** recv() behind what is held, which always leaves room for the zero octet. */
    method Receive(chunk: seq<Byte>)
      requires Valid() && |chunk| <= BUFLEN - offset - 1
      modifies this, buffer
      ensures Valid() && Held() == old(Held()) + chunk
    {
      forall i | 0 <= i < |chunk| {
        buffer[offset + i] := chunk[i];
      }
      offset := offset + |chunk|;
      buffer[offset] := 0;
    }

    /** A string stands at the front of the buffer, and a zero octet behind it. */
    ghost predicate Stands(text: seq<Byte>)
      requires Valid()
      reads this, buffer
    {
      |text| <= offset && buffer[|text|] == 0 && forall i :: 0 <= i < |text| ==> buffer[i] == text[i] != 0
    }

    lemma TextStands()
      requires Valid()
      ensures Stands(CString(Held()))
    {
      var text := CString(Held());
      assert forall i :: 0 <= i < |text| ==> Held()[i] == text[i];
      assert |text| < offset ==> Held()[|text|] == 0;
    }

    /** strchr() for a newline. */
    method HasNewline() returns (found: bool)
      requires Valid()
      ensures found <==> HasLine(Held())
    {
      TextStands();
      found := Find(CString(Held()));
    }

    method Find(ghost text: seq<Byte>) returns (found: bool)
      requires Valid() && Stands(text)
      ensures found <==> FirstNewline(text) < |text|
    {
      var i := 0;
      while buffer[i] != 0 && buffer[i] != NEWLINE
        invariant i <= |text| && forall k :: 0 <= k < i ==> text[k] != NEWLINE
        decreases offset - i
      {
        i := i + 1;
      }
      found := buffer[i] == NEWLINE;
      if found {
        FirstNewlineOf(text, i);
      }
    }

    /** strtok_r(), which closes the token with a zero octet. */
    method TakeToken() returns (line: seq<Byte>)
      requires Valid() && FirstToken(CString(Held())).Token?
      modifies buffer
      ensures line == FirstToken(CString(old(Held()))).text
      ensures buffer[..] == old(buffer[..])[Skip(CString(old(Held()))) + |line| := 0]
    {
      TextStands();
      line := Tokenise(CString(Held()));
    }

    method Tokenise(ghost text: seq<Byte>) returns (line: seq<Byte>)
      requires Valid() && Stands(text) && FirstToken(text).Token?
      modifies buffer
      ensures line == FirstToken(text).text && buffer[..] == old(buffer[..])[Skip(text) + |line| := 0]
    {
      var begin := PassNewlines(text);
      var end := PassToken(text, begin);
      line := buffer[begin..end];
      assert line == text[begin..][..end - begin];
      buffer[end] := 0;
    }

    method PassNewlines(ghost text: seq<Byte>) returns (begin: nat)
      requires Valid() && Stands(text) && Skip(text) < |text|
      ensures begin == Skip(text)
    {
      begin := 0;
      while buffer[begin] == NEWLINE
        invariant begin <= Skip(text)
        decreases offset - begin
      {
        begin := begin + 1;
      }
    }

    method PassToken(ghost text: seq<Byte>, begin: nat) returns (end: nat)
      requires Valid() && Stands(text) && begin < |text|
      ensures end == begin + FirstNewline(text[begin..])
    {
      ghost var rest := text[begin..];
      end := begin;
      while buffer[end] != NEWLINE && buffer[end] != 0
        invariant begin <= end <= begin + FirstNewline(rest)
        decreases offset - end
      {
        assert buffer[end] == rest[end - begin];
        end := end + 1;
      }
      assert end < |text| ==> buffer[end] == rest[end - begin];
    }

    /** memmove() of what follows the line to the front of the buffer. */
    method MoveUp(linelen: nat)
      requires buffer.Length == BUFLEN && linelen <= offset < BUFLEN && buffer[offset] == 0
      modifies this, buffer
      ensures Valid() && Held() == old(buffer[linelen..offset])
    {
      forall i | 0 <= i < BUFLEN - linelen {
        buffer[i] := buffer[i + linelen];
      }
      offset := offset - linelen;
      buffer[offset] := 0;
    }

    /** Takes the first token out, as if nothing stood before it. */
    method TakeLine() returns (line: seq<Byte>)
      requires Valid() && HasLine(Held()) && FirstToken(CString(Held())).Token?
      modifies this, buffer
      ensures Valid() && line == FirstToken(CString(old(Held()))).text && Held() == AfterPass(old(Held()))
    {
      ghost var held := Held();
      TokenFits(CString(held));
      line := TakeToken();
      ghost var end := Skip(CString(held)) + |line|;
      assert buffer[..offset] == if end < offset then held[end := 0] else held;
      MoveUp(|line| + 1);
    }

    /** process_buffer(): the answers that the loop takes out, in order, and how many are still
        outstanding after them. */
    method ProcessBuffer(outstanding: int) returns (answers: seq<seq<Byte>>, left: int)
      requires Valid() && Drain(Held()).Drained?
      modifies this, buffer
      ensures Valid() && Drain(old(Held())) == Drained(answers, Held()) && left == outstanding - |answers|
    {
      answers, left := [], outstanding;
      ghost var goal := Drain(Held());
      LeadsFrom(Held(), goal);
      var more := HasNewline();
      while more
        invariant Valid() && (more <==> HasLine(Held()))
        invariant Leads(answers, Held(), goal) && left == outstanding - |answers|
        decreases offset
      {
        answers, left := ProcessLine(answers, left, goal);
        more := HasNewline();
      }
      LeadsTo(answers, Held(), goal);
    }

    /** A pass of the loop over the lines. */
    method ProcessLine(before: seq<seq<Byte>>, outstanding: int, ghost goal: Drained)
      returns (answers: seq<seq<Byte>>, left: int)
      requires Valid() && HasLine(Held()) && Leads(before, Held(), goal)
      modifies this, buffer
      ensures Valid() && offset < old(offset) && Leads(answers, Held(), goal)
      ensures left + |answers| == outstanding + |before|
    {
      NextPass(before, Held(), goal);
      answers, left := before, outstanding;
      var line := TakeLine();
      if !Ignored(line) {
        answers := answers + [line];
        left := left - 1;
      }
    }
  }

  /** The answers so far and those that are still to be taken out make up the goal. */
  ghost predicate Leads(answers: seq<seq<Byte>>, held: seq<Byte>, goal: Drained) {
    Drain(held).Drained? && goal == Drained(answers + Drain(held).answers, Drain(held).held)
  }

  lemma LeadsFrom(held: seq<Byte>, goal: Drained)
    requires Drain(held).Drained? && goal == Drain(held)
    ensures Leads([], held, goal)
  {
    NothingBefore(Drain(held).answers);
  }

  lemma LeadsTo(answers: seq<seq<Byte>>, held: seq<Byte>, goal: Drained)
    requires !HasLine(held) && Leads(answers, held, goal)
    ensures goal == Drained(answers, held)
  {
  }

  lemma NextPass(answers: seq<seq<Byte>>, held: seq<Byte>, goal: Drained)
    requires HasLine(held) && Leads(answers, held, goal)
    ensures FirstToken(CString(held)).Token?
    ensures var line := FirstToken(CString(held)).text;
            Leads(if Ignored(line) then answers else answers + [line], AfterPass(held), goal)
  {
    var line := FirstToken(CString(held)).text;
    var later := Drain(AfterPass(held)).answers;
    NothingBefore(later);
    Assoc(answers, [line], later);
  }

  /** Text without empty lines is drained line by line. */
  lemma ProperDrain(s: seq<Byte>)
    requires Proper(s)
    ensures Drain(s) == Drained(Answers(Lines(s)), Tail(s))
  {
    ProperLines(s);
    DrainIff(s);
  }

  lemma {:induction false} ProperLines(s: seq<Byte>)
    requires Proper(s)
    ensures [] !in Lines(s)
    decreases |s|
  {
    var d := FirstNewline(s);
    if d < |s| {
      ProperBehind(s, d);
      ProperLines(s[d + 1..]);
    }
  }

  /** The octets that recv() hands over: a failure, or what was asked for cut to what there is. */
  function Received(size: int, room: nat, remaining: nat): (n: nat)
    ensures n <= room && n <= remaining && (size > 0 ==> n <= size && (n == size || n == room || n == remaining))
    ensures n == 0 <==> size <= 0 || room == 0 || remaining == 0
  {
    if size <= 0 then 0
    else if size <= room && size <= remaining then size
    else if room <= remaining then room
    else remaining
  }

  /** amp_asn_fetch_results_direct(): reads until recv() has nothing more, whatever the sizes of the
      pieces. With lines that fit the buffer only a failure stops it before the end of the stream. */
  method FetchResultsDirect(stream: seq<Byte>, sizes: nat -> int) returns (answers: seq<seq<Byte>>, consumed: nat)
    requires Proper(stream)
    ensures consumed <= |stream| && answers == Answers(Lines(stream[..consumed]))
    ensures Short(stream) && (forall i :: sizes(i) > 0) ==> consumed == |stream|
  {
    var whois := new ReplyBuffer();
    answers := [];
    assert stream[..0] == [];
    var more, i := true, 0;
    consumed := 0;
    while more
      invariant whois.Valid() && fresh(whois) && fresh(whois.buffer)
      invariant consumed <= |stream| && Read(stream, consumed, whois.Held(), answers)
      invariant !more && Short(stream) && (forall i :: sizes(i) > 0) ==> consumed == |stream|
      decreases |stream| - consumed, more
    {
      more, consumed, answers := FetchMore(whois, stream, consumed, sizes(i), answers);
      i := i + 1;
    }
  }

  /** A call of recv() and what follows it. */
  method FetchMore(whois: ReplyBuffer, stream: seq<Byte>, at: nat, size: int, before: seq<seq<Byte>>)
    returns (more: bool, to: nat, answers: seq<seq<Byte>>)
    requires whois.Valid() && Proper(stream) && at <= |stream| && Read(stream, at, whois.Held(), before)
    modifies whois, whois.buffer
    ensures whois.Valid() && at <= to <= |stream| && Read(stream, to, whois.Held(), answers)
    ensures more ==> at < to
    ensures !more && Short(stream) && size > 0 ==> to == |stream|
  {
    Refill(stream, at);
    var bytes := Received(size, BUFLEN - whois.offset - 1, |stream| - at);
    more, to, answers := bytes > 0, at + bytes, before;
    if more {
      answers := FetchPiece(whois, stream, at, to, before);
    }
  }

  /** The part of the stream up to a place was read: its answers are known and its tail is held. */
  ghost predicate Read(stream: seq<Byte>, at: nat, held: seq<Byte>, answers: seq<seq<Byte>>)
    requires at <= |stream|
  {
    held == Tail(stream[..at]) && answers == Answers(Lines(stream[..at]))
  }

  method FetchPiece(whois: ReplyBuffer, stream: seq<Byte>, at: nat, to: nat, before: seq<seq<Byte>>)
    returns (answers: seq<seq<Byte>>)
    requires whois.Valid() && Proper(stream) && at <= to <= |stream| && to - at <= BUFLEN - whois.offset - 1
    requires Read(stream, at, whois.Held(), before)
    modifies whois, whois.buffer
    ensures whois.Valid() && Read(stream, to, whois.Held(), answers)
  {
    NextPiece(stream, at, to);
    ProperDrain(Tail(stream[..at]) + stream[at..to]);
    whois.Receive(stream[at..to]);
    var more, _ := whois.ProcessBuffer(0);
    answers := before + more;
  }

  lemma Refill(stream: seq<Byte>, at: nat)
    requires at <= |stream|
    ensures Short(stream) ==> |Tail(stream[..at])| < BUFLEN - 1
  {
    assert stream == stream[..at] + stream[at..];
    if Short(stream) {
      RoomLeft(stream[..at], stream[at..]);
    }
  }

  /** One more piece behind what the pieces before it left. */
  lemma NextPiece(stream: seq<Byte>, at: nat, to: nat)
    requires Proper(stream) && at <= to <= |stream|
    ensures var held, piece := Tail(stream[..at]), stream[at..to];
            && Proper(held + piece) && Tail(stream[..to]) == Tail(held + piece)
            && Answers(Lines(stream[..to])) == Answers(Lines(stream[..at])) + Answers(Lines(held + piece))
  {
    var held, piece := Tail(stream[..at]), stream[at..to];
    assert stream[..to] == stream[..at] + piece;
    SplitOnce(stream[..at], piece);
    AnswersConcat(Lines(stream[..at]), Lines(held + piece));
    ProperPrefix(stream, to);
    ProperTail(stream[..at], piece);
  }

  lemma ProperPrefix(s: seq<Byte>, n: nat)
    requires Proper(s) && n <= |s|
    ensures Proper(s[..n])
  {
  }

  lemma {:induction false} ProperTail(a: seq<Byte>, b: seq<Byte>)
    requires Proper(a + b)
    ensures Proper(Tail(a) + b)
    decreases |a|
  {
    var d := FirstNewline(a);
    if d < |a| {
      CutBehind(a, b, d);
      assert (a + b)[d] == NEWLINE;
      ProperBehind(a + b, d);
      ProperTail(a[d + 1..], b);
    }
  }

  lemma ProperBehind(s: seq<Byte>, d: nat)
    requires Proper(s) && d < |s| && s[d] == NEWLINE
    ensures Proper(s[d + 1..])
  {
    var rest := s[d + 1..];
    forall i | 0 <= i < |rest| && rest[i] == NEWLINE
      ensures i > 0 && rest[i - 1] != NEWLINE
    {
      assert s[d + 1 + i] == rest[i];
    }
  }
}
