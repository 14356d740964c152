/**
 A thread for which all goes well: the connection is made, all requests go out, and then the server
 answers each of them once, in any order and in pieces of any size.
 */
module AsnSmooth {
  import opened Bytes
  import opened Seqs
  import opened AddressBits
  import opened AsnCache
  import opened AsnStream
  import opened AsnWorker
  import opened AsnSystem
  import opened AsnTrace
  import opened AsnLoop

  // ---------------------------------------------------------------- what is said

  /** The prefixes that lines name. */
  function Named(lines: seq<seq<Byte>>, parse: Parser): seq<Prefix> {
    if lines == [] then [] else [PrefixOf(parse(lines[0]).0)] + Named(lines[1..], parse)
  }

  function Text(w: Worker): seq<Byte> {
    w.held + w.replies
  }

  /** The answers that were taken and those still to come, in order. */
  ghost function AllAnswers(w: Worker, parse: Parser): seq<Prefix> {
    w.answered + ToCome(w.held, w.replies, parse)
  }

  ghost function ToCome(held: seq<Byte>, replies: seq<Byte>, parse: Parser): seq<Prefix> {
    Named(Answers(Lines(held + replies)), parse)
  }

  /** The connection was not given up, the answers so far and those to come are these, all lines are finished
      and fit the buffer. */
  ghost predicate Smooth(w: Worker, answers: seq<Prefix>, parse: Parser) {
    w.whois != Unavailable && AllAnswers(w, parse) == answers && Tail(Text(w)) == [] && Short(Text(w))
  }

  // ---------------------------------------------------------------- reading

  lemma GatherSmooth(w: Worker, size: int, answers: seq<Prefix>, parse: Parser)
    requires w.place == Receiving && Smooth(w, answers, parse) && Received(size, Room(w.held), |w.replies|) > 0
    ensures var w' := Gather(w, size);
            w'.place == Draining && Smooth(w', answers, parse) && w'.todo == w.todo && w'.sent == w.sent
  {
    Regroup(w.held, w.replies, Received(size, Room(w.held), |w.replies|));
  }

  lemma {:induction false} ShortRest(held: seq<Byte>, replies: seq<Byte>)
    requires FirstNewline(held) < |held| && Tail(held + replies) == [] && Short(held + replies)
    ensures var rest := held[FirstNewline(held) + 1..] + replies; Tail(rest) == [] && Short(rest)
  {
    var d := FirstNewline(held);
    FirstNewlineOf(held + replies, d);
    CutBehind(held, replies, d);
    ShortBehind(held + replies, d);
  }

  lemma {:induction false} ShortBehind(text: seq<Byte>, d: nat)
    requires d < |text| && FirstNewline(text) == d && Tail(text) == [] && Short(text)
    ensures Tail(text[d + 1..]) == [] && Short(text[d + 1..])
  {
    var lines := Lines(text[d + 1..]);
    assert Lines(text) == [text[..d]] + lines;
    forall i | 0 <= i < |lines|
      ensures |lines[i]| < BUFLEN - 1
    {
      assert Lines(text)[i + 1] == lines[i];
    }
  }

  lemma ConsumeAnswers(w: Worker, cache: Known, line: seq<Byte>, later: seq<Prefix>, parse: Parser)
    ensures Consume(w, cache, line, parse).0.answered + later ==
            w.answered + if Ignored(line) then later else [PrefixOf(parse(line).0)] + later
  {
    Assoc(w.answered, [PrefixOf(parse(line).0)], later);
  }

  lemma ConsumeOthers(w: Worker, cache: Known, line: seq<Byte>, parse: Parser)
    ensures var w' := Consume(w, cache, line, parse).0; w'.whois == w.whois && w'.sent == w.sent
  {
  }

  lemma {:induction false} NextNamed(held: seq<Byte>, replies: seq<Byte>, parse: Parser)
    requires FirstNewline(held) < |held|
    ensures var line := held[..FirstNewline(held)];
            var later := ToCome(held[FirstNewline(held) + 1..], replies, parse);
            ToCome(held, replies, parse) == if Ignored(line) then later else [PrefixOf(parse(line).0)] + later
  {
    FirstAnswer(held, replies);
    NamedCons(held[..FirstNewline(held)], Answers(Lines(held[FirstNewline(held) + 1..] + replies)), parse);
  }

  /** Taking a line out of the buffer moves its answer to those taken. */
  lemma {:induction false} LineAnswers(w: Worker, cache: Known, parse: Parser)
    requires FirstNewline(w.held) < |w.held|
    ensures AllAnswers(Consume(Shifted(w), cache, FirstLine(w), parse).0, parse) == AllAnswers(w, parse)
  {
    var line, later := FirstLine(w), ToCome(Shifted(w).held, w.replies, parse);
    NextNamed(w.held, w.replies, parse);
    ConsumeAnswers(Shifted(w), cache, line, later, parse);
    ConsumeKeeps(Shifted(w), cache, line, parse);
    assert ToCome(w.held, w.replies, parse) == if Ignored(line) then later else [PrefixOf(parse(line).0)] + later;
  }

  lemma {:induction false} LineSmooth(w: Worker, cache: Known, answers: seq<Prefix>, parse: Parser)
    requires w.place == Draining && Smooth(w, answers, parse)
    ensures var w' := TakeLine(w, cache, parse).0;
            && Smooth(w', answers, parse) && w'.todo == w.todo && w'.sent == w.sent
            && (w'.place == Head ==> FirstNewline(w'.held) == |w'.held|)
  {
    if FirstNewline(w.held) < |w.held| {
      assert TakeLine(w, cache, parse) == Consume(Shifted(w), cache, FirstLine(w), parse);
      LineAnswers(w, cache, parse);
      LineRest(w, cache, parse);
    }
  }

  lemma LineRest(w: Worker, cache: Known, parse: Parser)
    requires FirstNewline(w.held) < |w.held| && Tail(Text(w)) == [] && Short(Text(w))
    ensures var w' := Consume(Shifted(w), cache, FirstLine(w), parse).0;
            && Tail(Text(w')) == [] && Short(Text(w')) && w'.whois == w.whois && w'.todo == w.todo && w'.sent == w.sent
            && w'.place == w.place
  {
    ShortRest(w.held, w.replies);
    ConsumeKeeps(Shifted(w), cache, FirstLine(w), parse);
    ConsumeOthers(Shifted(w), cache, FirstLine(w), parse);
  }

  lemma NamedCons(line: seq<Byte>, lines: seq<seq<Byte>>, parse: Parser)
    ensures Named([line] + lines, parse) == [PrefixOf(parse(line).0)] + Named(lines, parse)
  {
    Cons(line, lines);
  }

  lemma {:induction false} DrainSmooth(w: Worker, cache: Known, between: nat -> seq<CacheOp>, k: nat,
                                       answers: seq<Prefix>, parse: Parser)
    requires w.place == Draining && Fine(w, parse) && Smooth(w, answers, parse)
    ensures var w' := DrainAll(w, cache, between, k, parse).0;
            && Smooth(w', answers, parse) && w'.todo == w.todo && w'.sent == w.sent
            && FirstNewline(w'.held) == |w'.held|
    decreases Rank(w)
  {
    var known := Others(cache, between(k));
    LineStep(w, known, parse);
    LineSmooth(w, known, answers, parse);
    var (w', cache') := TakeLine(w, known, parse);
    if w'.place == Draining {
      DrainSmooth(w', cache', between, k + 1, answers, parse);
    }
  }

  /** While an answer is to come, there is something to receive and room for it. */
  lemma MoreToReceive(w: Worker, answers: seq<Prefix>, parse: Parser)
    requires Smooth(w, answers, parse) && FirstNewline(w.held) == |w.held| && |w.answered| < |answers|
    ensures w.replies != [] && Room(w.held) > 0
  {
    var text := Text(w);
    assert Lines(text) != [];
    var d := FirstNewline(text);
    assert d < |text| && Lines(text)[0] == text[..d];
    assert forall i :: 0 <= i < |w.held| ==> text[i] == w.held[i] != NEWLINE;
  }

  /** A turn in which an answer is there to be read. */
  predicate ReadTurn(turn: Turn) {
    turn.read && turn.size > 0
  }

  lemma ReadIteration(w: Worker, cache: Known, turn: Turn, answers: seq<Prefix>, parse: Parser)
    requires w.place == Head && Fine(w, parse) && w.todo == [] && w.outstanding > 0 && ReadTurn(turn)
    requires Smooth(w, answers, parse) && FirstNewline(w.held) == |w.held| && |w.answered| < |answers|
    ensures var w' := Iteration(w, cache, turn, parse).0;
            && Smooth(w', answers, parse) && w'.todo == [] && w'.sent == w.sent
            && FirstNewline(w'.held) == |w'.held|
  {
    var cache' := Others(cache, turn.before);
    var waiting := LookUp(w, cache', turn.connects);
    LookStep(w, cache', turn.connects, parse);
    ReadyStep(waiting, false, true, turn.sends, parse);
    var receiving := Serve(waiting, false, true, turn.sends);
    ReceiveStep(receiving, turn.size, parse);
    assert receiving == w.(place := Receiving);
    assert AllAnswers(receiving, parse) == AllAnswers(w, parse) && Text(receiving) == Text(w);
    MoreToReceive(w, answers, parse);
    GatherSmooth(receiving, turn.size, answers, parse);
    DrainSmooth(Gather(receiving, turn.size), cache', turn.between, 0, answers, parse);
  }

  /** As many answers come as there are requests, so all are taken. */
  lemma {:induction false} ReadPhase(w: Worker, cache: Known, turns: nat -> Turn, k: nat, answers: seq<Prefix>,
                                     parse: Parser)
    requires w.place == Head && Fine(w, parse) && w.todo == [] && |answers| == |w.sent|
    requires Smooth(w, answers, parse) && FirstNewline(w.held) == |w.held|
    requires forall j :: j >= k ==> ReadTurn(turns(j))
    ensures var w' := Loop(w, cache, turns, k, parse).0;
            w'.whois != Unavailable && w'.sent == w.sent && w'.answered == answers
    decreases Rank(w)
  {
    if w.outstanding <= 0 {
      assert |w.answered| >= |answers|;
      assert Named(Answers(Lines(Text(w))), parse) == [];
    } else {
      ReadIteration(w, cache, turns(k), answers, parse);
      var (w', cache') := Iteration(w, cache, turns(k), parse);
      ReadPhase(w', cache', turns, k + 1, answers, parse);
    }
  }

  // ---------------------------------------------------------------- sending

  /** A turn in which a request can be sent and nothing is there to be read. */
  ghost predicate SendTurn(turn: Turn) {
    turn.connects && turn.write && turn.sends && !turn.read && turn.before == []
  }

  /** Nothing was received yet, and requests were sent for just those prefixes that the cache does not
      have. */
  ghost predicate Sending(w: Worker, cache: Known) {
    && w.place == Head && w.whois != Unavailable && w.answered == [] && w.held == []
    && (forall p :: p in w.sent ==> p !in cache) && w.hits <= cache.Keys
  }

  lemma SendIteration(w: Worker, cache: Known, turn: Turn, parse: Parser, oracle: Oracle)
    requires Sending(w, cache) && Fine(w, parse) && w.todo != [] && SendTurn(turn) && Faithful(cache, oracle)
    ensures var (w', cache') := Iteration(w, cache, turn, parse);
            cache' == cache && Sending(w', cache) && w'.todo == w.todo[1..] && w'.replies == w.replies
  {
    assert Others(cache, turn.before) == cache;
    NarrowKeeps(cache, w.todo[0], oracle);
    LookStep(w, cache, turn.connects, parse);
  }

  lemma LoopOnce(w: Worker, cache: Known, turns: nat -> Turn, k: nat, parse: Parser, end: (Worker, Known))
    requires w.place == Head && Fine(w, parse) && w.todo != [] && Loop(w, cache, turns, k, parse) == end
    ensures var (w', cache') := Iteration(w, cache, turns(k), parse); Loop(w', cache', turns, k + 1, parse) == end
  {
  }

  /** After as many turns as there are addresses all of them are looked up or sent, and the loop goes on to
      the same end. */
  lemma {:induction false} SendPhase(w: Worker, cache: Known, turns: nat -> Turn, k: nat, n: nat,
                                     requested: set<Prefix>, parse: Parser, oracle: Oracle, end: (Worker, Known))
    returns (w': Worker)
    requires Sending(w, cache) && Fine(w, parse) && k + |w.todo| == n && Faithful(cache, oracle)
    requires Covers(w, requested) && forall j :: 0 <= j < n ==> SendTurn(turns(j))
    requires Loop(w, cache, turns, k, parse) == end
    ensures Sending(w', cache) && Fine(w', parse) && w'.todo == [] && w'.replies == w.replies
    ensures Loop(w', cache, turns, n, parse) == end && Covers(w', requested)
    decreases |w.todo|
  {
    if w.todo == [] {
      w' := w;
    } else {
      SendIteration(w, cache, turns(k), parse, oracle);
      SendCovers(w, cache, turns(k), parse, requested);
      LoopOnce(w, cache, turns, k, parse, end);
      var next := Iteration(w, cache, turns(k), parse).0;
      w' := SendPhase(next, cache, turns, k + 1, n, requested, parse, oracle, end);
    }
  }

  lemma SendCovers(w: Worker, cache: Known, turn: Turn, parse: Parser, requested: set<Prefix>)
    requires Sending(w, cache) && Fine(w, parse) && w.todo != [] && SendTurn(turn) && Covers(w, requested)
    ensures Covers(Iteration(w, cache, turn, parse).0, requested)
  {
    assert Others(cache, turn.before) == cache;
    LookStep(w, cache, turn.connects, parse);
    LookUpCovers(w, cache, turn.connects, requested);
    var w' := LookUp(w, cache, turn.connects);
    if w'.place == Waiting {
      ServeCovers(w', true, false, true, requested);
    }
  }

  // ---------------------------------------------------------------- all goes well

  /** All requests can be sent before there is anything to read. */
  ghost predicate FirstSendThenRead(turns: nat -> Turn, n: nat) {
    (forall k :: 0 <= k < n ==> SendTurn(turns(k))) && (forall k :: k >= n ==> ReadTurn(turns(k)))
  }

  lemma SentMisses(w: Worker, cache: Known, requested: set<Prefix>)
    requires Sending(w, cache) && Covers(w, requested) && Accounted(w) && w.todo == []
    ensures Members(w.sent) == requested - cache.Keys && Distinct(w.sent)
  {
    DistinctPart(w.sent, Prefixes(w.todo));
  }

  /** What is read behind the requests brings an answer to each of them. */
  lemma {:induction false} AfterSending(w: Worker, cache: Known, turns: nat -> Turn, n: nat, requested: set<Prefix>,
                     answers: seq<Prefix>, parse: Parser)
    requires Sending(w, cache) && Fine(w, parse) && w.todo == [] && Covers(w, requested)
    requires Tail(w.replies) == [] && Short(w.replies) && answers == Named(Answers(Lines(w.replies)), parse)
    requires Distinct(answers) && Members(answers) == requested - cache.Keys
    requires forall k :: k >= n ==> ReadTurn(turns(k))
    ensures var w' := Loop(w, cache, turns, n, parse).0; w'.whois != Unavailable && OneAnswerEach(w')
  {
    SentMisses(w, cache, requested);
    SameMembers(answers, w.sent);
    SameMembers(w.sent, answers);
    assert Text(w) == w.replies && AllAnswers(w, parse) == answers;
    ReadPhase(w, cache, turns, n, answers, parse);
  }

  /** The requests are answered once each, in any order, among headers and error messages, in lines that
      fit the buffer. */
  ghost predicate WellAnswered(todo: seq<Address>, replies: seq<Byte>, cache: Known, parse: Parser) {
    var answers := Named(Answers(Lines(replies)), parse);
    && Distinct(answers) && Members(answers) == Members(Prefixes(todo)) - cache.Keys
    && Tail(replies) == [] && Short(replies)
  }

  lemma NoFailure(todo: seq<Address>, replies: seq<Byte>, cache: Known, turns: nat -> Turn, parse: Parser,
                  oracle: Oracle)
    requires Fine(Begin(todo, replies), parse) && Distinct(Prefixes(todo)) && ToldBy(replies, parse, oracle)
    requires Faithful(cache, oracle) && FirstSendThenRead(turns, |todo|) && WellAnswered(todo, replies, cache, parse)
    ensures var w := Outcome(Begin(todo, replies), cache, false, turns, parse).0;
            w.whois != Unavailable && OneAnswerEach(w)
  {
    var begun, requested := Begin(todo, replies), Members(Prefixes(todo));
    var answers := Named(Answers(Lines(replies)), parse);
    ActFine(begun, cache, Refresh(false), parse);
    BeginGood(Job(todo, replies), parse, oracle);
    var end := Outcome(begun, cache, false, turns, parse);
    var w := SendPhase(begun.(place := Head), cache, turns, 0, |todo|, requested, parse, oracle, end);
    AfterSending(w, cache, turns, |todo|, requested, answers, parse);
  }

  /** When the server answers each request once, in any order and in pieces of any size, the thread ends
      without a failure and has exactly what the server knows. */
  lemma AllGoesWell(todo: seq<Address>, replies: seq<Byte>, cache: Known, turns: nat -> Turn, parse: Parser,
                    oracle: Oracle)
    requires Fine(Begin(todo, replies), parse) && Distinct(Prefixes(todo)) && ToldBy(replies, parse, oracle)
    requires Faithful(cache, oracle) && FaithfulTurns(turns, oracle)
    requires FirstSendThenRead(turns, |todo|) && WellAnswered(todo, replies, cache, parse)
    ensures var w := Outcome(Begin(todo, replies), cache, false, turns, parse).0;
            w.whois != Unavailable && w.result == map p | p in Members(Prefixes(todo)) :: oracle(p)
  {
    NoFailure(todo, replies, cache, turns, parse, oracle);
    OutcomeIsRight(todo, replies, cache, false, turns, parse, oracle);
  }
}
