/**
 The threads that look up AS numbers. Each takes a list of addresses, answers what it can from a cache
 that all of them share, asks a whois server for the rest, and adds the answers to its own result and to
 the cache. A step is what a thread does between two accesses to the cache or to a socket; other threads
 may step in between.
 */
module AsnWorker {
  import opened Arith
  import opened Bytes
  import opened Seqs
  import opened AddressBits
  import opened AsnCache
  import opened AsnStream

  // ---------------------------------------------------------------- one thread

  /** AS numbers by prefix, which the tries of the cache and of the results stand for. */
  type Known = map<Prefix, int>

  function Find(known: Known, a: Address): int {
    if PrefixOf(a) in known then known[PrefixOf(a)] else -1
  }

  function Store(known: Known, a: Address, asn: int): Known {
    known[PrefixOf(a) := asn]
  }

  datatype Connection = Unopened | Live | Unavailable

  /** Where a thread is: before the loop, at the head of the loop, at the call of select(), at the call
      of recv(), in process_buffer(), or behind the loop. */
  datatype Place = Start | Head | Waiting | Receiving | Draining | Done

  /** The state of a thread: the addresses still to look up, the replies still to be received, and what
      it did so far. */
  datatype Worker = Worker(
    todo: seq<Address>, outstanding: int, whois: Connection, place: Place,
    held: seq<Byte>, replies: seq<Byte>, result: Known,
    sent: seq<Prefix>, answered: seq<Prefix>, hits: set<Prefix>, failed: bool)

  /** What the outside decides: whether the cache is due for a refresh, whether a connection can be
      made, what select() reports and whether the request goes out, and what recv() hands over. */
  datatype Action =
    | Refresh(expired: bool)
    | Look(connects: bool)
    | Ready(write: bool, read: bool, sends: bool)
    | Receive(size: int)
    | Line

  /** An answer line names an address and its AS number, which atoi() reads. */
  type Parser = seq<Byte> -> (Address, Int32)

  function Begin(todo: seq<Address>, replies: seq<Byte>): Worker {
    Worker(todo, 0, Unopened, Start, [], replies, map[], [], [], {}, false)
  }

  predicate Legal(w: Worker, act: Action) {
    match act
    case Refresh(_) => w.place == Start
    case Look(_) => w.place == Head
    case Ready(write, read, _) => w.place == Waiting && (write ==> w.todo != []) && (read ==> w.outstanding > 0)
    case Receive(_) => w.place == Receiving
    case Line => w.place == Draining
  }

  function Act(w: Worker, cache: Known, act: Action, parse: Parser): (Worker, Known)
    requires Legal(w, act)
  {
    match act
    case Refresh(expired) => (w.(place := Head), if expired then map[] else cache)
    case Look(connects) => (LookUp(w, cache, connects), cache)
    case Ready(write, read, sends) => (Serve(w, write, read, sends), cache)
    case Receive(size) => (Gather(w, size), cache)
    case Line => TakeLine(w, cache, parse)
  }

  function Rest(todo: seq<Address>): seq<Address> {
    if todo == [] then [] else todo[1..]
  }

  /** The connection is given up: only the cache is used from here on. */
  function Fail(w: Worker): Worker {
    w.(whois := Unavailable, todo := Rest(w.todo), outstanding := 0, place := Head, failed := true)
  }

  /** The head of the loop: check_asn_cache() and check_whois_connection(). */
  function LookUp(w: Worker, cache: Known, connects: bool): Worker {
    if w.todo == [] then w.(place := if w.outstanding > 0 then Waiting else Done)
    else if ToInt32(Find(cache, w.todo[0])) >= 0 then Hit(w, ToInt32(Find(cache, w.todo[0])))
    else Connect(w, connects)
  }

  function Hit(w: Worker, asn: int): Worker
    requires w.todo != []
  {
    var a := w.todo[0];
    w.(result := Store(w.result, a, asn), todo := w.todo[1..], hits := w.hits + {PrefixOf(a)})
  }

  function Connect(w: Worker, connects: bool): Worker
    requires w.todo != []
  {
    if w.whois == Live || (w.whois == Unopened && connects) then w.(whois := Live, place := Waiting)
    else w.(whois := Unavailable, todo := w.todo[1..], failed := true)
  }

  /** What follows select(): the failures, a request that goes out, and a reply that is waiting. */
  function Serve(w: Worker, write: bool, read: bool, sends: bool): Worker
    requires write ==> w.todo != []
  {
    if !write && !read then Fail(w)
    else if !write then w.(place := Receiving)
    else if !sends then Fail(w)
    else
      w.(outstanding := w.outstanding + 1, todo := w.todo[1..], sent := w.sent + [PrefixOf(w.todo[0])],
         place := if read then Receiving else Head)
  }

  /** read_asn_request(). */
  function Gather(w: Worker, size: int): Worker {
    var n := Received(size, Room(w.held), |w.replies|);
    if n == 0 then Fail(w)
    else w.(held := w.held + w.replies[..n], replies := w.replies[n..], place := Draining)
  }

  function Room(held: seq<Byte>): nat {
    if |held| < BUFLEN then BUFLEN - |held| - 1 else 0
  }

  /** A pass of the loop of process_buffer(), and add_parsed_line(). */
  function TakeLine(w: Worker, cache: Known, parse: Parser): (Worker, Known) {
    if FirstNewline(w.held) == |w.held| then (w.(place := Head), cache)
    else Consume(Shifted(w), cache, FirstLine(w), parse)
  }

  function FirstLine(w: Worker): seq<Byte> {
    w.held[..FirstNewline(w.held)]
  }

  /** The thread without its first line. */
  function Shifted(w: Worker): Worker
    requires FirstNewline(w.held) < |w.held|
  {
    w.(held := w.held[FirstNewline(w.held) + 1..])
  }

  function Consume(w: Worker, cache: Known, line: seq<Byte>, parse: Parser): (Worker, Known) {
    if Ignored(line) then (w, cache)
    else (Answered(w, parse(line).0, parse(line).1), Store(cache, parse(line).0, parse(line).1))
  }

  function Answered(w: Worker, a: Address, asn: int): Worker {
    w.(outstanding := w.outstanding - 1, result := Store(w.result, a, asn), answered := w.answered + [PrefixOf(a)])
  }

  // ---------------------------------------------------------------- what a thread keeps

  /** Outstanding requests need a live connection, and on it they are the requests sent less the answers
      taken. */
  predicate Accounted(w: Worker) {
    && |w.held| < BUFLEN
    && (w.outstanding > 0 ==> w.whois == Live)
    && (w.whois == Live ==> w.outstanding == |w.sent| - |w.answered|)
    && (w.whois == Unopened ==> w.sent == [] && w.answered == [] && w.outstanding == 0)
    && (w.whois == Unavailable <==> w.failed)
    && (w.place == Start ==> w.whois == Unopened)
    && (w.place in {Waiting, Receiving, Draining} ==> w.whois == Live)
    && (w.place == Waiting ==> w.todo != [] || w.outstanding > 0)
    && (w.place == Receiving ==> w.outstanding > 0)
    && (w.place == Done ==> w.todo == [] && w.outstanding <= 0)
  }

  /** A bound on the steps that a thread still takes. */
  function Rank(w: Worker): nat {
    10 * |w.todo| + 8 * |w.replies| + 2 * |w.held| + (if w.outstanding > 0 then 4 else 0) + PlaceRank(w.place)
  }

  function PlaceRank(p: Place): nat {
    match p
    case Start => 4
    case Head => 3
    case Waiting => 2
    case Receiving => 1
    case Draining => 4
    case Done => 0
  }

  /** Every step keeps the accounts and brings a thread closer to its end, whatever the outside
      decides. */
  lemma ActDescends(w: Worker, cache: Known, act: Action, parse: Parser)
    requires Legal(w, act) && Accounted(w)
    ensures Accounted(Act(w, cache, act, parse).0)
    ensures Rank(Act(w, cache, act, parse).0) < Rank(w)
  {
    match act
    case Refresh(_) =>
    case Look(connects) => LookUpDescends(w, cache, connects);
    case Ready(write, read, sends) => ServeDescends(w, write, read, sends);
    case Receive(size) => GatherDescends(w, size);
    case Line => TakeLineDescends(w, cache, parse);
  }

  lemma LookUpDescends(w: Worker, cache: Known, connects: bool)
    requires w.place == Head && Accounted(w)
    ensures Accounted(LookUp(w, cache, connects)) && Rank(LookUp(w, cache, connects)) < Rank(w)
  {
  }

  lemma ServeDescends(w: Worker, write: bool, read: bool, sends: bool)
    requires Legal(w, Ready(write, read, sends)) && Accounted(w)
    ensures Accounted(Serve(w, write, read, sends)) && Rank(Serve(w, write, read, sends)) < Rank(w)
  {
  }

  lemma GatherDescends(w: Worker, size: int)
    requires w.place == Receiving && Accounted(w)
    ensures Accounted(Gather(w, size)) && Rank(Gather(w, size)) < Rank(w)
  {
  }

  lemma TakeLineDescends(w: Worker, cache: Known, parse: Parser)
    requires w.place == Draining && Accounted(w)
    ensures Accounted(TakeLine(w, cache, parse).0) && Rank(TakeLine(w, cache, parse).0) < Rank(w)
  {
  }

  /** A thread that is not done can step, so it stops nowhere else. */
  lemma CanStep(w: Worker)
    ensures w.place != Done <==> exists act :: Legal(w, act)
  {
    match w.place
    case Start => assert Legal(w, Refresh(false));
    case Head => assert Legal(w, Look(false));
    case Waiting => assert Legal(w, Ready(false, false, false));
    case Receiving => assert Legal(w, Receive(0));
    case Draining => assert Legal(w, Line);
    case Done =>
  }

  // ---------------------------------------------------------------- right values

  type Asn = x: int | 0 <= x < 0x8000_0000

  /** The AS number that the whois server knows for a prefix. */
  type Oracle = Prefix -> Asn

  ghost predicate Faithful(known: Known, oracle: Oracle) {
    forall p :: p in known ==> known[p] == oracle(p)
  }

  predicate All(lines: seq<seq<Byte>>, good: seq<Byte> -> bool) {
    forall i :: 0 <= i < |lines| ==> good(lines[i])
  }

  /** A line that tells what the whois server knows. */
  function Tells(parse: Parser, oracle: Oracle): seq<Byte> -> bool {
    line => parse(line).1 == oracle(PrefixOf(parse(line).0))
  }

  function Members<T>(s: seq<T>): set<T> {
    set x | x in s
  }

  /** The result of a thread is faithful and holds what was found in the cache and what was answered, and
      the answers still to come are faithful. */
  ghost predicate Truthful(w: Worker, parse: Parser, oracle: Oracle) {
    && Collected(w.result, w.hits, w.answered, oracle)
    && ToldBy(w.held + w.replies, parse, oracle)
  }

  ghost predicate ToldBy(text: seq<Byte>, parse: Parser, oracle: Oracle) {
    All(Answers(Lines(text)), Tells(parse, oracle))
  }

  ghost predicate Collected(result: Known, hits: set<Prefix>, answered: seq<Prefix>, oracle: Oracle) {
    Faithful(result, oracle) && result.Keys == hits + Members(answered)
  }

  lemma FirstAnswer(held: seq<Byte>, replies: seq<Byte>)
    requires FirstNewline(held) < |held|
    ensures var line, rest := held[..FirstNewline(held)], held[FirstNewline(held) + 1..];
            var later := Answers(Lines(rest + replies));
            Answers(Lines(held + replies)) == if Ignored(line) then later else [line] + later
  {
    var d := FirstNewline(held);
    FirstNewlineOf(held + replies, d);
    CutBehind(held, replies, d);
    Cons(held[..d], Lines(held[d + 1..] + replies));
  }

  /** What holds of all answers holds of the next, and of those after it. */
  lemma NextAnswers(good: seq<Byte> -> bool, held: seq<Byte>, replies: seq<Byte>)
    requires FirstNewline(held) < |held| && All(Answers(Lines(held + replies)), good)
    ensures var line, rest := held[..FirstNewline(held)], held[FirstNewline(held) + 1..];
            (Ignored(line) || good(line)) && All(Answers(Lines(rest + replies)), good)
  {
    var line, rest := held[..FirstNewline(held)], held[FirstNewline(held) + 1..];
    FirstAnswer(held, replies);
    if !Ignored(line) {
      AllOfCons(good, line, Answers(Lines(rest + replies)));
    }
  }

  lemma AllOfCons(good: seq<Byte> -> bool, line: seq<Byte>, later: seq<seq<Byte>>)
    requires All([line] + later, good)
    ensures good(line) && All(later, good)
  {
    assert ([line] + later)[0] == line;
    forall i | 0 <= i < |later|
      ensures good(later[i])
    {
      assert ([line] + later)[i + 1] == later[i];
    }
  }

  lemma Regroup(held: seq<Byte>, replies: seq<Byte>, n: nat)
    requires n <= |replies|
    ensures (held + replies[..n]) + replies[n..] == held + replies
  {
    assert replies == replies[..n] + replies[n..];
    Assoc(held, replies[..n], replies[n..]);
  }

  lemma MembersOneMore<T>(s: seq<T>, x: T)
    ensures Members(s + [x]) == Members(s) + {x}
  {
  }

  /** A step keeps the values of a thread and of the cache right. */
  lemma ActTruthful(w: Worker, cache: Known, act: Action, parse: Parser, oracle: Oracle)
    requires Legal(w, act) && Truthful(w, parse, oracle) && Faithful(cache, oracle)
    ensures var (w', cache') := Act(w, cache, act, parse);
            Truthful(w', parse, oracle) && Faithful(cache', oracle)
  {
    match act
    case Refresh(_) =>
    case Look(connects) => LookUpTruthful(w, cache, connects, parse, oracle);
    case Ready(_, _, _) =>
    case Receive(size) => Regroup(w.held, w.replies, Received(size, Room(w.held), |w.replies|));
    case Line => TakeLineTruthful(w, cache, parse, oracle);
  }

  /** The numbers that the server knows are not changed by the assignment to an int. */
  lemma NarrowKeeps(cache: Known, a: Address, oracle: Oracle)
    requires Faithful(cache, oracle)
    ensures ToInt32(Find(cache, a)) == Find(cache, a)
  {
  }

  lemma LookUpTruthful(w: Worker, cache: Known, connects: bool, parse: Parser, oracle: Oracle)
    requires Truthful(w, parse, oracle) && Faithful(cache, oracle)
    ensures Truthful(LookUp(w, cache, connects), parse, oracle)
  {
    if w.todo != [] {
      NarrowKeeps(cache, w.todo[0], oracle);
    }
  }

  lemma NextTells(held: seq<Byte>, replies: seq<Byte>, parse: Parser, oracle: Oracle)
    requires FirstNewline(held) < |held| && ToldBy(held + replies, parse, oracle)
    ensures var line, rest := held[..FirstNewline(held)], held[FirstNewline(held) + 1..];
            && (Ignored(line) || parse(line).1 == oracle(PrefixOf(parse(line).0)))
            && ToldBy(rest + replies, parse, oracle)
  {
    NextAnswers(Tells(parse, oracle), held, replies);
  }

  lemma TakeLineTruthful(w: Worker, cache: Known, parse: Parser, oracle: Oracle)
    requires Truthful(w, parse, oracle) && Faithful(cache, oracle)
    ensures Truthful(TakeLine(w, cache, parse).0, parse, oracle)
    ensures Faithful(TakeLine(w, cache, parse).1, oracle)
  {
    if FirstNewline(w.held) < |w.held| {
      NextTells(w.held, w.replies, parse, oracle);
      ConsumeTruthful(Shifted(w), cache, FirstLine(w), parse, oracle);
    }
  }

  lemma ConsumeTruthful(w: Worker, cache: Known, line: seq<Byte>, parse: Parser, oracle: Oracle)
    requires Truthful(w, parse, oracle)
    requires Ignored(line) || parse(line).1 == oracle(PrefixOf(parse(line).0))
    ensures Truthful(Consume(w, cache, line, parse).0, parse, oracle)
    ensures Faithful(cache, oracle) ==> Faithful(Consume(w, cache, line, parse).1, oracle)
  {
    CollectAnswer(w.result, w.hits, w.answered, parse(line).0, oracle);
  }

  lemma CollectAnswer(result: Known, hits: set<Prefix>, answered: seq<Prefix>, a: Address, oracle: Oracle)
    requires Collected(result, hits, answered, oracle)
    ensures Collected(Store(result, a, oracle(PrefixOf(a))), hits, answered + [PrefixOf(a)], oracle)
  {
    MembersOneMore(answered, PrefixOf(a));
  }

  // ---------------------------------------------------------------- complete results

  predicate WholeAddresses(todo: seq<Address>) {
    forall i :: 0 <= i < |todo| ==> todo[i].Valid()
  }

  function Prefixes(todo: seq<Address>): seq<Prefix> {
    if todo == [] then [] else [PrefixOf(todo[0])] + Prefixes(todo[1..])
  }

  /** No prefix is asked for twice, and unless something failed every prefix that was requested was
      found, was asked for, or is still to be looked up. */
  ghost predicate Covers(w: Worker, requested: set<Prefix>) {
    Partition(w.hits, w.sent, w.todo, w.failed, requested)
  }

  ghost predicate Partition(hits: set<Prefix>, sent: seq<Prefix>, todo: seq<Address>, failed: bool,
                            requested: set<Prefix>)
  {
    Distinct(sent + Prefixes(todo)) && (!failed ==> Union(hits, sent, todo) == requested)
  }

  ghost function Union(hits: set<Prefix>, sent: seq<Prefix>, todo: seq<Address>): set<Prefix> {
    hits + Members(sent) + Members(Prefixes(todo))
  }

  /** Taking the first address off the list leaves the rest distinct, and moving it to the hits or to the
      requests sent loses nothing. */
  lemma {:induction false} Popped(hits: set<Prefix>, sent: seq<Prefix>, todo: seq<Address>, failed: bool,
                                  requested: set<Prefix>)
    requires todo != [] && Partition(hits, sent, todo, failed, requested)
    ensures Partition(hits, sent, todo[1..], true, requested)
    ensures Partition(hits + {PrefixOf(todo[0])}, sent, todo[1..], failed, requested)
    ensures Partition(hits, sent + [PrefixOf(todo[0])], todo[1..], failed, requested)
  {
    var p, rest := PrefixOf(todo[0]), Prefixes(todo[1..]);
    Assoc(sent, [p], rest);
    DistinctWithout(sent + [p] + rest, |sent|);
    assert (sent + [p] + rest)[..|sent|] == sent && (sent + [p] + rest)[|sent| + 1..] == rest;
    MembersOneMore(sent, p);
    assert Members([p] + rest) == {p} + Members(rest);
  }

  lemma ActCovers(w: Worker, cache: Known, act: Action, parse: Parser, requested: set<Prefix>)
    requires Legal(w, act) && Covers(w, requested)
    ensures Covers(Act(w, cache, act, parse).0, requested)
  {
    FailCovers(w, requested);
    match act
    case Look(connects) => LookUpCovers(w, cache, connects, requested);
    case Ready(write, read, sends) => ServeCovers(w, write, read, sends, requested);
    case _ =>
  }

  lemma FailCovers(w: Worker, requested: set<Prefix>)
    requires Covers(w, requested)
    ensures Covers(Fail(w), requested)
  {
    if w.todo != [] { Popped(w.hits, w.sent, w.todo, w.failed, requested); }
  }

  lemma LookUpCovers(w: Worker, cache: Known, connects: bool, requested: set<Prefix>)
    requires Covers(w, requested)
    ensures Covers(LookUp(w, cache, connects), requested)
  {
    if w.todo != [] { Popped(w.hits, w.sent, w.todo, w.failed, requested); }
  }

  lemma ServeCovers(w: Worker, write: bool, read: bool, sends: bool, requested: set<Prefix>)
    requires (write ==> w.todo != []) && Covers(w, requested)
    ensures Covers(Serve(w, write, read, sends), requested)
  {
    FailCovers(w, requested);
    if w.todo != [] { Popped(w.hits, w.sent, w.todo, w.failed, requested); }
  }

  /** The server answered nothing but what was asked, and nothing twice. */
  ghost predicate OneAnswerEach(w: Worker) {
    Distinct(w.answered) && Members(w.answered) <= Members(w.sent)
  }

  /** A thread that came to its end without a failure, and got at most one answer to each request, has
      exactly what the whois server knows of the prefixes that were requested. */
  lemma CompleteResult(w: Worker, parse: Parser, oracle: Oracle, requested: set<Prefix>)
    requires Accounted(w) && Truthful(w, parse, oracle) && Covers(w, requested)
    requires w.place == Done && !w.failed && OneAnswerEach(w)
    ensures w.outstanding == 0 && w.result == map p | p in requested :: oracle(p)
  {
    DistinctPart(w.sent, Prefixes(w.todo));
    SameMembers(w.answered, w.sent);
    assert w.result.Keys == requested;
  }

  /** With at most one answer to each request, outstanding requests are never negative. */
  lemma NeverNegative(w: Worker, requested: set<Prefix>)
    requires Accounted(w) && Covers(w, requested) && OneAnswerEach(w) && w.whois != Unavailable
    ensures w.outstanding >= 0
  {
    DistinctPart(w.sent, Prefixes(w.todo));
    SameMembers(w.answered, w.sent);
  }

  // ---------------------------------------------------------------- what a failure costs

  /** Whatever happens, a step takes no more than the first address off the list. */
  lemma ActTakesOne(w: Worker, cache: Known, act: Action, parse: Parser)
    requires Legal(w, act)
    ensures var todo := Act(w, cache, act, parse).0.todo; todo == w.todo || (w.todo != [] && todo == w.todo[1..])
  {
  }

  /** Not in the result, and not on the list any more. */
  predicate Missed(w: Worker, p: Prefix) {
    p !in w.result && p !in Prefixes(w.todo)
  }

  /** Of the prefixes that the cache is sure to have, none is missed while the connection is not given up,
      and one at most afterwards; and no request is about to be made for one of them. */
  ghost predicate Serves(w: Worker, owed: set<Prefix>) {
    && (w.whois != Unavailable ==> forall p :: p in owed ==> !Missed(w, p))
    && OneMissed(w, owed)
    && (w.place == Waiting && w.todo != [] ==> PrefixOf(w.todo[0]) !in owed)
  }

  ghost predicate OneMissed(w: Worker, owed: set<Prefix>) {
    forall p, q :: p in owed && q in owed && Missed(w, p) && Missed(w, q) ==> p == q
  }

  lemma PrefixesTail(todo: seq<Address>, p: Prefix)
    requires todo != []
    ensures p in Prefixes(todo) <==> p == PrefixOf(todo[0]) || p in Prefixes(todo[1..])
  {
  }

  lemma MissedAfter(w: Worker, p: Prefix)
    requires w.todo != []
    ensures Missed(w.(todo := w.todo[1..]), p) <==> Missed(w, p) || (p == PrefixOf(w.todo[0]) && p !in w.result &&
                                                                   p !in Prefixes(w.todo[1..]))
  {
    PrefixesTail(w.todo, p);
  }

  lemma FailServes(w: Worker, owed: set<Prefix>)
    requires Serves(w, owed) && w.whois != Unavailable
    ensures Serves(Fail(w), owed)
  {
    if w.todo != [] {
      forall p | p in owed && Missed(Fail(w), p)
        ensures p == PrefixOf(w.todo[0])
      {
        MissedAfter(w, p);
      }
    }
  }

  lemma LookUpServes(w: Worker, cache: Known, connects: bool, owed: set<Prefix>, oracle: Oracle)
    requires w.place == Head && Serves(w, owed) && Faithful(cache, oracle) && owed <= cache.Keys
    ensures Serves(LookUp(w, cache, connects), owed)
  {
    if w.todo != [] {
      NarrowKeeps(cache, w.todo[0], oracle);
      forall p
        ensures Missed(LookUp(w, cache, connects), p) ==> Missed(w, p) || p !in owed
      {
        MissedAfter(w, p);
      }
    }
  }

  lemma ServeServes(w: Worker, write: bool, read: bool, sends: bool, owed: set<Prefix>)
    requires Legal(w, Ready(write, read, sends)) && Serves(w, owed) && w.whois == Live
    ensures Serves(Serve(w, write, read, sends), owed)
  {
    FailServes(w, owed);
    if write && sends {
      forall p | p in owed
        ensures !Missed(Serve(w, write, read, sends), p)
      {
        MissedAfter(w, p);
      }
    }
  }

  lemma ConsumeServes(w: Worker, cache: Known, line: seq<Byte>, owed: set<Prefix>, parse: Parser)
    requires Serves(w, owed) && w.place == Draining
    ensures Serves(Consume(w, cache, line, parse).0, owed)
  {
    var w' := Consume(w, cache, line, parse).0;
    assert forall p :: Missed(w', p) ==> Missed(w, p);
  }

  lemma TakeLineServes(w: Worker, cache: Known, owed: set<Prefix>, parse: Parser)
    requires Serves(w, owed) && w.place == Draining
    ensures Serves(TakeLine(w, cache, parse).0, owed)
  {
    if FirstNewline(w.held) < |w.held| {
      assert forall p :: Missed(Shifted(w), p) <==> Missed(w, p);
      ConsumeServes(Shifted(w), cache, FirstLine(w), owed, parse);
    } else {
      assert forall p :: Missed(w.(place := Head), p) <==> Missed(w, p);
    }
  }

  /** A step misses no prefix that the cache is sure to have, but for one when the connection is given
      up. */
  lemma ActServes(w: Worker, cache: Known, act: Action, owed: set<Prefix>, parse: Parser, oracle: Oracle)
    requires Legal(w, act) && Accounted(w) && Serves(w, owed) && Faithful(cache, oracle) && owed <= cache.Keys
    ensures Serves(Act(w, cache, act, parse).0, owed)
  {
    match act
    case Refresh(_) => assert forall p :: Missed(w.(place := Head), p) <==> Missed(w, p);
    case Look(connects) => LookUpServes(w, cache, connects, owed, oracle);
    case Ready(write, read, sends) => ServeServes(w, write, read, sends, owed);
    case Receive(size) => GatherServes(w, size, owed);
    case Line => TakeLineServes(w, cache, owed, parse);
  }

  lemma GatherServes(w: Worker, size: int, owed: set<Prefix>)
    requires w.place == Receiving && w.whois == Live && Serves(w, owed)
    ensures Serves(Gather(w, size), owed)
  {
    FailServes(w, owed);
    if Received(size, Room(w.held), |w.replies|) > 0 {
      assert forall p :: Missed(Gather(w, size), p) <==> Missed(w, p);
    }
  }

  // ---------------------------------------------------------------- answers are shared

  /** Unless it empties the cache, a step takes nothing out of it, and what it adds to the result is in the
      cache. */
  lemma ActCaches(w: Worker, cache: Known, act: Action, parse: Parser)
    requires Legal(w, act) && act != Refresh(true)
    ensures var (w', cache') := Act(w, cache, act, parse);
            && cache.Keys <= cache'.Keys
            && (w.result.Keys <= cache.Keys ==> w'.result.Keys <= cache'.Keys)
  {
    if act == Line && FirstNewline(w.held) < |w.held| {
      var line := FirstLine(w);
      assert TakeLine(w, cache, parse) == Consume(Shifted(w), cache, line, parse);
    }
  }

  /** An answer is in the cache as it is in the result, and any thread that looks for its prefix then finds
      it there and makes no request. */
  lemma AnswerIsShared(w: Worker, cache: Known, parse: Parser, v: Worker, connects: bool)
    requires FirstNewline(w.held) < |w.held| && !Ignored(FirstLine(w)) && parse(FirstLine(w)).1 >= 0
    requires v.todo != [] && PrefixOf(v.todo[0]) == PrefixOf(parse(FirstLine(w)).0)
    ensures var (w', cache') := TakeLine(w, cache, parse);
            var v' := LookUp(v, cache', connects);
            var p, asn := PrefixOf(v.todo[0]), parse(FirstLine(w)).1;
            && p in w'.result && w'.result[p] == asn && p in v'.result && v'.result[p] == asn
            && v'.todo == v.todo[1..] && v'.sent == v.sent && v'.whois == v.whois
  {
    assert TakeLine(w, cache, parse) == Consume(Shifted(w), cache, FirstLine(w), parse);
  }

  lemma DistinctPart(a: seq<Prefix>, b: seq<Prefix>)
    requires Distinct(a + b)
    ensures Distinct(a)
  {
    assert forall i :: 0 <= i < |a| ==> (a + b)[i] == a[i];
  }

  lemma {:induction false} CountDistinct(s: seq<Prefix>)
    requires Distinct(s)
    ensures |Members(s)| == |s|
  {
    if s != [] {
      var n := |s| - 1;
      CountDistinct(s[..n]);
      assert s == s[..n] + [s[n]];
      MembersOneMore(s[..n], s[n]);
    }
  }

  lemma SameMembers(a: seq<Prefix>, b: seq<Prefix>)
    requires Distinct(a) && Distinct(b) && Members(a) <= Members(b)
    ensures |a| <= |b| && (|a| == |b| ==> Members(a) == Members(b))
  {
    CountDistinct(a);
    CountDistinct(b);
    SubsetSize(Members(a), Members(b));
  }

  lemma SubsetSize<T>(a: set<T>, b: set<T>)
    requires a <= b
    ensures |a| <= |b| && (|a| == |b| ==> a == b)
  {
    assert b == a + (b - a);
  }
}
