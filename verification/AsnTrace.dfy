/** What one thread sees of the others: the cache may be anything when it looks at it again. */
module AsnTrace {
  import opened Bytes
  import opened Seqs
  import opened AddressBits
  import opened AsnCache
  import opened AsnStream
  import opened AsnWorker
  import opened AsnSystem

  // ---------------------------------------------------------------- the view of one thread

  /** A step of the thread, or whatever others made of the cache. */
  datatype Event = Mine(act: Action) | Theirs(cache: Known)

  ghost function Then(w: Worker, cache: Known, e: Event, parse: Parser): (Worker, Known)
    requires e.Mine? ==> Legal(w, e.act)
  {
    match e
    case Mine(act) => Act(w, cache, act, parse)
    case Theirs(cache') => (w, cache')
  }

  /** The events lead from one state of the thread and the cache to another. */
  ghost predicate Leads(w: Worker, cache: Known, events: seq<Event>, w': Worker, cache': Known, parse: Parser)
    decreases |events|
  {
    if events == [] then w == w' && cache == cache'
    else
      var n := |events| - 1;
      exists v, known ::
        && Leads(w, cache, events[..n], v, known, parse)
        && (events[n].Mine? ==> Legal(v, events[n].act))
        && Then(v, known, events[n], parse) == (w', cache')
  }

  lemma OneMore(w: Worker, cache: Known, events: seq<Event>, v: Worker, known: Known, e: Event, parse: Parser)
    requires Leads(w, cache, events, v, known, parse) && (e.Mine? ==> Legal(v, e.act))
    ensures Leads(w, cache, events + [e], Then(v, known, e, parse).0, Then(v, known, e, parse).1, parse)
  {
    assert (events + [e])[..|events|] == events;
  }

  /** A state that a thread was in, and what happened since. */
  datatype Past = Past(w: Worker, cache: Known, events: seq<Event>)

  ghost predicate LedTo(past: Past, w: Worker, cache: Known, parse: Parser) {
    Leads(past.w, past.cache, past.events, w, cache, parse)
  }

  ghost function With(past: Past, e: Event): Past {
    past.(events := past.events + [e])
  }

  lemma Record(past: Past, w: Worker, cache: Known, e: Event, parse: Parser)
    requires LedTo(past, w, cache, parse) && (e.Mine? ==> Legal(w, e.act))
    ensures LedTo(With(past, e), Then(w, cache, e, parse).0, Then(w, cache, e, parse).1, parse)
  {
    OneMore(past.w, past.cache, past.events, w, cache, e, parse);
  }

  function Names(parse: Parser): seq<Byte> -> bool {
    line => parse(line).0.Valid()
  }

  /** Replies without empty lines, whose answers name addresses. */
  predicate Readable(text: seq<Byte>, parse: Parser) {
    Proper(text) && All(Answers(Lines(text)), Names(parse))
  }

  /** A state of the thread that its steps keep. */
  predicate Fine(w: Worker, parse: Parser) {
    Accounted(w) && WholeAddresses(w.todo) && Readable(w.held + w.replies, parse)
  }

  lemma NextReadable(held: seq<Byte>, replies: seq<Byte>, parse: Parser)
    requires FirstNewline(held) < |held| && Readable(held + replies, parse)
    ensures var line, rest := held[..FirstNewline(held)], held[FirstNewline(held) + 1..];
            (Ignored(line) || parse(line).0.Valid()) && Readable(rest + replies, parse)
  {
    var d := FirstNewline(held);
    NextAnswers(Names(parse), held, replies);
    assert (held + replies)[d] == NEWLINE;
    ProperBehind(held + replies, d);
    CutBehind(held, replies, d);
  }

  lemma ActReadable(w: Worker, cache: Known, act: Action, parse: Parser)
    requires WholeAddresses(w.todo) && Readable(w.held + w.replies, parse) && Legal(w, act)
    ensures var w' := Act(w, cache, act, parse).0;
            WholeAddresses(w'.todo) && Readable(w'.held + w'.replies, parse)
  {
    match act
    case Receive(size) => Regroup(w.held, w.replies, Received(size, Room(w.held), |w.replies|));
    case Line => TakeLineReadable(w, cache, parse);
    case _ =>
  }

  lemma TakeLineReadable(w: Worker, cache: Known, parse: Parser)
    requires Readable(w.held + w.replies, parse)
    ensures var w' := TakeLine(w, cache, parse).0;
            w'.todo == w.todo && Readable(w'.held + w'.replies, parse)
    ensures FirstNewline(w.held) < |w.held| ==> Ignored(FirstLine(w)) || parse(FirstLine(w)).0.Valid()
  {
    if FirstNewline(w.held) < |w.held| {
      NextReadable(w.held, w.replies, parse);
      ConsumeKeeps(Shifted(w), cache, FirstLine(w), parse);
    }
  }

  lemma ConsumeKeeps(w: Worker, cache: Known, line: seq<Byte>, parse: Parser)
    ensures var w' := Consume(w, cache, line, parse).0;
            w'.todo == w.todo && w'.held == w.held && w'.replies == w.replies && w'.place == w.place
  {
  }

  lemma ActFine(w: Worker, cache: Known, act: Action, parse: Parser)
    requires Fine(w, parse) && Legal(w, act)
    ensures Fine(Act(w, cache, act, parse).0, parse)
  {
    ActDescends(w, cache, act, parse);
    ActReadable(w, cache, act, parse);
  }

  /** Whatever happens leads from a fine state to a fine one. */
  lemma {:induction false} StaysFine(past: Past, w: Worker, cache: Known, parse: Parser)
    requires LedTo(past, w, cache, parse) && Fine(past.w, parse)
    ensures Fine(w, parse)
    decreases |past.events|
  {
    if past.events != [] {
      var n := |past.events| - 1;
      var e := past.events[n];
      var v, known :| && Leads(past.w, past.cache, past.events[..n], v, known, parse)
                      && (e.Mine? ==> Legal(v, e.act)) && Then(v, known, e, parse) == (w, cache);
      StaysFine(past.(events := past.events[..n]), v, known, parse);
      if e.Mine? {
        ActFine(v, known, e.act, parse);
      }
    }
  }

  /** Looking up at the head of the loop. */
  lemma LookStep(w: Worker, cache: Known, connects: bool, parse: Parser)
    requires w.place == Head && Fine(w, parse)
    ensures var w' := LookUp(w, cache, connects);
            && Fine(w', parse) && Rank(w') < Rank(w) && w'.place in {Head, Waiting, Done}
            && (w'.place == Done ==> w.todo == [] && w.outstanding <= 0)
  {
    ActFine(w, cache, Look(connects), parse);
    ActDescends(w, cache, Look(connects), parse);
  }

  /** What follows select(). */
  lemma ReadyStep(w: Worker, write: bool, read: bool, sends: bool, parse: Parser)
    requires Legal(w, Ready(write, read, sends)) && Fine(w, parse)
    ensures var w' := Serve(w, write, read, sends);
            Fine(w', parse) && Rank(w') < Rank(w) && w'.place in {Head, Receiving}
  {
    ActFine(w, map[], Ready(write, read, sends), parse);
    ActDescends(w, map[], Ready(write, read, sends), parse);
  }

  /** Receiving. */
  lemma ReceiveStep(w: Worker, size: int, parse: Parser)
    requires w.place == Receiving && Fine(w, parse)
    ensures var w' := Gather(w, size);
            Fine(w', parse) && Rank(w') < Rank(w) && w'.place in {Head, Draining}
  {
    ActFine(w, map[], Receive(size), parse);
    ActDescends(w, map[], Receive(size), parse);
  }

  /** A pass over the buffer. */
  lemma LineStep(w: Worker, cache: Known, parse: Parser)
    requires w.place == Draining && Fine(w, parse)
    ensures var w' := TakeLine(w, cache, parse).0;
            && Fine(w', parse) && Rank(w') < Rank(w)
            && w'.place == if FirstNewline(w.held) < |w.held| then Draining else Head
    ensures Proper(w.held)
    ensures FirstNewline(w.held) < |w.held| ==> Ignored(FirstLine(w)) || parse(FirstLine(w)).0.Valid()
  {
    ActFine(w, cache, Line, parse);
    ActDescends(w, cache, Line, parse);
    TakeLineReadable(w, cache, parse);
    ProperPrefix(w.held + w.replies, |w.held|);
    assert (w.held + w.replies)[..|w.held|] == w.held;
  }

  // ---------------------------------------------------------------- what the loop achieves

  /** The others put nothing into the cache but what the whois server knows. */
  ghost predicate FaithfulOthers(events: seq<Event>, oracle: Oracle) {
    forall i :: 0 <= i < |events| && events[i].Theirs? ==> Faithful(events[i].cache, oracle)
  }

  lemma {:induction false} StaysTrue(past: Past, w: Worker, cache: Known, requested: set<Prefix>, parse: Parser,
                                     oracle: Oracle)
    requires LedTo(past, w, cache, parse) && FaithfulOthers(past.events, oracle) && Faithful(past.cache, oracle)
    requires Truthful(past.w, parse, oracle) && Covers(past.w, requested)
    ensures Truthful(w, parse, oracle) && Covers(w, requested) && Faithful(cache, oracle)
    decreases |past.events|
  {
    if past.events != [] {
      var n := |past.events| - 1;
      var earlier, e := past.(events := past.events[..n]), past.events[n];
      var v, known :| && Leads(past.w, past.cache, past.events[..n], v, known, parse)
                      && (e.Mine? ==> Legal(v, e.act)) && Then(v, known, e, parse) == (w, cache);
      StaysTrue(earlier, v, known, requested, parse, oracle);
      if e.Mine? {
        ActTruthful(v, known, e.act, parse, oracle);
        ActCovers(v, known, e.act, parse, requested);
      }
    }
  }

  /** Others leave these prefixes in the cache, and so does the thread. */
  ghost predicate Keeping(events: seq<Event>, owed: set<Prefix>) {
    forall i :: 0 <= i < |events| ==>
      (events[i].Theirs? ==> owed <= events[i].cache.Keys) && (events[i] == Mine(Refresh(true)) ==> owed == {})
  }

  /** Prefixes that the cache keeps throughout are served. */
  lemma {:induction false} StaysServing(past: Past, w: Worker, cache: Known, owed: set<Prefix>,
                                        requested: set<Prefix>, parse: Parser, oracle: Oracle)
    requires LedTo(past, w, cache, parse) && FaithfulOthers(past.events, oracle) && Faithful(past.cache, oracle)
    requires Truthful(past.w, parse, oracle) && Covers(past.w, requested) && Fine(past.w, parse)
    requires Keeping(past.events, owed) && owed <= past.cache.Keys && Serves(past.w, owed)
    ensures Serves(w, owed) && owed <= cache.Keys
    decreases |past.events|
  {
    if past.events != [] {
      var n := |past.events| - 1;
      var earlier, e := past.(events := past.events[..n]), past.events[n];
      var v, known :| && Leads(past.w, past.cache, past.events[..n], v, known, parse)
                      && (e.Mine? ==> Legal(v, e.act)) && Then(v, known, e, parse) == (w, cache);
      StaysServing(earlier, v, known, owed, requested, parse, oracle);
      if e.Mine? {
        StaysTrue(earlier, v, known, requested, parse, oracle);
        StaysFine(earlier, v, known, parse);
        ActServes(v, known, e.act, owed, parse, oracle);
        if e.act != Refresh(true) {
          ActCaches(v, known, e.act, parse);
        }
      }
    }
  }

  /** Where the loop ends without a failure, and the server gave at most one answer to each request, the
      result is exactly what the whois server knows of the requested prefixes; and with or without
      failures the result and the cache hold nothing else. */
  lemma LoopIsRight(past: Past, w: Worker, cache: Known, todo: seq<Address>, replies: seq<Byte>, parse: Parser,
                    oracle: Oracle)
    requires past.w == Begin(todo, replies) && LedTo(past, w, cache, parse) && w.place == Done && Fine(past.w, parse)
    requires Faithful(past.cache, oracle) && FaithfulOthers(past.events, oracle)
    requires Distinct(Prefixes(todo)) && ToldBy(replies, parse, oracle)
    ensures Faithful(w.result, oracle) && Faithful(cache, oracle)
    ensures w.whois != Unavailable && OneAnswerEach(w) ==>
              w.result == map p | p in Members(Prefixes(todo)) :: oracle(p)
  {
    var requested := Members(Prefixes(todo));
    BeginGood(Job(todo, replies), parse, oracle);
    StaysFine(past, w, cache, parse);
    StaysTrue(past, w, cache, requested, parse, oracle);
    if !w.failed && OneAnswerEach(w) {
      CompleteResult(w, parse, oracle, requested);
    }
  }

  /** In any interleaving of many threads, each of them sees a course of events like this. */
  lemma {:induction false} Projects(s: System, run: seq<Move>, i: nat, parse: Parser) returns (past: Past)
    requires i < |s.workers| && Possible(s, run, parse)
    ensures |After(s, run, parse).workers| == |s.workers| && past.w == s.workers[i] && past.cache == s.cache
    ensures LedTo(past, After(s, run, parse).workers[i], After(s, run, parse).cache, parse)
    decreases |run|
  {
    if run == [] {
      past := Past(s.workers[i], s.cache, []);
    } else {
      var n := |run| - 1;
      PossibleUpTo(s, run, parse);
      past := Projects(s, run[..n], i, parse);
      var s', m := After(s, run[..n], parse), run[n];
      var e := if m.who == i then Mine(m.act) else Theirs(Next(s', m, parse).cache);
      Record(past, s'.workers[i], s'.cache, e, parse);
      past := With(past, e);
    }
  }

  lemma {:induction false} PossibleUpTo(s: System, run: seq<Move>, parse: Parser)
    requires run != [] && Possible(s, run, parse)
    ensures var n := |run| - 1;
            && Possible(s, run[..n], parse) && Enabled(After(s, run[..n], parse), run[n])
            && After(s, run, parse) == Next(After(s, run[..n], parse), run[n], parse)
    decreases |run|
  {
    var n := |run| - 1;
    if n > 0 {
      PossibleUpTo(Next(s, run[0], parse), run[1..], parse);
      assert run[..n][1..] == run[1..][..n - 1];
    }
  }
}
