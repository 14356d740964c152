/**
 The course of the loop of a thread as a function of what the outside decides: how the calls turn out, and
 what other threads do to the cache in between.
 */
module AsnLoop {
  import opened Arith
  import opened Bytes
  import opened Seqs
  import opened AddressBits
  import opened AsnCache
  import opened AsnWorker
  import opened AsnSystem
  import opened AsnTrace

  // ---------------------------------------------------------------- the outside

  /** What another thread does to the cache. */
  datatype CacheOp = Clear | Put(address: Address, asn: int)

  function Operate(known: Known, op: CacheOp): Known {
    match op
    case Clear => map[]
    case Put(address, asn) => if address.Valid() then Store(known, address, asn) else known
  }

  function Others(known: Known, ops: seq<CacheOp>): Known {
    if ops == [] then known else Operate(Others(known, ops[..|ops| - 1]), ops[|ops| - 1])
  }

  /** What the outside decides during one iteration of the loop: what other threads do before the cache
      is looked at and before each answer is added to it, and how the calls turn out. */
  datatype Turn = Turn(before: seq<CacheOp>, between: nat -> seq<CacheOp>,
                       connects: bool, write: bool, read: bool, sends: bool, size: int)

  /** The others put nothing into the cache but what the whois server knows. */
  ghost predicate FaithfulOps(ops: seq<CacheOp>, oracle: Oracle) {
    forall i :: 0 <= i < |ops| && ops[i].Put? ==> ops[i].asn == oracle(PrefixOf(ops[i].address))
  }

  ghost predicate FaithfulBetween(between: nat -> seq<CacheOp>, oracle: Oracle) {
    forall i :: FaithfulOps(between(i), oracle)
  }

  ghost predicate FaithfulTurns(turns: nat -> Turn, oracle: Oracle) {
    forall k :: FaithfulOps(turns(k).before, oracle) && FaithfulBetween(turns(k).between, oracle)
  }

  /** They do not empty it either, as long as something is owed. */
  ghost predicate Fair(ops: seq<CacheOp>, owed: set<Prefix>, oracle: Oracle) {
    FaithfulOps(ops, oracle) && (owed == {} || forall i :: 0 <= i < |ops| ==> ops[i].Put?)
  }

  ghost predicate FairBetween(between: nat -> seq<CacheOp>, owed: set<Prefix>, oracle: Oracle) {
    forall i :: Fair(between(i), owed, oracle)
  }

  ghost predicate FairTurns(turns: nat -> Turn, owed: set<Prefix>, oracle: Oracle) {
    forall k :: Fair(turns(k).before, owed, oracle) && FairBetween(turns(k).between, owed, oracle)
  }

  lemma FaithfulIsFair(turns: nat -> Turn, oracle: Oracle)
    requires FaithfulTurns(turns, oracle)
    ensures FairTurns(turns, {}, oracle)
  {
    forall k
      ensures Fair(turns(k).before, {}, oracle) && FairBetween(turns(k).between, {}, oracle)
    {
      assert FaithfulBetween(turns(k).between, oracle);
    }
  }

  lemma {:induction false} OthersKeep(known: Known, ops: seq<CacheOp>)
    requires forall i :: 0 <= i < |ops| ==> ops[i].Put?
    ensures known.Keys <= Others(known, ops).Keys
  {
    if ops != [] {
      OthersKeep(known, ops[..|ops| - 1]);
    }
  }

  /** What the others do last is what the cache then has. */
  lemma OthersLast(known: Known, ops: seq<CacheOp>, address: Address, asn: int)
    requires address.Valid()
    ensures Others(known, ops + [Clear]) == map[]
    ensures Others(known, ops + [Put(address, asn)]) == Store(Others(known, ops), address, asn)
  {
    assert (ops + [Clear])[..|ops|] == ops && (ops + [Put(address, asn)])[..|ops|] == ops;
  }

  lemma {:induction false} OthersFaithful(known: Known, ops: seq<CacheOp>, oracle: Oracle)
    requires Faithful(known, oracle) && FaithfulOps(ops, oracle)
    ensures Faithful(Others(known, ops), oracle)
  {
    if ops != [] {
      OthersFaithful(known, ops[..|ops| - 1], oracle);
    }
  }

  // ---------------------------------------------------------------- the loop

  /** The loop of process_buffer(). */
  function DrainAll(w: Worker, cache: Known, between: nat -> seq<CacheOp>, k: nat, parse: Parser):
    (r: (Worker, Known))
    requires w.place == Draining && Fine(w, parse)
    ensures r.0.place == Head && Fine(r.0, parse) && Rank(r.0) < Rank(w)
    decreases Rank(w)
  {
    LineStep(w, Others(cache, between(k)), parse);
    var (w', cache') := TakeLine(w, Others(cache, between(k)), parse);
    if w'.place == Draining then DrainAll(w', cache', between, k + 1, parse) else (w', cache')
  }

  /** The rest of an iteration, from recv() on. */
  function FromRecv(w: Worker, cache: Known, turn: Turn, parse: Parser): (r: (Worker, Known))
    requires w.place == Receiving && Fine(w, parse)
    ensures r.0.place == Head && Fine(r.0, parse) && Rank(r.0) < Rank(w)
  {
    ReceiveStep(w, turn.size, parse);
    var w' := Gather(w, turn.size);
    if w'.place == Draining then DrainAll(w', cache, turn.between, 0, parse) else (w', cache)
  }

  /** select() reports the socket only for what was asked of it. */
  function Writes(w: Worker, turn: Turn): bool {
    turn.write && w.todo != []
  }

  function Reads(w: Worker, turn: Turn): bool {
    turn.read && w.outstanding > 0
  }

  /** The rest of an iteration, from select() on. */
  function FromSelect(w: Worker, cache: Known, turn: Turn, parse: Parser): (r: (Worker, Known))
    requires w.place == Waiting && Fine(w, parse)
    ensures r.0.place == Head && Fine(r.0, parse) && Rank(r.0) < Rank(w)
  {
    ReadyStep(w, Writes(w, turn), Reads(w, turn), turn.sends, parse);
    var w' := Serve(w, Writes(w, turn), Reads(w, turn), turn.sends);
    if w'.place == Receiving then FromRecv(w', cache, turn, parse) else (w', cache)
  }

  /** An iteration. */
  function Iteration(w: Worker, cache: Known, turn: Turn, parse: Parser): (r: (Worker, Known))
    requires w.place == Head && Fine(w, parse) && (w.todo != [] || w.outstanding > 0)
    ensures r.0.place == Head && Fine(r.0, parse) && Rank(r.0) < Rank(w)
  {
    var cache' := Others(cache, turn.before);
    LookStep(w, cache', turn.connects, parse);
    var w' := LookUp(w, cache', turn.connects);
    if w'.place == Waiting then FromSelect(w', cache', turn, parse) else (w', cache')
  }

  function Loop(w: Worker, cache: Known, turns: nat -> Turn, k: nat, parse: Parser): (r: (Worker, Known))
    requires w.place == Head && Fine(w, parse)
    ensures r.0.place == Done && Fine(r.0, parse)
    decreases Rank(w)
  {
    if w.todo == [] && w.outstanding <= 0 then (w.(place := Done), cache)
    else
      var (w', cache') := Iteration(w, cache, turns(k), parse);
      Loop(w', cache', turns, k + 1, parse)
  }

  /** The whole thread, from check_refresh_cache() on. */
  function Outcome(w: Worker, cache: Known, expired: bool, turns: nat -> Turn, parse: Parser): (r: (Worker, Known))
    requires w.place == Start && Fine(w, parse)
    ensures r.0.place == Done && Fine(r.0, parse)
  {
    Loop(w.(place := Head), if expired then map[] else cache, turns, 0, parse)
  }

  // ---------------------------------------------------------------- the steps of the loop

  /** The prefixes that were requested, those that the cache is to keep, and what the server knows. */
  datatype Terms = Terms(requested: set<Prefix>, owed: set<Prefix>, oracle: Oracle)

  /** All was right at the beginning, and what others did since is fair. */
  ghost predicate Sound(past: Past, parse: Parser, m: Terms) {
    && FaithfulOthers(past.events, m.oracle) && Faithful(past.cache, m.oracle)
    && Truthful(past.w, parse, m.oracle) && Covers(past.w, m.requested) && Fine(past.w, parse)
    && Keeping(past.events, m.owed) && m.owed <= past.cache.Keys && Serves(past.w, m.owed)
  }

  /** Events that began in the same state, and are sound if they were. */
  ghost predicate Extends(past: Past, past': Past, fair: bool, parse: Parser, m: Terms) {
    && past'.w == past.w && past'.cache == past.cache
    && (fair && Sound(past, parse, m) ==> Sound(past', parse, m))
  }

  lemma OthersFair(past: Past, w: Worker, cache: Known, ops: seq<CacheOp>, parse: Parser, m: Terms)
    requires LedTo(past, w, cache, parse) && Sound(past, parse, m) && Fair(ops, m.owed, m.oracle)
    ensures Faithful(Others(cache, ops), m.oracle) && m.owed <= Others(cache, ops).Keys
  {
    StaysTrue(past, w, cache, m.requested, parse, m.oracle);
    StaysServing(past, w, cache, m.owed, m.requested, parse, m.oracle);
    OthersFaithful(cache, ops, m.oracle);
    if m.owed != {} {
      OthersKeep(cache, ops);
    }
  }

  lemma TheirsSound(past: Past, cache: Known, parse: Parser, m: Terms)
    requires Sound(past, parse, m) && Faithful(cache, m.oracle) && m.owed <= cache.Keys
    ensures Sound(With(past, Theirs(cache)), parse, m)
  {
  }

  lemma Interlude(past: Past, w: Worker, cache: Known, ops: seq<CacheOp>, parse: Parser, m: Terms)
    returns (past': Past)
    requires LedTo(past, w, cache, parse)
    ensures LedTo(past', w, Others(cache, ops), parse)
    ensures Extends(past, past', Fair(ops, m.owed, m.oracle), parse, m)
  {
    past' := With(past, Theirs(Others(cache, ops)));
    Record(past, w, cache, Theirs(Others(cache, ops)), parse);
    if Fair(ops, m.owed, m.oracle) && Sound(past, parse, m) {
      OthersFair(past, w, cache, ops, parse, m);
      TheirsSound(past, Others(cache, ops), parse, m);
    }
  }

  lemma Step(past: Past, w: Worker, cache: Known, act: Action, parse: Parser, m: Terms) returns (past': Past)
    requires LedTo(past, w, cache, parse) && Legal(w, act)
    ensures LedTo(past', Act(w, cache, act, parse).0, Act(w, cache, act, parse).1, parse)
    ensures Extends(past, past', act != Refresh(true) || m.owed == {}, parse, m)
  {
    past' := With(past, Mine(act));
    Record(past, w, cache, Mine(act), parse);
  }

  lemma {:induction false} DrainLeads(past: Past, w: Worker, cache: Known, between: nat -> seq<CacheOp>, k: nat,
                                      parse: Parser, m: Terms)
    returns (past': Past)
    requires LedTo(past, w, cache, parse) && w.place == Draining && Fine(w, parse)
    ensures var (w', cache') := DrainAll(w, cache, between, k, parse); LedTo(past', w', cache', parse)
    ensures Extends(past, past', FairBetween(between, m.owed, m.oracle), parse, m)
    decreases Rank(w)
  {
    var known := Others(cache, between(k));
    past' := Interlude(past, w, cache, between(k), parse, m);
    past' := Step(past', w, known, Line, parse, m);
    LineStep(w, known, parse);
    var (w', cache') := TakeLine(w, known, parse);
    if w'.place == Draining {
      past' := DrainLeads(past', w', cache', between, k + 1, parse, m);
    }
  }

  lemma RecvLeads(past: Past, w: Worker, cache: Known, turn: Turn, parse: Parser, m: Terms) returns (past': Past)
    requires LedTo(past, w, cache, parse) && w.place == Receiving && Fine(w, parse)
    ensures var (w', cache') := FromRecv(w, cache, turn, parse); LedTo(past', w', cache', parse)
    ensures Extends(past, past', FairBetween(turn.between, m.owed, m.oracle), parse, m)
  {
    past' := Step(past, w, cache, Receive(turn.size), parse, m);
    ReceiveStep(w, turn.size, parse);
    if Gather(w, turn.size).place == Draining {
      past' := DrainLeads(past', Gather(w, turn.size), cache, turn.between, 0, parse, m);
    }
  }

  lemma SelectLeads(past: Past, w: Worker, cache: Known, turn: Turn, parse: Parser, m: Terms) returns (past': Past)
    requires LedTo(past, w, cache, parse) && w.place == Waiting && Fine(w, parse)
    ensures var (w', cache') := FromSelect(w, cache, turn, parse); LedTo(past', w', cache', parse)
    ensures Extends(past, past', FairBetween(turn.between, m.owed, m.oracle), parse, m)
  {
    var write, read := Writes(w, turn), Reads(w, turn);
    past' := Step(past, w, cache, Ready(write, read, turn.sends), parse, m);
    ReadyStep(w, write, read, turn.sends, parse);
    var w' := Serve(w, write, read, turn.sends);
    if w'.place == Receiving {
      past' := RecvLeads(past', w', cache, turn, parse, m);
    }
  }

  lemma IterationLeads(past: Past, w: Worker, cache: Known, turn: Turn, parse: Parser, m: Terms)
    returns (past': Past)
    requires LedTo(past, w, cache, parse)
    requires w.place == Head && Fine(w, parse) && (w.todo != [] || w.outstanding > 0)
    ensures var (w', cache') := Iteration(w, cache, turn, parse); LedTo(past', w', cache', parse)
    ensures var fair := Fair(turn.before, m.owed, m.oracle) && FairBetween(turn.between, m.owed, m.oracle);
            Extends(past, past', fair, parse, m)
  {
    var cache' := Others(cache, turn.before);
    past' := Interlude(past, w, cache, turn.before, parse, m);
    past' := Step(past', w, cache', Look(turn.connects), parse, m);
    LookStep(w, cache', turn.connects, parse);
    var w' := LookUp(w, cache', turn.connects);
    if w'.place == Waiting {
      past' := SelectLeads(past', w', cache', turn, parse, m);
    }
  }

  lemma {:induction false} LoopLeads(past: Past, w: Worker, cache: Known, turns: nat -> Turn, k: nat, parse: Parser,
                                     m: Terms)
    returns (past': Past)
    requires LedTo(past, w, cache, parse) && w.place == Head && Fine(w, parse)
    ensures var (w', cache') := Loop(w, cache, turns, k, parse); LedTo(past', w', cache', parse)
    ensures Extends(past, past', FairTurns(turns, m.owed, m.oracle), parse, m)
    decreases Rank(w)
  {
    if w.todo == [] && w.outstanding <= 0 {
      past' := Step(past, w, cache, Look(false), parse, m);
    } else {
      past' := IterationLeads(past, w, cache, turns(k), parse, m);
      var (w', cache') := Iteration(w, cache, turns(k), parse);
      past' := LoopLeads(past', w', cache', turns, k + 1, parse, m);
    }
  }

  /** The thread goes from its start to its end by steps of the state machine, whatever the outside
      decides; and what others do is fair in these events if it is in the turns. */
  lemma OutcomeLeads(w: Worker, cache: Known, expired: bool, turns: nat -> Turn, parse: Parser, m: Terms)
    returns (past: Past)
    requires w.place == Start && Fine(w, parse)
    ensures past.w == w && past.cache == cache
    ensures var (w', cache') := Outcome(w, cache, expired, turns, parse); LedTo(past, w', cache', parse)
    ensures FairTurns(turns, m.owed, m.oracle) && Sound(Past(w, cache, []), parse, m) && (expired ==> m.owed == {}) ==>
              Sound(past, parse, m)
  {
    past := Step(Past(w, cache, []), w, cache, Refresh(expired), parse, m);
    ActFine(w, cache, Refresh(expired), parse);
    past := LoopLeads(past, w.(place := Head), if expired then map[] else cache, turns, 0, parse, m);
  }

  lemma BeginSound(todo: seq<Address>, replies: seq<Byte>, cache: Known, owed: set<Prefix>, parse: Parser,
                   oracle: Oracle)
    requires Fine(Begin(todo, replies), parse) && Distinct(Prefixes(todo)) && ToldBy(replies, parse, oracle)
    requires Faithful(cache, oracle) && owed <= cache.Keys * Members(Prefixes(todo))
    ensures Sound(Past(Begin(todo, replies), cache, []), parse, Terms(Members(Prefixes(todo)), owed, oracle))
  {
    BeginGood(Job(todo, replies), parse, oracle);
  }

  // ---------------------------------------------------------------- what the loop achieves

  /** As long as other threads put only true values into the cache, the result and the cache hold only
      what the whois server knows at the end; and without a failure and with at most one answer to each
      request, the result is exactly that for the addresses on the list. */
  lemma OutcomeIsRight(todo: seq<Address>, replies: seq<Byte>, cache: Known, expired: bool, turns: nat -> Turn,
                       parse: Parser, oracle: Oracle)
    requires Fine(Begin(todo, replies), parse) && Distinct(Prefixes(todo)) && ToldBy(replies, parse, oracle)
    requires Faithful(cache, oracle) && FaithfulTurns(turns, oracle)
    ensures var (w, cache') := Outcome(Begin(todo, replies), cache, expired, turns, parse);
            && Faithful(w.result, oracle) && Faithful(cache', oracle)
            && (w.whois != Unavailable && OneAnswerEach(w) ==>
                  w.result == map p | p in Members(Prefixes(todo)) :: oracle(p))
  {
    var m := Terms(Members(Prefixes(todo)), {}, oracle);
    BeginSound(todo, replies, cache, {}, parse, oracle);
    FaithfulIsFair(turns, oracle);
    var past := OutcomeLeads(Begin(todo, replies), cache, expired, turns, parse, m);
    var (w, cache') := Outcome(Begin(todo, replies), cache, expired, turns, parse);
    LoopIsRight(past, w, cache', todo, replies, parse, oracle);
  }

  /** Whatever fails: of the requested prefixes that the cache has from the start, and that others leave
      there, all are in the result at the end, but for one at most; and for none if the connection was not
      given up. */
  lemma CachedAreAnswered(todo: seq<Address>, replies: seq<Byte>, cache: Known, turns: nat -> Turn, parse: Parser,
                          oracle: Oracle)
    requires Fine(Begin(todo, replies), parse) && Distinct(Prefixes(todo)) && ToldBy(replies, parse, oracle)
    requires Faithful(cache, oracle) && FairTurns(turns, cache.Keys * Members(Prefixes(todo)), oracle)
    ensures var (w, cache') := Outcome(Begin(todo, replies), cache, false, turns, parse);
            var owed := cache.Keys * Members(Prefixes(todo));
            && owed <= cache'.Keys
            && (w.whois != Unavailable ==> owed <= w.result.Keys)
            && forall p, q :: p in owed - w.result.Keys && q in owed - w.result.Keys ==> p == q
  {
    var owed := cache.Keys * Members(Prefixes(todo));
    var m := Terms(Members(Prefixes(todo)), owed, oracle);
    BeginSound(todo, replies, cache, owed, parse, oracle);
    var past := OutcomeLeads(Begin(todo, replies), cache, false, turns, parse, m);
    var (w, cache') := Outcome(Begin(todo, replies), cache, false, turns, parse);
    StaysServing(past, w, cache', owed, m.requested, parse, oracle);
    assert forall p :: p in owed - w.result.Keys ==> Missed(w, p);
  }

  // ---------------------------------------------------------------- without a connection

  /** There is no connection and none will be made, and others leave the cache alone. */
  ghost predicate Alone(w: Worker, turns: nat -> Turn) {
    && w.whois != Live && (forall k :: turns(k).before == [])
    && (w.whois == Unavailable || forall k :: !turns(k).connects)
  }

  /** The number that is in the cache for a prefix, unless it is negative as an int. */
  predicate Has(cache: Known, p: Prefix) {
    p in cache && ToInt32(cache[p]) >= 0
  }

  ghost function FromCache(cache: Known, ps: seq<Prefix>): Known {
    map p | p in Members(ps) && Has(cache, p) :: ToInt32(cache[p])
  }

  lemma AloneLook(w: Worker, cache: Known, connects: bool)
    requires w.place == Head && w.todo != [] && w.whois != Live && (w.whois == Unavailable || !connects)
    ensures var w' := LookUp(w, cache, connects);
            && w'.place == Head && w'.todo == w.todo[1..] && (w'.whois == w.whois || w'.whois == Unavailable)
            && w'.result == w.result + FromCache(cache, [PrefixOf(w.todo[0])])
  {
    assert Members([PrefixOf(w.todo[0])]) == {PrefixOf(w.todo[0])};
  }

  lemma AloneStep(w: Worker, cache: Known, turns: nat -> Turn, k: nat, parse: Parser)
    requires w.place == Head && Fine(w, parse) && w.todo != [] && Alone(w, turns)
    ensures var (w', cache') := Iteration(w, cache, turns(k), parse);
            && cache' == cache && w'.todo == w.todo[1..] && Alone(w', turns)
            && w'.result == w.result + FromCache(cache, [PrefixOf(w.todo[0])])
  {
    assert turns(k).before == [] && (w.whois == Unavailable || !turns(k).connects);
    assert Others(cache, turns(k).before) == cache;
    AloneLook(w, cache, turns(k).connects);
  }

  lemma FromCacheCons(cache: Known, p: Prefix, ps: seq<Prefix>)
    ensures FromCache(cache, [p] + ps) == FromCache(cache, [p]) + FromCache(cache, ps)
  {
    assert forall q :: q in Members([p] + ps) <==> q in Members([p]) || q in Members(ps);
  }

  lemma MergeAssoc(a: Known, b: Known, c: Known)
    ensures a + b + c == a + (b + c)
  {
  }

  lemma FromCacheBoth(result: Known, cache: Known, p: Prefix, ps: seq<Prefix>)
    ensures result + FromCache(cache, [p]) + FromCache(cache, ps) == result + FromCache(cache, [p] + ps)
  {
    FromCacheCons(cache, p, ps);
    MergeAssoc(result, FromCache(cache, [p]), FromCache(cache, ps));
  }

  /** From any point on at which there is no connection any more, exactly what the cache has for the
      prefixes on the list is added to the result. */
  lemma {:induction false} LoopAlone(w: Worker, cache: Known, turns: nat -> Turn, k: nat, parse: Parser)
    requires w.place == Head && Fine(w, parse) && Alone(w, turns)
    ensures var (w', cache') := Loop(w, cache, turns, k, parse);
            cache' == cache && w'.result == w.result + FromCache(cache, Prefixes(w.todo))
    decreases Rank(w)
  {
    if w.todo == [] {
      NothingFromCache(w.result, cache);
    } else {
      AloneStep(w, cache, turns, k, parse);
      var (w', cache') := Iteration(w, cache, turns(k), parse);
      LoopAlone(w', cache', turns, k + 1, parse);
      FromCacheBoth(w.result, cache, PrefixOf(w.todo[0]), Prefixes(w.todo[1..]));
    }
  }

  lemma NothingFromCache(result: Known, cache: Known)
    ensures result + FromCache(cache, []) == result
  {
    var none: seq<Prefix> := [];
    assert Members(none) == {};
  }

  /** Without a connection, the result is exactly what the cache has for the prefixes on the list. */
  lemma AloneFromCache(todo: seq<Address>, replies: seq<Byte>, cache: Known, expired: bool, turns: nat -> Turn,
                       parse: Parser)
    requires Fine(Begin(todo, replies), parse) && Alone(Begin(todo, replies), turns)
    ensures var (w, cache') := Outcome(Begin(todo, replies), cache, expired, turns, parse);
            var known := if expired then map[] else cache;
            cache' == known && w.result == FromCache(known, Prefixes(todo))
  {
    var known := if expired then map[] else cache;
    ActFine(Begin(todo, replies), cache, Refresh(expired), parse);
    LoopAlone(Begin(todo, replies).(place := Head), known, turns, 0, parse);
    NothingBefore(FromCache(known, Prefixes(todo)));
  }

  lemma NothingBefore(known: Known)
    ensures map[] + known == known
  {
  }
}
