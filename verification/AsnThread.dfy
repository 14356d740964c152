/**
 The thread itself: the loop that looks addresses up in the shared cache, talks to the whois server
 through a buffer, and gathers results. Every access to the cache happens after whatever other threads did
 to it in the meantime.
 */
module AsnThread {
  import opened Arith
  import opened Bytes
  import opened AddressBits
  import opened IpTrie
  import opened AsnCache
  import opened AsnStream
  import opened AsnWorker
  import opened AsnTrace
  import opened AsnLoop
  import AsnRefresh

  // ---------------------------------------------------------------- tries

  /** Tries of /24 and /64 prefixes, with the additions that built them and the map they stand for. */
  class AsnTries {
    var trie: Tries
    ghost var calls: seq<Call>
    ghost var known: Known

    ghost predicate Valid()
      reads this
    {
      UniformCalls(calls) && trie == Built(calls) && known == KnownOf(calls)
    }

    constructor ()
      ensures Valid() && known == map[] && calls == []
    {
      trie, calls, known := Tries(Nil, Nil), [], map[];
    }

    /** iptrie_clear(). */
    method Empty()
      modifies this
      ensures Valid() && known == map[]
    {
      trie, calls, known := Tries(Nil, Nil), [], map[];
    }

    /** iptrie_lookup_as(). */
    method LookupAs(address: Address) returns (asn: int)
      requires Valid() && address.Valid()
      ensures asn == Find(known, address)
    {
      BuiltFinds(calls, address);
      asn := trie.Find(address);
    }

    /** iptrie_add() with the prefix length of the family. */
    method Add(address: Address, asn: int)
      requires Valid() && address.Valid()
      modifies this
      ensures Valid() && known == Store(old(known), address, asn)
      ensures calls == old(calls) + [Call(address, PrefixLength(address.family), asn)]
    {
      KnownOneMore(calls, address, asn);
      trie := trie.Added(address, PrefixLength(address.family), asn);
      calls := calls + [Call(address, PrefixLength(address.family), asn)];
      known := Store(known, address, asn);
    }

    /** The turns of other threads. */
    method Others(ops: seq<CacheOp>)
      requires Valid()
      modifies this
      ensures Valid() && known == AsnLoop.Others(old(known), ops)
    {
      for i := 0 to |ops|
        invariant Valid() && known == AsnLoop.Others(old(known), ops[..i])
      {
        assert ops[..i + 1][..i] == ops[..i];
        if ops[i].Clear? {
          Empty();
        } else if ops[i].address.Valid() {
          Add(ops[i].address, ops[i].asn);
        }
      }
      assert ops[..|ops|] == ops;
    }
  }

  /** The cache of all threads, and when it is due to be emptied. */
  class SharedCache {
    const tries: AsnTries
    var refresh: int

    constructor (refresh: int)
      ensures fresh(tries) && tries.Valid() && tries.known == map[] && this.refresh == refresh
    {
      tries := new AsnTries();
      this.refresh := refresh;
    }

    /** check_refresh_cache(): the deadline moves as `AsnRefresh.Next` has it. */
    method CheckRefresh(c: AsnRefresh.Check) returns (expired: bool)
      requires tries.Valid()
      modifies this, tries
      ensures tries.Valid() && expired == AsnRefresh.Due(old(refresh), c) && refresh == AsnRefresh.Next(old(refresh), c)
      ensures tries.known == if expired then map[] else old(tries.known)
    {
      expired := c.now > refresh;
      if expired {
        tries.Empty();
        refresh := c.later + AsnRefresh.MIN_ASN_CACHE_REFRESH + c.random % AsnRefresh.MAX_ASN_CACHE_REFRESH_OFFSET;
      }
    }
  }

  // ---------------------------------------------------------------- the thread

  class AsnThread {
    var list: seq<Address>
    var outstanding: int
    var whois: Connection
    var replies: seq<Byte>
    const buffer: ReplyBuffer
    const result: AsnTries
    const parse: Parser
    ghost var w: Worker

    /** The fields are those of the state `w`. */
    ghost predicate Mirrors()
      reads this, buffer, buffer.buffer, result
    {
      && buffer.Valid() && result.Valid()
      && w == w.(todo := list, outstanding := outstanding, whois := whois, replies := replies,
                 held := buffer.Held(), result := result.known)
    }

    constructor (list: seq<Address>, replies: seq<Byte>, parse: Parser)
      ensures Mirrors() && w == Begin(list, replies) && this.parse == parse
      ensures fresh(buffer) && fresh(buffer.buffer) && fresh(result)
    {
      this.list, outstanding, whois, this.replies, this.parse := list, 0, Unopened, replies, parse;
      buffer := new ReplyBuffer();
      result := new AsnTries();
      w := Begin(list, replies);
    }

    /** check_asn_cache(): an address that the cache knows goes to the result. */
    method CheckAsnCache(cache: AsnTries) returns (hit: bool)
      requires Mirrors() && cache.Valid() && cache != result && list != [] && list[0].Valid()
      modifies this, result
      ensures Mirrors()
      ensures var asn := ToInt32(Find(cache.known, old(list[0])));
              if asn >= 0 then hit && w == Hit(old(w), asn) else !hit && w == old(w)
    {
      var found := cache.LookupAs(list[0]);
      var asn := ToInt32(found);
      hit := asn >= 0;
      if hit {
        TakeHit(asn);
      }
    }

    /** The address leaves the list and goes to the result with its number. */
    method TakeHit(asn: int)
      requires Mirrors() && list != [] && list[0].Valid()
      modifies this, result
      ensures Mirrors() && w == Hit(old(w), asn)
    {
      result.Add(list[0], asn);
      list := list[1..];
      w := Hit(w, asn);
    }

    /** check_whois_connection(), and giving the address up without a connection. */
    method CheckWhoisConnection(connects: bool) returns (connected: bool)
      requires Mirrors() && list != []
      modifies this
      ensures Mirrors() && w == Connect(old(w), connects) && (connected <==> w.whois == Live)
    {
      w := Connect(w, connects);
      if whois == Unopened {
        whois := if connects then Live else Unavailable;
      }
      connected := whois == Live;
      if !connected {
        whois := Unavailable;
        list := list[1..];
      }
    }

    /** The head of the loop: whether to go on to select(). */
    method Look(cache: AsnTries, connects: bool) returns (go: bool)
      requires Mirrors() && cache.Valid() && cache != result && WholeAddresses(list) && w.place == Head
      modifies this, result
      ensures Mirrors() && w == LookUp(old(w), cache.known, connects) && (go <==> w.place == Waiting)
    {
      if list == [] {
        go := outstanding > 0;
        w := LookUp(w, cache.known, connects);
      } else {
        go := false;
        var hit := CheckAsnCache(cache);
        if !hit {
          go := CheckWhoisConnection(connects);
        }
      }
    }

    /** The connection is closed for good, and the next address is given up. */
    method GiveUp()
      requires Mirrors()
      modifies this
      ensures Mirrors() && w == Fail(old(w))
    {
      whois, outstanding := Unavailable, 0;
      if list != [] {
        list := list[1..];
      }
      w := Fail(w);
    }

    /** What follows select(): whether to go on to recv(). */
    method Answer(write: bool, read: bool, sends: bool) returns (reading: bool)
      requires Mirrors() && w.place == Waiting && (write ==> list != [])
      modifies this
      ensures Mirrors() && w == Serve(old(w), write, read, sends) && (reading <==> w.place == Receiving)
    {
      reading := read;
      if !write && !read {
        GiveUp();
      } else if write && !sends {
        reading := false;
        GiveUp();
      } else {
        w := Serve(w, write, read, sends);
        if write {
          outstanding := outstanding + 1;
          list := list[1..];
        }
      }
    }

    /** read_asn_request(), and giving up when there is nothing to read. */
    method ReadAsnRequest(size: int) returns (ok: bool)
      requires Mirrors() && w.place == Receiving
      modifies this, buffer, buffer.buffer
      ensures Mirrors() && w == Gather(old(w), size) && (ok <==> w.place == Draining)
    {
      var bytes := Received(size, BUFLEN - buffer.offset - 1, |replies|);
      ok := bytes > 0;
      if ok {
        w := Gather(w, size);
        buffer.Receive(replies[..bytes]);
        replies := replies[bytes..];
      } else {
        GiveUp();
      }
    }

    /** A pass of the loop of process_buffer(), with add_parsed_line(). */
    method ProcessLine(cache: AsnTries)
      requires Mirrors() && cache.Valid() && cache != result && Proper(w.held) && FirstNewline(w.held) < |w.held|
      requires Ignored(FirstLine(w)) || parse(FirstLine(w)).0.Valid()
      modifies this, buffer, buffer.buffer, result, cache
      ensures Mirrors() && cache.Valid() && (w, cache.known) == TakeLine(old(w), old(cache.known), parse)
    {
      var line := ShiftLine();
      AddParsedLine(cache, line);
    }

    /** The first line leaves the buffer. */
    method ShiftLine() returns (line: seq<Byte>)
      requires Mirrors() && Proper(w.held) && FirstNewline(w.held) < |w.held|
      modifies this`w, buffer, buffer.buffer
      ensures Mirrors() && line == FirstLine(old(w)) && w == Shifted(old(w))
    {
      PassTakesLine(w.held);
      line := buffer.TakeLine();
      w := Shifted(w);
    }

    /** add_parsed_line(), for a line that is no header and no error. */
    method AddParsedLine(cache: AsnTries, line: seq<Byte>)
      requires Mirrors() && cache.Valid() && cache != result && (Ignored(line) || parse(line).0.Valid())
      modifies this, result, cache
      ensures Mirrors() && cache.Valid() && (w, cache.known) == Consume(old(w), old(cache.known), line, parse)
    {
      if !Ignored(line) {
        var (address, asn) := parse(line);
        TakeAnswer(address, asn);
        cache.Add(address, asn);
      }
    }

    method TakeAnswer(address: Address, asn: int)
      requires Mirrors() && address.Valid()
      modifies this, result
      ensures Mirrors() && w == Answered(old(w), address, asn)
    {
      result.Add(address, asn);
      outstanding := outstanding - 1;
      w := Answered(w, address, asn);
    }

    // -------------------------------------------------------------- the loop

    /** The thread is at a place of the loop. */
    ghost predicate At(p: Place, cache: AsnTries)
      reads this, buffer, buffer.buffer, result, cache
    {
      Mirrors() && cache.Valid() && cache != result && w.place == p && Fine(w, parse)
    }

    /** The loop of process_buffer(). */
    method Drain(cache: AsnTries, between: nat -> seq<CacheOp>)
      requires At(Draining, cache)
      modifies this, buffer, buffer.buffer, result, cache
      ensures At(Head, cache)
      ensures (w, cache.known) == DrainAll(old(w), old(cache.known), between, 0, parse)
    {
      var k, more := 0, true;
      while more
        invariant At(if more then Draining else Head, cache)
        invariant var end := DrainAll(old(w), old(cache.known), between, 0, parse);
                  if more then DrainAll(w, cache.known, between, k, parse) == end else (w, cache.known) == end
        decreases more, Rank(w)
      {
        cache.Others(between(k));
        more := OneLine(cache);
        k := k + 1;
      }
    }

    method OneLine(cache: AsnTries) returns (more: bool)
      requires At(Draining, cache)
      modifies this, buffer, buffer.buffer, result, cache
      ensures At(if more then Draining else Head, cache) && Rank(w) < Rank(old(w))
      ensures (w, cache.known) == TakeLine(old(w), old(cache.known), parse)
    {
      LineStep(w, cache.known, parse);
      more := HasLineToTake();
      if more {
        ProcessLine(cache);
      } else {
        w := w.(place := Head);
      }
    }

    method HasLineToTake() returns (more: bool)
      requires Mirrors() && Proper(w.held)
      ensures more <==> FirstNewline(w.held) < |w.held|
    {
      more := buffer.HasNewline();
      WholeString(w.held);
    }

    /** An iteration of the loop. */
    method Iterate(cache: AsnTries, turn: Turn)
      requires At(Head, cache) && (list != [] || outstanding > 0)
      modifies this, buffer, buffer.buffer, result, cache
      ensures At(Head, cache) && (w, cache.known) == Iteration(old(w), old(cache.known), turn, parse)
    {
      cache.Others(turn.before);
      LookStep(w, cache.known, turn.connects, parse);
      var go := Look(cache, turn.connects);
      if go {
        Select(cache, turn);
      }
    }

    /** The rest of an iteration, from select() on. */
    method Select(cache: AsnTries, turn: Turn)
      requires At(Waiting, cache)
      modifies this, buffer, buffer.buffer, result, cache
      ensures At(Head, cache) && (w, cache.known) == FromSelect(old(w), old(cache.known), turn, parse)
    {
      var write, read := turn.write && list != [], turn.read && outstanding > 0;
      ReadyStep(w, write, read, turn.sends, parse);
      var reading := Answer(write, read, turn.sends);
      if reading {
        Read(cache, turn);
      }
    }

    /** The rest of an iteration, from recv() on. */
    method Read(cache: AsnTries, turn: Turn)
      requires At(Receiving, cache)
      modifies this, buffer, buffer.buffer, result, cache
      ensures At(Head, cache) && (w, cache.known) == FromRecv(old(w), old(cache.known), turn, parse)
    {
      ReceiveStep(w, turn.size, parse);
      var ok := ReadAsnRequest(turn.size);
      if ok {
        Drain(cache, turn.between);
      }
    }

    /** The loop, for every pattern of outcomes and whatever other threads do: it comes to its end, in
        the state that the turns determine. */
    method Run(shared: SharedCache, check: AsnRefresh.Check, turns: nat -> Turn)
      requires At(Start, shared.tries)
      modifies this, buffer, buffer.buffer, result, shared, shared.tries
      ensures At(Done, shared.tries)
      ensures (w, shared.tries.known) ==
              Outcome(old(w), old(shared.tries.known), AsnRefresh.Due(old(shared.refresh), check), turns, parse)
      ensures shared.refresh == AsnRefresh.Next(old(shared.refresh), check)
    {
      var expired := shared.CheckRefresh(check);
      w := w.(place := Head);
      RunLoop(shared.tries, turns);
    }

    method RunLoop(cache: AsnTries, turns: nat -> Turn)
      requires At(Head, cache)
      modifies this, buffer, buffer.buffer, result, cache
      ensures At(Done, cache) && (w, cache.known) == Loop(old(w), old(cache.known), turns, 0, parse)
    {
      var k := 0;
      while list != [] || outstanding > 0
        invariant At(Head, cache)
        invariant Loop(w, cache.known, turns, k, parse) == Loop(old(w), old(cache.known), turns, 0, parse)
        decreases Rank(w)
      {
        Iterate(cache, turns(k));
        k := k + 1;
      }
      w := w.(place := Done);
    }
  }
}
