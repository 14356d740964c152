/**
 The whole of amp_asn_worker_thread(): the addresses that a test sends become a trie of requests, its
 leaves the list of the loop, and the loop leaves the result.
 */
module AsnService {
  import opened Bytes
  import opened AddressBits
  import opened IpTrie
  import opened AsnCache
  import opened AsnWorker
  import opened AsnTrace
  import opened AsnLoop
  import opened AsnRequests
  import opened AsnThread
  import AsnRefresh

  /** fill_request_trie(), for the addresses that were read. */
  method FillRequestTrie(asked: seq<Address>) returns (requests: AsnTries)
    requires WholeAddresses(asked)
    ensures fresh(requests) && requests.Valid() && requests.calls == Requests(asked)
  {
    requests := new AsnTries();
    for i := 0 to |asked|
      invariant fresh(requests) && requests.Valid() && requests.calls == Requests(asked)[..i]
    {
      RequestsUpTo(asked, i);
      requests.Add(asked[i], 0);
    }
  }

  lemma RequestsUpTo(asked: seq<Address>, i: nat)
    requires WholeAddresses(asked) && i < |asked|
    ensures Requests(asked)[..i + 1] == Requests(asked)[..i] + [Call(asked[i], PrefixLength(asked[i].family), 0)]
  {
  }

  lemma BeginFine(todo: seq<Address>, replies: seq<Byte>, parse: Parser)
    requires WholeAddresses(todo) && Readable(replies, parse)
    ensures Fine(Begin(todo, replies), parse)
  {
    assert Begin(todo, replies).held + replies == replies;
  }

  /** What the thread for these addresses leaves: its state and the cache. */
  ghost function Service(asked: seq<Address>, replies: seq<Byte>, cache: Known, expired: bool, turns: nat -> Turn,
                         parse: Parser): (Worker, Known)
    requires WholeAddresses(asked) && Readable(replies, parse)
  {
    RequestedOnce(asked);
    BeginFine(TodoFor(asked), replies, parse);
    Outcome(Begin(TodoFor(asked), replies), cache, expired, turns, parse)
  }

  /** Whatever addresses are sent and however the calls turn out, as long as other threads put only true
      values into the cache: the result and the cache hold only what the whois server knows, and without
      a failure and with at most one answer to each request the result is exactly that for the prefixes
      of the addresses. */
  lemma ServiceIsRight(asked: seq<Address>, replies: seq<Byte>, cache: Known, expired: bool, turns: nat -> Turn,
                       parse: Parser, oracle: Oracle)
    requires WholeAddresses(asked) && Readable(replies, parse) && ToldBy(replies, parse, oracle)
    requires Faithful(cache, oracle) && FaithfulTurns(turns, oracle)
    ensures var (w, cache') := Service(asked, replies, cache, expired, turns, parse);
            && Faithful(w.result, oracle) && Faithful(cache', oracle)
            && (w.whois != Unavailable && OneAnswerEach(w) ==>
                  w.result == map p | p in Members(Prefixes(asked)) :: oracle(p))
  {
    RequestedOnce(asked);
    BeginFine(TodoFor(asked), replies, parse);
    OutcomeIsRight(TodoFor(asked), replies, cache, expired, turns, parse, oracle);
  }

  /** The thread comes to its end, with fields that are determined by the addresses, the replies, the
      cache and the turns; so `ServiceIsRight` holds of its result and of the cache. */
  method WorkerThread(shared: SharedCache, asked: seq<Address>, replies: seq<Byte>, parse: Parser,
                      check: AsnRefresh.Check, turns: nat -> Turn, ghost oracle: Oracle)
    returns (thread: AsnThread)
    requires shared.tries.Valid() && WholeAddresses(asked) && Readable(replies, parse)
    modifies shared, shared.tries
    ensures fresh(thread) && thread.Mirrors() && shared.tries.Valid()
    ensures (thread.w, shared.tries.known) ==
            Service(asked, replies, old(shared.tries.known), AsnRefresh.Due(old(shared.refresh), check), turns, parse)
    ensures Faithful(old(shared.tries.known), oracle) && FaithfulTurns(turns, oracle) &&
            ToldBy(replies, parse, oracle) ==>
              && Faithful(thread.result.known, oracle) && Faithful(shared.tries.known, oracle)
              && (thread.whois != Unavailable && OneAnswerEach(thread.w) ==>
                    thread.result.known == map p | p in Members(Prefixes(asked)) :: oracle(p))
  {
    var requests := FillRequestTrie(asked);
    var list := requests.trie.Addresses();
    thread := new AsnThread(list, replies, parse);
    RequestedOnce(asked);
    BeginFine(list, replies, parse);
    ghost var cache, expired := shared.tries.known, AsnRefresh.Due(shared.refresh, check);
    thread.Run(shared, check, turns);
    if FaithfulTurns(turns, oracle) && Faithful(cache, oracle) && ToldBy(replies, parse, oracle) {
      ServiceIsRight(asked, replies, cache, expired, turns, parse, oracle);
    }
  }
}
