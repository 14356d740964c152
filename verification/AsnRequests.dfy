/**
 The requests of a thread: the addresses that the test sent become a trie, and its leaves the list that
 the thread walks.
 */
module AsnRequests {
  import opened AddressBits
  import opened Bytes
  import opened IpTrie
  import opened Seqs
  import opened AsnCache
  import opened AsnWorker
  import opened AsnSystem

  function Tag(f: Family, s: seq<(Bits, int)>): (r: seq<Prefix>)
    ensures |r| == |s| && forall i :: 0 <= i < |s| ==> r[i] == Prefix(f, s[i].0)
  {
    seq(|s|, i requires 0 <= i < |s| => Prefix(f, s[i].0))
  }

  /** The prefixes in the list that is made of a trie of requests. */
  function Listed(ts: Tries): seq<Prefix> {
    Tag(Inet6, Reversed(InOrder(ts.v6))) + Tag(Inet, Reversed(InOrder(ts.v4)))
  }

  /** The list of a trie of requests names every prefix in it, and none twice. */
  lemma ListedOnce(ts: Tries)
    requires UniformTries(ts)
    ensures Distinct(Listed(ts)) && Members(Listed(ts)) == Entries(ts).Keys
  {
    var six, four := Reversed(InOrder(ts.v6)), Reversed(InOrder(ts.v4));
    ListsLeaves(ts.v6, 128);
    ListsLeaves(ts.v4, 32);
    TagOnce(Inet6, six, Leaves(ts.v6));
    TagOnce(Inet, four, Leaves(ts.v4));
    BothOnce(Tag(Inet6, six), Tag(Inet, four));
  }

  /** A list in descending order that holds the keys of a map. */
  ghost predicate ListOf(s: seq<(Bits, int)>, m: map<Bits, int>) {
    && Descending(s)
    && (forall i :: 0 <= i < |s| ==> s[i].0 in m)
    && (forall k :: k in m ==> exists i :: 0 <= i < |s| && s[i].0 == k)
  }

  lemma ListsLeaves(t: Trie, w: nat)
    requires Patricia(t, w)
    ensures ListOf(Reversed(InOrder(t)), Leaves(t))
  {
    InOrderAscends(t, w);
    var s := Reversed(InOrder(t));
    ReversedItems(InOrder(t));
    forall i | 0 <= i < |s|
      ensures s[i].0 in Leaves(t)
    {
      var (k, v) := s[i];
      assert (k, v) in s;
    }
    forall k | k in Leaves(t)
      ensures exists i :: 0 <= i < |s| && s[i].0 == k
    {
      var v := Leaves(t)[k];
      assert (k, v) in InOrder(t);
      assert (k, v) in s;
    }
  }

  lemma TagOnce(f: Family, s: seq<(Bits, int)>, m: map<Bits, int>)
    requires ListOf(s, m)
    ensures Distinct(Tag(f, s)) && Members(Tag(f, s)) == Tagged(f, m).Keys
    ensures forall p :: p in Tag(f, s) ==> p.family == f
  {
    forall i, j | 0 <= i < j < |s|
      ensures s[i].0 != s[j].0
    {
      LowerDiffers(s[j].0, s[i].0);
    }
    forall p: Prefix
      ensures p in Tag(f, s) <==> p in Tagged(f, m)
    {
      TaggedKey(f, m, p);
      if p in Tagged(f, m) {
        var i :| 0 <= i < |s| && s[i].0 == p.bits;
        assert Tag(f, s)[i] == p;
      }
    }
  }

  lemma LowerDiffers(k: Bits, k': Bits)
    requires Lower(k, k')
    ensures k != k'
  {
  }

  lemma BothOnce(six: seq<Prefix>, four: seq<Prefix>)
    requires Distinct(six) && Distinct(four)
    requires (forall p :: p in six ==> p.family == Inet6) && (forall p :: p in four ==> p.family == Inet)
    ensures Distinct(six + four) && Members(six + four) == Members(six) + Members(four)
  {
  }

  // ---------------------------------------------------------------- the addresses in the nodes

  /** The addresses are whole and their prefixes are these. */
  ghost predicate Stand(s: seq<Address>, ps: seq<Prefix>) {
    |s| == |ps| && forall i :: 0 <= i < |s| ==> s[i].Valid() && PrefixOf(s[i]) == ps[i]
  }

  lemma StandConcat(s: seq<Address>, ps: seq<Prefix>, s': seq<Address>, ps': seq<Prefix>)
    requires Stand(s, ps) && Stand(s', ps')
    ensures Stand(s + s', ps + ps')
  {
  }

  lemma {:induction false} StandPrefixes(s: seq<Address>, ps: seq<Prefix>)
    requires Stand(s, ps)
    ensures WholeAddresses(s) && Prefixes(s) == ps
  {
    if s != [] {
      StandPrefixes(s[1..], ps[1..]);
      assert ps == [ps[0]] + ps[1..];
    }
  }

  lemma TagConcat(f: Family, s: seq<(Bits, int)>, s': seq<(Bits, int)>)
    ensures Tag(f, s + s') == Tag(f, s) + Tag(f, s')
  {
  }

  lemma LeafStands(f: Family, t: Trie)
    requires t.Leaf() && Patricia(t, Width(f)) && AllLong(Leaves(t), PrefixLength(f))
    ensures Stand(NodeAddresses(f, t), Tag(f, InOrder(t)))
  {
    assert Key(t) in Leaves(t);
  }

  lemma {:induction false} NodesStand(f: Family, t: Trie)
    requires Patricia(t, Width(f)) && AllLong(Leaves(t), PrefixLength(f))
    ensures Stand(NodeAddresses(f, t), Tag(f, InOrder(t)))
  {
    if t != Nil {
      if t.Leaf() {
        LeafStands(f, t);
      } else {
        var l, r := InOrder(t.left), InOrder(t.right);
        ChildrenLong(t, Width(f), PrefixLength(f));
        NodesStand(f, t.left);
        NodesStand(f, t.right);
        StandConcat(NodeAddresses(f, t.left), Tag(f, l), NodeAddresses(f, t.right), Tag(f, r));
        TagConcat(f, l, r);
      }
    }
  }

  lemma ChildrenLong(t: Trie, w: nat, n: nat)
    requires t.Node? && !t.Leaf() && Patricia(t, w) && AllLong(Leaves(t), n)
    ensures AllLong(Leaves(t.left), n) && AllLong(Leaves(t.right), n)
  {
    assert forall k :: k in Leaves(t.left) || k in Leaves(t.right) ==> k in Leaves(t);
  }

  lemma {:induction false} StandReversed(f: Family, s: seq<Address>, items: seq<(Bits, int)>)
    requires Stand(s, Tag(f, items))
    ensures Stand(Reversed(s), Tag(f, Reversed(items)))
  {
  }

  lemma {:induction false} ReversedStand(f: Family, t: Trie)
    requires Patricia(t, Width(f)) && AllLong(Leaves(t), PrefixLength(f))
    ensures Stand(Reversed(NodeAddresses(f, t)), Tag(f, Reversed(InOrder(t))))
  {
    NodesStand(f, t);
    StandReversed(f, NodeAddresses(f, t), InOrder(t));
  }

  /** The addresses on the list are whole, and their prefixes are the prefixes in the trie. */
  lemma TodoIsListed(ts: Tries)
    requires UniformTries(ts)
    ensures WholeAddresses(ts.Addresses()) && Prefixes(ts.Addresses()) == Listed(ts)
  {
    ReversedStand(Inet6, ts.v6);
    ReversedStand(Inet, ts.v4);
    StandConcat(Reversed(NodeAddresses(Inet6, ts.v6)), Tag(Inet6, Reversed(InOrder(ts.v6))),
                Reversed(NodeAddresses(Inet, ts.v4)), Tag(Inet, Reversed(InOrder(ts.v4))));
    StandPrefixes(ts.Addresses(), Listed(ts));
  }

  // ---------------------------------------------------------------- from requests to results

  /** fill_request_trie(): every address that was read is added with the length of its family. */
  function Requests(asked: seq<Address>): (calls: seq<Call>)
    requires WholeAddresses(asked)
    ensures UniformCalls(calls) && |calls| == |asked|
    ensures forall i :: 0 <= i < |asked| ==> calls[i].address == asked[i]
  {
    seq(|asked|, i requires 0 <= i < |asked| => Call(asked[i], PrefixLength(asked[i].family), 0))
  }

  ghost function TodoFor(asked: seq<Address>): seq<Address>
    requires WholeAddresses(asked)
  {
    Built(Requests(asked)).Addresses()
  }

  lemma {:induction false} PrefixesHold(asked: seq<Address>, p: Prefix)
    ensures p in Prefixes(asked) <==> exists i :: 0 <= i < |asked| && PrefixOf(asked[i]) == p
  {
    if asked != [] {
      PrefixesHold(asked[1..], p);
      if i :| 0 <= i < |asked| && PrefixOf(asked[i]) == p && p != PrefixOf(asked[0]) {
        assert PrefixOf(asked[1..][i - 1]) == p;
      }
    }
  }

  lemma {:induction false} KnownKeys(calls: seq<Call>, p: Prefix)
    ensures p in KnownOf(calls) <==> exists i :: 0 <= i < |calls| && PrefixOf(calls[i].address) == p
  {
    if calls != [] {
      var before := calls[..|calls| - 1];
      KnownKeys(before, p);
      if i :| 0 <= i < |calls| && PrefixOf(calls[i].address) == p && p != PrefixOf(calls[|calls| - 1].address) {
        assert PrefixOf(before[i].address) == p;
      }
    }
  }

  /** The list for the addresses that were sent names the prefix of each of them, names nothing else and
      names nothing twice. */
  lemma RequestedOnce(asked: seq<Address>)
    requires WholeAddresses(asked)
    ensures WholeAddresses(TodoFor(asked)) && Distinct(Prefixes(TodoFor(asked)))
    ensures Members(Prefixes(TodoFor(asked))) == Members(Prefixes(asked))
  {
    var calls := Requests(asked);
    BuiltIsKnown(calls);
    ListedOnce(Built(calls));
    TodoIsListed(Built(calls));
    forall p
      ensures p in KnownOf(calls) <==> p in Prefixes(asked)
    {
      KnownKeys(calls, p);
      PrefixesHold(asked, p);
    }
  }

  ghost predicate AllWhole(asked: seq<seq<Address>>) {
    forall i :: 0 <= i < |asked| ==> WholeAddresses(asked[i])
  }

  /** The threads for these requests and these replies. */
  ghost function Jobs(asked: seq<seq<Address>>, replies: seq<seq<Byte>>): (jobs: seq<Job>)
    requires |asked| == |replies| && AllWhole(asked)
    ensures |jobs| == |asked|
    ensures forall i :: 0 <= i < |asked| ==> jobs[i] == Job(TodoFor(asked[i]), replies[i])
  {
    seq(|asked|, i requires 0 <= i < |asked| => Job(TodoFor(asked[i]), replies[i]))
  }

  /** Whatever addresses the tests send and however the threads interleave: a thread that is done, had
      no failure and got at most one answer to each request has exactly what the whois server knows of
      the prefixes of those addresses. */
  lemma AnswersAllAsked(cache: Known, asked: seq<seq<Address>>, replies: seq<seq<Byte>>, run: seq<Move>,
                        parse: Parser, oracle: Oracle, i: nat)
    requires |asked| == |replies| && AllWhole(asked) && i < |asked| && Faithful(cache, oracle)
    requires forall j :: 0 <= j < |replies| ==> ToldBy(replies[j], parse, oracle)
    requires Possible(BeginAll(cache, Jobs(asked, replies)), run, parse)
    ensures var s := After(BeginAll(cache, Jobs(asked, replies)), run, parse);
            i < |s.workers| &&
            (s.workers[i].place == Done && !s.workers[i].failed && OneAnswerEach(s.workers[i]) ==>
               s.workers[i].result == map p | p in Members(Prefixes(asked[i])) :: oracle(p))
  {
    var jobs := Jobs(asked, replies);
    forall j | 0 <= j < |jobs|
      ensures Distinct(Prefixes(jobs[j].todo)) && ToldBy(jobs[j].replies, parse, oracle)
    {
      RequestedOnce(asked[j]);
    }
    ExactResults(cache, jobs, run, parse, oracle, i);
    RequestedOnce(asked[i]);
  }
}
