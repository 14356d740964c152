/**
 The cache of AS numbers: a pair of tries in which every IPv4 entry is a /24 and every IPv6 entry a /64,
 and so a map from those prefixes.
 */
module AsnCache {
  import opened AddressBits
  import opened IpTrie
  import opened Seqs

  datatype Prefix = Prefix(family: Family, bits: Bits)

  function PrefixLength(f: Family): nat {
    if f == Inet then 24 else 64
  }

  function PrefixOf(a: Address): Prefix {
    var n := PrefixLength(a.family);
    Prefix(a.family, if n <= |a.bits| then a.bits[..n] else a.bits)
  }

  ghost predicate AllLong(m: map<Bits, int>, n: nat) {
    forall k :: k in m ==> |k| == n
  }

  ghost predicate UniformTries(ts: Tries) {
    && ts.Sized() && Patricia(ts.v4, 32) && Patricia(ts.v6, 128)
    && AllLong(Leaves(ts.v4), 24) && AllLong(Leaves(ts.v6), 64)
  }

  ghost function Tagged(f: Family, m: map<Bits, int>): map<Prefix, int> {
    map p: Prefix | p in (set k | k in m :: Prefix(f, k)) :: m[p.bits]
  }

  lemma TaggedKey(f: Family, m: map<Bits, int>, p: Prefix)
    ensures p in Tagged(f, m) <==> p.family == f && p.bits in m
  {
    assert p == Prefix(p.family, p.bits);
  }

  /** The prefixes that are stored, with their values. */
  ghost function Entries(ts: Tries): map<Prefix, int> {
    Tagged(Inet, Leaves(ts.v4)) + Tagged(Inet6, Leaves(ts.v6))
  }

  lemma EntryOf(ts: Tries, p: Prefix)
    ensures var m := if p.family == Inet then Leaves(ts.v4) else Leaves(ts.v6);
            && (p in Entries(ts) <==> p.bits in m)
            && (p in Entries(ts) ==> Entries(ts)[p] == m[p.bits])
  {
  }

  lemma PutInTrie(t: Trie, w: nat, a: Bits, n: nat, asn: int)
    requires SameWidth(t, w) && Patricia(t, w) && AllLong(Leaves(t), n) && |a| == w && n <= w
    ensures Patricia(Add(t, a, n, asn), w) && Leaves(Add(t, a, n, asn)) == Leaves(t)[a[..n] := asn]
    ensures AllLong(Leaves(Add(t, a, n, asn)), n)
  {
    AddUpdates(t, w, a, n, asn);
  }

  lemma FindInTrie(t: Trie, w: nat, a: Bits, n: nat)
    requires SameWidth(t, w) && Patricia(t, w) && AllLong(Leaves(t), n) && |a| == w && n <= w
    ensures Lookup(t, a) == if a[..n] in Leaves(t) then Leaves(t)[a[..n]] else -1
  {
    if a[..n] in Leaves(t) {
      LookupFinds(t, w, a, a[..n]);
    } else {
      forall k | k in Leaves(t)
        ensures !(k <= a)
      {
        OnlyPrefix(k, a, n);
      }
      LookupMisses(t, w, a);
    }
  }

  lemma OnlyPrefix(k: Bits, a: Bits, n: nat)
    requires |k| == n <= |a|
    ensures k <= a <==> k == a[..n]
  {
  }

  lemma TaggedUpdate(f: Family, m: map<Bits, int>, k: Bits, v: int)
    ensures Tagged(f, m[k := v]) == Tagged(f, m)[Prefix(f, k) := v]
  {
    var l, r := Tagged(f, m[k := v]), Tagged(f, m)[Prefix(f, k) := v];
    forall p: Prefix
      ensures (p in l <==> p in r) && (p in l ==> l[p] == r[p])
    {
      assert p in l <==> p.family == f && p.bits in m[k := v];
      assert p in Tagged(f, m) <==> p.family == f && p.bits in m;
    }
  }

  /** Adding keeps the tries uniform and is the update of the map. */
  lemma PutUpdates(ts: Tries, a: Address, asn: int)
    requires UniformTries(ts) && a.Valid()
    ensures UniformTries(ts.Added(a, PrefixLength(a.family), asn))
    ensures Entries(ts.Added(a, PrefixLength(a.family), asn)) == Entries(ts)[PrefixOf(a) := asn]
  {
    if a.family == Inet {
      PutInTrie(ts.v4, 32, a.bits, 24, asn);
      TaggedUpdate(Inet, Leaves(ts.v4), a.bits[..24], asn);
      UpdateFirst(Tagged(Inet, Leaves(ts.v4)), Tagged(Inet6, Leaves(ts.v6)), PrefixOf(a), asn);
    } else {
      PutInTrie(ts.v6, 128, a.bits, 64, asn);
      TaggedUpdate(Inet6, Leaves(ts.v6), a.bits[..64], asn);
      UpdateSecond(Tagged(Inet, Leaves(ts.v4)), Tagged(Inet6, Leaves(ts.v6)), PrefixOf(a), asn);
    }
  }

  lemma UpdateFirst(l: map<Prefix, int>, r: map<Prefix, int>, p: Prefix, v: int)
    requires p !in r
    ensures l[p := v] + r == (l + r)[p := v]
  {
  }

  lemma UpdateSecond(l: map<Prefix, int>, r: map<Prefix, int>, p: Prefix, v: int)
    ensures l + r[p := v] == (l + r)[p := v]
  {
  }

  /** Looking up gives the value stored for the prefix of the address, or -1. */
  lemma FindsEntry(ts: Tries, a: Address)
    requires UniformTries(ts) && a.Valid()
    ensures ts.Find(a) == if PrefixOf(a) in Entries(ts) then Entries(ts)[PrefixOf(a)] else -1
  {
    EntryOf(ts, PrefixOf(a));
    if a.family == Inet {
      FindInTrie(ts.v4, 32, a.bits, 24);
    } else {
      FindInTrie(ts.v6, 128, a.bits, 64);
    }
  }

  lemma EmptyEntries()
    ensures UniformTries(Tries(Nil, Nil)) && Entries(Tries(Nil, Nil)) == map[]
  {
  }

  // ---------------------------------------------------------------- sequences of additions

  /** Additions with the prefix length of their family. */
  predicate UniformCalls(calls: seq<Call>) {
    AllValid(calls) && forall i :: 0 <= i < |calls| ==> calls[i].prefix == PrefixLength(calls[i].address.family)
  }

  /** The last value added for each prefix. */
  ghost function KnownOf(calls: seq<Call>): map<Prefix, int> {
    if calls == [] then map[]
    else KnownOf(calls[..|calls| - 1])[PrefixOf(calls[|calls| - 1].address) := calls[|calls| - 1].asn]
  }

  /** The tries built by additions stand for the map of the last values. */
  lemma {:induction false} BuiltIsKnown(calls: seq<Call>)
    requires UniformCalls(calls)
    ensures UniformTries(Built(calls)) && Entries(Built(calls)) == KnownOf(calls)
  {
    if calls == [] {
      EmptyEntries();
    } else {
      var before, c := calls[..|calls| - 1], calls[|calls| - 1];
      BuiltIsKnown(before);
      LastApart(calls);
      BuiltOneMore(before, c);
      PutUpdates(Built(before), c.address, c.asn);
    }
  }

  /** Looking an address up in them gives the last value added for its prefix, or -1. */
  lemma BuiltFinds(calls: seq<Call>, a: Address)
    requires UniformCalls(calls) && a.Valid()
    ensures Built(calls).Find(a) == if PrefixOf(a) in KnownOf(calls) then KnownOf(calls)[PrefixOf(a)] else -1
  {
    BuiltIsKnown(calls);
    FindsEntry(Built(calls), a);
  }

  lemma KnownOneMore(calls: seq<Call>, a: Address, asn: int)
    requires UniformCalls(calls) && a.Valid()
    ensures var c := Call(a, PrefixLength(a.family), asn);
            && UniformCalls(calls + [c]) && Built(calls + [c]) == Built(calls).Added(a, PrefixLength(a.family), asn)
            && KnownOf(calls + [c]) == KnownOf(calls)[PrefixOf(a) := asn]
  {
    var c := Call(a, PrefixLength(a.family), asn);
    BuiltOneMore(calls, c);
    assert (calls + [c])[..|calls|] == calls;
  }
}
