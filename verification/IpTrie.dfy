/**
 The Patricia trie of address prefixes as a value: adding, looking up and listing, and the proof that
 it is a finite map from prefixes to AS numbers.
 */
module IpTrie {
  import opened AddressBits
  import opened Seqs

  /** A node as the source has it; only leaves hold values that were added. */
  datatype Trie =
    | Nil
    | Node(asn: int, prefix: nat, bits: Bits, left: Trie, right: Trie)
  {
    predicate Leaf() {
      Node? && left == Nil && right == Nil
    }
  }

  function NewLeaf(a: Bits, p: nat, asn: int): Trie {
    Node(asn, p, a, Nil, Nil)
  }

  /** iptrie_add_internal(). */
  function Add(t: Trie, a: Bits, p: nat, asn: int): (t': Trie)
    requires SameWidth(t, |a|)
    ensures SameWidth(t', |a|)
  {
    if t == Nil then NewLeaf(a, p, asn)
    else if p == t.prefix && Agree(t.bits, a, p) then t.(asn := asn)
    else
      var common := CommonPrefix(t.bits, a);
      var len := if common > t.prefix then t.prefix else common;
      if len < t.prefix then
        if BitAt(a, len) == 0
        then Node(0, len, a, NewLeaf(a, p, asn), t)
        else Node(0, len, a, t, NewLeaf(a, p, asn))
      else if BitAt(a, len) == 0 then t.(left := Add(t.left, a, p, asn))
      else t.(right := Add(t.right, a, p, asn))
  }

  /** iptrie_lookup_as_internal(). */
  function Lookup(t: Trie, a: Bits): int
    requires SameWidth(t, |a|)
  {
    if t == Nil then -1
    else if !Agree(t.bits, a, t.prefix) then -1
    else if t.left == Nil && t.right == Nil then t.asn
    else
      var next := BitAt(a, t.prefix);
      if next == 0 && t.left != Nil then Lookup(t.left, a)
      else if next == 1 && t.right != Nil then Lookup(t.right, a)
      else -1
  }

  /** All addresses in a trie are of one family. */
  predicate SameWidth(t: Trie, w: nat) {
    t == Nil || (|t.bits| == w && SameWidth(t.left, w) && SameWidth(t.right, w))
  }

  // ---------------------------------------------------------------- the invariant

  /** A node other than a leaf has both children, their prefixes are longer, agree with its own, and
      split on the bit after it. */
  predicate Patricia(t: Trie, w: nat) {
    t.Node? ==>
      && |t.bits| == w
      && t.prefix <= w
      && (!t.Leaf() ==>
            && t.asn == 0
            && t.left != Nil && t.right != Nil
            && Below(t, t.left, false) && Patricia(t.left, w)
            && Below(t, t.right, true) && Patricia(t.right, w))
  }

  predicate Below(t: Trie, child: Trie, bit: bool)
    requires t.Node? && child.Node?
  {
    && t.prefix < child.prefix <= |child.bits|
    && t.prefix <= |t.bits|
    && child.bits[..t.prefix] == t.bits[..t.prefix]
    && child.bits[t.prefix] == bit
  }

  lemma {:induction false} PatriciaWidth(t: Trie, w: nat)
    requires Patricia(t, w)
    ensures SameWidth(t, w)
  {
    if t != Nil && !t.Leaf() {
      PatriciaWidth(t.left, w);
      PatriciaWidth(t.right, w);
    }
  }

  /** The prefixes stored in a trie, with their values. */
  ghost function Leaves(t: Trie): map<Bits, int> {
    if t == Nil then map[]
    else if t.Leaf() then map[Key(t) := t.asn]
    else Leaves(t.left) + Leaves(t.right)
  }

  /** The prefix that a node stands for. */
  function Key(t: Trie): Bits
    requires t.Node?
  {
    if t.prefix <= |t.bits| then t.bits[..t.prefix] else t.bits
  }

  /** Every prefix below a node begins with the prefix of the node. */
  lemma {:induction false} LeavesBelow(t: Trie, w: nat, k: Bits)
    requires t.Node? && Patricia(t, w) && k in Leaves(t)
    ensures t.prefix <= |k| <= w && k[..t.prefix] == Key(t)
    ensures !t.Leaf() ==> t.prefix < |k| && k in Leaves(if k[t.prefix] then t.right else t.left)
  {
    if !t.Leaf() {
      var child := if k in Leaves(t.right) then t.right else t.left;
      LeavesBelow(child, w, k);
      assert k[..t.prefix] == k[..child.prefix][..t.prefix];
      assert k[t.prefix] == k[..child.prefix][t.prefix] == child.bits[t.prefix];
    }
  }

  lemma {:induction false} HasLeaf(t: Trie, w: nat) returns (k: Bits)
    requires t.Node? && Patricia(t, w)
    ensures k in Leaves(t)
  {
    if t.Leaf() {
      k := Key(t);
    } else {
      k := HasLeaf(t.left, w);
    }
  }

  lemma ChildLeaves(t: Trie, w: nat, k: Bits)
    requires t.Node? && Patricia(t, w) && !t.Leaf()
    ensures k in Leaves(t.left) <==> k in Leaves(t) && t.prefix < |k| && !k[t.prefix]
    ensures k in Leaves(t.right) <==> k in Leaves(t) && t.prefix < |k| && k[t.prefix]
    ensures k in Leaves(t.left) ==> Leaves(t)[k] == Leaves(t.left)[k]
    ensures k in Leaves(t.right) ==> Leaves(t)[k] == Leaves(t.right)[k]
  {
    if k in Leaves(t) { LeavesBelow(t, w, k); }
    if k in Leaves(t.left) {
      LeavesBelow(t.left, w, k);
      assert k[t.prefix] == k[..t.left.prefix][t.prefix];
    }
    if k in Leaves(t.right) {
      LeavesBelow(t.right, w, k);
      assert k[t.prefix] == k[..t.right.prefix][t.prefix];
    }
  }

  // ---------------------------------------------------------------- lookup

  /** Lookup finds the stored prefix that the address begins with. */
  lemma {:induction false} LookupFinds(t: Trie, w: nat, a: Bits, k: Bits)
    requires Patricia(t, w) && |a| == w && SameWidth(t, w)
    requires k in Leaves(t) && k <= a
    ensures Lookup(t, a) == Leaves(t)[k]
  {
    LeavesBelow(t, w, k);
    assert a[..t.prefix] == k[..t.prefix];
    if !t.Leaf() {
      assert a[t.prefix] == k[t.prefix];
      ChildLeaves(t, w, k);
      LookupFinds(if k[t.prefix] then t.right else t.left, w, a, k);
    }
  }

  /** Lookup finds nothing for an address that begins with no stored prefix. */
  lemma {:induction false} LookupMisses(t: Trie, w: nat, a: Bits)
    requires Patricia(t, w) && |a| == w && SameWidth(t, w)
    requires forall k :: k in Leaves(t) ==> !(k <= a)
    ensures Lookup(t, a) == -1
  {
    if t != Nil {
      if t.Leaf() {
        assert Key(t) in Leaves(t);
        assert !(t.bits[..t.prefix] == a[..t.prefix]);
      } else {
        forall k | k in Leaves(t.left) || k in Leaves(t.right)
          ensures !(k <= a)
        {
          ChildLeaves(t, w, k);
        }
        LookupMisses(t.left, w, a);
        LookupMisses(t.right, w, a);
      }
    }
  }

  // ---------------------------------------------------------------- add

  /** One of two prefixes begins with the other. */
  ghost predicate Comparable(k: Bits, k': Bits) {
    k <= k' || k' <= k
  }

  /** A prefix that can go beside the stored ones: it is one of them, or comparable with none. */
  ghost predicate Fits(m: map<Bits, int>, k: Bits) {
    forall k' :: k' in m && Comparable(k, k') ==> k == k'
  }

  /** Adding keeps the invariant and is the update of the map. */
  lemma {:induction false} AddUpdates(t: Trie, w: nat, a: Bits, p: nat, asn: int)
    requires Patricia(t, w) && |a| == w && p <= w && SameWidth(t, w)
    requires Fits(Leaves(t), a[..p])
    ensures var t' := Add(t, a, p, asn);
            && Patricia(t', w)
            && Leaves(t') == Leaves(t)[a[..p] := asn]
            && (t != Nil ==> Rooted(t, t', a))
  {
    if t == Nil {
      AddFirst(w, a, p, asn);
    } else if p == t.prefix && Agree(t.bits, a, p) {
      AddReplaces(t, w, a, p, asn);
    } else {
      var common := CommonPrefix(t.bits, a);
      if common < t.prefix {
        AddBranches(t, w, a, p, asn);
      } else {
        AddDescends(t, w, a, p, asn);
      }
    }
  }

  /** `Add` leaves the root where it is, or branches off above it. */
  ghost predicate Rooted(t: Trie, t': Trie, a: Bits) {
    && t.Node? && t'.Node?
    && (|| (t'.prefix == t.prefix && t'.bits == t.bits)
        || (t'.prefix == CommonPrefix(t.bits, a) && t'.bits == a))
  }

  /** A prefix that fits is never the prefix of a branching node. */
  lemma OnlyLeavesMatch(t: Trie, w: nat, a: Bits, p: nat)
    requires t.Node? && Patricia(t, w) && |a| == w && p == t.prefix && Agree(t.bits, a, p)
    requires Fits(Leaves(t), a[..p])
    ensures t.Leaf()
  {
    if !t.Leaf() {
      var k := HasLeaf(t, w);
      LeavesBelow(t, w, k);
    }
  }

  lemma AddFirst(w: nat, a: Bits, p: nat, asn: int)
    requires |a| == w && p <= w
    ensures Patricia(Add(Nil, a, p, asn), w) && Leaves(Add(Nil, a, p, asn)) == map[a[..p] := asn]
  {
  }

  /** The prefix is stored already, and its value is replaced. */
  lemma AddReplaces(t: Trie, w: nat, a: Bits, p: nat, asn: int)
    requires t.Node? && Patricia(t, w) && |a| == w && p <= w && SameWidth(t, w)
    requires Fits(Leaves(t), a[..p]) && p == t.prefix && Agree(t.bits, a, p)
    ensures Patricia(Add(t, a, p, asn), w) && Leaves(Add(t, a, p, asn)) == Leaves(t)[a[..p] := asn]
    ensures Rooted(t, Add(t, a, p, asn), a)
  {
    OnlyLeavesMatch(t, w, a, p);
    assert Leaves(t) == map[a[..p] := t.asn];
  }

  /** The address leaves the trie above this node. */
  lemma AddBranches(t: Trie, w: nat, a: Bits, p: nat, asn: int)
    requires t.Node? && Patricia(t, w) && |a| == w && p <= w && SameWidth(t, w)
    requires Fits(Leaves(t), a[..p]) && CommonPrefix(t.bits, a) < t.prefix
    requires !(p == t.prefix && Agree(t.bits, a, p))
    ensures var t' := Add(t, a, p, asn);
            && Patricia(t', w)
            && Leaves(t') == Leaves(t)[a[..p] := asn]
            && t'.prefix == CommonPrefix(t.bits, a) && t'.bits == a
  {
    var len := CommonPrefix(t.bits, a);
    var leaf := NewLeaf(a, p, asn);
    LeavesLonger(t, w, a, p);
    forall k' | k' in Leaves(t)
      ensures k' != a[..p]
    {
      LeavesBelow(t, w, k');
      AtIndex(k', t.bits, t.prefix, len);
    }
    assert Leaves(leaf) == map[a[..p] := asn];
    UpdateUnion(Leaves(t), map[], a[..p], asn);
    if a[len] {
      Join(Node(0, len, a, t, leaf), w);
    } else {
      Join(Node(0, len, a, leaf, t), w);
    }
  }

  lemma Join(t: Trie, w: nat)
    requires t.Node? && |t.bits| == w && t.prefix < w && t.asn == 0
    requires t.left.Node? && t.right.Node? && Patricia(t.left, w) && Patricia(t.right, w)
    requires t.prefix < t.left.prefix && t.prefix < t.right.prefix
    requires t.left.bits[..t.prefix] == t.bits[..t.prefix] == t.right.bits[..t.prefix]
    requires !t.left.bits[t.prefix] && t.right.bits[t.prefix]
    ensures Patricia(t, w) && Leaves(t) == Leaves(t.left) + Leaves(t.right)
  {
  }

  /** A prefix that fits is longer than what it shares with any node it leaves. */
  lemma LeavesLonger(t: Trie, w: nat, a: Bits, p: nat)
    requires t.Node? && Patricia(t, w) && |a| == w && p <= w && SameWidth(t, w)
    requires Fits(Leaves(t), a[..p]) && CommonPrefix(t.bits, a) < t.prefix
    ensures p > CommonPrefix(t.bits, a)
  {
    var len := CommonPrefix(t.bits, a);
    var k := HasLeaf(t, w);
    LeavesBelow(t, w, k);
    assert a[..len] == t.bits[..len] == Key(t)[..len] == k[..t.prefix][..len] == k[..len];
    ShorterPrefix(a, k, len, p);
  }

  /** The address goes on below this node. */
  lemma {:induction false} AddDescends(t: Trie, w: nat, a: Bits, p: nat, asn: int)
    requires t.Node? && Patricia(t, w) && |a| == w && p <= w && SameWidth(t, w)
    requires Fits(Leaves(t), a[..p]) && CommonPrefix(t.bits, a) >= t.prefix
    requires !(p == t.prefix && Agree(t.bits, a, p))
    ensures var t' := Add(t, a, p, asn);
            && Patricia(t', w)
            && Leaves(t') == Leaves(t)[a[..p] := asn]
            && t'.prefix == t.prefix && t'.bits == t.bits
    decreases t, 0
  {
    ShorterPrefix(a, t.bits, CommonPrefix(t.bits, a), t.prefix);
    assert a[..t.prefix] == t.bits[..t.prefix];
    NotAbove(t, w, a, p);
    FitsBelow(t, w, a, p);
    AddGoesDown(t, a, p, asn);
    if a[t.prefix] {
      AddUpdates(t.right, w, a, p, asn);
      AddedChild(t, w, t.right, Add(t.right, a, p, asn), a, p, asn);
    } else {
      AddUpdates(t.left, w, a, p, asn);
      AddedChild(t, w, t.left, Add(t.left, a, p, asn), a, p, asn);
    }
  }

  lemma AddedChild(t: Trie, w: nat, child: Trie, child': Trie, a: Bits, p: nat, asn: int)
    requires t.Node? && !t.Leaf() && Patricia(t, w) && |a| == w && t.prefix < p <= w
    requires a[..t.prefix] == t.bits[..t.prefix] && child == (if a[t.prefix] then t.right else t.left)
    requires a[..p] !in Leaves(if a[t.prefix] then t.left else t.right)
    requires Rooted(child, child', a)
    requires Patricia(child', w) && Leaves(child') == Leaves(child)[a[..p] := asn]
    ensures var t' := if a[t.prefix] then t.(right := child') else t.(left := child');
            Patricia(t', w) && Leaves(t') == Leaves(t)[a[..p] := asn]
  {
    StaysBelow(t, child, child', a);
    if a[t.prefix] {
      ReplaceRight(t, w, child', a[..p], asn);
    } else {
      ReplaceLeft(t, w, child', a[..p], asn);
    }
  }

  lemma AddGoesDown(t: Trie, a: Bits, p: nat, asn: int)
    requires t.Node? && SameWidth(t, |a|) && t.prefix < |a| && CommonPrefix(t.bits, a) >= t.prefix
    requires !(p == t.prefix && Agree(t.bits, a, p))
    ensures Add(t, a, p, asn) ==
            if a[t.prefix] then t.(right := Add(t.right, a, p, asn)) else t.(left := Add(t.left, a, p, asn))
  {
  }

  lemma FitsBelow(t: Trie, w: nat, a: Bits, p: nat)
    requires t.Node? && !t.Leaf() && Patricia(t, w) && |a| == w && t.prefix < p <= w
    requires Fits(Leaves(t), a[..p])
    ensures Fits(Leaves(if a[t.prefix] then t.right else t.left), a[..p])
    ensures a[..p] !in Leaves(if a[t.prefix] then t.left else t.right)
  {
    ChildLeaves(t, w, a[..p]);
    forall k | k in Leaves(if a[t.prefix] then t.right else t.left) && Comparable(a[..p], k)
      ensures k == a[..p]
    {
      ChildLeaves(t, w, k);
    }
  }

  /** The child that `Add` leaves behind still belongs below the node. */
  lemma StaysBelow(t: Trie, child: Trie, child': Trie, a: Bits)
    requires t.Node? && Rooted(child, child', a)
    requires t.prefix < |a| == |child.bits| && Below(t, child, a[t.prefix]) && a[..t.prefix] == t.bits[..t.prefix]
    ensures Below(t, child', a[t.prefix])
  {
    OneMore(child.bits, a, t.prefix);
    AgreeIffCommonPrefix(child.bits, a, t.prefix + 1);
  }

  lemma ReplaceLeft(t: Trie, w: nat, l: Trie, k: Bits, asn: int)
    requires t.Node? && !t.Leaf() && Patricia(t, w)
    requires l.Node? && Patricia(l, w) && Below(t, l, false)
    requires Leaves(l) == Leaves(t.left)[k := asn] && k !in Leaves(t.right)
    ensures var t' := t.(left := l);
            Patricia(t', w) && Leaves(t') == Leaves(t)[k := asn]
  {
    UpdateUnion(Leaves(t.left), Leaves(t.right), k, asn);
    assert Below(t.(left := l), t.right, true);
  }

  lemma ReplaceRight(t: Trie, w: nat, r: Trie, k: Bits, asn: int)
    requires t.Node? && !t.Leaf() && Patricia(t, w)
    requires r.Node? && Patricia(r, w) && Below(t, r, true)
    requires Leaves(r) == Leaves(t.right)[k := asn]
    ensures var t' := t.(right := r);
            Patricia(t', w) && Leaves(t') == Leaves(t)[k := asn]
  {
    UpdateUnion(Leaves(t.left), Leaves(t.right), k, asn);
    assert Below(t.(right := r), t.left, false);
  }

  lemma UpdateUnion(l: map<Bits, int>, r: map<Bits, int>, k: Bits, asn: int)
    ensures k !in r ==> l[k := asn] + r == (l + r)[k := asn]
    ensures l + r[k := asn] == (l + r)[k := asn]
    ensures k !in l ==> map[k := asn] + l == l[k := asn]
  {
  }

  /** A prefix that fits, and agrees with a node without being its prefix, lies below that node. */
  lemma NotAbove(t: Trie, w: nat, a: Bits, p: nat)
    requires t.Node? && Patricia(t, w) && |a| == w && p <= w
    requires Fits(Leaves(t), a[..p]) && a[..t.prefix] == t.bits[..t.prefix] && p != t.prefix
    ensures p > t.prefix && !t.Leaf()
  {
    var k := HasLeaf(t, w);
    LeavesBelow(t, w, k);
    ShorterPrefix(a, k, t.prefix, p);
  }

  lemma ShorterPrefix(a: Bits, k: Bits, n: nat, p: nat)
    requires n <= |a| && n <= |k| && a[..n] == k[..n] && p <= |a|
    ensures p <= n ==> a[..p] <= k
    ensures p >= n ==> k[..n] <= a[..p]
  {
    if p <= n { assert a[..p] == a[..n][..p] == k[..n][..p]; }
  }

  // ---------------------------------------------------------------- histories

  datatype Entry = Entry(bits: Bits, prefix: nat, asn: int)

  predicate WellSized(adds: seq<Entry>, w: nat) {
    forall i :: 0 <= i < |adds| ==> |adds[i].bits| == w && adds[i].prefix <= w
  }

  /** The trie after a sequence of additions. */
  ghost function Build(adds: seq<Entry>, w: nat): (t: Trie)
    requires WellSized(adds, w)
    ensures SameWidth(t, w)
  {
    if adds == [] then Nil
    else
      var e := adds[|adds| - 1];
      Add(Build(adds[..|adds| - 1], w), e.bits, e.prefix, e.asn)
  }

  /** The last value added for each prefix. */
  ghost function Final(adds: seq<Entry>): map<Bits, int> {
    if adds == [] then map[]
    else
      var e := adds[|adds| - 1];
      Final(adds[..|adds| - 1])[(if e.prefix <= |e.bits| then e.bits[..e.prefix] else e.bits) := e.asn]
  }

  /** No stored prefix is a proper prefix of another. */
  ghost predicate PrefixFree(m: map<Bits, int>) {
    forall k :: k in m ==> Fits(m, k)
  }

  /** Additions of prefixes that do not nest make a trie whose leaves are the last values added. */
  lemma {:induction false} BuildIsMap(adds: seq<Entry>, w: nat)
    requires WellSized(adds, w) && PrefixFree(Final(adds))
    ensures Patricia(Build(adds, w), w) && Leaves(Build(adds, w)) == Final(adds)
  {
    if adds != [] {
      var e := adds[|adds| - 1];
      var before := Final(adds[..|adds| - 1]);
      forall k | k in before
        ensures Fits(before, k)
      {
        assert k in Final(adds);
      }
      BuildIsMap(adds[..|adds| - 1], w);
      assert e.bits[..e.prefix] in Final(adds);
      AddUpdates(Build(adds[..|adds| - 1], w), w, e.bits, e.prefix, e.asn);
    }
  }

  /** The prefixes below a node do not nest. */
  lemma {:induction false} LeavesApart(t: Trie, w: nat)
    requires Patricia(t, w)
    ensures PrefixFree(Leaves(t))
  {
    if t != Nil && !t.Leaf() {
      LeavesApart(t.left, w);
      LeavesApart(t.right, w);
      forall k, k' | k in Leaves(t) && k' in Leaves(t) && Comparable(k, k')
        ensures k == k'
      {
        SameSideOf(t, w, k, k');
        ChildLeaves(t, w, k);
        ChildLeaves(t, w, k');
        assert Fits(Leaves(if k[t.prefix] then t.right else t.left), k);
      }
    }
  }

  lemma SameSideOf(t: Trie, w: nat, k: Bits, k': Bits)
    requires t.Node? && !t.Leaf() && Patricia(t, w) && k in Leaves(t) && k' in Leaves(t) && Comparable(k, k')
    ensures t.prefix < |k| && t.prefix < |k'| && k[t.prefix] == k'[t.prefix]
  {
    ChildLeaves(t, w, k);
    ChildLeaves(t, w, k');
  }

  /** A history builds a Patricia trie of its last values just when none of its prefixes nest. */
  lemma BuildIsMapIff(adds: seq<Entry>, w: nat)
    requires WellSized(adds, w)
    ensures Patricia(Build(adds, w), w) && Leaves(Build(adds, w)) == Final(adds) <==> PrefixFree(Final(adds))
  {
    if PrefixFree(Final(adds)) {
      BuildIsMap(adds, w);
    } else if Patricia(Build(adds, w), w) {
      LeavesApart(Build(adds, w), w);
    }
  }

  /** Looking up an address gives the last value added for the prefix that covers it, or -1. */
  lemma LookupIsLastAdded(adds: seq<Entry>, w: nat, a: Bits)
    requires WellSized(adds, w) && PrefixFree(Final(adds)) && |a| == w
    ensures forall k :: k in Final(adds) && k <= a ==> Lookup(Build(adds, w), a) == Final(adds)[k]
    ensures (forall k :: k in Final(adds) ==> !(k <= a)) ==> Lookup(Build(adds, w), a) == -1
  {
    BuildIsMap(adds, w);
    forall k | k in Final(adds) && k <= a
      ensures Lookup(Build(adds, w), a) == Final(adds)[k]
    {
      LookupFinds(Build(adds, w), w, a, k);
    }
    if forall k :: k in Final(adds) ==> !(k <= a) { LookupMisses(Build(adds, w), w, a); }
  }

  ghost predicate Uniform(adds: seq<Entry>, p: nat) {
    forall i :: 0 <= i < |adds| ==> adds[i].prefix == p
  }

  lemma {:induction false} UniformKeys(adds: seq<Entry>, w: nat, p: nat)
    requires WellSized(adds, w) && Uniform(adds, p) && p <= w
    ensures forall k :: k in Final(adds) ==> |k| == p
  {
    if adds != [] { UniformKeys(adds[..|adds| - 1], w, p); }
  }

  /** With one prefix length for all additions, as all callers have it, the trie is a map from the
      first `p` bits of an address. */
  lemma UniformLookup(adds: seq<Entry>, w: nat, p: nat, a: Bits)
    requires WellSized(adds, w) && Uniform(adds, p) && p <= w && |a| == w
    ensures Lookup(Build(adds, w), a) == if a[..p] in Final(adds) then Final(adds)[a[..p]] else -1
  {
    UniformKeys(adds, w, p);
    forall k | k in Final(adds)
      ensures Fits(Final(adds), k)
    {
    }
    LookupIsLastAdded(adds, w, a);
    assert a[..p] <= a;
    assert forall k :: k in Final(adds) && k <= a ==> k == a[..p];
  }

  /** Two prefixes that nest, in either order: an address under the shorter one that leaves the longer one
      right behind the shorter is not found. */
  lemma NestedPrefixesLost(a: Bits, b: Bits, c: Bits, w: nat, p: nat, q: nat, x: int, y: int)
    requires |a| == |b| == |c| == w && p < q < w
    requires a[..q] == c[..q] && a[..p] == b[..p] && a[p] != b[p]
    ensures c[..p] <= b
    ensures Lookup(Build([Entry(a, q, x), Entry(c, p, y)], w), b) == -1
    ensures Lookup(Build([Entry(c, p, y), Entry(a, q, x)], w), b) == -1
  {
    assert a[..p] == a[..q][..p] == c[..q][..p] == c[..p] && a[p] == a[..q][p] == c[..q][p] == c[p];
    BuildTwo(Entry(a, q, x), Entry(c, p, y), w);
    BuildTwo(Entry(c, p, y), Entry(a, q, x), w);
    ShortBelowLong(a, b, c, p, q, x, y);
    LongBelowShort(a, b, c, p, q, x, y);
  }

  /** What is added beyond the whole prefix of a leaf goes below it. */
  lemma GoesBelow(t: Trie, a: Bits, p: nat, asn: int)
    requires t.Leaf() && |a| == |t.bits| && t.prefix < |a| && t.bits[..t.prefix] == a[..t.prefix] && p != t.prefix
    ensures SameWidth(t, |a|)
    ensures Add(t, a, p, asn) ==
            if a[t.prefix] then t.(right := NewLeaf(a, p, asn)) else t.(left := NewLeaf(a, p, asn))
  {
    AgreeIffCommonPrefix(t.bits, a, t.prefix);
  }

  lemma ShortBelowLong(a: Bits, b: Bits, c: Bits, p: nat, q: nat, x: int, y: int)
    requires |a| == |b| == |c| && p < q < |a| && a[..q] == c[..q] && a[p] != b[p]
    ensures Lookup(Add(NewLeaf(a, q, x), c, p, y), b) == -1
  {
    GoesBelow(NewLeaf(a, q, x), c, p, y);
    assert a[..q][p] != b[..q][p];
  }

  lemma LongBelowShort(a: Bits, b: Bits, c: Bits, p: nat, q: nat, x: int, y: int)
    requires |a| == |b| == |c| && p < q < |a| && a[..p] == b[..p] == c[..p] && a[p] != b[p]
    ensures Lookup(Add(NewLeaf(c, p, y), a, q, x), b) == -1
  {
    GoesBelow(NewLeaf(c, p, y), a, q, x);
  }

  lemma BuildTwo(e: Entry, e': Entry, w: nat)
    requires WellSized([e, e'], w)
    ensures |e.bits| == |e'.bits| == w
    ensures Build([e, e'], w) == Add(NewLeaf(e.bits, e.prefix, e.asn), e'.bits, e'.prefix, e'.asn)
  {
    assert [e, e'][0] == e && [e, e'][1] == e';
    assert [e, e'][..1] == [e] && [e][..0] == [];
    assert Build([e], w) == Add(Build([], w), e.bits, e.prefix, e.asn);
  }

  /** 0.0.0.0/24 and 0.0.0.0/16, and the address 0.0.128.0. */
  lemma NestedPrefixesLostAt(zero: Bits, b: Bits)
    requires zero == seq(32, _ => false) && b == zero[16 := true]
    ensures zero[..16] <= b && Lookup(Build([Entry(zero, 24, 7), Entry(zero, 16, 9)], 32), b) == -1
  {
    NestedPrefixesLost(zero, b, zero, 32, 16, 24, 7, 9);
  }

  // ---------------------------------------------------------------- shape

  /** Two tries are the same but for the address bits beyond the prefix of each node. */
  ghost predicate SameShape(t: Trie, u: Trie) {
    if t == Nil || u == Nil then t == u
    else
      && t.prefix == u.prefix && Key(t) == Key(u) && t.asn == u.asn
      && SameShape(t.left, u.left) && SameShape(t.right, u.right)
  }

  /** The stored prefixes and values decide the whole trie. */
  lemma {:induction false} Canonical(t: Trie, u: Trie, w: nat)
    requires Patricia(t, w) && Patricia(u, w) && Leaves(t) == Leaves(u)
    ensures SameShape(t, u)
  {
    if t == Nil {
      if u != Nil { var k := HasLeaf(u, w); }
    } else if u == Nil {
      var k := HasLeaf(t, w);
    } else {
      SameRoot(t, u, w);
      if !t.Leaf() {
        SameChildren(t, u, w);
        Canonical(t.left, u.left, w);
        Canonical(t.right, u.right, w);
      }
    }
  }

  /** The prefix of the root is the longest that all stored prefixes share. */
  lemma SameRoot(t: Trie, u: Trie, w: nat)
    requires t.Node? && u.Node? && Patricia(t, w) && Patricia(u, w) && Leaves(t) == Leaves(u)
    ensures t.prefix == u.prefix && Key(t) == Key(u) && t.asn == u.asn && t.Leaf() == u.Leaf()
  {
    RootPrefix(t, u, w);
    RootPrefix(u, t, w);
    var k := HasLeaf(t, w);
    LeavesBelow(t, w, k);
    LeavesBelow(u, w, k);
    if t.Leaf() { assert Leaves(t)[k] == t.asn; }
    if u.Leaf() { assert Leaves(u)[k] == u.asn; }
  }

  lemma RootPrefix(t: Trie, u: Trie, w: nat)
    requires t.Node? && u.Node? && Patricia(t, w) && Patricia(u, w) && Leaves(t) == Leaves(u)
    ensures t.prefix <= u.prefix
    ensures u.Leaf() ==> t.Leaf()
  {
    if !u.Leaf() {
      var k := HasLeaf(u.left, w);
      var k' := HasLeaf(u.right, w);
      ChildLeaves(u, w, k);
      ChildLeaves(u, w, k');
      LeavesBelow(t, w, k);
      LeavesBelow(t, w, k');
      if u.prefix < t.prefix { AtIndex(k, k', t.prefix, u.prefix); }
    } else {
      LeavesBelow(t, w, Key(u));
      if !t.Leaf() {
        var k := HasLeaf(t.left, w);
        var k' := HasLeaf(t.right, w);
        ChildLeaves(t, w, k);
        ChildLeaves(t, w, k');
      }
    }
  }

  lemma SameChildren(t: Trie, u: Trie, w: nat)
    requires t.Node? && u.Node? && Patricia(t, w) && Patricia(u, w) && Leaves(t) == Leaves(u)
    requires !t.Leaf() && !u.Leaf() && t.prefix == u.prefix
    ensures Leaves(t.left) == Leaves(u.left) && Leaves(t.right) == Leaves(u.right)
  {
    SameSide(t, u, w, false);
    SameSide(t, u, w, true);
  }

  function Side(t: Trie, bit: bool): Trie
    requires t.Node?
  {
    if bit then t.right else t.left
  }

  lemma SameSide(t: Trie, u: Trie, w: nat, bit: bool)
    requires t.Node? && u.Node? && Patricia(t, w) && Patricia(u, w) && Leaves(t) == Leaves(u)
    requires !t.Leaf() && !u.Leaf() && t.prefix == u.prefix
    ensures Leaves(Side(t, bit)) == Leaves(Side(u, bit))
  {
    var m, n := Leaves(Side(t, bit)), Leaves(Side(u, bit));
    forall k
      ensures k in m <==> k in n
      ensures k in m ==> m[k] == n[k]
    {
      ChildLeaves(t, w, k);
      ChildLeaves(u, w, k);
    }
  }

  /** Histories with the same final map build the same trie. */
  lemma SameMapSameTrie(adds: seq<Entry>, adds': seq<Entry>, w: nat)
    requires WellSized(adds, w) && WellSized(adds', w)
    requires Final(adds) == Final(adds') && PrefixFree(Final(adds))
    ensures SameShape(Build(adds, w), Build(adds', w))
  {
    BuildIsMap(adds, w);
    BuildIsMap(adds', w);
    Canonical(Build(adds, w), Build(adds', w), w);
  }

  ghost function NodeCount(t: Trie): nat {
    if t == Nil then 0 else 1 + NodeCount(t.left) + NodeCount(t.right)
  }

  /** A trie of n prefixes has 2n - 1 nodes. */
  lemma {:induction false} NodesForPrefixes(t: Trie, w: nat)
    requires t.Node? && Patricia(t, w)
    ensures NodeCount(t) == 2 * |Leaves(t)| - 1
  {
    if !t.Leaf() {
      NodesForPrefixes(t.left, w);
      NodesForPrefixes(t.right, w);
      forall k
        ensures !(k in Leaves(t.left) && k in Leaves(t.right))
      {
        ChildLeaves(t, w, k);
      }
      DisjointUnion(Leaves(t.left), Leaves(t.right));
    }
  }

  lemma DisjointUnion(m: map<Bits, int>, n: map<Bits, int>)
    requires m.Keys !! n.Keys
    ensures |m + n| == |m| + |n|
  {
    assert (m + n).Keys == m.Keys + n.Keys;
    assert |(m + n).Keys| == |m.Keys| + |n.Keys|;
  }

  // ---------------------------------------------------------------- listing

  /** The leaves in the order of iptrie_on_all_leaves(): left before right. */
  function InOrder(t: Trie): seq<(Bits, int)> {
    if t == Nil then []
    else if t.Leaf() then [(Key(t), t.asn)]
    else InOrder(t.left) + InOrder(t.right)
  }

  /** The addresses that the leaves hold, in the same order. */
  function NodeAddresses(f: Family, t: Trie): seq<Address> {
    if t == Nil then []
    else if t.Leaf() then [Address(f, t.bits)]
    else NodeAddresses(f, t.left) + NodeAddresses(f, t.right)
  }

  /** The first bit in which two prefixes differ is clear in `k` and set in `k'`. */
  ghost predicate Lower(k: Bits, k': Bits) {
    exists i :: 0 <= i < |k| && i < |k'| && k[..i] == k'[..i] && !k[i] && k'[i]
  }

  ghost predicate Ascending(s: seq<(Bits, int)>) {
    forall i, j :: 0 <= i < j < |s| ==> Lower(s[i].0, s[j].0)
  }

  /** The leaves come each once, in strictly ascending order of their bits. */
  lemma {:induction false} InOrderAscends(t: Trie, w: nat)
    requires Patricia(t, w)
    ensures Ascending(InOrder(t))
    ensures forall k, v :: (k, v) in InOrder(t) <==> k in Leaves(t) && Leaves(t)[k] == v
    ensures |InOrder(t)| == |Leaves(t)|
  {
    if t != Nil && !t.Leaf() {
      InOrderAscends(t.left, w);
      InOrderAscends(t.right, w);
      var l, r := InOrder(t.left), InOrder(t.right);
      forall k
        ensures !(k in Leaves(t.left) && k in Leaves(t.right))
      {
        ChildLeaves(t, w, k);
      }
      DisjointUnion(Leaves(t.left), Leaves(t.right));
      forall i, j | 0 <= i < |l| && 0 <= j < |r|
        ensures Lower(l[i].0, r[j].0)
      {
        InLeaves(t.left, i);
        InLeaves(t.right, j);
        LeftIsLower(t, w, l[i].0, r[j].0);
      }
      AscendingConcat(l, r);
    }
  }

  lemma AscendingConcat(l: seq<(Bits, int)>, r: seq<(Bits, int)>)
    requires Ascending(l) && Ascending(r)
    requires forall i, j :: 0 <= i < |l| && 0 <= j < |r| ==> Lower(l[i].0, r[j].0)
    ensures Ascending(l + r)
  {
  }

  lemma InLeaves(t: Trie, i: nat)
    requires i < |InOrder(t)|
    requires forall k, v :: (k, v) in InOrder(t) <==> k in Leaves(t) && Leaves(t)[k] == v
    ensures InOrder(t)[i].0 in Leaves(t)
  {
    var (k, v) := InOrder(t)[i];
    assert (k, v) in InOrder(t);
  }

  lemma LeftIsLower(t: Trie, w: nat, k: Bits, k': Bits)
    requires t.Node? && !t.Leaf() && Patricia(t, w) && k in Leaves(t.left) && k' in Leaves(t.right)
    ensures Lower(k, k')
  {
    ChildLeaves(t, w, k);
    ChildLeaves(t, w, k');
    LeavesBelow(t, w, k);
    LeavesBelow(t, w, k');
    assert k[..t.prefix] == k'[..t.prefix] && !k[t.prefix] && k'[t.prefix];
  }

  // ---------------------------------------------------------------- both families

  /** A trie for each family. */
  datatype Tries = Tries(v4: Trie, v6: Trie) {
    predicate Sized() {
      SameWidth(v4, 32) && SameWidth(v6, 128)
    }

    function Added(a: Address, p: nat, asn: int): (r: Tries)
      requires Sized() && a.Valid()
      ensures r.Sized()
    {
      if a.family == Inet then Tries(Add(v4, a.bits, p, asn), v6) else Tries(v4, Add(v6, a.bits, p, asn))
    }

    function Find(a: Address): int
      requires Sized() && a.Valid()
    {
      if a.family == Inet then Lookup(v4, a.bits) else Lookup(v6, a.bits)
    }

    /** The list of stored prefixes, in the order in which it is walked: each leaf was put in front of
        the list so far. */
    function List(): seq<(Bits, int)> {
      Reversed(InOrder(v6)) + Reversed(InOrder(v4))
    }

    /** The addresses that the nodes on the list hold. */
    function Addresses(): seq<Address> {
      Reversed(NodeAddresses(Inet6, v6)) + Reversed(NodeAddresses(Inet, v4))
    }
  }

  ghost predicate Descending(s: seq<(Bits, int)>) {
    forall i, j :: 0 <= i < j < |s| ==> Lower(s[j].0, s[i].0)
  }

  /** The list names each stored prefix once with its value, IPv6 before IPv4, and each family in
      strictly descending order of bits. */
  lemma ListsEachOnce(ts: Tries)
    requires Patricia(ts.v4, 32) && Patricia(ts.v6, 128)
    ensures var n := |Leaves(ts.v6)|;
            && |ts.List()| == n + |Leaves(ts.v4)|
            && Descending(ts.List()[..n]) && Descending(ts.List()[n..])
            && (forall k, v :: (k, v) in ts.List()[..n] <==> k in Leaves(ts.v6) && Leaves(ts.v6)[k] == v)
            && (forall k, v :: (k, v) in ts.List()[n..] <==> k in Leaves(ts.v4) && Leaves(ts.v4)[k] == v)
  {
    InOrderAscends(ts.v4, 32);
    InOrderAscends(ts.v6, 128);
    var n := |Leaves(ts.v6)|;
    assert ts.List()[..n] == Reversed(InOrder(ts.v6));
    assert ts.List()[n..] == Reversed(InOrder(ts.v4));
    ReversedItems(InOrder(ts.v4));
    ReversedItems(InOrder(ts.v6));
  }

  lemma ReversedItems(s: seq<(Bits, int)>)
    ensures forall x :: x in Reversed(s) <==> x in s
    ensures Ascending(s) ==> Descending(Reversed(s))
  {
    assert forall i :: 0 <= i < |s| ==> Reversed(s)[|s| - 1 - i] == s[i];
  }

  // ---------------------------------------------------------------- sequences of calls

  /** A call of iptrie_add(). */
  datatype Call = Call(address: Address, prefix: nat, asn: int) {
    predicate Valid() {
      address.Valid() && prefix <= Width(address.family)
    }
  }

  predicate AllValid(calls: seq<Call>) {
    forall i :: 0 <= i < |calls| ==> calls[i].Valid()
  }

  /** The calls for addresses of one family. */
  ghost function EntriesFor(calls: seq<Call>, f: Family): (r: seq<Entry>)
    requires AllValid(calls)
    ensures WellSized(r, Width(f))
  {
    if calls == [] then []
    else
      var before, c := EntriesFor(calls[..|calls| - 1], f), calls[|calls| - 1];
      if c.address.family == f then before + [Entry(c.address.bits, c.prefix, c.asn)] else before
  }

  /** The tries after a sequence of calls. */
  ghost function Built(calls: seq<Call>): Tries
    requires AllValid(calls)
  {
    Tries(Build(EntriesFor(calls, Inet), 32), Build(EntriesFor(calls, Inet6), 128))
  }

  lemma BuiltOneMore(calls: seq<Call>, c: Call)
    requires AllValid(calls) && c.Valid()
    ensures AllValid(calls + [c]) && Built(calls + [c]) == Built(calls).Added(c.address, c.prefix, c.asn)
  {
    assert (calls + [c])[..|calls|] == calls;
    var f := c.address.family;
    var before := EntriesFor(calls, f);
    var e := Entry(c.address.bits, c.prefix, c.asn);
    assert EntriesFor(calls + [c], f) == before + [e];
    assert (before + [e])[..|before|] == before;
  }

  /** As long as no prefixes nest, a lookup gives the last value added for the prefix that covers the
      address, or -1. */
  ghost predicate LastFor(calls: seq<Call>, address: Address, asn: int)
    requires AllValid(calls)
  {
    var last := Final(EntriesFor(calls, address.family));
    && (forall k :: k in last && k <= address.bits ==> asn == last[k])
    && ((forall k :: k in last ==> !(k <= address.bits)) ==> asn == -1)
  }

  lemma FindsLast(calls: seq<Call>, address: Address)
    requires AllValid(calls) && address.Valid() && PrefixFree(Final(EntriesFor(calls, address.family)))
    ensures LastFor(calls, address, Built(calls).Find(address))
  {
    var entries, w := EntriesFor(calls, address.family), Width(address.family);
    assert Built(calls).Find(address) == Lookup(Build(entries, w), address.bits);
    LookupIsLastAdded(entries, w, address.bits);
  }
}
