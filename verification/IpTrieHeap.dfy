/**
 The address trie as the source keeps it: nodes that are updated in place. Every operation is proved
 to do to the heap what the functions of `IpTrie` do to a value.
 */
module IpTrieHeap {
  import opened AddressBits
  import opened IpTrie
  import opened Seqs

  class TrieNode {
    var asn: int
    var prefix: nat
    var address: Address
    var left: TrieNode?
    var right: TrieNode?
    var next: TrieNode?
    ghost var model: Trie
    ghost var Repr: set<TrieNode>

    constructor (asn: int, prefix: nat, address: Address)
      requires address.Valid() && prefix < 256
      ensures Valid() && Repr == {this} && next == null
      ensures model == NewLeaf(address.bits, prefix, asn) && this.address == address
    {
      this.asn, this.prefix, this.address := asn, prefix, address;
      left, right, next := null, null, null;
      model := NewLeaf(address.bits, prefix, asn);
      Repr := {this};
    }

    /** A tree of nodes of one family, whose ghost model is the trie it stands for. */
    ghost predicate Valid()
      reads this, Repr
      ensures Valid() ==> this in Repr && model.Node?
      decreases Repr
    {
      && this in Repr
      && address.Valid() && prefix < 256
      && (left != null ==>
            && left in Repr && left.Repr <= Repr && this !in left.Repr
            && left.Valid() && left.address.family == address.family)
      && (right != null ==>
            && right in Repr && right.Repr <= Repr && this !in right.Repr
            && right.Valid() && right.address.family == address.family)
      && (left != null && right != null ==> left.Repr !! right.Repr)
      && model == Node(asn, prefix, address.bits,
                       if left == null then Nil else left.model,
                       if right == null then Nil else right.model)
      && SameWidth(model, Width(address.family))
    }
  }

  ghost function Footprint(n: TrieNode?): set<TrieNode>
    reads n
  {
    if n == null then {} else n.Repr
  }

  ghost function Model(n: TrieNode?): Trie
    reads n
  {
    if n == null then Nil else n.model
  }

  /** A possibly empty trie of the given family. */
  ghost predicate IsTrie(n: TrieNode?, f: Family)
    reads n, Footprint(n)
  {
    && (n != null ==> n.Valid() && n.address.family == f)
    && SameWidth(Model(n), Width(f))
  }

  /** Makes two tries the children of a node. */
  method Hook(node: TrieNode, left: TrieNode?, right: TrieNode?)
    requires node.address.Valid() && node.prefix < 256
    requires IsTrie(left, node.address.family) && IsTrie(right, node.address.family)
    requires node !in Footprint(left) && node !in Footprint(right) && Footprint(left) !! Footprint(right)
    modifies node`left, node`right, node`Repr, node`model
    ensures node.Valid()
    ensures node.Repr == old(node.Repr) + {node} + Footprint(left) + Footprint(right)
    ensures node.model == Node(node.asn, node.prefix, node.address.bits, Model(left), Model(right))
  {
    node.left, node.right := left, right;
    node.Repr := node.Repr + {node} + Footprint(left) + Footprint(right);
    node.model := Node(node.asn, node.prefix, node.address.bits, Model(left), Model(right));
  }

  /** iptrie_add_internal(). */
  method AddInternal(root: TrieNode?, address: Address, prefix: nat, asn: int, little: bool)
    returns (node: TrieNode)
    requires address.Valid() && prefix < 256 && IsTrie(root, address.family)
    modifies Footprint(root)
    ensures IsTrie(node, address.family)
    ensures node.Repr >= old(Footprint(root)) && fresh(node.Repr - old(Footprint(root)))
    ensures node.model == Add(old(Model(root)), address.bits, prefix, asn)
    decreases Footprint(root), 1
  {
    if root == null {
      node := new TrieNode(asn, prefix, address);
      return;
    }
    var same := CompareAddresses(root.address, address, prefix, little);
    if prefix == root.prefix && same == 0 {
      root.asn := asn;
      root.model := root.model.(asn := asn);
      return root;
    }
    var len := GetMatchingPrefixLength(root.address, address, little);
    if len > root.prefix {
      len := root.prefix;
    }
    var cmp := GetBitAtIndex(address, len, little);
    if len < root.prefix {
      node := Branch(root, address, prefix, asn, len, cmp);
    } else if cmp == 0 {
      AddLeft(root, address, prefix, asn, little);
      node := root;
    } else {
      AddRight(root, address, prefix, asn, little);
      node := root;
    }
  }

  /** A new branching node above `root`, with the added address as its other child. */
  method Branch(root: TrieNode, address: Address, prefix: nat, asn: int, len: nat, cmp: int)
    returns (node: TrieNode)
    requires address.Valid() && prefix < 256 && len < 256 && IsTrie(root, address.family)
    ensures IsTrie(node, address.family)
    ensures node.Repr >= root.Repr && fresh(node.Repr - root.Repr)
    ensures node.model == if cmp == 0
                          then Node(0, len, address.bits, NewLeaf(address.bits, prefix, asn), root.model)
                          else Node(0, len, address.bits, root.model, NewLeaf(address.bits, prefix, asn))
  {
    node := new TrieNode(0, len, address);
    var leaf := new TrieNode(asn, prefix, address);
    if cmp == 0 {
      Hook(node, leaf, root);
    } else {
      Hook(node, root, leaf);
    }
  }

  method AddLeft(root: TrieNode, address: Address, prefix: nat, asn: int, little: bool)
    requires address.Valid() && prefix < 256 && IsTrie(root, address.family)
    modifies root.Repr
    ensures IsTrie(root, address.family)
    ensures root.Repr >= old(root.Repr) && fresh(root.Repr - old(root.Repr))
    ensures root.model == var t := old(root.model); t.(left := Add(t.left, address.bits, prefix, asn))
    decreases root.Repr, 0
  {
    var child := AddInternal(root.left, address, prefix, asn, little);
    Hook(root, child, root.right);
  }

  method AddRight(root: TrieNode, address: Address, prefix: nat, asn: int, little: bool)
    requires address.Valid() && prefix < 256 && IsTrie(root, address.family)
    modifies root.Repr
    ensures IsTrie(root, address.family)
    ensures root.Repr >= old(root.Repr) && fresh(root.Repr - old(root.Repr))
    ensures root.model == var t := old(root.model); t.(right := Add(t.right, address.bits, prefix, asn))
    decreases root.Repr, 0
  {
    var child := AddInternal(root.right, address, prefix, asn, little);
    Hook(root, root.left, child);
  }

  /** iptrie_lookup_as_internal(). */
  method LookupInternal(root: TrieNode?, address: Address, little: bool) returns (asn: int)
    requires address.Valid() && IsTrie(root, address.family)
    ensures asn == Lookup(Model(root), address.bits)
    decreases Footprint(root)
  {
    if root == null {
      return -1;
    }
    var same := CompareAddresses(root.address, address, root.prefix, little);
    if same != 0 {
      return -1;
    }
    if root.left == null && root.right == null {
      return root.asn;
    }
    var bit := GetBitAtIndex(address, root.prefix, little);
    if bit == 0 && root.left != null {
      asn := LookupInternal(root.left, address, little);
    } else if bit == 1 && root.right != null {
      asn := LookupInternal(root.right, address, little);
    } else {
      asn := -1;
    }
  }

  // ---------------------------------------------------------------- listing

  /** The list that starts at `list` and goes on along `next` is `s`. */
  ghost predicate Chain(list: TrieNode?, s: seq<TrieNode>)
    reads s
  {
    if s == [] then list == null else list == s[0] && Chain(s[0].next, s[1..])
  }

  /** The nodes of `ls` hold these prefixes and values, and these addresses. */
  ghost predicate Hold(ls: seq<TrieNode>, items: seq<(Bits, int)>, addresses: seq<Address>)
    reads ls
  {
    && |ls| == |items| == |addresses|
    && forall i :: 0 <= i < |ls| ==>
         ls[i].model.Node? && items[i] == (Key(ls[i].model), ls[i].asn) && addresses[i] == ls[i].address
  }

  /** They are the leaves of a trie. */
  ghost predicate HoldLeaves(ls: seq<TrieNode>, t: Trie, f: Family)
    reads ls
  {
    Hold(ls, InOrder(t), NodeAddresses(f, t))
  }

  /** iptrie_on_all_leaves_internal() with iptrie_to_list_internal(): puts the leaves, one after the
      other, in front of a list. Nothing but the threads of the list changes. */
  method ToListInternal(root: TrieNode?, ghost f: Family, list: TrieNode?, ghost s: seq<TrieNode>)
    returns (r: TrieNode?, ghost ls: seq<TrieNode>)
    requires IsTrie(root, f) && Chain(list, s)
    requires forall n :: n in s ==> n !in Footprint(root)
    modifies Footprint(root)`next
    ensures IsTrie(root, f)
    ensures (forall n :: n in ls ==> n in Footprint(root)) && HoldLeaves(ls, Model(root), f)
    ensures Chain(r, Reversed(ls) + s)
    decreases Footprint(root), 1
  {
    if root == null {
      r, ls := list, [];
      assert Reversed(ls) + s == s;
      return;
    }
    if root.left == null && root.right == null {
      root.next := list;
      r, ls := root, [root];
      assert Reversed([root]) == [root];
      assert ([root] + s)[1..] == s;
      assert Chain(root.next, s);
    } else {
      r, ls := ToListChildren(root, f, list, s);
    }
  }

  method ToListChildren(root: TrieNode, ghost f: Family, list: TrieNode?, ghost s: seq<TrieNode>)
    returns (r: TrieNode?, ghost ls: seq<TrieNode>)
    requires IsTrie(root, f) && !root.model.Leaf() && Chain(list, s)
    requires forall n :: n in s ==> n !in root.Repr
    modifies root.Repr`next
    ensures IsTrie(root, f)
    ensures (forall n :: n in ls ==> n in root.Repr) && HoldLeaves(ls, root.model, f)
    ensures Chain(r, Reversed(ls) + s)
    decreases root.Repr, 0
  {
    ghost var left;
    r, left := ToListInternal(root.left, f, list, s);
    r, ls := ToListRight(root, f, r, left, s);
  }

  method ToListRight(root: TrieNode, ghost f: Family, list: TrieNode?, ghost left: seq<TrieNode>,
                     ghost s: seq<TrieNode>)
    returns (r: TrieNode?, ghost ls: seq<TrieNode>)
    requires IsTrie(root, f) && !root.model.Leaf() && Chain(list, Reversed(left) + s)
    requires forall n :: n in s ==> n !in root.Repr
    requires (forall n :: n in left ==> n in Footprint(root.left)) && HoldLeaves(left, Model(root.left), f)
    modifies Footprint(root.right)`next
    ensures IsTrie(root, f)
    ensures (forall n :: n in ls ==> n in root.Repr) && HoldLeaves(ls, root.model, f)
    ensures Chain(r, Reversed(ls) + s)
    decreases Footprint(root.right), 2
  {
    ReversedMembers(left);
    ghost var right;
    r, right := ToListInternal(root.right, f, list, Reversed(left) + s);
    ls := left + right;
    HoldConcat(left, InOrder(Model(root.left)), NodeAddresses(f, Model(root.left)),
               right, InOrder(Model(root.right)), NodeAddresses(f, Model(root.right)));
    ReversedConcat(left, right, s);
  }

  lemma HoldConcat(a: seq<TrieNode>, x: seq<(Bits, int)>, u: seq<Address>, b: seq<TrieNode>, y: seq<(Bits, int)>,
                   v: seq<Address>)
    requires Hold(a, x, u) && Hold(b, y, v)
    ensures Hold(a + b, x + y, u + v)
  {
  }

  lemma HoldReversed(a: seq<TrieNode>, x: seq<(Bits, int)>, u: seq<Address>)
    requires Hold(a, x, u)
    ensures Hold(Reversed(a), Reversed(x), Reversed(u)) && Reversed(a) + [] == Reversed(a)
    ensures forall n :: n in Reversed(a) ==> n in a
  {
  }

  lemma ReversedMembers<T>(a: seq<T>)
    ensures forall x :: x in Reversed(a) <==> x in a
  {
    assert forall i :: 0 <= i < |a| ==> Reversed(a)[|a| - 1 - i] == a[i];
  }

  lemma ReversedConcat<T>(a: seq<T>, b: seq<T>, s: seq<T>)
    ensures Reversed(a + b) + s == Reversed(b) + (Reversed(a) + s)
  {
  }

  // ---------------------------------------------------------------- both families

  /** `struct iptrie`: one trie for each family. */
  class IpTrieRoot {
    var ipv4: TrieNode?
    var ipv6: TrieNode?

    ghost predicate Valid()
      reads this, ipv4, ipv6, Footprint(ipv4), Footprint(ipv6)
    {
      IsTrie(ipv4, Inet) && IsTrie(ipv6, Inet6) && Footprint(ipv4) !! Footprint(ipv6)
    }

    ghost function View(): Tries
      reads this, ipv4, ipv6
    {
      Tries(Model(ipv4), Model(ipv6))
    }

    /** The nodes of both tries. */
    ghost function Nodes(): set<TrieNode>
      reads this, ipv4, ipv6
    {
      Footprint(ipv4) + Footprint(ipv6)
    }

    constructor ()
      ensures Valid() && View() == Tries(Nil, Nil) && Nodes() == {}
    {
      ipv4, ipv6 := null, null;
    }

    /** iptrie_add(). */
    method AddAddress(address: Address, prefix: nat, asn: int, little: bool)
      requires Valid() && address.Valid() && prefix < 256
      modifies this, Nodes()
      ensures Valid() && View() == old(View()).Added(address, prefix, asn) && fresh(Nodes() - old(Nodes()))
    {
      if address.family == Inet {
        ipv4 := AddInternal(ipv4, address, prefix, asn, little);
      } else {
        ipv6 := AddInternal(ipv6, address, prefix, asn, little);
      }
    }

    /** iptrie_lookup_as(). */
    method LookupAs(address: Address, little: bool) returns (asn: int)
      requires Valid() && address.Valid()
      ensures asn == View().Find(address)
    {
      if address.family == Inet {
        asn := LookupInternal(ipv4, address, little);
      } else {
        asn := LookupInternal(ipv6, address, little);
      }
    }

    /** iptrie_clear(). */
    method Clear()
      modifies this
      ensures Valid() && View() == Tries(Nil, Nil) && Nodes() == {}
    {
      ipv4, ipv6 := null, null;
    }

    /** The list holds the leaves of the IPv4 trie. */
    method ListFour() returns (list: TrieNode?, ghost nodes: seq<TrieNode>)
      requires Valid()
      modifies Footprint(ipv4)`next
      ensures Valid() && forall n :: n in nodes ==> n in Footprint(ipv4)
      ensures Chain(list, nodes)
      ensures Hold(nodes, Reversed(InOrder(Model(ipv4))), Reversed(NodeAddresses(Inet, Model(ipv4))))
    {
      list, nodes := Thread(ipv4, Inet, null, [], [], []);
      assert Reversed(InOrder(Model(ipv4))) + [] == Reversed(InOrder(Model(ipv4)));
      assert Reversed(NodeAddresses(Inet, Model(ipv4))) + [] == Reversed(NodeAddresses(Inet, Model(ipv4)));
    }

    /** iptrie_to_list(): the list holds the leaves of the IPv6 trie and then those of the IPv4 trie,
        each from right to left. */
    method ToList() returns (list: TrieNode?, ghost nodes: seq<TrieNode>)
      requires Valid()
      modifies Footprint(ipv4)`next, Footprint(ipv6)`next
      ensures Valid() && View() == old(View())
      ensures Chain(list, nodes) && Hold(nodes, View().List(), View().Addresses())
    {
      ghost var four;
      list, four := ListFour();
      list, nodes := Thread(ipv6, Inet6, list, four, Reversed(InOrder(Model(ipv4))),
                            Reversed(NodeAddresses(Inet, Model(ipv4))));
    }
  }

  /** Puts the leaves of a trie in front of a list, the last of them first. */
  method Thread(root: TrieNode?, ghost f: Family, list: TrieNode?, ghost s: seq<TrieNode>,
                ghost items: seq<(Bits, int)>, ghost addresses: seq<Address>)
    returns (r: TrieNode?, ghost nodes: seq<TrieNode>)
    requires IsTrie(root, f) && Chain(list, s) && Hold(s, items, addresses)
    requires forall n :: n in s ==> n !in Footprint(root)
    modifies Footprint(root)`next
    ensures IsTrie(root, f) && Chain(r, nodes)
    ensures Hold(nodes, Reversed(InOrder(Model(root))) + items, Reversed(NodeAddresses(f, Model(root))) + addresses)
    ensures forall n :: n in nodes ==> n in Footprint(root) || n in s
  {
    ghost var ls;
    r, ls := ToListInternal(root, f, list, s);
    HoldReversed(ls, InOrder(Model(root)), NodeAddresses(f, Model(root)));
    HoldConcat(Reversed(ls), Reversed(InOrder(Model(root))), Reversed(NodeAddresses(f, Model(root))),
               s, items, addresses);
    nodes := Reversed(ls) + s;
  }

  // ---------------------------------------------------------------- sequences of calls

  /** A root that holds what a sequence of calls makes of it. */
  ghost predicate HoldsBuilt(root: IpTrieRoot, calls: seq<Call>)
    requires AllValid(calls)
    reads root, root.ipv4, root.ipv6, Footprint(root.ipv4), Footprint(root.ipv6)
  {
    root.Valid() && root.View() == Built(calls)
  }

  method AddOne(root: IpTrieRoot, ghost before: seq<Call>, c: Call, little: bool)
    requires AllValid(before) && c.Valid() && HoldsBuilt(root, before)
    modifies root, root.Nodes()
    ensures AllValid(before + [c]) && HoldsBuilt(root, before + [c]) && fresh(root.Nodes() - old(root.Nodes()))
  {
    BuiltOneMore(before, c);
    root.AddAddress(c.address, c.prefix, c.asn, little);
  }

  /** Any sequence of iptrie_add() calls. */
  method AddAll(calls: seq<Call>, little: bool) returns (root: IpTrieRoot)
    requires AllValid(calls)
    ensures fresh(root) && fresh(root.Nodes()) && HoldsBuilt(root, calls)
  {
    if calls == [] {
      root := new IpTrieRoot();
    } else {
      var n := |calls| - 1;
      LastApart(calls);
      root := AddAll(calls[..n], little);
      AddOne(root, calls[..n], calls[n], little);
    }
  }

  /** After the calls the lookup of any address finds the last value of its prefix. */
  method LookupAfter(calls: seq<Call>, address: Address, little: bool) returns (asn: int)
    requires AllValid(calls) && address.Valid() && PrefixFree(Final(EntriesFor(calls, address.family)))
    ensures LastFor(calls, address, asn)
  {
    var root := AddAll(calls, little);
    FindsLast(calls, address);
    asn := root.LookupAs(address, little);
  }
}
