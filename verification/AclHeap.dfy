/**
 The access control tree as the source keeps it, with nodes that are updated in place. Every operation
 is proved to do to the heap what the functions of `Acl` do to a value.
 */
module AclHeap {
  import opened Acl

  class AclNode {
    var tag: string
    var permissions: int
    var isset: bool
    var numChildren: nat
    var children: seq<AclNode>
    ghost var model: Tree
    ghost var Repr: set<AclNode>

    constructor (tag: string, permissions: int, isset: bool)
      ensures Valid() && Repr == {this} && model == Tree(tag, permissions, isset, [])
    {
      this.tag, this.permissions, this.isset := tag, permissions, isset;
      numChildren, children := 0, [];
      model := Tree(tag, permissions, isset, []);
      Repr := {this};
    }

    /** The children are valid trees, apart from one another and from this node. */
    ghost predicate Apart()
      reads this, Repr
    {
      && this in Repr
      && (forall i :: 0 <= i < |children| ==>
            children[i] in Repr && children[i].Repr <= Repr && this !in children[i].Repr)
      && (forall i, j :: 0 <= i < j < |children| ==> children[i].Repr !! children[j].Repr)
    }

    ghost predicate Holding()
      reads this, Repr
      decreases Repr, 0
    {
      Apart() && forall i :: 0 <= i < |children| ==> children[i].Valid()
    }

    ghost predicate Valid()
      reads this, Repr
      ensures Valid() ==> this in Repr
      decreases Repr, 1
    {
      && Holding()
      && numChildren == |children| < 256
      && model.tag == tag && model.permissions == permissions && model.isset == isset
      && |model.children| == |children|
      && (forall i :: 0 <= i < |children| ==> model.children[i] == children[i].model)
    }

    /** The search for a label among the children. */
    method FindChild(tag: string) returns (r: int)
      requires Valid()
      ensures r == Find(model.children, tag)
    {
      var i := 0;
      while i < numChildren
        invariant 0 <= i <= numChildren
        invariant forall k :: 0 <= k < i ==> model.children[k].tag != tag
      {
        assert children[i].Valid();
        if children[i].tag == tag {
          return i;
        }
        i := i + 1;
      }
      r := -1;
    }
  }

  /** No node has more children than its counter can hold. */
  predicate Narrow(t: Tree) {
    |t.children| < 256 && forall i :: 0 <= i < |t.children| ==> Narrow(t.children[i])
  }

  /** get_label(): the index of the last dot, or 0. */
  method GetLabel(fqdn: string) returns (b: nat)
    ensures b == LabelAt(fqdn)
  {
    var i := |fqdn|;
    while i > 0
      invariant 0 <= i <= |fqdn|
      invariant forall k :: i <= k < |fqdn| ==> fqdn[k] != '.'
    {
      i := i - 1;
      if fqdn[i] == '.' {
        return i;
      }
    }
    b := 0;
  }

  /** get_acl_internal(). */
  method GetInternal(root: AclNode, fqdn: string) returns (permissions: int)
    requires root.Valid()
    ensures permissions == Get(root.model, fqdn)
    decreases root.Repr
  {
    var b := GetLabel(fqdn);
    var i := root.FindChild(fqdn[b..]);
    if i >= 0 {
      permissions := GetInternal(root.children[i], fqdn[..b]);
    } else {
      permissions := root.permissions;
    }
  }

  /** update_acl_subtree(). */
  method UpdateSubtree(root: AclNode, value: int)
    requires root.Valid()
    modifies root.Repr
    ensures root.Valid() && root.Repr == old(root.Repr)
    ensures root.model == Update(old(root.model), value)
    decreases root.Repr, 3
  {
    if root.isset && root.tag != "" && root.tag[0] == '.' {
      return;
    }
    UpdateChildren(root, value);
    if !root.isset {
      root.permissions := value;
      root.model := root.model.(permissions := value);
    }
  }

  /** The loop over the children of a node. */
  method UpdateChildren(root: AclNode, value: int)
    requires root.Valid()
    modifies root.Repr
    ensures root.Valid() && root.Repr == old(root.Repr)
    ensures root.model == old(root.model).(children := UpdateAll(old(root.model.children), value))
    ensures unchanged(root`tag, root`permissions, root`isset)
    decreases root.Repr, 2
  {
    ghost var before := root.model.children;
    var i := 0;
    while i < root.numChildren
      invariant 0 <= i <= |root.children| && unchanged(root) && root.Holding()
      invariant forall k :: 0 <= k < i ==> root.children[k].model == Update(before[k], value)
      invariant forall k :: i <= k < |root.children| ==> root.children[k].model == before[k]
    {
      UpdateChild(root, i, value);
      i := i + 1;
    }
    root.model := root.model.(children := UpdateAll(before, value));
  }

  method UpdateChild(root: AclNode, i: nat, value: int)
    requires root.Holding() && i < |root.children|
    modifies root.children[i].Repr
    ensures unchanged(root) && root.Holding()
    ensures root.children[i].model == Update(old(root.children[i].model), value)
    ensures forall k :: 0 <= k < |root.children| && k != i ==> root.children[k].model == old(root.children[k].model)
    decreases root.Repr, 1
  {
    Separate(root, i);
    UpdateSubtree(root.children[i], value);
  }

  lemma Separate(root: AclNode, i: nat)
    requires root.Holding() && i < |root.children|
    ensures forall k :: 0 <= k < |root.children| && k != i ==>
              root.children[k] in root.children[k].Repr && root.children[k].Repr !! root.children[i].Repr
  {
    forall k | 0 <= k < |root.children| && k != i
      ensures root.children[k] in root.children[k].Repr && root.children[k].Repr !! root.children[i].Repr
    {
      assert root.children[k].Valid();
      if k < i {
        assert root.children[k].Repr !! root.children[i].Repr;
      } else {
        assert root.children[i].Repr !! root.children[k].Repr;
      }
    }
  }

  /** The node that a rule names: its permissions are set, and passed on below if it is a wildcard. */
  method SetNode(node: AclNode, value: int)
    requires node.Valid()
    modifies node.Repr
    ensures node.Valid() && node.Repr == old(node.Repr)
    ensures node.model == Set(old(node.model), value)
  {
    if node.tag != "" && node.tag[0] == '.' {
      UpdateChildren(node, value);
    }
    node.permissions, node.isset := value, true;
    node.model := node.model.(permissions := value, isset := true);
  }

  /** Takes what has become of child `i` into the footprint and model of its parent. */
  ghost method Absorb(root: AclNode, i: nat)
    requires i < |root.children| && root in root.Repr && root.numChildren == |root.children| < 256
    requires root.model.tag == root.tag && root.model.permissions == root.permissions
    requires root.model.isset == root.isset && |root.model.children| == |root.children|
    requires root !in root.children[i].Repr && root.children[i].Valid()
    requires forall k :: 0 <= k < |root.children| && k != i ==>
      && root.children[k].Valid() && root.children[k].model == root.model.children[k]
      && root.children[k] in root.Repr && root.children[k].Repr <= root.Repr
      && root !in root.children[k].Repr && root.children[k].Repr !! root.children[i].Repr
    requires forall j, k :: 0 <= j < k < |root.children| && j != i && k != i ==>
      root.children[j].Repr !! root.children[k].Repr
    modifies root`Repr, root`model
    ensures root.Valid() && root.Repr == old(root.Repr) + root.children[i].Repr
    ensures root.model == old(root.model).(children := old(root.model.children)[i := root.children[i].model])
  {
    root.Repr := root.Repr + root.children[i].Repr;
    root.model := root.model.(children := root.model.children[i := root.children[i].model]);
    assert root.children[i] in root.children[i].Repr;
  }

  /** add_acl_internal(). */
  method AddInternal(root: AclNode, fqdn: string, value: int)
    requires root.Valid() && Narrow(Add(root.model, fqdn, value))
    modifies root.Repr
    ensures root.Valid() && root.Repr >= old(root.Repr) && fresh(root.Repr - old(root.Repr))
    ensures root.model == Add(old(root.model), fqdn, value)
    decreases |fqdn|, 2
  {
    var b := GetLabel(fqdn);
    var i := root.FindChild(fqdn[b..]);
    if i >= 0 {
      AddToChild(root, i, fqdn, b, value);
    } else {
      AppendChild(root, fqdn, b, value);
    }
  }

  /** The label is already among the children. */
  method AddToChild(root: AclNode, i: nat, fqdn: string, b: nat, value: int)
    requires root.Valid() && Narrow(Add(root.model, fqdn, value))
    requires b == LabelAt(fqdn) && i == Find(root.model.children, fqdn[b..])
    modifies root.Repr
    ensures root.Valid() && root.Repr >= old(root.Repr) && fresh(root.Repr - old(root.Repr))
    ensures root.model == Add(old(root.model), fqdn, value)
    decreases |fqdn|, 0
  {
    Separate(root, i);
    assert root.children[i].Valid() && root.children[i].model == root.model.children[i];
    if b > 0 {
      assert Add(root.model, fqdn, value).children[i] == Add(root.children[i].model, fqdn[..b], value);
      AddInternal(root.children[i], fqdn[..b], value);
    } else {
      SetNode(root.children[i], value);
    }
    Absorb(root, i);
  }

  /** The label is new. */
  method AppendChild(root: AclNode, fqdn: string, b: nat, value: int)
    requires root.Valid() && Narrow(Add(root.model, fqdn, value))
    requires b == LabelAt(fqdn) && Find(root.model.children, fqdn[b..]) < 0
    modifies root.Repr
    ensures root.Valid() && root.Repr >= old(root.Repr) && fresh(root.Repr - old(root.Repr))
    ensures root.model == Add(old(root.model), fqdn, value)
    decreases |fqdn|, 1
  {
    ghost var t' := Add(root.model, fqdn, value);
    assert |t'.children| == |root.children| + 1 && t'.children[|root.children|] == Child(root.model, fqdn, value);
    var child := NewChild(root, fqdn, b, value);
    Attach(root, child);
  }

  method NewChild(root: AclNode, fqdn: string, b: nat, value: int) returns (child: AclNode)
    requires root.Valid() && Narrow(Child(root.model, fqdn, value))
    requires b == LabelAt(fqdn) && Find(root.model.children, fqdn[b..]) < 0
    ensures child.Valid() && fresh(child.Repr) && child.model == Child(root.model, fqdn, value)
    decreases |fqdn|, 0
  {
    if b == 0 {
      child := new AclNode(fqdn[b..], value, true);
    } else {
      child := new AclNode(fqdn[b..], root.permissions, false);
      AddInternal(child, fqdn[..b], value);
    }
  }

  method Attach(root: AclNode, child: AclNode)
    requires root.Valid() && |root.children| < 255
    requires child.Valid() && child.Repr !! root.Repr
    modifies root
    ensures root.Valid() && root.Repr == old(root.Repr) + child.Repr
    ensures root.model == old(root.model).(children := old(root.model.children) + [child.model])
  {
    root.children := root.children + [child];
    root.numChildren := (root.numChildren + 1) % 256;
    root.Repr := root.Repr + child.Repr;
    root.model := root.model.(children := root.model.children + [child.model]);
    assert child in child.Repr;
  }

  /** add_acl() on the tree of one property. */
  method AddRuleTo(root: AclNode, fqdn: string, value: int)
    requires root.Valid() && Narrow(AddRule(root.model, fqdn, value))
    modifies root.Repr
    ensures root.Valid() && root.Repr >= old(root.Repr) && fresh(root.Repr - old(root.Repr))
    ensures root.model == AddRule(old(root.model), fqdn, value)
  {
    if fqdn == "all" {
      UpdateSubtree(root, value);
    } else {
      AddInternal(root, fqdn, value);
    }
  }

  /** `struct acl_root`: a tree for each property. */
  class AclRoot {
    const server: AclNode
    const test: AclNode
    const schedule: AclNode

    ghost predicate Valid()
      reads this, server, test, schedule, server.Repr, test.Repr, schedule.Repr
    {
      && server.Valid() && test.Valid() && schedule.Valid()
      && server.Repr !! test.Repr && server.Repr !! schedule.Repr && test.Repr !! schedule.Repr
    }

    ghost function View(): Acls
      reads server, test, schedule
    {
      Acls(server.model, test.model, schedule.model)
    }

    /** The nodes of the three trees. */
    ghost function Footprint(): set<AclNode>
      reads server, test, schedule
    {
      server.Repr + test.Repr + schedule.Repr
    }

    /** initialise_acl(). */
    constructor ()
      ensures Valid() && View() == BuildAcls([]) && fresh(Footprint())
    {
      server := new AclNode("all", 0, false);
      test := new AclNode("all", 0, false);
      schedule := new AclNode("all", 0, false);
    }

    /** add_acl(). */
    method Add(g: Grant) returns (r: int)
      requires Valid()
      requires var a := AddAcl(View(), g).0; Narrow(a.server) && Narrow(a.test) && Narrow(a.schedule)
      modifies Footprint()
      ensures Valid() && (View(), r) == AddAcl(old(View()), g) && fresh(Footprint() - old(Footprint()))
    {
      if g.property == ACL_SERVER {
        AddRuleTo(server, g.name, g.value);
      } else if g.property == ACL_TEST {
        AddRuleTo(test, g.name, g.value);
      } else if g.property == ACL_SCHEDULE {
        AddRuleTo(schedule, g.name, g.value);
      } else {
        return -1;
      }
      r := 0;
    }

    /** get_acl(). */
    method Get(fqdn: string, property: int) returns (r: int)
      requires Valid()
      ensures r == GetAcl(View(), fqdn, property)
    {
      if property == ACL_SERVER {
        r := GetInternal(server, fqdn);
      } else if property == ACL_TEST {
        r := GetInternal(test, fqdn);
      } else if property == ACL_SCHEDULE {
        r := GetInternal(schedule, fqdn);
      } else {
        r := 0;
      }
    }
  }

  // ---------------------------------------------------------------- how many children

  /** No node has more than `n` children. */
  predicate AtMost(t: Tree, n: nat) {
    |t.children| <= n && forall i :: 0 <= i < |t.children| ==> AtMost(t.children[i], n)
  }

  lemma {:induction false} AtMostMore(t: Tree, n: nat, m: nat)
    requires AtMost(t, n) && n <= m
    ensures AtMost(t, m) && (n < 256 ==> Narrow(t))
  {
    forall i | 0 <= i < |t.children|
      ensures AtMost(t.children[i], m) && (n < 256 ==> Narrow(t.children[i]))
    {
      AtMostMore(t.children[i], n, m);
    }
  }

  lemma {:induction false} UpdateAtMost(t: Tree, value: int, n: nat)
    requires AtMost(t, n)
    ensures AtMost(Update(t, value), n)
  {
    forall i | 0 <= i < |t.children|
      ensures AtMost(Update(t.children[i], value), n)
    {
      UpdateAtMost(t.children[i], value, n);
    }
  }

  lemma SetAtMost(t: Tree, value: int, n: nat)
    requires AtMost(t, n)
    ensures AtMost(Set(t, value), n)
  {
    forall i | 0 <= i < |t.children|
      ensures AtMost(Update(t.children[i], value), n)
    {
      UpdateAtMost(t.children[i], value, n);
    }
  }

  /** A rule adds no more than one child to a node. */
  lemma {:induction false} AddAtMost(t: Tree, fqdn: string, value: int, n: nat)
    requires AtMost(t, n)
    ensures AtMost(Add(t, fqdn, value), n + 1)
    decreases |fqdn|, 1
  {
    ChildAtMost(t, fqdn, value, n);
    forall i | 0 <= i < |t.children|
      ensures AtMost(t.children[i], n + 1)
    {
      AtMostMore(t.children[i], n, n + 1);
    }
  }

  lemma {:induction false} ChildAtMost(t: Tree, fqdn: string, value: int, n: nat)
    requires AtMost(t, n)
    ensures AtMost(Child(t, fqdn, value), n + 1)
    decreases |fqdn|, 0
  {
    var b := LabelAt(fqdn);
    var i := Find(t.children, fqdn[b..]);
    if b > 0 {
      AddAtMost(if i >= 0 then t.children[i] else Tree(fqdn[b..], t.permissions, false, []), fqdn[..b], value, n);
    } else if i >= 0 {
      SetAtMost(t.children[i], value, n);
      AtMostMore(Set(t.children[i], value), n, n + 1);
    }
  }

  ghost predicate AclsAtMost(a: Acls, n: nat) {
    AtMost(a.server, n) && AtMost(a.test, n) && AtMost(a.schedule, n)
  }

  lemma AddAclAtMost(a: Acls, g: Grant, n: nat)
    requires AclsAtMost(a, n)
    ensures AclsAtMost(AddAcl(a, g).0, n + 1)
  {
    AddRuleAtMost(a.server, g, n);
    AddRuleAtMost(a.test, g, n);
    AddRuleAtMost(a.schedule, g, n);
  }

  lemma AddRuleAtMost(t: Tree, g: Grant, n: nat)
    requires AtMost(t, n)
    ensures AtMost(t, n + 1) && AtMost(AddRule(t, g.name, g.value), n + 1)
  {
    AtMostMore(t, n, n + 1);
    UpdateAtMost(t, g.value, n + 1);
    AddAtMost(t, g.name, g.value, n);
  }

  // ---------------------------------------------------------------- trees only grow

  ghost predicate NarrowAcls(a: Acls) {
    Narrow(a.server) && Narrow(a.test) && Narrow(a.schedule)
  }

  lemma {:induction false} UpdateGrows(t: Tree, value: int)
    requires Narrow(Update(t, value))
    ensures Narrow(t)
  {
    if !(t.isset && Wildcard(t.tag)) {
      UpdateAllGrow(t.children, value);
    }
  }

  lemma {:induction false} UpdateAllGrow(cs: seq<Tree>, value: int)
    requires forall i :: 0 <= i < |cs| ==> Narrow(UpdateAll(cs, value)[i])
    ensures forall i :: 0 <= i < |cs| ==> Narrow(cs[i])
    decreases cs
  {
    forall i | 0 <= i < |cs|
      ensures Narrow(cs[i])
    {
      assert Narrow(UpdateAll(cs, value)[i]);
      UpdateGrows(cs[i], value);
    }
  }

  lemma {:induction false} SetGrows(t: Tree, value: int)
    requires Narrow(Set(t, value))
    ensures Narrow(t)
  {
    if Wildcard(t.tag) {
      assert forall i :: 0 <= i < |t.children| ==> Narrow(Set(t, value).children[i]);
      UpdateAllGrow(t.children, value);
    }
  }

  lemma {:induction false} AddGrows(t: Tree, fqdn: string, value: int)
    requires Narrow(Add(t, fqdn, value))
    ensures Narrow(t)
    decreases |fqdn|
  {
    var b := LabelAt(fqdn);
    var i := Find(t.children, fqdn[b..]);
    var cs := Add(t, fqdn, value).children;
    if i >= 0 {
      assert cs[i] == Child(t, fqdn, value);
      if b > 0 {
        AddGrows(t.children[i], fqdn[..b], value);
      } else {
        SetGrows(t.children[i], value);
      }
    }
    forall k | 0 <= k < |t.children|
      ensures Narrow(t.children[k])
    {
      assert k != i ==> cs[k] == t.children[k];
    }
  }

  lemma RuleGrows(t: Tree, fqdn: string, value: int)
    requires Narrow(AddRule(t, fqdn, value))
    ensures Narrow(t)
  {
    if fqdn == "all" {
      UpdateGrows(t, value);
    } else {
      AddGrows(t, fqdn, value);
    }
  }

  lemma AclsGrow(a: Acls, g: Grant)
    requires NarrowAcls(AddAcl(a, g).0)
    ensures NarrowAcls(a)
  {
    if g.property == ACL_SERVER {
      RuleGrows(a.server, g.name, g.value);
    } else if g.property == ACL_TEST {
      RuleGrows(a.test, g.name, g.value);
    } else if g.property == ACL_SCHEDULE {
      RuleGrows(a.schedule, g.name, g.value);
    }
  }

  lemma {:induction false} NarrowBefore(gs: seq<Grant>, i: nat)
    requires NarrowAcls(BuildAcls(gs)) && i <= |gs|
    ensures NarrowAcls(BuildAcls(gs[..i]))
    decreases |gs|
  {
    if i == |gs| {
      assert gs[..i] == gs;
    } else {
      var before := gs[..|gs| - 1];
      AclsGrow(BuildAcls(before), gs[|gs| - 1]);
      NarrowBefore(before, i);
      assert before[..i] == gs[..i];
    }
  }

  /** Fewer than 256 rules never make a node with more than 255 children. */
  lemma FewRulesNarrow(gs: seq<Grant>)
    requires |gs| < 256
    ensures NarrowAcls(BuildAcls(gs))
  {
    BuildAtMost(gs);
    AtMostMore(BuildAcls(gs).server, |gs|, |gs|);
    AtMostMore(BuildAcls(gs).test, |gs|, |gs|);
    AtMostMore(BuildAcls(gs).schedule, |gs|, |gs|);
  }

  lemma {:induction false} BuildAtMost(gs: seq<Grant>)
    ensures AclsAtMost(BuildAcls(gs), |gs|)
  {
    if gs != [] {
      BuildAtMost(gs[..|gs| - 1]);
      AddAclAtMost(BuildAcls(gs[..|gs| - 1]), gs[|gs| - 1], |gs| - 1);
    }
  }

  // ---------------------------------------------------------------- sequences of calls

  /** Any sequence of add_acl() calls after which no node has more children than its counter can hold. */
  method Load(gs: seq<Grant>) returns (root: AclRoot)
    requires NarrowAcls(BuildAcls(gs))
    ensures fresh(root) && fresh(root.Footprint()) && root.Valid() && root.View() == BuildAcls(gs)
  {
    root := new AclRoot();
    assert gs[..0] == [];
    for i := 0 to |gs|
      invariant fresh(root) && fresh(root.Footprint()) && root.Valid() && root.View() == BuildAcls(gs[..i])
    {
      NarrowBefore(gs, i + 1);
      assert gs[..i + 1][..i] == gs[..i];
      var _ := root.Add(gs[i]);
    }
    assert gs[..|gs|] == gs;
  }

  /** After the calls the answer for any name is the most specific decision of its property. */
  method Decide(gs: seq<Grant>, fqdn: string, property: int) returns (r: int)
    requires NarrowAcls(BuildAcls(gs))
    ensures if property in {ACL_SERVER, ACL_TEST, ACL_SCHEDULE} then Decision(RulesFor(gs, property), fqdn, r)
            else r == 0
  {
    var root := Load(gs);
    r := root.Get(fqdn, property);
    AccessDecision(gs, fqdn, property);
  }

  // ---------------------------------------------------------------- the counter of children

  /** get_acl_internal() on nodes whose number of children is kept in an octet. */
  function GetCounted(t: Tree, fqdn: string): int
    decreases t
  {
    var b := LabelAt(fqdn);
    var i := Find(t.children[..|t.children| % 256], fqdn[b..]);
    if i >= 0 then GetCounted(t.children[i], fqdn[..b]) else t.permissions
  }

  lemma {:induction false} CountedIsGet(t: Tree, fqdn: string)
    requires Narrow(t)
    ensures GetCounted(t, fqdn) == Get(t, fqdn)
    decreases t
  {
    var b := LabelAt(fqdn);
    assert t.children[..|t.children|] == t.children;
    var i := Find(t.children, fqdn[b..]);
    if i >= 0 {
      CountedIsGet(t.children[i], fqdn[..b]);
    }
  }

  /** A name without a dot. */
  predicate Plain(name: string) {
    LabelAt(name) == 0 && name != "all"
  }

  /** Different names without a dot. */
  ghost predicate Hosts(names: seq<string>) {
    && (forall i :: 0 <= i < |names| ==> Plain(names[i]))
    && (forall i, j :: 0 <= i < j < |names| ==> names[i] != names[j])
  }

  /** A rule for each of them. */
  function Allow(names: seq<string>): (rules: seq<Rule>)
    ensures |rules| == |names| && forall i :: 0 <= i < |names| ==> rules[i] == Rule(names[i], 1)
  {
    seq(|names|, i requires 0 <= i < |names| => Rule(names[i], 1))
  }

  lemma AddHost(t: Tree, name: string)
    requires Plain(name) && forall i :: 0 <= i < |t.children| ==> t.children[i].tag != name
    ensures AddRule(t, name, 1) == t.(children := t.children + [Tree(name, 1, true, [])])
  {
    assert name[LabelAt(name)..] == name;
    assert Child(t, name, 1) == Tree(name, 1, true, []);
  }

  ghost predicate Siblings(t: Tree, names: seq<string>) {
    && t.permissions == 0 && |t.children| == |names|
    && forall i :: 0 <= i < |names| ==> t.children[i] == Tree(names[i], 1, true, [])
  }

  lemma {:induction false} BuildHosts(names: seq<string>)
    requires Hosts(names)
    ensures Siblings(Build(Allow(names)), names)
  {
    if names != [] {
      var n := |names| - 1;
      BuildHosts(names[..n]);
      assert Allow(names)[..n] == Allow(names[..n]);
      AddHost(Build(Allow(names[..n])), names[n]);
    }
  }

  lemma HostFound(t: Tree, names: seq<string>, i: nat)
    requires Hosts(names) && Siblings(t, names) && i < |names|
    ensures Get(t, names[i]) == 1 && (|names| == 256 ==> GetCounted(t, names[i]) == 0)
    ensures |names| < 256 ==> GetCounted(t, names[i]) == 1
  {
    assert names[i][LabelAt(names[i])..] == names[i];
    assert t.children[i].tag == names[i];
    assert t.children[..|t.children|] == t.children;
  }

  /** With the 256th child of a node its counter wraps around, and the rules of all of them are lost;
      with fewer children every rule is found. */
  lemma SiblingsLost(names: seq<string>, i: nat)
    requires Hosts(names) && |names| <= 256 && i < |names|
    ensures Get(Build(Allow(names)), names[i]) == 1
    ensures GetCounted(Build(Allow(names)), names[i]) == if |names| == 256 then 0 else 1
  {
    BuildHosts(names);
    HostFound(Build(Allow(names)), names, i);
  }

  /** There are that many names. */
  function Name(i: nat): string
    requires i < 256
  {
    ['a' + (i / 16) as char, 'a' + (i % 16) as char]
  }

  lemma NamePlain(i: nat)
    requires i < 256
    ensures Plain(Name(i))
  {
    var s := Name(i);
    assert s[0] != '.' && s[1] != '.';
  }

  lemma NamesDiffer(i: nat, j: nat)
    requires i < j < 256
    ensures Name(i) != Name(j)
  {
    assert Name(i)[0] == Name(j)[0] ==> i / 16 == j / 16;
    assert Name(i)[1] == Name(j)[1] ==> i % 16 == j % 16;
  }

  /** 256 hosts that are allowed, and none is found to be. */
  lemma SiblingsLostAt(names: seq<string>, i: nat)
    requires |names| == 256 && i < 256 && forall k :: 0 <= k < 256 ==> names[k] == Name(k)
    ensures Get(Build(Allow(names)), Name(i)) == 1 && GetCounted(Build(Allow(names)), Name(i)) == 0
  {
    forall k | 0 <= k < 256
      ensures Plain(names[k])
    {
      NamePlain(k);
    }
    forall j, k | 0 <= j < k < 256
      ensures names[j] != names[k]
    {
      NamesDiffer(j, k);
    }
    SiblingsLost(names, i);
  }
}
