/**
 The access control tree: rules are host names, or domains that begin with a dot, and permissions are
 pushed down the tree when a rule is added. The specification is that the longest rule that covers a
 name decides.
 */
module Acl {
  import opened Options

  datatype Tree = Tree(tag: string, permissions: int, isset: bool, children: seq<Tree>)

  // ---------------------------------------------------------------- labels

  /** strrchr(s, '.'), as an index. */
  function LastDot(s: string): (r: int)
    ensures -1 <= r < |s|
    ensures r >= 0 ==> s[r] == '.'
    ensures forall i :: r < i < |s| ==> s[i] != '.'
  {
    if s == [] then -1
    else if s[|s| - 1] == '.' then |s| - 1
    else LastDot(s[..|s| - 1])
  }

  /** get_label(): where the last label of a name begins, its dot included. */
  function LabelAt(s: string): (r: nat)
    ensures r <= |s|
    ensures r > 0 ==> r < |s| && s[r] == '.'
    ensures forall i :: r < i < |s| ==> s[i] != '.'
  {
    if LastDot(s) < 0 then 0 else LastDot(s)
  }

  predicate Wildcard(tag: string) {
    tag != "" && tag[0] == '.'
  }

  /** The first child with a label, or -1. */
  function Find(cs: seq<Tree>, tag: string): (r: int)
    ensures -1 <= r < |cs|
    ensures r >= 0 ==> cs[r].tag == tag
    ensures forall i :: 0 <= i < (if r < 0 then |cs| else r) ==> cs[i].tag != tag
  {
    if cs == [] then -1
    else
      var r := Find(cs[..|cs| - 1], tag);
      if r >= 0 then r else if cs[|cs| - 1].tag == tag then |cs| - 1 else -1
  }

  // ---------------------------------------------------------------- the functions of the source

  /** get_acl_internal(). */
  function Get(t: Tree, fqdn: string): int
    decreases t
  {
    var b := LabelAt(fqdn);
    var i := Find(t.children, fqdn[b..]);
    if i >= 0 then Get(t.children[i], fqdn[..b]) else t.permissions
  }

  /** update_acl_subtree(). */
  function Update(t: Tree, value: int): Tree
    decreases t
  {
    if t.isset && Wildcard(t.tag) then t
    else t.(permissions := if t.isset then t.permissions else value, children := UpdateAll(t.children, value))
  }

  function UpdateAll(cs: seq<Tree>, value: int): (r: seq<Tree>)
    ensures |r| == |cs|
    ensures forall i :: 0 <= i < |cs| ==> r[i] == Update(cs[i], value)
    decreases cs
  {
    if cs == [] then [] else UpdateAll(cs[..|cs| - 1], value) + [Update(cs[|cs| - 1], value)]
  }

  /** The node at the end of a rule's path, when the rule is set on it. */
  function Set(t: Tree, value: int): Tree {
    t.(permissions := value, isset := true,
       children := if Wildcard(t.tag) then UpdateAll(t.children, value) else t.children)
  }

  /** add_acl_internal(). */
  function Add(t: Tree, fqdn: string, value: int): Tree
    decreases |fqdn|, 1
  {
    var i := Find(t.children, fqdn[LabelAt(fqdn)..]);
    if i >= 0 then t.(children := t.children[i := Child(t, fqdn, value)])
    else t.(children := t.children + [Child(t, fqdn, value)])
  }

  /** What becomes of the child with the last label of the name: it is made if it is not there, with
      the permissions of its parent, and the rule is set on it or somewhere below it. */
  function Child(t: Tree, fqdn: string, value: int): Tree
    decreases |fqdn|, 0
  {
    var b := LabelAt(fqdn);
    var i := Find(t.children, fqdn[b..]);
    if i >= 0 then
      if b > 0 then Add(t.children[i], fqdn[..b], value) else Set(t.children[i], value)
    else
      if b > 0 then Add(Tree(fqdn[b..], t.permissions, false, []), fqdn[..b], value)
      else Tree(fqdn[b..], value, true, [])
  }

  /** add_acl() on the tree of one property. */
  function AddRule(t: Tree, fqdn: string, value: int): Tree {
    if fqdn == "all" then Update(t, value) else Add(t, fqdn, value)
  }

  /** initialise_acl(). */
  function Empty(): Tree {
    Tree("all", 0, false, [])
  }

  // ---------------------------------------------------------------- the specification

  datatype Rule = Rule(name: string, value: int)

  /** The last value given for a name. */
  ghost function Last(rules: seq<Rule>, name: string): Option<int> {
    if rules == [] then None
    else if rules[|rules| - 1].name == name then Some(rules[|rules| - 1].value)
    else Last(rules[..|rules| - 1], name)
  }

  /** A rule covers the name that it is, and a rule that begins with a dot covers every name that
      properly ends in it. */
  predicate Covers(rule: string, host: string) {
    rule == host || (Wildcard(rule) && |rule| < |host| && rule == host[|host| - |rule|..])
  }

  ghost predicate MostSpecific(rules: seq<Rule>, rule: string, host: string) {
    && Last(rules, rule).Some? && Covers(rule, host)
    && forall r :: Last(rules, r).Some? && Covers(r, host) ==> |r| <= |rule|
  }

  /** The longest rule that covers the host decides, or else "all", or else the host is denied. */
  ghost predicate Decision(rules: seq<Rule>, host: string, value: int) {
    if exists r :: MostSpecific(rules, r, host)
    then exists r :: MostSpecific(rules, r, host) && Last(rules, r) == Some(value)
    else value == match Last(rules, "all") case Some(v) => v case None => 0
  }

  // ---------------------------------------------------------------- the invariant

  /** Children have distinct labels, a node that is not set has the permissions of its parent, and only
      labels with a dot have anything below them. */
  ghost predicate Inherits(t: Tree)
    decreases t, 0
  {
    && (forall i, j :: 0 <= i < j < |t.children| ==> t.children[i].tag != t.children[j].tag)
    && (forall i :: 0 <= i < |t.children| ==> Inheriting(t.permissions, t.children[i]))
  }

  ghost predicate Inheriting(permissions: int, c: Tree)
    decreases c, 1
  {
    && Inherits(c)
    && (c.isset || c.permissions == permissions)
    && (Wildcard(c.tag) || c.children == [])
    && Named(c.children)
  }

  ghost predicate Named(cs: seq<Tree>) {
    forall i :: 0 <= i < |cs| ==> cs[i].tag != ""
  }

  /** The value of the rule with a name that is set in a tree. */
  function RuleAt(t: Tree, fqdn: string): Option<int>
    decreases |fqdn|
  {
    var b := LabelAt(fqdn);
    var i := Find(t.children, fqdn[b..]);
    if i < 0 then None
    else if b > 0 then RuleAt(t.children[i], fqdn[..b])
    else if t.children[i].isset then Some(t.children[i].permissions)
    else None
  }

  lemma LabelUnique(s: string, b: nat)
    requires b <= |s| && (b > 0 ==> b < |s| && s[b] == '.') && forall i :: b < i < |s| ==> s[i] != '.'
    requires b == 0 ==> s == "" || s[0] == '.' || forall i :: 0 <= i < |s| ==> s[i] != '.'
    ensures LabelAt(s) == b
  {
  }

  /** Where in a name a rule that covers it can begin. */
  ghost predicate Cut(host: string, j: nat) {
    j == 0 || (j < |host| && host[j] == '.')
  }

  ghost predicate NoRuleBefore(t: Tree, host: string, j: nat) {
    forall i: nat :: i < j && i <= |host| && Cut(host, i) ==> RuleAt(t, host[i..]) == None
  }

  /** The longest rule in the tree that covers a name begins at `j`. */
  ghost predicate FirstRule(t: Tree, host: string, j: nat, value: int) {
    j <= |host| && Cut(host, j) && RuleAt(t, host[j..]) == Some(value) && NoRuleBefore(t, host, j)
  }

  /** What a look-up returns: the rule that begins first in the name, or the permissions of the root. */
  ghost predicate Found(t: Tree, host: string, value: int) {
    || (exists j: nat :: FirstRule(t, host, j, value))
    || (value == t.permissions && NoRuleBefore(t, host, |host| + 1))
  }

  /** Below the label at `b`, rules of the tree are rules of the child with that label. */
  lemma RuleInChild(t: Tree, host: string, i: nat)
    requires var b := LabelAt(host); i < b && Cut(host, i) && Find(t.children, host[b..]) >= 0
    ensures var b := LabelAt(host);
            RuleAt(t, host[i..]) == RuleAt(t.children[Find(t.children, host[b..])], host[..b][i..])
  {
    var b := LabelAt(host);
    RuleAtLabel(t, host, i);
    Slices(host, i, b);
  }

  lemma Slices(s: string, i: nat, b: nat)
    requires i <= b <= |s|
    ensures s[i..][b - i..] == s[b..] && s[i..][..b - i] == s[..b][i..]
  {
  }

  lemma RuleAtLabel(t: Tree, host: string, i: nat)
    requires i <= |host| && Cut(host, i) && i <= LabelAt(host)
    ensures var b := LabelAt(host);
            && host[i..][LabelAt(host[i..])..] == host[b..]
            && LabelAt(host[i..]) == b - i
  {
    LabelUnique(host[i..], LabelAt(host) - i);
    Slices(host, i, LabelAt(host));
  }

  /** The permissions a look-up ends on are those of the first rule in the name. */
  lemma {:induction false} GetFinds(t: Tree, host: string)
    requires Inherits(t)
    ensures Found(t, host, Get(t, host))
    decreases t
  {
    var b := LabelAt(host);
    var i := Find(t.children, host[b..]);
    if i < 0 {
      NoChildNoRule(t, host);
    } else {
      var c, value := t.children[i], Get(t, host);
      GetFinds(c, host[..b]);
      if j: nat :| FirstRule(c, host[..b], j, value) {
        RuleFromChild(t, host, j, value);
      } else {
        NoRuleFromChild(t, host);
        StopsAtChild(t, host);
      }
    }
  }

  lemma NoChildNoRule(t: Tree, host: string)
    requires Find(t.children, host[LabelAt(host)..]) < 0
    ensures NoRuleBefore(t, host, |host| + 1)
  {
    forall k: nat | k <= |host| && Cut(host, k)
      ensures RuleAt(t, host[k..]) == None
    {
      if k <= LabelAt(host) { RuleAtLabel(t, host, k); }
    }
  }

  lemma StopsAtChild(t: Tree, host: string)
    requires Inherits(t)
    requires Find(t.children, host[LabelAt(host)..]) >= 0
    requires NoRuleBefore(t, host, LabelAt(host))
    requires forall k: nat :: LabelAt(host) < k <= |host| ==> !Cut(host, k)
    ensures var b := LabelAt(host);
            Found(t, host, t.children[Find(t.children, host[b..])].permissions)
  {
    var b := LabelAt(host);
    var c := t.children[Find(t.children, host[b..])];
    RuleAtLabel(t, host, b);
    assert Cut(host, b);
    if c.isset {
      assert FirstRule(t, host, b, c.permissions);
    }
  }

  lemma RuleFromChild(t: Tree, host: string, j: nat, value: int)
    requires Inherits(t)
    requires var b := LabelAt(host); var i := Find(t.children, host[b..]);
             i >= 0 && FirstRule(t.children[i], host[..b], j, value)
    ensures FirstRule(t, host, j, value)
  {
    var b := LabelAt(host);
    var c := t.children[Find(t.children, host[b..])];
    if b == 0 {
      NoEmptyName(c);
      assert false;
    }
    forall k: nat | k <= j && Cut(host, k)
      ensures RuleAt(t, host[k..]) == RuleAt(c, host[..b][k..]) && Cut(host[..b], k)
    {
      RuleInChild(t, host, k);
    }
  }

  lemma NoRuleFromChild(t: Tree, host: string)
    requires var b := LabelAt(host); var i := Find(t.children, host[b..]);
             i >= 0 && NoRuleBefore(t.children[i], host[..b], b + 1)
    ensures NoRuleBefore(t, host, LabelAt(host))
    ensures forall k: nat :: LabelAt(host) < k <= |host| ==> !Cut(host, k)
  {
    var b := LabelAt(host);
    forall k: nat | k < b && Cut(host, k)
      ensures RuleAt(t, host[k..]) == None
    {
      RuleInChild(t, host, k);
      assert Cut(host[..b], k);
    }
  }

  lemma NoEmptyName(c: Tree)
    requires Named(c.children)
    ensures RuleAt(c, "") == None
  {
  }

  // ---------------------------------------------------------------- adding rules

  ghost predicate SameTags(cs: seq<Tree>, cs': seq<Tree>) {
    |cs| == |cs'| && forall i :: 0 <= i < |cs| ==> cs[i].tag == cs'[i].tag
  }

  lemma FindSame(cs: seq<Tree>, cs': seq<Tree>, tag: string)
    requires SameTags(cs, cs')
    ensures Find(cs, tag) == Find(cs', tag)
  {
  }

  lemma FindAppended(cs: seq<Tree>, c: Tree, tag: string)
    requires Find(cs, c.tag) < 0
    ensures Find(cs + [c], tag) == if tag == c.tag then |cs| else Find(cs, tag)
  {
    assert (cs + [c])[..|cs|] == cs;
  }

  /** The part of a tree below its root, with the permissions of the root changed and passed on. */
  function PassOn(t: Tree, value: int): Tree {
    t.(permissions := value, children := UpdateAll(t.children, value))
  }

  lemma {:induction false} PassOnInherits(t: Tree, value: int)
    requires Inherits(t)
    ensures Inherits(PassOn(t, value))
    ensures Named(t.children) ==> Named(PassOn(t, value).children)
    decreases t
  {
    forall i | 0 <= i < |t.children|
      ensures Inheriting(value, Update(t.children[i], value))
    {
      PassOnInherits(t.children[i], value);
    }
  }

  /** Passing permissions on changes no rule. */
  lemma {:induction false} PassOnRules(t: Tree, value: int, x: string)
    requires Inherits(t)
    ensures RuleAt(PassOn(t, value), x) == RuleAt(t, x)
    decreases |x|
  {
    var b := LabelAt(x);
    FindSame(t.children, UpdateAll(t.children, value), x[b..]);
    var i := Find(t.children, x[b..]);
    if i >= 0 && b > 0 {
      var c := t.children[i];
      assert Inheriting(t.permissions, c);
      PassOnRules(c, value, x[..b]);
      if !(c.isset && Wildcard(c.tag)) {
        SameChildren(Update(c, value), PassOn(c, value), x[..b]);
      }
    }
  }

  lemma SameChildren(t: Tree, u: Tree, x: string)
    requires t.children == u.children
    ensures RuleAt(t, x) == RuleAt(u, x)
  {
  }

  lemma SetRules(c: Tree, value: int, x: string)
    requires Inherits(c)
    ensures RuleAt(Set(c, value), x) == RuleAt(c, x)
  {
    PassOnRules(c, value, x);
    SameChildren(Set(c, value), if Wildcard(c.tag) then PassOn(c, value) else c, x);
  }

  lemma SetInherits(p: int, c: Tree, value: int)
    requires Inheriting(p, c)
    ensures Inheriting(p, Set(c, value))
  {
    PassOnInherits(c, value);
    assert Wildcard(c.tag) ==> Inherits(PassOn(c, value)) && Set(c, value).children == PassOn(c, value).children;
    assert !Wildcard(c.tag) ==> Set(c, value).children == [];
  }

  /** Adding keeps the invariant, and leaves the root of the tree alone. */
  lemma {:induction false} AddInherits(t: Tree, name: string, value: int)
    requires Inherits(t)
    ensures var t' := Add(t, name, value);
            && Inherits(t')
            && t'.tag == t.tag && t'.permissions == t.permissions && t'.isset == t.isset
            && (name != "" && Named(t.children) ==> Named(t'.children))
    decreases |name|, 1
  {
    var b := LabelAt(name);
    var i := Find(t.children, name[b..]);
    ChildInherits(t, name, value);
    if i >= 0 {
      Replaced(t, i, Child(t, name, value));
    } else {
      Appended(t, Child(t, name, value));
    }
  }

  lemma {:induction false} ChildInherits(t: Tree, name: string, value: int)
    requires Inherits(t)
    ensures Inheriting(t.permissions, Child(t, name, value))
    ensures Child(t, name, value).tag == name[LabelAt(name)..]
    decreases |name|, 0
  {
    var b := LabelAt(name);
    var i := Find(t.children, name[b..]);
    if i >= 0 { assert Inheriting(t.permissions, t.children[i]); }
    if b > 0 {
      AddInherits(if i >= 0 then t.children[i] else Tree(name[b..], t.permissions, false, []), name[..b], value);
    } else if i >= 0 {
      SetInherits(t.permissions, t.children[i], value);
    }
  }

  lemma Replaced(t: Tree, i: nat, c: Tree)
    requires Inherits(t) && i < |t.children| && c.tag == t.children[i].tag && Inheriting(t.permissions, c)
    ensures Inherits(t.(children := t.children[i := c]))
  {
  }

  lemma Appended(t: Tree, c: Tree)
    requires Inherits(t) && Find(t.children, c.tag) < 0 && Inheriting(t.permissions, c)
    ensures Inherits(t.(children := t.children + [c]))
  {
    var t' := t.(children := t.children + [c]);
    forall i | 0 <= i < |t'.children|
      ensures Inheriting(t'.permissions, t'.children[i])
    {
      assert i < |t.children| ==> t'.children[i] == t.children[i];
    }
  }

  /** Adding a rule sets the value of its name and of no other. */
  lemma {:induction false} AddRules(t: Tree, name: string, value: int, x: string)
    requires Inherits(t)
    ensures RuleAt(Add(t, name, value), x) == if x == name then Some(value) else RuleAt(t, x)
    decreases |name|, 1
  {
    ChildInherits(t, name, value);
    if x[LabelAt(x)..] == name[LabelAt(name)..] {
      SameNameIff(name, x);
      ChildRules(t, name, value, x);
      RuleThroughChild(t, name, value, x);
    } else {
      OtherLabel(t, name, value, x);
    }
  }

  lemma OtherLabel(t: Tree, name: string, value: int, x: string)
    requires x[LabelAt(x)..] != name[LabelAt(name)..] && Child(t, name, value).tag == name[LabelAt(name)..]
    ensures RuleAt(Add(t, name, value), x) == RuleAt(t, x)
  {
    if Find(t.children, name[LabelAt(name)..]) >= 0 {
      FindSame(t.children, Add(t, name, value).children, x[LabelAt(x)..]);
    } else {
      FindAppended(t.children, Child(t, name, value), x[LabelAt(x)..]);
    }
  }

  lemma RuleThroughChild(t: Tree, name: string, value: int, x: string)
    requires x[LabelAt(x)..] == name[LabelAt(name)..] && Child(t, name, value).tag == name[LabelAt(name)..]
    ensures RuleAt(Add(t, name, value), x) == RuleIn(Child(t, name, value), x[..LabelAt(x)])
  {
    if Find(t.children, name[LabelAt(name)..]) >= 0 {
      FindSame(t.children, Add(t, name, value).children, x[LabelAt(x)..]);
    } else {
      FindAppended(t.children, Child(t, name, value), x[LabelAt(x)..]);
    }
  }

  lemma SameNameIff(name: string, x: string)
    requires x[LabelAt(x)..] == name[LabelAt(name)..]
    ensures x == name <==> x[..LabelAt(x)] == name[..LabelAt(name)]
  {
    assert name == name[..LabelAt(name)] + name[LabelAt(name)..];
    assert x == x[..LabelAt(x)] + x[LabelAt(x)..];
  }

  /** The value of a name seen from the child that has its last label. */
  function RuleIn(c: Tree, rest: string): Option<int> {
    if rest != "" then RuleAt(c, rest) else if c.isset then Some(c.permissions) else None
  }

  lemma {:induction false} ChildRules(t: Tree, name: string, value: int, x: string)
    requires Inherits(t) && x[LabelAt(x)..] == name[LabelAt(name)..]
    ensures RuleIn(Child(t, name, value), x[..LabelAt(x)]) ==
            if x[..LabelAt(x)] == name[..LabelAt(name)] then Some(value) else RuleAt(t, x)
    decreases |name|, 0
  {
    var b, rest := LabelAt(name), x[..LabelAt(x)];
    var i := Find(t.children, name[b..]);
    var c := if i >= 0 then t.children[i] else Tree(name[b..], t.permissions, false, []);
    assert i >= 0 ==> Inheriting(t.permissions, c);
    assert RuleIn(c, rest) == RuleAt(t, x);
    if b > 0 {
      AddInherits(c, name[..b], value);
      AddRules(c, name[..b], value, rest);
    } else if i >= 0 {
      SetRules(c, value, rest);
    }
  }

  // ---------------------------------------------------------------- any sequence of rules

  ghost function Build(rules: seq<Rule>): Tree {
    if rules == [] then Empty()
    else AddRule(Build(rules[..|rules| - 1]), rules[|rules| - 1].name, rules[|rules| - 1].value)
  }

  /** The tree built from a sequence of rules holds the last value of each name, and of "all" at its
      root. */
  lemma {:induction false} BuildHolds(rules: seq<Rule>, x: string)
    ensures var t := Build(rules);
            && Inherits(t) && !t.isset && t.tag == "all"
            && (x != "all" ==> RuleAt(t, x) == Last(rules, x))
            && RuleAt(t, "all") == None
            && t.permissions == (match Last(rules, "all") case Some(v) => v case None => 0)
  {
    if rules != [] {
      var r := rules[|rules| - 1];
      var t := Build(rules[..|rules| - 1]);
      BuildHolds(rules[..|rules| - 1], x);
      if r.name == "all" {
        PassOnInherits(t, r.value);
        PassOnRules(t, r.value, x);
        PassOnRules(t, r.value, "all");
      } else {
        AddInherits(t, r.name, r.value);
        AddRules(t, r.name, r.value, x);
        AddRules(t, r.name, r.value, "all");
      }
    }
  }

  /** A rule covers a name just when it is the rest of the name from a cut on. */
  lemma CoversFromCut(rule: string, host: string)
    ensures Covers(rule, host) <==> |rule| <= |host| && Cut(host, |host| - |rule|) && rule == host[|host| - |rule|..]
  {
    if |rule| <= |host| && rule == host[|host| - |rule|..] && rule != "" {
      assert rule[0] == host[|host| - |rule|];
    }
  }

  /** A rule that covers a name begins at a cut where the tree has it. */
  lemma CoveringRule(rules: seq<Rule>, rule: string, host: string)
    requires host != "all" && Last(rules, rule).Some? && Covers(rule, host)
    ensures var i := |host| - |rule|;
            i >= 0 && Cut(host, i) && RuleAt(Build(rules), host[i..]) == Last(rules, rule)
  {
    CoversFromCut(rule, host);
    BuildHolds(rules, rule);
  }

  /** After any sequence of rules, the answer for any name is the most specific decision. */
  lemma MostSpecificWins(rules: seq<Rule>, host: string)
    ensures Decision(rules, host, Get(Build(rules), host))
  {
    var t := Build(rules);
    var value := Get(t, host);
    BuildHolds(rules, host);
    GetFinds(t, host);
    if host == "all" {
      AllDecides(rules, value);
    } else if j: nat :| FirstRule(t, host, j, value) {
      FirstDecides(rules, host, j, value);
    } else {
      NoneDecides(rules, host, value);
    }
  }

  lemma FirstDecides(rules: seq<Rule>, host: string, j: nat, value: int)
    requires host != "all" && FirstRule(Build(rules), host, j, value)
    ensures Decision(rules, host, value)
  {
    CoversFromCut(host[j..], host);
    BuildHolds(rules, host[j..]);
    forall r | Last(rules, r).Some? && Covers(r, host)
      ensures |r| <= |host[j..]|
    {
      CoveringRule(rules, r, host);
    }
    assert MostSpecific(rules, host[j..], host);
  }

  lemma NoneDecides(rules: seq<Rule>, host: string, value: int)
    requires host != "all" && NoRuleBefore(Build(rules), host, |host| + 1) && value == Build(rules).permissions
    ensures Decision(rules, host, value)
  {
    BuildHolds(rules, host);
    forall r
      ensures !MostSpecific(rules, r, host)
    {
      if MostSpecific(rules, r, host) { CoveringRule(rules, r, host); }
    }
  }

  lemma AllDecides(rules: seq<Rule>, value: int)
    requires Found(Build(rules), "all", value)
    ensures Decision(rules, "all", value)
  {
    BuildHolds(rules, "all");
    var t := Build(rules);
    assert forall j: nat :: Cut("all", j) ==> j == 0 && "all"[j..] == "all";
    assert value == t.permissions;
    if Last(rules, "all").Some? {
      assert MostSpecific(rules, "all", "all");
    }
  }

  // ---------------------------------------------------------------- order of rules

  /** There is but one decision. */
  lemma DecisionUnique(rules: seq<Rule>, host: string, v: int, v': int)
    requires Decision(rules, host, v) && Decision(rules, host, v')
    ensures v == v'
  {
    forall r, r' | MostSpecific(rules, r, host) && MostSpecific(rules, r', host)
      ensures r == r'
    {
      CoversFromCut(r, host);
      CoversFromCut(r', host);
    }
  }

  /** Decisions depend on nothing but the last value of each name. */
  lemma OnlyLastValuesMatter(rules: seq<Rule>, rules': seq<Rule>, host: string)
    requires forall name :: Last(rules, name) == Last(rules', name)
    ensures Get(Build(rules), host) == Get(Build(rules'), host)
  {
    MostSpecificWins(rules, host);
    MostSpecificWins(rules', host);
    DecisionCarriesOver(rules', rules, host, Get(Build(rules'), host));
    DecisionUnique(rules, host, Get(Build(rules), host), Get(Build(rules'), host));
  }

  lemma DecisionCarriesOver(rules: seq<Rule>, rules': seq<Rule>, host: string, v: int)
    requires forall name :: Last(rules, name) == Last(rules', name)
    requires Decision(rules, host, v)
    ensures Decision(rules', host, v)
  {
    if r :| MostSpecific(rules, r, host) && Last(rules, r) == Some(v) {
      SameSpecific(rules, rules', host, r);
    } else {
      forall r
        ensures !MostSpecific(rules', r, host)
      {
        if MostSpecific(rules', r, host) { SameSpecific(rules', rules, host, r); }
      }
    }
  }

  lemma SameSpecific(rules: seq<Rule>, rules': seq<Rule>, host: string, r: string)
    requires forall name :: Last(rules, name) == Last(rules', name)
    requires MostSpecific(rules, r, host)
    ensures MostSpecific(rules', r, host)
  {
  }

  lemma {:induction false} LastOfConcat(a: seq<Rule>, b: seq<Rule>, name: string)
    ensures Last(a + b, name) == if Last(b, name).Some? then Last(b, name) else Last(a, name)
  {
    if b == [] {
      assert a + b == a;
    } else {
      assert (a + b)[..|a + b| - 1] == a + b[..|b| - 1];
      LastOfConcat(a, b[..|b| - 1], name);
    }
  }

  /** Two neighbouring rules with different names may change places. */
  lemma OrderIrrelevant(before: seq<Rule>, r: Rule, s: Rule, after: seq<Rule>, host: string)
    requires r.name != s.name
    ensures Get(Build(before + [r, s] + after), host) == Get(Build(before + [s, r] + after), host)
  {
    forall name
      ensures Last(before + [r, s] + after, name) == Last(before + [s, r] + after, name)
    {
      LastOfConcat(before + [r, s], after, name);
      LastOfConcat(before + [s, r], after, name);
      LastOfConcat(before, [r, s], name);
      LastOfConcat(before, [s, r], name);
      assert [r, s] == [r] + [s] && [s, r] == [s] + [r];
      LastOfConcat([r], [s], name);
      LastOfConcat([s], [r], name);
    }
    OnlyLastValuesMatter(before + [r, s] + after, before + [s, r] + after, host);
  }

  // ---------------------------------------------------------------- the three properties

  const ACL_SERVER := 0x01
  const ACL_TEST := 0x02
  const ACL_SCHEDULE := 0x04

  /** `struct acl_root`. */
  datatype Acls = Acls(server: Tree, test: Tree, schedule: Tree)

  /** A rule for one property. */
  datatype Grant = Grant(name: string, property: int, value: int)

  /** add_acl(): the trees afterwards and the return value. */
  function AddAcl(a: Acls, g: Grant): (Acls, int) {
    if g.property == ACL_SERVER then (a.(server := AddRule(a.server, g.name, g.value)), 0)
    else if g.property == ACL_TEST then (a.(test := AddRule(a.test, g.name, g.value)), 0)
    else if g.property == ACL_SCHEDULE then (a.(schedule := AddRule(a.schedule, g.name, g.value)), 0)
    else (a, -1)
  }

  /** A rule for one of the three properties is accepted, and any other refused without a trace. */
  lemma AcceptedIff(a: Acls, g: Grant)
    ensures AddAcl(a, g).1 == if g.property == 1 || g.property == 2 || g.property == 4 then 0 else -1
    ensures AddAcl(a, g).1 != 0 ==> AddAcl(a, g).0 == a
  {
  }

  /** get_acl(). */
  function GetAcl(a: Acls, fqdn: string, property: int): int {
    if property == ACL_SERVER then Get(a.server, fqdn)
    else if property == ACL_TEST then Get(a.test, fqdn)
    else if property == ACL_SCHEDULE then Get(a.schedule, fqdn)
    else 0
  }

  ghost function BuildAcls(gs: seq<Grant>): Acls {
    if gs == [] then Acls(Empty(), Empty(), Empty())
    else AddAcl(BuildAcls(gs[..|gs| - 1]), gs[|gs| - 1]).0
  }

  /** The rules for one property. */
  ghost function RulesFor(gs: seq<Grant>, property: int): seq<Rule> {
    if gs == [] then []
    else
      var g := gs[|gs| - 1];
      RulesFor(gs[..|gs| - 1], property) + (if g.property == property then [Rule(g.name, g.value)] else [])
  }

  /** The tree of a property is built from its own rules. */
  lemma {:induction false} PropertiesApart(gs: seq<Grant>)
    ensures BuildAcls(gs) == Acls(Build(RulesFor(gs, ACL_SERVER)), Build(RulesFor(gs, ACL_TEST)),
                                  Build(RulesFor(gs, ACL_SCHEDULE)))
  {
    if gs != [] {
      var before, g := gs[..|gs| - 1], gs[|gs| - 1];
      PropertiesApart(before);
      BuildMore(before, g, ACL_SERVER);
      BuildMore(before, g, ACL_TEST);
      BuildMore(before, g, ACL_SCHEDULE);
      assert gs == before + [g];
    }
  }

  lemma BuildMore(before: seq<Grant>, g: Grant, property: int)
    ensures Build(RulesFor(before + [g], property)) ==
            if g.property == property then AddRule(Build(RulesFor(before, property)), g.name, g.value)
            else Build(RulesFor(before, property))
  {
    var rules := RulesFor(before, property);
    assert (before + [g])[..|before|] == before;
    assert rules + [] == rules;
    assert (rules + [Rule(g.name, g.value)])[..|rules|] == rules;
  }

  /** For each property the most specific of its own rules wins, and any other is denied. */
  lemma AccessDecision(gs: seq<Grant>, host: string, property: int)
    ensures if property in {ACL_SERVER, ACL_TEST, ACL_SCHEDULE}
            then Decision(RulesFor(gs, property), host, GetAcl(BuildAcls(gs), host, property))
            else GetAcl(BuildAcls(gs), host, property) == 0
  {
    PropertiesApart(gs);
    MostSpecificWins(RulesFor(gs, property), host);
  }
}
