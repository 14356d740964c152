/**
 Name resolution with callbacks: the queries for one name share a block that holds how many addresses
 may still be taken and how many queries are outstanding. Callbacks run on any thread, in any order and
 interleaved; the last one frees the block.
 */
module Resolver {
  import opened Seqs

  datatype Family = Inet | Inet6 | Unspec

  /** What the resolver passes to a callback: nothing of use, or addresses. */
  datatype Answer = NoData | Data(addrs: seq<int>)

  /** An entry of the address list: an address found by a query, or a placeholder without one. */
  datatype Entry = Found(query: nat, addr: int) | Placeholder(family: Family)

  // ---------------------------------------------------------------- the locked part of a callback

  /** The fields of the shared block that change, and the list it points to. */
  datatype Block = Block(max: int, qcount: int, ok: bool, list: seq<Entry>)

  /** How many of `n` addresses may be taken; a negative limit is none. */
  function Taken(max: int, n: nat): nat {
    if max < 0 || n < max then n else max
  }

  /** The entries for addresses that query `q` found. */
  function Marked(q: nat, addrs: seq<int>): (r: seq<Entry>)
    ensures |r| == |addrs| && forall i :: 0 <= i < |r| ==> r[i] == Found(q, addrs[i])
  {
    seq(|addrs|, i requires 0 <= i < |addrs| => Found(q, addrs[i]))
  }

  /** What the callback of query `q` does to the block while it holds the lock. */
  function Locked(b: Block, q: nat, a: Answer): Block {
    match a
    case NoData => b.(qcount := b.qcount - 1)
    case Data(addrs) =>
      var n := Taken(b.max, |addrs|);
      Block(if b.max > 0 then b.max - n else b.max, b.qcount - 1, true, Marked(q, Reversed(addrs[..n])) + b.list)
  }

  /** `struct amp_resolve_data`. */
  class ResolveData {
    var max: int
    var qcount: int
    var ok: bool
    var addrlist: seq<Entry>

    ghost function View(): Block
      reads this
    {
      Block(max, qcount, ok, addrlist)
    }

    /** The part of amp_resolve_callback() between taking and releasing the lock. */
    method Handle(q: nat, answer: Answer) returns (left: int)
      requires max >= -1
      modifies this
      ensures View() == Locked(old(View()), q, answer) && left == qcount
    {
      match answer {
        case NoData =>
        case Data(addrs) =>
          var i := 0;
          while i < |addrs| && (max == -1 || max > 0)
            invariant 0 <= i <= |addrs| && qcount == old(qcount) && ok == old(ok)
            invariant max >= -1 && i <= Taken(old(max), |addrs|)
            invariant max == if old(max) > 0 then old(max) - i else old(max)
            invariant addrlist == Marked(q, Reversed(addrs[..i])) + old(addrlist)
          {
            ReversedStep(q, addrs, i, old(addrlist));
            addrlist := [Found(q, addrs[i])] + addrlist;
            if max > 0 {
              max := max - 1;
            }
            i := i + 1;
          }
          ok := true;
      }
      qcount := qcount - 1;
      left := qcount;
    }
  }

  lemma ReversedStep(q: nat, addrs: seq<int>, i: nat, list: seq<Entry>)
    requires i < |addrs|
    ensures [Found(q, addrs[i])] + (Marked(q, Reversed(addrs[..i])) + list) ==
            Marked(q, Reversed(addrs[..i + 1])) + list
  {
    assert Marked(q, Reversed(addrs[..i + 1])) == [Found(q, addrs[i])] + Marked(q, Reversed(addrs[..i]));
  }

  // ---------------------------------------------------------------- interleaved steps

  /** Where the callback of a query is. The number is the count of outstanding queries it has seen. */
  datatype Phase =
    | Unsent          // amp_resolve_add() has not asked yet
    | Pending         // waiting for an answer, or for the lock
    | Holding         // has the lock
    | Counted(n: int) // has done its work under the lock
    | Left(n: int)    // has released the lock
    | Finished(n: int)
  {
    predicate Waiting() { Unsent? || Pending? || Holding? }
  }

  /** A request: the family, the limit and the answers that its queries will get. */
  datatype Request = Request(family: Family, limit: int, answers: seq<Answer>) {
    predicate Valid() {
      |answers| == if family == Unspec then 2 else 1
    }

    function Max(): int {
      if limit > 0 then limit else -1
    }
  }

  /** The lock is shared with the callbacks of other names. */
  datatype Owner = Free | Query(i: nat) | OtherName

  /** `frees` counts how often the block was freed, `stale` records a use of it afterwards. */
  datatype State = State(block: Block, phases: seq<Phase>, owner: Owner, frees: nat, stale: bool)

  datatype Action = Ask(i: nat) | Acquire(i: nat) | Work(i: nat) | Release(i: nat) | Finish(i: nat)
                  | OthersAcquire | OthersRelease

  /** amp_resolve_add() up to the first query. */
  function Init(r: Request): State
    requires r.Valid()
  {
    State(Block(r.Max(), |r.answers|, false, []), seq(|r.answers|, _ => Unsent), Free, 0, false)
  }

  predicate Enabled(r: Request, s: State, a: Action) {
    match a
    case Ask(i) => i < |s.phases| && s.phases[i] == Unsent && (i == 0 || s.phases[i - 1] != Unsent)
    case Acquire(i) => i < |s.phases| && s.phases[i] == Pending && s.owner == Free
    case Work(i) => i < |s.phases| && i < |r.answers| && s.phases[i] == Holding
    case Release(i) => i < |s.phases| && s.phases[i].Counted?
    case Finish(i) => i < |s.phases| && s.phases[i].Left?
    case OthersAcquire => s.owner == Free
    case OthersRelease => s.owner == OtherName
  }

  /** A step that reads or writes the block. */
  function Touch(s: State): State {
    s.(stale := s.stale || s.frees > 0)
  }

  /** The placeholders for a name without an answer. */
  function Placeholders(f: Family): seq<Entry> {
    (if f != Inet then [Placeholder(Inet6)] else []) + (if f != Inet6 then [Placeholder(Inet)] else [])
  }

  function Next(r: Request, s: State, a: Action): State
    requires Enabled(r, s, a)
  {
    match a
    case Ask(i) => Touch(s).(phases := s.phases[i := Pending])
    case Acquire(i) => Touch(s).(phases := s.phases[i := Holding], owner := Query(i))
    case Work(i) =>
      var b := Locked(s.block, i, r.answers[i]);
      Touch(s).(block := b, phases := s.phases[i := Counted(b.qcount)])
    case Release(i) => Touch(s).(phases := s.phases[i := Left(s.phases[i].n)], owner := Free)
    case Finish(i) =>
      var n := s.phases[i].n;
      var s' := s.(phases := s.phases[i := Finished(n)]);
      if n > 0 then s'
      else Touch(s').(frees := s.frees + 1,
                      block := if s.block.ok then s.block
                               else s.block.(list := Placeholders(r.family) + s.block.list))
    case OthersAcquire => s.(owner := OtherName)
    case OthersRelease => s.(owner := Free)
  }

  /** A sequence of steps that can be taken from the start, in any interleaving. */
  ghost predicate Legal(r: Request, actions: seq<Action>)
    requires r.Valid()
    decreases |actions|, 0
  {
    actions == [] ||
    var before := actions[..|actions| - 1];
    Legal(r, before) && Enabled(r, After(r, before), actions[|actions| - 1])
  }

  ghost function After(r: Request, actions: seq<Action>): State
    requires r.Valid() && Legal(r, actions)
    decreases |actions|, 1
  {
    if actions == [] then Init(r)
    else Next(r, After(r, actions[..|actions| - 1]), actions[|actions| - 1])
  }

  // ---------------------------------------------------------------- counting

  function Sum(ws: seq<nat>): nat {
    if ws == [] then 0 else Sum(ws[..|ws| - 1]) + ws[|ws| - 1]
  }

  lemma {:induction false} SumUpdated(ws: seq<nat>, i: nat, w: nat)
    requires i < |ws|
    ensures Sum(ws[i := w]) == Sum(ws) - ws[i] + w
    decreases |ws|
  {
    var n := |ws| - 1;
    if i == n {
      assert ws[i := w][..n] == ws[..n];
    } else {
      assert ws[i := w][..n] == ws[..n][i := w];
      SumUpdated(ws[..n], i, w);
    }
  }

  lemma {:induction false} SumIsZero(ws: seq<nat>, i: nat)
    requires i < |ws|
    ensures ws[i] <= Sum(ws)
    decreases |ws|
  {
    if i < |ws| - 1 { SumIsZero(ws[..|ws| - 1], i); }
  }

  /** One for each query whose callback has not counted itself down. */
  function Outstanding(phases: seq<Phase>): seq<nat> {
    seq(|phases|, i requires 0 <= i < |phases| => if phases[i].Waiting() then 1 else 0)
  }

  /** The number of addresses each query has offered so far. */
  function Offered(phases: seq<Phase>, answers: seq<Answer>): seq<nat>
    requires |phases| == |answers|
  {
    seq(|phases|, i requires 0 <= i < |phases| =>
      if phases[i].Waiting() || answers[i] == NoData then 0 else |answers[i].addrs|)
  }

  // ---------------------------------------------------------------- the invariant

  /** Query `k` is the one that counted down to zero. */
  ghost predicate IsLast(s: State, k: nat) {
    && k < |s.phases| && !s.phases[k].Waiting() && s.phases[k].n == 0
    && forall i :: 0 <= i < |s.phases| && i != k && !s.phases[i].Waiting() ==> s.phases[i].n > 0
  }

  ghost predicate Answered(r: Request, phases: seq<Phase>) {
    exists i :: 0 <= i < |phases| && i < |r.answers| && !phases[i].Waiting() && r.answers[i].Data?
  }

  /** While queries are outstanding the block is in use, and afterwards it belongs to the last one. */
  ghost predicate Owned(s: State) {
    && s.block.qcount == Sum(Outstanding(s.phases))
    && (s.block.qcount > 0 ==>
          s.frees == 0 && forall i :: 0 <= i < |s.phases| && !s.phases[i].Waiting() ==> s.phases[i].n > 0)
    && (s.block.qcount == 0 ==>
          exists k: nat :: IsLast(s, k) && s.frees == if s.phases[k].Finished? then 1 else 0)
  }

  /** One callback at a time works on the block. */
  ghost predicate Exclusive(s: State) {
    (s.owner.Query? ==> s.owner.i < |s.phases|) &&
    forall i :: 0 <= i < |s.phases| ==>
      && (s.phases[i].Holding? || s.phases[i].Counted? <==> s.owner == Query(i))
      && (s.phases[i].Counted? ==> s.phases[i].n == s.block.qcount)
  }

  /** The budget that is left, and what is in the list. */
  ghost predicate Budgeted(r: Request, s: State)
    requires |s.phases| == |r.answers|
  {
    var taken := Taken(r.Max(), Sum(Offered(s.phases, r.answers)));
    && s.block.max == (if r.Max() > 0 then r.Max() - taken else -1)
    && (s.block.ok <==> Answered(r, s.phases))
    && (!s.block.ok ==> taken == 0 && s.block.list == if s.frees > 0 then Placeholders(r.family) else [])
    && (s.block.ok ==> |s.block.list| == taken && forall e :: e in s.block.list ==> Genuine(r, e))
  }

  /** An address that a query for this name was given. */
  ghost predicate Genuine(r: Request, e: Entry) {
    e.Found? && e.query < |r.answers| && r.answers[e.query].Data? && e.addr in r.answers[e.query].addrs
  }

  ghost predicate Inv(r: Request, s: State) {
    |s.phases| == |r.answers| > 0 && !s.stale && Exclusive(s) && Owned(s) && Budgeted(r, s)
  }

  lemma InitInv(r: Request)
    requires r.Valid()
    ensures Inv(r, Init(r))
  {
    var s := Init(r);
    assert r.Valid() && |s.phases| <= 2;
    assert Outstanding(s.phases) == seq(|s.phases|, _ => 1);
    assert Offered(s.phases, r.answers) == seq(|s.phases|, _ => 0);
    if |s.phases| == 1 {
      assert Sum([1]) == 1 && Sum([0]) == 0;
    } else {
      assert [1, 1][..1] == [1] && [0, 0][..1] == [0];
      assert Sum([1, 1]) == 2 && Sum([0, 0]) == 0;
    }
  }

  /** A query that is still waiting keeps the block from being freed. */
  lemma WaitingMeansLive(r: Request, s: State, i: nat)
    requires Inv(r, s) && i < |s.phases| && (s.phases[i].Waiting() || s.phases[i].n == 0)
    ensures s.phases[i].Waiting() ==> s.block.qcount > 0
    ensures !s.phases[i].Finished? ==> s.frees == 0
  {
    SumIsZero(Outstanding(s.phases), i);
  }

  /** A step of a query that leaves it waiting, or leaves it done, changes no count. */
  lemma SameCounts(r: Request, s: State, i: nat, p: Phase)
    requires |s.phases| == |r.answers| && i < |s.phases| && s.phases[i].Waiting() == p.Waiting()
    ensures Outstanding(s.phases[i := p]) == Outstanding(s.phases)
    ensures Offered(s.phases[i := p], r.answers) == Offered(s.phases, r.answers)
    ensures Answered(r, s.phases[i := p]) <==> Answered(r, s.phases)
  {
    if k :| 0 <= k < |s.phases| && !s.phases[k].Waiting() && r.answers[k].Data? {
      assert !s.phases[i := p][k].Waiting();
    }
  }

  lemma AskKeeps(r: Request, s: State, i: nat)
    requires Inv(r, s) && Enabled(r, s, Ask(i))
    ensures Inv(r, Next(r, s, Ask(i)))
  {
    WaitingMeansLive(r, s, i);
    SameCounts(r, s, i, Pending);
  }

  lemma AcquireKeeps(r: Request, s: State, i: nat)
    requires Inv(r, s) && Enabled(r, s, Acquire(i))
    ensures Inv(r, Next(r, s, Acquire(i)))
  {
    WaitingMeansLive(r, s, i);
    SameCounts(r, s, i, Holding);
  }

  lemma ReleaseKeeps(r: Request, s: State, i: nat)
    requires Inv(r, s) && Enabled(r, s, Release(i))
    ensures Inv(r, Next(r, s, Release(i)))
  {
    var s' := Next(r, s, Release(i));
    SameCounts(r, s, i, Left(s.phases[i].n));
    if s.block.qcount == 0 {
      var k: nat :| IsLast(s, k) && s.frees == if s.phases[k].Finished? then 1 else 0;
      assert IsLast(s', k);
    }
  }

  lemma FinishKeeps(r: Request, s: State, i: nat)
    requires Inv(r, s) && Enabled(r, s, Finish(i))
    ensures Inv(r, Next(r, s, Finish(i)))
  {
    var s' := Next(r, s, Finish(i));
    SameCounts(r, s, i, Finished(s.phases[i].n));
    if s.block.qcount == 0 {
      var k: nat :| IsLast(s, k) && s.frees == if s.phases[k].Finished? then 1 else 0;
      assert s.phases[i].n <= 0 ==> k == i;
      assert IsLast(s', k);
    }
  }

  lemma WorkKeeps(r: Request, s: State, i: nat)
    requires Inv(r, s) && Enabled(r, s, Work(i))
    ensures Inv(r, Next(r, s, Work(i)))
  {
    var s' := Next(r, s, Work(i));
    WaitingMeansLive(r, s, i);
    SumUpdated(Outstanding(s.phases), i, 0);
    assert Outstanding(s'.phases) == Outstanding(s.phases)[i := 0];
    if s'.block.qcount == 0 { assert IsLast(s', i); }
    WorkBudget(r, s, i);
  }

  lemma AnsweredOneMore(r: Request, phases: seq<Phase>, i: nat, p: Phase)
    requires |phases| == |r.answers| && i < |phases| && phases[i].Waiting() && !p.Waiting()
    ensures Answered(r, phases[i := p]) <==> Answered(r, phases) || r.answers[i].Data?
  {
    var phases' := phases[i := p];
    if k :| 0 <= k < |phases| && !phases[k].Waiting() && r.answers[k].Data? {
      assert !phases'[k].Waiting();
    }
    assert !phases'[i].Waiting();
  }

  lemma OfferedOneMore(answers: seq<Answer>, phases: seq<Phase>, i: nat, p: Phase)
    requires |phases| == |answers| && i < |phases| && phases[i].Waiting() && !p.Waiting()
    ensures Sum(Offered(phases[i := p], answers)) ==
            Sum(Offered(phases, answers)) + if answers[i] == NoData then 0 else |answers[i].addrs|
  {
    var n := if answers[i] == NoData then 0 else |answers[i].addrs|;
    SumUpdated(Offered(phases, answers), i, n);
    assert Offered(phases[i := p], answers) == Offered(phases, answers)[i := n];
  }

  lemma GenuineOneMore(r: Request, i: nat, n: nat, list: seq<Entry>)
    requires i < |r.answers| && r.answers[i].Data? && n <= |r.answers[i].addrs|
    requires forall e :: e in list ==> Genuine(r, e)
    ensures forall e :: e in Marked(i, Reversed(r.answers[i].addrs[..n])) + list ==> Genuine(r, e)
  {
  }

  lemma WorkBudget(r: Request, s: State, i: nat)
    requires Inv(r, s) && Enabled(r, s, Work(i)) && s.frees == 0
    ensures Budgeted(r, Next(r, s, Work(i)))
  {
    var p := Next(r, s, Work(i)).phases[i];
    OfferedOneMore(r.answers, s.phases, i, p);
    AnsweredOneMore(r, s.phases, i, p);
    if r.answers[i].Data? {
      GenuineOneMore(r, i, Taken(s.block.max, |r.answers[i].addrs|), s.block.list);
    }
  }

  // ---------------------------------------------------------------- every interleaving

  ghost predicate AllDone(s: State) {
    forall i :: 0 <= i < |s.phases| ==> s.phases[i].Finished?
  }

  lemma NextKeeps(r: Request, s: State, a: Action)
    requires r.Valid() && Inv(r, s) && Enabled(r, s, a)
    ensures Inv(r, Next(r, s, a))
  {
    match a
    case Ask(i) => AskKeeps(r, s, i);
    case Acquire(i) => AcquireKeeps(r, s, i);
    case Work(i) => WorkKeeps(r, s, i);
    case Release(i) => ReleaseKeeps(r, s, i);
    case Finish(i) => FinishKeeps(r, s, i);
    case OthersAcquire =>
    case OthersRelease =>
  }

  lemma {:induction false} AlwaysInv(r: Request, actions: seq<Action>)
    requires r.Valid() && Legal(r, actions)
    ensures Inv(r, After(r, actions))
    decreases |actions|
  {
    if actions == [] {
      InitInv(r);
    } else {
      var before, a := actions[..|actions| - 1], actions[|actions| - 1];
      AlwaysInv(r, before);
      NextKeeps(r, After(r, before), a);
    }
  }

  /** In every interleaving the block is freed at most once and not used afterwards, and a limit on the
      number of addresses is kept. */
  lemma SharedBlockIsSafe(r: Request, actions: seq<Action>)
    requires r.Valid() && Legal(r, actions)
    ensures var s := After(r, actions);
            && !s.stale && s.frees <= 1
            && (r.limit > 0 && s.block.ok ==> |s.block.list| <= r.limit)
            && (s.block.ok ==> forall e :: e in s.block.list ==> Genuine(r, e))
  {
    AlwaysInv(r, actions);
  }

  /** A step that reads or writes the block: all steps of a callback up to the release of the lock, and the
      last of the one that counted down to zero. */
  predicate Uses(s: State, a: Action) {
    match a
    case Finish(i) => i < |s.phases| && s.phases[i].Left? && s.phases[i].n == 0
    case OthersAcquire => false
    case OthersRelease => false
    case _ => true
  }

  /** In every interleaving, a step that uses the block comes before the block is freed. */
  lemma NoUseAfterFree(r: Request, actions: seq<Action>, a: Action)
    requires r.Valid() && Legal(r, actions) && Legal(r, actions + [a]) && Uses(After(r, actions), a)
    ensures After(r, actions).frees == 0
  {
    assert (actions + [a])[..|actions|] == actions;
    AlwaysInv(r, actions + [a]);
  }

  /** While another name has the lock, no callback takes it. */
  lemma OthersExclude(r: Request, actions: seq<Action>, i: nat)
    requires r.Valid() && Legal(r, actions + [OthersAcquire])
    ensures !Legal(r, actions + [OthersAcquire] + [Acquire(i)])
  {
    var taken := actions + [OthersAcquire];
    assert taken[..|actions|] == actions && (taken + [Acquire(i)])[..|taken|] == taken;
  }

  // ---------------------------------------------------------------- how many steps

  /** The steps of the callbacks of this name. */
  function Own(actions: seq<Action>): nat {
    if actions == [] then 0
    else
      var a := actions[|actions| - 1];
      Own(actions[..|actions| - 1]) + if a == OthersAcquire || a == OthersRelease then 0 else 1
  }

  function StepsLeft(p: Phase): nat {
    match p
    case Unsent => 5
    case Pending => 4
    case Holding => 3
    case Counted(_) => 2
    case Left(_) => 1
    case Finished(_) => 0
  }

  function AllLeft(phases: seq<Phase>): (r: seq<nat>)
    ensures |r| == |phases| && forall i :: 0 <= i < |r| ==> r[i] == StepsLeft(phases[i])
  {
    seq(|phases|, i requires 0 <= i < |phases| => StepsLeft(phases[i]))
  }

  lemma OwnStep(r: Request, s: State, a: Action)
    requires Enabled(r, s, a)
    ensures Sum(AllLeft(s.phases)) ==
            Sum(AllLeft(Next(r, s, a).phases)) + if a == OthersAcquire || a == OthersRelease then 0 else 1
  {
    if a != OthersAcquire && a != OthersRelease {
      OneStepLess(s.phases, a.i, Next(r, s, a).phases[a.i]);
    }
  }

  lemma OneStepLess(phases: seq<Phase>, i: nat, p: Phase)
    requires i < |phases| && StepsLeft(phases[i]) == StepsLeft(p) + 1
    ensures Sum(AllLeft(phases)) == Sum(AllLeft(phases[i := p])) + 1
  {
    SumUpdated(AllLeft(phases), i, StepsLeft(p));
    assert AllLeft(phases[i := p]) == AllLeft(phases)[i := StepsLeft(p)];
  }

  /** Each query takes five steps to its end, in whatever interleaving. */
  lemma {:induction false} FiveStepsEach(r: Request, actions: seq<Action>)
    requires r.Valid() && Legal(r, actions)
    ensures Own(actions) + Sum(AllLeft(After(r, actions).phases)) == 5 * |r.answers|
    decreases |actions|
  {
    if actions == [] {
      var ranks := AllLeft(Init(r).phases);
      assert ranks == if |r.answers| == 2 then [5, 5] else [5];
      assert [5, 5][..1] == [5] && Sum([5]) == 5 && Sum([5, 5]) == 10;
    } else {
      var before := actions[..|actions| - 1];
      FiveStepsEach(r, before);
      OwnStep(r, After(r, before), actions[|actions| - 1]);
    }
  }

  // ---------------------------------------------------------------- what each query contributes

  /** The addresses in a list that query `q` found. */
  function From(list: seq<Entry>, q: nat): seq<int> {
    if list == [] then []
    else if list[0].Found? && list[0].query == q then [list[0].addr] + From(list[1..], q)
    else From(list[1..], q)
  }

  lemma {:induction false} FromBoth(a: seq<Entry>, b: seq<Entry>, q: nat)
    ensures From(a + b, q) == From(a, q) + From(b, q)
    decreases |a|
  {
    if a == [] {
      assert a + b == b;
    } else {
      assert (a + b)[1..] == a[1..] + b;
      FromBoth(a[1..], b, q);
    }
  }

  lemma {:induction false} FromMarked(k: nat, addrs: seq<int>, q: nat)
    ensures From(Marked(k, addrs), q) == if q == k then addrs else []
    decreases |addrs|
  {
    if addrs != [] {
      assert Marked(k, addrs)[1..] == Marked(k, addrs[1..]);
      FromMarked(k, addrs[1..], q);
    }
  }

  /** A query contributes nothing while it waits or when it got nothing, and otherwise some of its
      addresses, from the first on, the last of them in front. */
  ghost predicate Contributes(r: Request, s: State, q: nat)
    requires q < |s.phases| && q < |r.answers|
  {
    var mine := From(s.block.list, q);
    if s.phases[q].Waiting() || r.answers[q] == NoData then mine == []
    else |mine| <= |r.answers[q].addrs| && mine == Reversed(r.answers[q].addrs[..|mine|])
  }

  /** The locked part of one callback gives its query its part, and leaves the others theirs. */
  lemma WorkContributes(i: nat, addrs: seq<int>, n: nat, list: seq<Entry>, q: nat)
    requires n <= |addrs|
    ensures From(Marked(i, Reversed(addrs[..n])) + list, q) ==
            if q == i then Reversed(addrs[..n]) + From(list, q) else From(list, q)
  {
    FromBoth(Marked(i, Reversed(addrs[..n])), list, q);
    FromMarked(i, Reversed(addrs[..n]), q);
  }

  lemma ContributesKept(r: Request, s: State, a: Action, q: nat)
    requires |s.phases| == |r.answers| && Enabled(r, s, a) && q < |s.phases| && Contributes(r, s, q)
    ensures Contributes(r, Next(r, s, a), q)
  {
    if a.Work? && r.answers[a.i].Data? {
      var addrs := r.answers[a.i].addrs;
      WorkContributes(a.i, addrs, Taken(s.block.max, |addrs|), s.block.list, q);
    } else if a.Finish? {
      FromBoth(Placeholders(r.family), s.block.list, q);
      FromPlaceholders(r.family, q);
    }
  }

  lemma FromPlaceholders(f: Family, q: nat)
    ensures From(Placeholders(f), q) == []
  {
    FromBoth(if f != Inet then [Placeholder(Inet6)] else [], if f != Inet6 then [Placeholder(Inet)] else [], q);
    assert From([Placeholder(Inet6)], q) == [] && From([Placeholder(Inet)], q) == [];
  }

  /** In every interleaving each query contributes in this way. */
  lemma {:induction false} AlwaysContributes(r: Request, actions: seq<Action>, q: nat)
    requires r.Valid() && Legal(r, actions) && q < |r.answers|
    ensures |After(r, actions).phases| == |r.answers| && Contributes(r, After(r, actions), q)
    decreases |actions|
  {
    if actions != [] {
      var before, a := actions[..|actions| - 1], actions[|actions| - 1];
      AlwaysContributes(r, before, q);
      ContributesKept(r, After(r, before), a, q);
    }
  }

  /** How many addresses each of `n` queries contributes. */
  function Parts(list: seq<Entry>, n: nat): seq<nat> {
    seq(n, q requires 0 <= q => |From(list, q)|)
  }

  lemma {:induction false} PartsAddUp(list: seq<Entry>, n: nat)
    requires forall e :: e in list ==> e.Found? && e.query < n
    ensures Sum(Parts(list, n)) == |list|
    decreases |list|
  {
    if list == [] {
      NothingAdded(n);
    } else {
      PartsAddUp(list[1..], n);
      assert list[0] in list;
      var q, rest := list[0].query, Parts(list[1..], n);
      SumUpdated(rest, q, rest[q] + 1);
      assert Parts(list, n) == rest[q := rest[q] + 1];
    }
  }

  lemma {:induction false} NothingAdded(n: nat)
    ensures Sum(Parts([], n)) == 0
  {
    if n > 0 {
      assert Parts([], n)[..n - 1] == Parts([], n - 1);
      NothingAdded(n - 1);
    }
  }

  /** Once all callbacks have finished, the block has been freed exactly once. If a query succeeded, the
      list holds as many addresses as the answers and the limit allow, from each query some of its own
      addresses from the first on, each once, and nothing else; otherwise it holds a placeholder for each
      family asked for. */
  lemma AllFinished(r: Request, actions: seq<Action>)
    requires r.Valid() && Legal(r, actions)
    requires AllDone(After(r, actions))
    ensures var s := After(r, actions);
            var found := exists i :: 0 <= i < |r.answers| && r.answers[i].Data?;
            && s.frees == 1
            && (found ==>
                  && |s.block.list| == Taken(r.Max(), Sum(Sizes(r.answers)))
                  && Sum(Parts(s.block.list, |r.answers|)) == |s.block.list|
                  && (forall e :: e in s.block.list ==> Genuine(r, e))
                  && forall q :: 0 <= q < |r.answers| ==> OwnPart(r, s.block.list, q))
            && (!found ==> OnePlaceholderEach(r, s.block.list))
  {
    AlwaysInv(r, actions);
    var s := After(r, actions);
    assert Offered(s.phases, r.answers) == Sizes(r.answers);
    NoneOutstanding(s.phases);
    if found: nat :| found < |r.answers| && r.answers[found].Data? {
      assert !s.phases[found].Waiting();
      PartsAddUp(s.block.list, |r.answers|);
      forall q | 0 <= q < |r.answers|
        ensures OwnPart(r, s.block.list, q)
      {
        AlwaysContributes(r, actions, q);
      }
    }
  }

  /** The list of a name without an answer: a placeholder for each family that was asked for, and nothing
      else. */
  ghost predicate OnePlaceholderEach(r: Request, list: seq<Entry>) {
    && |list| == |r.answers|
    && (forall e :: e in list ==> e.Placeholder?)
    && (Placeholder(Inet) in list <==> r.family == Inet || r.family == Unspec)
    && (Placeholder(Inet6) in list <==> r.family == Inet6 || r.family == Unspec)
  }

  /** What a list holds of the answer to query `q`. */
  ghost predicate OwnPart(r: Request, list: seq<Entry>, q: nat)
    requires q < |r.answers|
  {
    var mine := From(list, q);
    if r.answers[q] == NoData then mine == []
    else |mine| <= |r.answers[q].addrs| && mine == Reversed(r.answers[q].addrs[..|mine|])
  }

  lemma SomeStep(r: Request, s: State) returns (a: Action)
    requires r.Valid() && |s.phases| == |r.answers| && Exclusive(s) && !AllDone(s)
    ensures Enabled(r, s, a)
  {
    if s.owner == OtherName {
      a := OthersRelease;
    } else if s.owner.Query? {
      a := if s.phases[s.owner.i].Holding? then Work(s.owner.i) else Release(s.owner.i);
    } else {
      var i :| 0 <= i < |s.phases| && !s.phases[i].Finished?;
      if s.phases[i] == Unsent {
        a := if i == 1 && s.phases[0] == Unsent then Ask(0) else Ask(i);
      } else {
        a := if s.phases[i] == Pending then Acquire(i) else Finish(i);
      }
    }
  }

  lemma LegalOneMore(r: Request, actions: seq<Action>, a: Action)
    requires r.Valid() && Legal(r, actions) && Enabled(r, After(r, actions), a)
    ensures Legal(r, actions + [a])
  {
    assert (actions + [a])[..|actions|] == actions;
  }

  /** As long as a callback has not finished, some step can be taken: the callbacks never wait for one
      another for good. */
  lemma NoDeadlock(r: Request, actions: seq<Action>) returns (a: Action)
    requires r.Valid() && Legal(r, actions) && !AllDone(After(r, actions))
    ensures Legal(r, actions + [a])
  {
    AlwaysInv(r, actions);
    a := SomeStep(r, After(r, actions));
    LegalOneMore(r, actions, a);
  }

  function Sizes(answers: seq<Answer>): seq<nat> {
    seq(|answers|, i requires 0 <= i < |answers| => if answers[i] == NoData then 0 else |answers[i].addrs|)
  }

  lemma {:induction false} NoneOutstanding(phases: seq<Phase>)
    requires forall i :: 0 <= i < |phases| ==> !phases[i].Waiting()
    ensures Sum(Outstanding(phases)) == 0
    decreases |phases|
  {
    if phases != [] {
      var n := |phases| - 1;
      assert Outstanding(phases)[..n] == Outstanding(phases[..n]);
      NoneOutstanding(phases[..n]);
    }
  }
}
