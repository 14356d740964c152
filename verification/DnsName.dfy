/**
 Names in DNS packets: sequences of labels, each behind its length, that may end in a pointer to an
 earlier place of the packet (section 4.1.4 of RFC 1035).
 */
module DnsName {
  import opened Options
  import opened Bytes
  import opened Seqs

  const DOT: Byte := 46

  type Labels = seq<seq<Byte>>

  predicate IsPointer(b: Byte) {
    b >= 0xc0
  }

  function Target(first: Byte, second: Byte): nat
    requires IsPointer(first)
  {
    (first as int - 0xc0) * 256 + second
  }

  // ---------------------------------------------------------------- what a name means

  /** The labels of the name at `pos`, if `fuel` lengths and pointers are enough to reach its end inside
      the packet. */
  function Denote(data: seq<Byte>, pos: nat, fuel: nat): Option<Labels>
    decreases fuel
  {
    if fuel == 0 || pos >= |data| then None
    else if IsPointer(data[pos]) then
      if pos + 1 >= |data| then None
      else Denote(data, Target(data[pos], data[pos + 1]), fuel - 1)
    else if data[pos] == 0 then Some([])
    else
      var end := pos + 1 + data[pos];
      if end > |data| then None
      else
        match Denote(data, end, fuel - 1)
        case None => None
        case Some(ls) => Some([data[pos + 1..end]] + ls)
  }

  /** Following the name reaches its end. */
  ghost predicate Ends(data: seq<Byte>, pos: nat) {
    exists fuel: nat :: Denote(data, pos, fuel).Some?
  }

  ghost function LabelsAt(data: seq<Byte>, pos: nat): Labels
    requires Ends(data, pos)
  {
    var fuel: nat :| Denote(data, pos, fuel).Some?;
    Denote(data, pos, fuel).value
  }

  lemma {:induction false} MoreFuel(data: seq<Byte>, pos: nat, fuel: nat, fuel': nat)
    requires Denote(data, pos, fuel).Some? && fuel <= fuel'
    ensures Denote(data, pos, fuel') == Denote(data, pos, fuel)
    decreases fuel
  {
    if IsPointer(data[pos]) {
      MoreFuel(data, Target(data[pos], data[pos + 1]), fuel - 1, fuel' - 1);
    } else if data[pos] != 0 {
      MoreFuel(data, pos + 1 + data[pos], fuel - 1, fuel' - 1);
    }
  }

  lemma LabelsUnique(data: seq<Byte>, pos: nat, fuel: nat)
    requires Denote(data, pos, fuel).Some?
    ensures Ends(data, pos) && LabelsAt(data, pos) == Denote(data, pos, fuel).value
  {
    var f: nat :| Denote(data, pos, f).Some? && LabelsAt(data, pos) == Denote(data, pos, f).value;
    if f <= fuel { MoreFuel(data, pos, f, fuel); } else { MoreFuel(data, pos, fuel, f); }
  }

  /** `fuel` steps are enough to reach the end, and one less is not. */
  predicate Takes(data: seq<Byte>, pos: nat, fuel: nat) {
    fuel > 0 && Denote(data, pos, fuel).Some? && Denote(data, pos, fuel - 1).None?
  }

  lemma {:induction false} TakesSome(data: seq<Byte>, pos: nat, fuel: nat) returns (least: nat)
    requires Denote(data, pos, fuel).Some?
    ensures least <= fuel && Takes(data, pos, least)
  {
    if Denote(data, pos, fuel - 1).Some? {
      least := TakesSome(data, pos, fuel - 1);
    } else {
      least := fuel;
    }
  }

  /** The octets 0xc0 + p / 256 and p % 256 stand for the name at `p`. */
  lemma PointerDenotes(data: seq<Byte>, pos: nat, p: nat)
    requires p < 16384 && pos + 1 < |data| && data[pos] == 0xc0 + p / 256 && data[pos + 1] == p % 256
    ensures Ends(data, pos) <==> Ends(data, p)
    ensures Ends(data, p) ==> LabelsAt(data, pos) == LabelsAt(data, p)
  {
    if Ends(data, p) {
      var fuel: nat :| Denote(data, p, fuel).Some?;
      assert Denote(data, pos, fuel + 1) == Denote(data, p, fuel);
      LabelsUnique(data, p, fuel);
      LabelsUnique(data, pos, fuel + 1);
    }
    if Ends(data, pos) {
      var fuel: nat :| Denote(data, pos, fuel).Some?;
      assert Denote(data, pos, fuel) == Denote(data, p, fuel - 1);
    }
  }

  /** The places on the way to the end of a name, the last first. */
  lemma {:induction false} Way(data: seq<Byte>, pos: nat, fuel: nat) returns (places: seq<nat>)
    requires Takes(data, pos, fuel)
    ensures |places| == fuel && forall i :: 0 <= i < fuel ==> places[i] < |data| && Takes(data, places[i], i + 1)
    decreases fuel
  {
    places := [];
    if IsPointer(data[pos]) || data[pos] != 0 {
      var next := TakesNext(data, pos, fuel);
      places := Way(data, next, fuel - 1);
    }
    places := places + [pos];
  }

  /** One step closer to the end. */
  lemma TakesNext(data: seq<Byte>, pos: nat, fuel: nat) returns (next: nat)
    requires Takes(data, pos, fuel) && (IsPointer(data[pos]) || data[pos] != 0)
    ensures Takes(data, next, fuel - 1)
  {
    if IsPointer(data[pos]) {
      next := Target(data[pos], data[pos + 1]);
      assert Denote(data, pos, fuel) == Denote(data, next, fuel - 1);
      assert fuel > 1 ==> Denote(data, pos, fuel - 1) == Denote(data, next, fuel - 2);
    } else {
      next := pos + 1 + data[pos];
      assert Denote(data, pos, fuel).Some? <==> Denote(data, next, fuel - 1).Some?;
      assert fuel > 1 ==> (Denote(data, pos, fuel - 1).Some? <==> Denote(data, next, fuel - 2).Some?);
    }
  }

  lemma TakesOnce(data: seq<Byte>, pos: nat, fuel: nat, fuel': nat)
    requires Takes(data, pos, fuel) && fuel < fuel'
    ensures !Takes(data, pos, fuel')
  {
    MoreFuel(data, pos, fuel, fuel' - 1);
  }

  /** A name ends just when it does within as many steps as the packet has octets: the way to its end
      passes no place twice. */
  lemma EndsIff(data: seq<Byte>, pos: nat)
    ensures Ends(data, pos) <==> Denote(data, pos, |data|).Some?
  {
    if Ends(data, pos) {
      var fuel: nat :| Denote(data, pos, fuel).Some?;
      var least := TakesSome(data, pos, fuel);
      var places := Way(data, pos, least);
      forall i, j | 0 <= i < j < |places|
        ensures places[i] != places[j]
      {
        TakesOnce(data, places[i], i + 1, j + 1);
      }
      Pigeonhole(places, |data|);
      MoreFuel(data, pos, least, |data|);
    }
  }

  /** The meaning of names whose pointers lead to a place before the run of labels that holds them, which
      began at `from`; there is no need for fuel then. */
  ghost function Backward(data: seq<Byte>, from: nat, pos: nat): Option<Labels>
    decreases from, |data| - pos
  {
    if pos >= |data| then None
    else if IsPointer(data[pos]) then
      if pos + 1 >= |data| || Target(data[pos], data[pos + 1]) >= from then None
      else Backward(data, Target(data[pos], data[pos + 1]), Target(data[pos], data[pos + 1]))
    else if data[pos] == 0 then Some([])
    else
      var end := pos + 1 + data[pos];
      if end > |data| then None
      else
        match Backward(data, from, end)
        case None => None
        case Some(ls) => Some([data[pos + 1..end]] + ls)
  }

  /** Names with backward pointers always end, and mean the same. */
  lemma {:induction false} BackwardEnds(data: seq<Byte>, from: nat, pos: nat) returns (fuel: nat)
    requires Backward(data, from, pos).Some?
    ensures Denote(data, pos, fuel) == Backward(data, from, pos)
    decreases from, |data| - pos
  {
    if IsPointer(data[pos]) {
      var t := Target(data[pos], data[pos + 1]);
      fuel := BackwardEnds(data, t, t);
    } else if data[pos] != 0 {
      fuel := BackwardEnds(data, from, pos + 1 + data[pos]);
    } else {
      fuel := 0;
    }
    fuel := fuel + 1;
  }

  /** A pointer to itself never ends. */
  lemma {:induction false} SelfPointerNeverEnds(data: seq<Byte>, pos: nat, fuel: nat)
    requires pos + 1 < |data| && IsPointer(data[pos]) && Target(data[pos], data[pos + 1]) == pos
    ensures Denote(data, pos, fuel) == None
    decreases fuel
  {
    if fuel > 0 { SelfPointerNeverEnds(data, pos, fuel - 1); }
  }

  /** Two pointers to each other never end. */
  lemma PointersInCircle(data: seq<Byte>)
    requires data == [0xc0, 2, 0xc0, 0]
    ensures !Ends(data, 0) && !Ends(data, 2)
  {
    EndsIff(data, 0);
    EndsIff(data, 2);
    assert Denote(data, 0, 2) == Denote(data, 2, 1) == None && Denote(data, 2, 2) == Denote(data, 0, 1) == None;
  }

  /** Where the part of a name that stands in place ends: after a pointer or an empty label. */
  function InPlaceEnd(data: seq<Byte>, pos: nat): nat
    decreases |data| - pos
  {
    if pos >= |data| then pos
    else if IsPointer(data[pos]) then pos + 2
    else if data[pos] == 0 then pos + 1
    else InPlaceEnd(data, pos + 1 + data[pos])
  }

  // ---------------------------------------------------------------- text

  /** What strncpy() makes of a label: after a zero octet it copies nothing but zeroes. */
  function StrNCpy(l: seq<Byte>): (r: seq<Byte>)
    ensures |r| == |l|
  {
    if l == [] then []
    else if l[0] == 0 then seq(|l|, _ => 0)
    else [l[0]] + StrNCpy(l[1..])
  }

  lemma StrNCpyPlain(l: seq<Byte>)
    requires 0 !in l
    ensures StrNCpy(l) == l
  {
  }

  /** The labels with dots between them. */
  function Join(ls: Labels): seq<Byte> {
    if ls == [] then []
    else if |ls| == 1 then ls[0]
    else ls[0] + [DOT] + Join(ls[1..])
  }

  function Copied(ls: Labels): (r: Labels)
    ensures |r| == |ls| && forall i :: 0 <= i < |ls| ==> r[i] == StrNCpy(ls[i])
  {
    if ls == [] then [] else [StrNCpy(ls[0])] + Copied(ls[1..])
  }

  /** What follows in the text when some of it is already there. */
  function Following(ls: Labels, index: nat): seq<Byte> {
    if ls == [] then [] else (if index > 0 then [DOT] else []) + Join(ls)
  }

  lemma FollowingStep(l: seq<Byte>, ls: Labels, index: nat)
    requires l != []
    ensures Following([l] + ls, index) ==
            (if index > 0 then [DOT] else []) + l + Following(ls, index + (if index > 0 then 1 else 0) + |l|)
  {
    var dot := if index > 0 then [DOT] else [];
    Cons(l, ls);
    if ls == [] {
      assert [l] + ls == [l];
      assert dot + l + [] == dot + l;
    } else {
      Assoc4(dot, l, [DOT], Join(ls));
      Assoc(dot + l, [DOT], Join(ls));
    }
  }

  /** The text of a name as decode() stores it. */
  ghost function Text(data: seq<Byte>, pos: nat): seq<Byte>
    requires Ends(data, pos)
  {
    Join(Copied(LabelsAt(data, pos)))
  }

  // ---------------------------------------------------------------- decoding

  lemma {:induction false} StrNCpyStep(l: seq<Byte>, k: nat)
    requires k < |l|
    ensures StrNCpy(l)[k] == if 0 in l[..k] then 0 else l[k]
    decreases |l|
  {
    if k > 0 && l[0] != 0 {
      StrNCpyStep(l[1..], k - 1);
      assert l[..k] == [l[0]] + l[1..][..k - 1];
    } else if k > 0 {
      assert l[0] in l[..k];
    }
  }

  /** strncpy(). */
  method CopyLabel(result: array<Byte>, at: nat, l: seq<Byte>)
    requires at + |l| <= result.Length
    modifies result
    ensures result[..at] == old(result[..at])
    ensures result[at..at + |l|] == StrNCpy(l)
  {
    var ended := false;
    for k := 0 to |l|
      invariant ended <==> 0 in l[..k]
      invariant result[..at] == old(result[..at])
      invariant forall i :: 0 <= i < k ==> result[at + i] == StrNCpy(l)[i]
    {
      StrNCpyStep(l, k);
      assert l[..k + 1] == l[..k] + [l[k]];
      result[at + k] := if ended then 0 else l[k];
      ended := ended || l[k] == 0;
    }
  }

  /** Stores a label behind what is there, with a dot between them. */
  method Append(result: array<Byte>, at: nat, l: seq<Byte>) returns (index: nat)
    requires l != [] && at + (if at > 0 then 1 else 0) + |l| <= result.Length
    modifies result
    ensures index == at + (if at > 0 then 1 else 0) + |l|
    ensures result[..index] == old(result[..at]) + (if at > 0 then [DOT] else []) + StrNCpy(l)
  {
    index := at;
    if index > 0 {
      result[index] := DOT;
      index := index + 1;
      assert result[..index] == old(result[..at]) + [DOT];
    } else {
      assert result[..index] == old(result[..at]) + [];
    }
    CopyLabel(result, index, l);
    assert result[..index + |l|] == result[..index] + result[index..index + |l|];
    index := index + |l|;
  }

  /** What is stored and what follows stay the text when the next label is moved over. */
  lemma StoresNext(stored: seq<Byte>, l: seq<Byte>, ls: Labels, text: seq<Byte>)
    requires l != [] && stored + Following(Copied([l] + ls), |stored|) == text
    ensures var more := stored + (if |stored| > 0 then [DOT] else []) + StrNCpy(l);
            |more| <= |text| && more + Following(Copied(ls), |more|) == text
  {
    var dot := if |stored| > 0 then [DOT] else [];
    CopiedCons(l, ls);
    FollowingStep(StrNCpy(l), Copied(ls), |stored|);
    Assoc4(stored, dot, StrNCpy(l), Following(Copied(ls), |stored| + |dot| + |l|));
  }

  lemma CopiedCons(l: seq<Byte>, ls: Labels)
    ensures Copied([l] + ls) == [StrNCpy(l)] + Copied(ls)
  {
    assert ([l] + ls)[1..] == ls;
  }

  /** Saves a label if space has been given for it; the index moves in either case. */
  method Store(result: array?<Byte>, at: nat, l: seq<Byte>, ghost tail: Labels, ghost text: seq<Byte>)
    returns (index: nat)
    requires l != []
    requires result != null ==>
      |text| < result.Length && at <= result.Length && result[..at] + Following(Copied([l] + tail), at) == text
    modifies result
    ensures result != null ==> index <= |text| && result[..index] + Following(Copied(tail), index) == text
  {
    if result != null {
      StoresNext(result[..at], l, tail, text);
      index := Append(result, at, l);
    } else {
      index := at + |l|;
    }
  }

  lemma NextLabel(data: seq<Byte>, pos: nat, fuel: nat) returns (tail: Labels)
    requires Denote(data, pos, fuel).Some? && 0 < data[pos] < 0xc0
    ensures pos + 1 + data[pos] <= |data| && Denote(data, pos + 1 + data[pos], fuel - 1) == Some(tail)
    ensures Denote(data, pos, fuel).value == [data[pos + 1..pos + 1 + data[pos]]] + tail
  {
    tail := Denote(data, pos + 1 + data[pos], fuel - 1).value;
  }

  /** decode(), for every name that ends: it returns the place after the part of the name that stands in
      place, however many pointers were followed, and stores the text of the name as a C string. */
  method Decode(result: array?<Byte>, data: seq<Byte>, begin: nat) returns (next: nat)
    requires Ends(data, begin)
    requires result != null ==> |Text(data, begin)| < result.Length
    modifies result
    ensures next == InPlaceEnd(data, begin)
    ensures result != null ==>
              var text := Text(data, begin);
              result[..|text|] == text && result[|text|] == 0
  {
    var start: nat, index: nat, current: Option<nat> := begin, 0, None;
    var length: Byte;
    ghost var fuel: nat :| Denote(data, begin, fuel).Some?;
    LabelsUnique(data, begin, fuel);
    ghost var rest, text := LabelsAt(data, begin), Text(data, begin);
    assert [] + Following(Copied(rest), 0) == text;
    while true
      invariant Denote(data, start, fuel) == Some(rest)
      invariant InPlaceEnd(data, begin) == (if current == None then InPlaceEnd(data, start) else current.value)
      invariant result != null ==>
          index < result.Length && result[..index] + Following(Copied(rest), index) == text
      decreases fuel
    {
      length := data[start];
      if IsPointer(length) {
        if current == None {
          current := Some(start + 2);
        }
        start := Target(data[start], data[start + 1]);
        fuel := fuel - 1;
        continue;
      }
      if length > 0 {
        ghost var tail := NextLabel(data, start, fuel);
        var l := data[start + 1..start + 1 + length];
        assert rest == [l] + tail;
        index := Store(result, index, l, tail, text);
        start := start + length + 1;
        fuel, rest := fuel - 1, tail;
      } else {
        break;
      }
    }
    if result != null {
      assert result[..index] + [] == result[..index];
      result[index] := 0;
    }
    next := if current == None then start + 1 else current.value;
  }

  // ---------------------------------------------------------------- encoding

  const MAX_DNS_NAME_LEN := 255

  /** strchr(q, '.'), as an index; the length if there is none. */
  function FirstDot(q: seq<Byte>): (r: nat)
    ensures r <= |q| && (r < |q| ==> q[r] == DOT) && forall i :: 0 <= i < r ==> q[i] != DOT
  {
    if q == [] || q[0] == DOT then 0 else 1 + FirstDot(q[1..])
  }

  /** The parts between the dots. */
  function Split(q: seq<Byte>): (ls: Labels)
    ensures ls != []
    decreases |q|
  {
    var d := FirstDot(q);
    if d == |q| then [q] else [q[..d]] + Split(q[d + 1..])
  }

  /** A name on the wire: each label behind its length, which is cut to an octet, and an empty one. */
  function Wire(ls: Labels): (r: seq<Byte>)
    ensures r != []
  {
    if ls == [] then [0] else [|ls[0]| % 256] + ls[0] + Wire(ls[1..])
  }

  lemma {:induction false} WireOfSplit(q: seq<Byte>)
    ensures |Wire(Split(q))| == |q| + 2
    decreases |q|
  {
    SplitStep(q);
    if FirstDot(q) < |q| { WireOfSplit(q[FirstDot(q) + 1..]); }
  }

  /** The first label of a text on the wire, and the rest. */
  lemma SplitStep(q: seq<Byte>)
    ensures var d := FirstDot(q);
            Wire(Split(q)) == [d % 256] + q[..d] + WireAfter(q, d)
  {
    var d := FirstDot(q);
    if d < |q| {
      Cons(q[..d], Split(q[d + 1..]));
    } else {
      assert [q][1..] == [] && q[..d] == q;
    }
  }

  function WireAfter(q: seq<Byte>, d: nat): seq<Byte>
    requires d <= |q|
  {
    if d == |q| then [0] else Wire(Split(q[d + 1..]))
  }

  /** encode(). */
  method Encode(query: seq<Byte>) returns (name: array<Byte>)
    requires |query| <= MAX_DNS_NAME_LEN - 2
    ensures fresh(name) && name.Length == MAX_DNS_NAME_LEN
    ensures name[..|query| + 2] == Wire(Split(query))
  {
    name := new Byte[MAX_DNS_NAME_LEN](_ => 0);
    ghost var wire := Wire(Split(query));
    WireOfSplit(query);
    var nameIndex, rest, dot := 0, query, true;
    while dot
      invariant dot ==> nameIndex + |rest| == |query| && Written(name, nameIndex, Wire(Split(rest)), wire)
      invariant !dot ==> nameIndex == |query| + 1 && Written(name, nameIndex, [0], wire)
      decreases dot, |rest|
    {
      var length := FirstDot(rest);
      nameIndex := PutLabel(name, nameIndex, rest, length, wire);
      dot := length < |rest|;
      rest := if dot then rest[length + 1..] else [];
    }
    PutEnd(name, nameIndex, wire);
  }

  /** The first `n` octets of the buffer and what is yet to come are the whole name. */
  ghost predicate Written(name: array<Byte>, n: nat, rest: seq<Byte>, wire: seq<Byte>)
    reads name
  {
    n <= name.Length && name[..n] + rest == wire
  }

  method PutLabel(name: array<Byte>, at: nat, rest: seq<Byte>, length: nat, ghost wire: seq<Byte>)
    returns (index: nat)
    requires length == FirstDot(rest) && |rest| < 256 && at + 1 + |rest| <= name.Length
    requires Written(name, at, Wire(Split(rest)), wire)
    modifies name
    ensures index == at + 1 + length && Written(name, index, WireAfter(rest, length), wire)
  {
    SplitStep(rest);
    Assoc4(name[..at], [length % 256], rest[..length], WireAfter(rest, length));
    CopyIn(name, at, rest[..length]);
    index := at + 1 + length;
  }

  method PutEnd(name: array<Byte>, at: nat, ghost wire: seq<Byte>)
    requires at < name.Length && Written(name, at, [0], wire)
    modifies name
    ensures name[..at + 1] == wire
  {
    name[at] := 0;
  }

  /** A length and the label it belongs to. */
  method CopyIn(name: array<Byte>, at: nat, l: seq<Byte>)
    requires |l| < 256 && at + 1 + |l| <= name.Length
    modifies name
    ensures name[..at + 1 + |l|] == old(name[..at]) + [|l|] + l
  {
    name[at] := |l|;
    for i := 0 to |l|
      invariant name[..at] == old(name[..at]) && name[at] == |l|
      invariant forall k :: 0 <= k < i ==> name[at + 1 + k] == l[k]
    {
      name[at + 1 + i] := l[i];
    }
    assert name[at + 1..at + 1 + |l|] == l;
  }

  // ---------------------------------------------------------------- there and back

  /** The labels before the first empty one: what of a name is sent. */
  function UpToEmpty(ls: Labels): (r: Labels)
    ensures |r| <= |ls| && r == ls[..|r|] && (forall i :: 0 <= i < |r| ==> r[i] != [])
    ensures |r| < |ls| ==> ls[|r|] == []
  {
    if ls == [] || ls[0] == [] then [] else [ls[0]] + UpToEmpty(ls[1..])
  }

  predicate Encodable(ls: Labels) {
    forall i :: 0 <= i < |ls| ==> 0 < |ls[i]| < 0xc0
  }

  /** Labels on the wire are read back, wherever they stand in a packet. */
  lemma {:induction false} DenoteWire(pre: seq<Byte>, ls: Labels, post: seq<Byte>)
    requires Encodable(ls)
    ensures var data := pre + Wire(ls) + post;
            && Denote(data, |pre|, |ls| + 1) == Some(ls)
            && InPlaceEnd(data, |pre|) == |pre| + |Wire(ls)|
    decreases |ls|
  {
    var data := pre + Wire(ls) + post;
    if ls == [] {
      assert data[|pre|] == 0;
    } else {
      var l, rest := ls[0], Wire(ls[1..]);
      assert ls == [l] + ls[1..];
      WireParts(pre, l, rest, post);
      DenoteWire(pre + [|l|] + l, ls[1..], post);
    }
  }

  lemma WireParts(pre: seq<Byte>, l: seq<Byte>, rest: seq<Byte>, post: seq<Byte>)
    requires 0 < |l| < 0xc0
    ensures var data := pre + ([|l| % 256] + l + rest) + post;
            && data == pre + [|l|] + l + rest + post
            && data[|pre|] == |l| && data[|pre| + 1..|pre| + 1 + |l|] == l
  {
    var head: seq<Byte> := [|l|];
    Assoc4(pre, head, l, rest);
    Parts(pre + head, l, rest + post);
    Assoc(pre + head + l, rest, post);
  }

  lemma {:induction false} JoinOfSplit(q: seq<Byte>)
    ensures Join(Split(q)) == q
    decreases |q|
  {
    var d := FirstDot(q);
    if d < |q| {
      JoinOfSplit(q[d + 1..]);
      Cons(q[..d], Split(q[d + 1..]));
      CutAround(q, d);
    }
  }

  lemma {:induction false} NoZeroInLabels(q: seq<Byte>)
    requires 0 !in q
    ensures forall l :: l in Split(q) ==> 0 !in l
    decreases |q|
  {
    var d := FirstDot(q);
    if d < |q| { NoZeroInLabels(q[d + 1..]); }
  }

  lemma {:induction false} CopiedPlain(ls: Labels)
    requires forall l :: l in ls ==> 0 !in l
    ensures Copied(ls) == ls
  {
    if ls != [] {
      StrNCpyPlain(ls[0]);
      CopiedPlain(ls[1..]);
    }
  }

  /** Decoding what was encoded gives the text up to the first empty label, which is the whole of it just
      when there is no empty label or no text. */
  lemma RoundTrip(q: seq<Byte>, pre: seq<Byte>, post: seq<Byte>)
    requires |q| <= MAX_DNS_NAME_LEN - 2 && 0 !in q && Encodable(UpToEmpty(Split(q)))
    ensures var ls := UpToEmpty(Split(q));
            var data := pre + Wire(ls) + post;
            && Ends(data, |pre|) && Text(data, |pre|) == Join(ls)
            && InPlaceEnd(data, |pre|) == |pre| + |Wire(ls)|
            && (Text(data, |pre|) == q <==> q == [] || [] !in Split(q))
  {
    var ls := UpToEmpty(Split(q));
    var data := pre + Wire(ls) + post;
    DenoteWire(pre, ls, post);
    LabelsUnique(data, |pre|, |ls| + 1);
    NoZeroInLabels(q);
    CopiedPlain(ls);
    JoinOfSplit(q);
    if ls == Split(q) {
      assert [] !in Split(q);
    } else if q != [] {
      assert Split(q)[|ls|] in Split(q);
      JoinShorter(Split(q), |ls|);
    } else {
      assert Split(q) == [[]];
    }
  }

  /** Leaving out labels makes the text shorter. */
  lemma {:induction false} JoinShorter(ls: Labels, n: nat)
    requires n < |ls| && (n > 0 || |ls| > 1 || ls[0] != [])
    ensures |Join(ls[..n])| < |Join(ls)|
    decreases |ls|
  {
    if n > 0 {
      assert ls[..n][0] == ls[0] && ls[..n][1..] == ls[1..][..n - 1];
      if n > 1 { JoinShorter(ls[1..], n - 1); }
    }
  }

  lemma SplitEmptyLabel(q: seq<Byte>)
    requires q == [97, DOT, DOT, 98]
    ensures UpToEmpty(Split(q)) == [[97]]
  {
    assert FirstDot(q) == 1 && q[..1] == [97];
    var rest := q[2..];
    assert rest == [DOT, 98] && FirstDot(rest) == 0;
    assert Split(rest)[0] == [];
    assert Split(q) == [[97]] + Split(rest);
  }

  /** The text "a..b" comes back as "a". */
  lemma EmptyLabelCuts(q: seq<Byte>, pre: seq<Byte>, post: seq<Byte>)
    requires q == [97, DOT, DOT, 98]
    ensures var data := pre + Wire(UpToEmpty(Split(q))) + post;
            Ends(data, |pre|) && Text(data, |pre|) == [97]
  {
    SplitEmptyLabel(q);
    RoundTrip(q, pre, post);
  }
}
