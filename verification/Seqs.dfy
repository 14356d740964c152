/** Facts about sequences, stated once so that proofs can name the ones they need. */
module Seqs {

  lemma Cons<T>(x: T, s: seq<T>)
    ensures ([x] + s)[0] == x && ([x] + s)[1..] == s
  {
  }

  lemma Assoc<T>(a: seq<T>, b: seq<T>, c: seq<T>)
    ensures a + (b + c) == a + b + c
  {
  }

  lemma Assoc4<T>(a: seq<T>, b: seq<T>, c: seq<T>, d: seq<T>)
    ensures a + (b + c + d) == a + b + c + d
  {
  }

  lemma LastApart<T>(s: seq<T>)
    requires s != []
    ensures s[..|s| - 1] + [s[|s| - 1]] == s
  {
  }

  /** A sequence, cut around one of its elements. */
  lemma CutAround<T>(s: seq<T>, i: nat)
    requires i < |s|
    ensures s[..i] + [s[i]] + s[i + 1..] == s
  {
  }

  /** Where the parts of a concatenation are. */
  lemma Parts<T>(a: seq<T>, b: seq<T>, c: seq<T>)
    ensures (a + b + c)[..|a|] == a
    ensures (a + b + c)[|a|..|a| + |b|] == b
    ensures (a + b + c)[|a| + |b|..] == c
  {
  }

  lemma ThreeParts<T>(s: seq<T>, i: nat, j: nat)
    requires i <= j <= |s|
    ensures s == s[..i] + s[i..j] + s[j..]
  {
  }

  /** `part` stands in `s` at a place. */
  ghost predicate Holds<T>(s: seq<T>, pos: nat, part: seq<T>) {
    pos + |part| <= |s| && s[pos..pos + |part|] == part
  }

  /** A concatenation stands where its parts stand one after the other. */
  lemma HoldsBoth<T>(s: seq<T>, pos: nat, a: seq<T>, b: seq<T>)
    ensures Holds(s, pos, a + b) <==> Holds(s, pos, a) && Holds(s, pos + |a|, b)
  {
    if pos + |a| + |b| <= |s| {
      var part := s[pos..pos + |a| + |b|];
      assert part[..|a|] == s[pos..pos + |a|] && part[|a|..] == s[pos + |a|..pos + |a| + |b|];
      assert part == part[..|a|] + part[|a|..];
      assert (a + b)[..|a|] == a && (a + b)[|a|..] == b;
    }
  }

  lemma HoldsAt<T>(s: seq<T>, pos: nat, part: seq<T>, i: nat)
    requires Holds(s, pos, part) && i < |part|
    ensures s[pos + i] == part[i]
  {
    assert s[pos..pos + |part|][i] == part[i];
  }

  lemma HoldsSlice<T>(s: seq<T>, part: seq<T>, i: nat, j: nat)
    requires Holds(s, 0, part) && i <= j <= |part|
    ensures s[i..j] == part[i..j]
  {
    assert s[..|part|][i..j] == s[i..j];
  }

  lemma PrefixBehind<T>(head: seq<T>, q: seq<T>, w: seq<T>)
    requires q <= w
    ensures head + q <= head + w
  {
  }

  function Reversed<T>(s: seq<T>): (r: seq<T>)
    ensures |r| == |s| && forall i :: 0 <= i < |s| ==> r[i] == s[|s| - 1 - i]
  {
    if s == [] then [] else Reversed(s[1..]) + [s[0]]
  }

  ghost predicate Distinct<T>(s: seq<T>) {
    forall i, j :: 0 <= i < j < |s| ==> s[i] != s[j]
  }

  /** There are at most `n` different numbers below `n`. */
  lemma {:induction false} Pigeonhole(s: seq<nat>, n: nat)
    requires Distinct(s) && forall i :: 0 <= i < |s| ==> s[i] < n
    ensures |s| <= n
    decreases n
  {
    assert |s| > 0 ==> s[0] < n;
    if n > 0 {
      if k :| 0 <= k < |s| && s[k] == n - 1 {
        var rest := s[..k] + s[k + 1..];
        forall i | 0 <= i < |rest|
          ensures rest[i] < n - 1
        {
          assert rest[i] == s[if i < k then i else i + 1];
        }
        DistinctWithout(s, k);
        Pigeonhole(rest, n - 1);
      } else {
        Pigeonhole(s, n - 1);
      }
    }
  }

  lemma DistinctWithout<T>(s: seq<T>, k: nat)
    requires Distinct(s) && k < |s|
    ensures Distinct(s[..k] + s[k + 1..])
  {
    var rest := s[..k] + s[k + 1..];
    forall i, j | 0 <= i < j < |rest|
      ensures rest[i] != rest[j]
    {
      assert rest[i] == s[if i < k then i else i + 1] && rest[j] == s[if j < k then j else j + 1];
    }
  }
}
