/** When the cache of AS numbers is emptied: at the first check after a deadline that each time is set
    anew. */
module AsnRefresh {

  const MIN_ASN_CACHE_REFRESH := 86400
  const MAX_ASN_CACHE_REFRESH_OFFSET := 3600

  /** A check: the clock when the deadline is looked at and when it is set anew, and the random number. */
  datatype Check = Check(now: int, later: int, random: nat)

  predicate Due(deadline: int, c: Check) {
    c.now > deadline
  }

  function Next(deadline: int, c: Check): int {
    if Due(deadline, c) then c.later + MIN_ASN_CACHE_REFRESH + c.random % MAX_ASN_CACHE_REFRESH_OFFSET else deadline
  }

  /** The deadline after some checks. */
  function After(deadline: int, cs: seq<Check>): int {
    if cs == [] then deadline else Next(After(deadline, cs[..|cs| - 1]), cs[|cs| - 1])
  }

  /** A check empties the cache. */
  predicate Clears(deadline: int, cs: seq<Check>, i: nat)
    requires i < |cs|
  {
    Due(After(deadline, cs[..i]), cs[i])
  }

  /** The clock does not run back within a check or from one to the next. */
  predicate InOrder(cs: seq<Check>) {
    && (forall i :: 0 <= i < |cs| ==> cs[i].now <= cs[i].later)
    && (forall i, j :: 0 <= i < j < |cs| ==> cs[i].later <= cs[j].now)
  }

  lemma OneMore(deadline: int, cs: seq<Check>, i: nat)
    requires i < |cs|
    ensures After(deadline, cs[..i + 1]) == Next(After(deadline, cs[..i]), cs[i])
  {
    assert cs[..i + 1][..i] == cs[..i];
  }

  /** Once emptied, the cache is not due again for a day. */
  lemma {:induction false} DeadlineHolds(deadline: int, cs: seq<Check>, i: nat, j: nat)
    requires InOrder(cs) && i < j <= |cs| && Clears(deadline, cs, i)
    ensures After(deadline, cs[..j]) >= cs[i].later + MIN_ASN_CACHE_REFRESH
    decreases j
  {
    OneMore(deadline, cs, j - 1);
    if i < j - 1 { DeadlineHolds(deadline, cs, i, j - 1); }
  }

  /** Over any sequence of checks by any threads, more than a day lies between two times that the cache is
      emptied. */
  lemma ClearsApart(deadline: int, cs: seq<Check>, i: nat, j: nat)
    requires InOrder(cs) && i < j < |cs| && Clears(deadline, cs, i) && Clears(deadline, cs, j)
    ensures cs[j].now > cs[i].later + MIN_ASN_CACHE_REFRESH
  {
    DeadlineHolds(deadline, cs, i, j);
  }

  /** As long as it is not emptied again, less than a day and an hour has passed. */
  lemma {:induction false} ClearedInTime(deadline: int, cs: seq<Check>, i: nat, j: nat)
    requires i < j < |cs| && Clears(deadline, cs, i)
    requires forall k :: i < k <= j ==> !Clears(deadline, cs, k)
    ensures cs[j].now < cs[i].later + MIN_ASN_CACHE_REFRESH + MAX_ASN_CACHE_REFRESH_OFFSET
  {
    DeadlineStays(deadline, cs, i, j);
    assert !Clears(deadline, cs, j);
  }

  lemma {:induction false} DeadlineStays(deadline: int, cs: seq<Check>, i: nat, j: nat)
    requires i < j <= |cs| && Clears(deadline, cs, i)
    requires forall k :: i < k < j ==> !Clears(deadline, cs, k)
    ensures After(deadline, cs[..j]) < cs[i].later + MIN_ASN_CACHE_REFRESH + MAX_ASN_CACHE_REFRESH_OFFSET
    decreases j
  {
    OneMore(deadline, cs, j - 1);
    if i < j - 1 {
      DeadlineStays(deadline, cs, i, j - 1);
      assert !Clears(deadline, cs, j - 1);
    }
  }
}
