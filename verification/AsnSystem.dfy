/** Many threads that look up AS numbers and share a cache, in any interleaving of their steps. */
module AsnSystem {
  import opened Bytes
  import opened AddressBits
  import opened Seqs
  import opened AsnCache
  import opened AsnWorker

  datatype System = System(cache: Known, workers: seq<Worker>)

  /** A step of one of the threads. */
  datatype Move = Move(who: nat, act: Action)

  predicate Enabled(s: System, m: Move) {
    m.who < |s.workers| && Legal(s.workers[m.who], m.act)
  }

  function Next(s: System, m: Move, parse: Parser): System
    requires Enabled(s, m)
  {
    var (w, cache) := Act(s.workers[m.who], s.cache, m.act, parse);
    System(cache, s.workers[m.who := w])
  }

  predicate Possible(s: System, run: seq<Move>, parse: Parser)
    decreases |run|
  {
    run == [] || (Enabled(s, run[0]) && Possible(Next(s, run[0], parse), run[1..], parse))
  }

  function After(s: System, run: seq<Move>, parse: Parser): System
    requires Possible(s, run, parse)
    decreases |run|
  {
    if run == [] then s else After(Next(s, run[0], parse), run[1..], parse)
  }

  /** What a thread is given: its list of addresses, and the replies that its connection will bring. */
  datatype Job = Job(todo: seq<Address>, replies: seq<Byte>)

  function BeginAll(cache: Known, jobs: seq<Job>): System {
    System(cache, seq(|jobs|, i requires 0 <= i < |jobs| => Begin(jobs[i].todo, jobs[i].replies)))
  }

  // ---------------------------------------------------------------- the invariant

  ghost predicate Good(w: Worker, job: Job, parse: Parser, oracle: Oracle) {
    Accounted(w) && Truthful(w, parse, oracle) && Covers(w, Members(Prefixes(job.todo)))
  }

  ghost predicate Inv(s: System, jobs: seq<Job>, parse: Parser, oracle: Oracle) {
    && Faithful(s.cache, oracle)
    && |s.workers| == |jobs|
    && forall i :: 0 <= i < |jobs| ==> Good(s.workers[i], jobs[i], parse, oracle)
  }

  /** The jobs hold no prefix twice, and the replies tell what the whois server knows. */
  ghost predicate Honest(jobs: seq<Job>, parse: Parser, oracle: Oracle) {
    forall i :: 0 <= i < |jobs| ==> Distinct(Prefixes(jobs[i].todo)) && ToldBy(jobs[i].replies, parse, oracle)
  }

  lemma BeginGood(job: Job, parse: Parser, oracle: Oracle)
    requires Distinct(Prefixes(job.todo)) && ToldBy(job.replies, parse, oracle)
    ensures Good(Begin(job.todo, job.replies), job, parse, oracle)
  {
    assert [] + job.replies == job.replies;
    var none: seq<Prefix> := [];
    assert none + Prefixes(job.todo) == Prefixes(job.todo);
    assert Members(none) == {};
  }

  lemma BeginInv(cache: Known, jobs: seq<Job>, parse: Parser, oracle: Oracle)
    requires Faithful(cache, oracle) && Honest(jobs, parse, oracle)
    ensures Inv(BeginAll(cache, jobs), jobs, parse, oracle)
  {
    forall i | 0 <= i < |jobs|
      ensures Good(BeginAll(cache, jobs).workers[i], jobs[i], parse, oracle)
    {
      BeginGood(jobs[i], parse, oracle);
    }
  }

  lemma ActGood(w: Worker, cache: Known, act: Action, job: Job, parse: Parser, oracle: Oracle)
    requires Legal(w, act) && Good(w, job, parse, oracle) && Faithful(cache, oracle)
    ensures Good(Act(w, cache, act, parse).0, job, parse, oracle) && Faithful(Act(w, cache, act, parse).1, oracle)
  {
    ActDescends(w, cache, act, parse);
    ActTruthful(w, cache, act, parse, oracle);
    ActCovers(w, cache, act, parse, Members(Prefixes(job.todo)));
  }

  lemma NextInv(s: System, m: Move, jobs: seq<Job>, parse: Parser, oracle: Oracle)
    requires Inv(s, jobs, parse, oracle) && Enabled(s, m)
    ensures Inv(Next(s, m, parse), jobs, parse, oracle)
  {
    ActGood(s.workers[m.who], s.cache, m.act, jobs[m.who], parse, oracle);
  }

  lemma {:induction false} AlwaysInv(s: System, run: seq<Move>, jobs: seq<Job>, parse: Parser, oracle: Oracle)
    requires Inv(s, jobs, parse, oracle) && Possible(s, run, parse)
    ensures Inv(After(s, run, parse), jobs, parse, oracle)
    decreases |run|
  {
    if run != [] {
      NextInv(s, run[0], jobs, parse, oracle);
      AlwaysInv(Next(s, run[0], parse), run[1..], jobs, parse, oracle);
    }
  }

  // ---------------------------------------------------------------- the theorems

  /** Whatever the interleaving, the cache and all results hold only what the whois server knows, and
      outstanding requests always have a live connection and are the requests sent less the answers
      taken. */
  lemma OnlyTrueValues(cache: Known, jobs: seq<Job>, run: seq<Move>, parse: Parser, oracle: Oracle)
    requires Faithful(cache, oracle) && Honest(jobs, parse, oracle)
    requires Possible(BeginAll(cache, jobs), run, parse)
    ensures var s := After(BeginAll(cache, jobs), run, parse);
            && Faithful(s.cache, oracle) && |s.workers| == |jobs|
            && forall i :: 0 <= i < |jobs| ==>
                 var w := s.workers[i];
                 && Faithful(w.result, oracle)
                 && (w.outstanding > 0 ==> w.whois == Live)
                 && (w.whois == Live ==> w.outstanding == |w.sent| - |w.answered|)
  {
    BeginInv(cache, jobs, parse, oracle);
    AlwaysInv(BeginAll(cache, jobs), run, jobs, parse, oracle);
    var s := After(BeginAll(cache, jobs), run, parse);
    assert forall i :: 0 <= i < |jobs| ==> Good(s.workers[i], jobs[i], parse, oracle);
  }

  /** A thread that is done, had no failure and got at most one answer to each request has exactly what
      the whois server knows of the prefixes on its list. */
  lemma ExactResults(cache: Known, jobs: seq<Job>, run: seq<Move>, parse: Parser, oracle: Oracle, i: nat)
    requires Faithful(cache, oracle) && Honest(jobs, parse, oracle) && i < |jobs|
    requires Possible(BeginAll(cache, jobs), run, parse)
    ensures var s := After(BeginAll(cache, jobs), run, parse);
            i < |s.workers| &&
            (s.workers[i].place == Done && !s.workers[i].failed && OneAnswerEach(s.workers[i]) ==>
               s.workers[i].result == map p | p in Members(Prefixes(jobs[i].todo)) :: oracle(p))
  {
    BeginInv(cache, jobs, parse, oracle);
    AlwaysInv(BeginAll(cache, jobs), run, jobs, parse, oracle);
    var w := After(BeginAll(cache, jobs), run, parse).workers[i];
    assert Good(w, jobs[i], parse, oracle);
    if w.place == Done && !w.failed && OneAnswerEach(w) {
      CompleteResult(w, parse, oracle, Members(Prefixes(jobs[i].todo)));
    }
  }

  /** No thread empties the cache. */
  predicate NoRefresh(run: seq<Move>) {
    forall i :: 0 <= i < |run| ==> run[i].act != Refresh(true)
  }

  ghost predicate AllCached(s: System) {
    forall i :: 0 <= i < |s.workers| ==> s.workers[i].result.Keys <= s.cache.Keys
  }

  /** As long as no thread empties the cache, it loses nothing and has all that any thread has found. */
  lemma {:induction false} ResultsAreShared(s: System, run: seq<Move>, parse: Parser)
    requires AllCached(s) && Possible(s, run, parse) && NoRefresh(run)
    ensures AllCached(After(s, run, parse)) && s.cache.Keys <= After(s, run, parse).cache.Keys
    decreases |run|
  {
    if run != [] {
      ActCaches(s.workers[run[0].who], s.cache, run[0].act, parse);
      ResultsAreShared(Next(s, run[0], parse), run[1..], parse);
    }
  }

  function RankSum(ws: seq<Worker>): nat {
    if ws == [] then 0 else Rank(ws[0]) + RankSum(ws[1..])
  }

  lemma {:induction false} RankSumUpdate(ws: seq<Worker>, i: nat, w: Worker)
    requires i < |ws|
    ensures RankSum(ws[i := w]) == RankSum(ws) - Rank(ws[i]) + Rank(w)
  {
    if i == 0 {
      assert ws[0 := w][1..] == ws[1..];
    } else {
      assert ws[i := w][1..] == ws[1..][i - 1 := w];
      RankSumUpdate(ws[1..], i - 1, w);
    }
  }

  ghost predicate AllAccounted(s: System) {
    forall i :: 0 <= i < |s.workers| ==> Accounted(s.workers[i])
  }

  lemma NextDescends(s: System, m: Move, parse: Parser)
    requires AllAccounted(s) && Enabled(s, m)
    ensures AllAccounted(Next(s, m, parse)) && RankSum(Next(s, m, parse).workers) < RankSum(s.workers)
  {
    ActDescends(s.workers[m.who], s.cache, m.act, parse);
    RankSumUpdate(s.workers, m.who, Act(s.workers[m.who], s.cache, m.act, parse).0);
  }

  /** No run is longer than the lists and the replies allow, and a run that cannot go on has brought
      every thread to its end. */
  lemma {:induction false} RunsEnd(s: System, run: seq<Move>, parse: Parser)
    requires AllAccounted(s) && Possible(s, run, parse)
    ensures |run| + RankSum(After(s, run, parse).workers) <= RankSum(s.workers)
    ensures var s' := After(s, run, parse);
            (forall m :: !Enabled(s', m)) <==> forall i :: 0 <= i < |s'.workers| ==> s'.workers[i].place == Done
    decreases |run|
  {
    if run == [] {
      StuckIffDone(s);
    } else {
      NextDescends(s, run[0], parse);
      RunsEnd(Next(s, run[0], parse), run[1..], parse);
    }
  }

  lemma StuckIffDone(s: System)
    ensures (forall m :: !Enabled(s, m)) <==> forall i :: 0 <= i < |s.workers| ==> s.workers[i].place == Done
  {
    forall i | 0 <= i < |s.workers| && s.workers[i].place != Done
      ensures exists m :: Enabled(s, m)
    {
      CanStep(s.workers[i]);
      var act :| Legal(s.workers[i], act);
      assert Enabled(s, Move(i, act));
    }
  }
}
