/** The Monte-Carlo planner: batches of random input sequences, each replayed
    by the simulator, with a doubling retry when no candidate survives
    (aster.js, function search). */
module Planner {
  import opened Numerics
  import opened Players
  import opened Asteroids
  import opened Simulator

  /** Look-ahead horizon, in steps, of the first batch. */
  const SimDuration: nat := 24
  /** Size of the first batch. */
  const SimCount: nat := 128
  /** Once the batch size passes this, the search stops retrying. */
  const RetryCap: nat := 10000
  /** The horizon is never shortened below this. */
  const MinDuration: nat := 4

  /** The random control of one step: thrust 0.1 + u/5 from one draw u,
      heading v * 2 * pi from the next draw v. */
  function DrawnInput(u: real, v: real): Input
  {
    Input(0.1 + u / 5.0, v * 2.0 * Pi)
  }

  /** A candidate of n steps built from the draws k, k+1, ..., k+2n-1, thrust
      first in each step. With draws in [0, 1), every thrust lies in
      [0.1, 0.3) and every heading in [0, 2 pi). */
  function Candidate(rand: nat -> real, k: nat, n: nat): (inputs: seq<Input>)
    ensures |inputs| == n
    ensures UnitDraws(rand) ==> forall j :: 0 <= j < n ==>
      0.1 <= inputs[j].thrust < 0.3 && 0.0 <= inputs[j].theta < 2.0 * Pi
  {
    seq(n, j requires 0 <= j < n => DrawnInput(rand(k + 2 * j), rand(k + 2 * j + 1)))
  }

  /** The batch size after n doublings. */
  function BatchSize(n: nat): (b: nat)
    ensures b >= SimCount
  {
    if n == 0 then SimCount else 2 * BatchSize(n - 1)
  }

  /** The index the n-th pass starts at: 0 for the first pass, but 1 for
      every restarted pass, because the restart sets the index to 0 just
      before the loop increments it. */
  function PassStart(n: nat): nat
  {
    if n == 0 then 0 else 1
  }

  /** How many candidates the n-th pass simulates. */
  function PassLength(n: nat): nat
  {
    BatchSize(n) - PassStart(n)
  }

  /** How many candidates the passes before the n-th simulate together. */
  function RunsBefore(n: nat): nat
  {
    if n == 0 then 0 else RunsBefore(n - 1) + PassLength(n - 1)
  }

  /** The retry arithmetic: six doublings keep the batch at most 8192, within
      the cap; the seventh reaches 16384 and passes it. */
  lemma {:induction false} BatchSizeBounds(n: nat)
    ensures n <= 6 ==> BatchSize(n) <= 8192
    ensures BatchSize(7) == 16384
    decreases n
  {
    if n > 0 {
      BatchSizeBounds(n - 1);
    }
    assert BatchSize(7) == 2 * BatchSize(6) == 4 * BatchSize(5) == 8 * BatchSize(4) == 16 * BatchSize(3);
  }

  /** Closed form of the work done: after n doublings the search has run
      2 * BatchSize(n) - 128 - n candidates, the "- n" being the index each
      restarted pass skips. */
  lemma {:induction false} TotalRuns(n: nat)
    ensures RunsBefore(n) + PassLength(n) == 2 * BatchSize(n) - SimCount - n
    decreases n
  {
    if n > 0 {
      TotalRuns(n - 1);
      BatchSizeBounds(n);
    }
  }

  /** The pass, from p on, that the j-th simulated candidate belongs to: the
      first whose runs reach past j. Pass 7 is the last, because its batch
      passes the cap. */
  function PassFrom(j: nat, p: nat): (q: nat)
    requires p <= 7
    ensures p <= q <= 7
    decreases 7 - p
  {
    if p == 7 || j < RunsBefore(p + 1) then p else PassFrom(j, p + 1)
  }

  /** The pass of the j-th simulated candidate, counting across restarts. */
  function PassOf(j: nat): nat
  {
    PassFrom(j, 0)
  }

  /** The horizon the j-th candidate is drawn with: that of its pass. */
  function HorizonOf(j: nat): (d: nat)
    ensures SimDuration - 7 <= d <= SimDuration
  {
    SimDuration - PassOf(j)
  }

  /** The draw the j-th candidate starts at: each candidate before it used
      up two draws per step of its horizon. */
  function OffsetOf(j: nat): nat
  {
    if j == 0 then 0 else OffsetOf(j - 1) + 2 * HorizonOf(j - 1)
  }

  lemma {:induction false} RunsBeforeGrows(p: nat, q: nat)
    requires p <= q
    ensures RunsBefore(p) <= RunsBefore(q)
    decreases q
  {
    if p < q {
      RunsBeforeGrows(p, q - 1);
    }
  }

  /** The candidates RunsBefore(n) up to the end of pass n belong to pass n,
      so they are drawn with its horizon SimDuration - n. */
  lemma PassOfRange(j: nat, n: nat)
    requires n <= 7 && RunsBefore(n) <= j && (n == 7 || j < RunsBefore(n + 1))
    ensures PassOf(j) == n && HorizonOf(j) == SimDuration - n
  {
    PassFromRange(j, 0, n);
  }

  lemma {:induction false} PassFromRange(j: nat, p: nat, n: nat)
    requires p <= n <= 7 && RunsBefore(n) <= j && (n == 7 || j < RunsBefore(n + 1))
    ensures PassFrom(j, p) == n
    decreases n - p
  {
    if p < n {
      RunsBeforeGrows(p + 1, n);
      PassFromRange(j, p + 1, n);
    }
  }

  /** The draw windows tile the random stream: candidate i's window, of
      2 * HorizonOf(i) draws from OffsetOf(i), ends at or before the start of
      every later candidate's window, so no draw is used twice. */
  lemma {:induction false} WindowsDisjoint(i: nat, j: nat)
    requires i < j
    ensures OffsetOf(i) + 2 * HorizonOf(i) <= OffsetOf(j)
    decreases j
  {
    if i < j - 1 {
      WindowsDisjoint(i, j - 1);
    }
  }

  /** What the search relies on from the simulator: on every non-empty
      input sequence it is defined, echoes the first input, records between
      one step and one step per input (all of them when it survives), and
      scores at most 0. */
  ghost predicate Shaped(r: SimResult, inputs: seq<Input>)
  {
    && |inputs| > 0
    && r.thrust == inputs[0].thrust && r.theta == inputs[0].theta
    && 1 <= |r.steps| <= |inputs|
    && (r.alive ==> |r.steps| == |inputs|)
    && r.score <= 0.0
  }

  ghost predicate WellShaped(sim: seq<Input> --> SimResult)
  {
    forall inputs :: |inputs| > 0 ==> sim.requires(inputs) && Shaped(sim(inputs), inputs)
  }

  lemma ShapedAt(sim: seq<Input> --> SimResult, inputs: seq<Input>)
    requires WellShaped(sim) && |inputs| > 0
    ensures sim.requires(inputs) && Shaped(sim(inputs), inputs)
  {
  }


  /** No result in rs survives. */
  ghost predicate NoneAlive(rs: seq<SimResult>)
  {
    forall j :: 0 <= j < |rs| ==> !rs[j].alive
  }

  /** Every surviving result in rs has lived d steps. */
  ghost predicate SurvivorsLast(rs: seq<SimResult>, d: nat)
  {
    forall j :: 0 <= j < |rs| && rs[j].alive ==> |rs[j].steps| == d
  }

  /** Result j is the simulation of the j-th candidate of the schedule:
      HorizonOf(j) steps drawn from OffsetOf(j) on. */
  ghost predicate Drawn(sim: seq<Input> --> SimResult, rand: nat -> real, rs: seq<SimResult>)
  {
    forall j :: 0 <= j < |rs| ==> Scheduled(sim, rand, j, rs[j])
  }

  /** r is the simulation of the j-th candidate of the schedule. */
  ghost predicate Scheduled(sim: seq<Input> --> SimResult, rand: nat -> real, j: nat, r: SimResult)
  {
    sim.requires(Candidate(rand, OffsetOf(j), HorizonOf(j))) && r == sim(Candidate(rand, OffsetOf(j), HorizonOf(j)))
  }

  lemma NoneAliveAppend(rs: seq<SimResult>, r: SimResult)
    requires NoneAlive(rs) && !r.alive
    ensures NoneAlive(rs + [r])
  {
    assert forall j :: 0 <= j < |rs| ==> (rs + [r])[j] == rs[j];
  }

  lemma NoneAlivePrefix(rs: seq<SimResult>, r: SimResult, m: nat)
    requires m <= |rs| && NoneAlive(rs[..m])
    ensures NoneAlive((rs + [r])[..m])
  {
    assert (rs + [r])[..m] == rs[..m];
  }

  lemma SurvivorsLastAppend(rs: seq<SimResult>, r: SimResult, d: nat)
    requires SurvivorsLast(rs, d) && (r.alive ==> |r.steps| == d)
    ensures SurvivorsLast(rs + [r], d)
  {
    assert forall j :: 0 <= j < |rs| ==> (rs + [r])[j] == rs[j];
  }

  /** k is where the draws of the candidate after those of rs start. */
  ghost predicate NextDraw(rs: seq<SimResult>, k: nat)
  {
    k == OffsetOf(|rs|)
  }

  lemma DrawnAppend(sim: seq<Input> --> SimResult, rand: nat -> real, rs: seq<SimResult>, k: nat, d: nat)
    requires Drawn(sim, rand, rs) && NextDraw(rs, k)
    requires d == HorizonOf(|rs|) && sim.requires(Candidate(rand, k, d))
    ensures Drawn(sim, rand, rs + [sim(Candidate(rand, k, d))])
    ensures NextDraw(rs + [sim(Candidate(rand, k, d))], k + 2 * d)
  {
    var rs' := rs + [sim(Candidate(rand, k, d))];
    assert forall j :: 0 <= j < |rs| ==> rs'[j] == rs[j];
  }

  /** Leaving a pass n < 7 doubles the batch, and the doubled batch passes
      the cap exactly when it is the seventh. */
  lemma NextPass(n: nat)
    requires n < 7
    ensures BatchSize(n + 1) == 2 * BatchSize(n)
    ensures BatchSize(n + 1) > RetryCap <==> n + 1 == 7
  {
    BatchSizeBounds(n + 1);
  }

  /** The passes before the n-th ran BatchSize(n) - 128 - n + PassStart(n)
      candidates. */
  lemma RunsBeforeClosed(n: nat)
    ensures RunsBefore(n) == BatchSize(n) - SimCount - n + PassStart(n)
  {
    TotalRuns(n);
  }

  /** The loop has ended in pass n, the earlier passes occupying
      results[..begin]: the postconditions of search. */
  lemma Finished(sim: seq<Input> --> SimResult, rand: nat -> real,
                 results: seq<SimResult>, simCount: nat, simDuration: nat,
                 n: nat, begin: nat, survivor: nat)
    requires WellShaped(sim) && UnitDraws(rand)
    requires n <= 7 && simCount == BatchSize(n) && simDuration == SimDuration - n
    requires |results| + SimCount + n == 2 * simCount
    requires begin + simCount == |results| + PassStart(n) && NoneAlive(results[..begin])
    requires n == 7 || (survivor < |results| && results[survivor].alive)
    requires SurvivorsLast(results, simDuration)
    requires Drawn(sim, rand, results)
    ensures |results| == RunsBefore(n) + PassLength(n)
    ensures forall j :: 0 <= j < RunsBefore(n) ==> !results[j].alive
    ensures SimCount <= simCount <= 16384
    ensures MinDuration <= SimDuration - 7 <= simDuration <= SimDuration
    ensures (exists j :: 0 <= j < |results| && results[j].alive) || simCount > RetryCap
    ensures SurvivorsLast(results, simDuration)
    ensures forall j :: 0 <= j < |results| ==>
      && 1 <= |results[j].steps| <= SimDuration
      && results[j].score <= 0.0
      && 0.1 <= results[j].thrust < 0.3
      && 0.0 <= results[j].theta < 2.0 * Pi
  {
    BatchSizeBounds(n);
    TotalRuns(n);
    RunsBeforeClosed(n);
    assert begin == RunsBefore(n);
    assert forall j :: 0 <= j < begin ==> results[..begin][j] == results[j];
    DrawnFacts(sim, rand, results);
  }

  /** What every drawn result inherits from the simulator and the draws. */
  lemma DrawnFacts(sim: seq<Input> --> SimResult, rand: nat -> real, rs: seq<SimResult>)
    requires WellShaped(sim) && UnitDraws(rand)
    requires Drawn(sim, rand, rs)
    ensures forall j :: 0 <= j < |rs| ==>
      && 1 <= |rs[j].steps| <= SimDuration
      && rs[j].score <= 0.0
      && 0.1 <= rs[j].thrust < 0.3
      && 0.0 <= rs[j].theta < 2.0 * Pi
  {
    forall j | 0 <= j < |rs|
      ensures 1 <= |rs[j].steps| <= SimDuration && rs[j].score <= 0.0
      ensures 0.1 <= rs[j].thrust < 0.3 && 0.0 <= rs[j].theta < 2.0 * Pi
    {
      var c := Candidate(rand, OffsetOf(j), HorizonOf(j));
      assert rs[j] == sim(c) && Shaped(sim(c), c);
    }
  }

  /** The local variables of search's loop: the results so far, batch size,
      horizon, the survivor flag, the loop index, and k, the index of the
      next random draw. */
  datatype Loop = Loop(results: seq<SimResult>, simCount: nat, simDuration: nat,
                       anyAlive: bool, i: nat, k: nat)

  /** Bookkeeping that exists only for the proof: n doublings so far, the
      earlier passes occupying results[..begin], and the index of a survivor. */
  datatype Books = Books(n: nat, begin: nat, survivor: nat)

  /** The invariant of search's loop: batch size and horizon belong to pass
      n; the run count has the closed form 128 + |results| + n == simCount +
      i; the earlier passes produced no survivor; the flag is set only once a
      result survived or the cap was passed, and while it is clear nothing
      has survived and the pass is not over; survivors have lived the
      current horizon; every result so far is the simulation of its
      scheduled candidate; and k is where the next candidate's draws start. */
  ghost predicate Looping(sim: seq<Input> --> SimResult, rand: nat -> real, s: Loop, b: Books)
  {
    && b.n <= 7 && s.simCount == BatchSize(b.n) && (b.n < 7 <==> s.simCount <= RetryCap)
    && s.simDuration == SimDuration - b.n
    && PassStart(b.n) <= s.i <= s.simCount
    && |s.results| + SimCount + b.n == s.simCount + s.i
    && b.begin + s.i == |s.results| + PassStart(b.n) && NoneAlive(s.results[..b.begin])
    && (s.anyAlive ==> b.n == 7 || (b.survivor < |s.results| && s.results[b.survivor].alive))
    && (!s.anyAlive ==> s.i < s.simCount && b.n < 7 && NoneAlive(s.results))
    && SurvivorsLast(s.results, s.simDuration)
    && Drawn(sim, rand, s.results)
    && NextDraw(s.results, s.k)
  }

  /** Within the loop, the next candidate is the next of the schedule: its
      pass is the current one, so the current horizon is its horizon. */
  lemma NextScheduled(sim: seq<Input> --> SimResult, rand: nat -> real, s: Loop, b: Books)
    requires Looping(sim, rand, s, b) && s.i < s.simCount
    ensures s.simDuration == HorizonOf(|s.results|)
  {
    TotalRuns(b.n);
    RunsBeforeClosed(b.n);
    PassOfRange(|s.results|, b.n);
  }

  /** A turn that does not end a pass without survivor: the candidate is
      simulated and appended and the index moves on. */
  lemma Appended(sim: seq<Input> --> SimResult, rand: nat -> real, s: Loop, b: Books, result: SimResult)
    requires Looping(sim, rand, s, b) && s.i < s.simCount
    requires sim.requires(Candidate(rand, s.k, s.simDuration)) && result == sim(Candidate(rand, s.k, s.simDuration))
    requires Shaped(result, Candidate(rand, s.k, s.simDuration))
    requires s.anyAlive || result.alive || s.i + 1 < s.simCount
    ensures Looping(sim, rand,
      Loop(s.results + [result], s.simCount, s.simDuration, s.anyAlive || result.alive, s.i + 1, s.k + 2 * s.simDuration),
      Books(b.n, b.begin, if result.alive then |s.results| else b.survivor))
  {
    NextScheduled(sim, rand, s, b);
    if !s.anyAlive && !result.alive {
      NoneAliveAppend(s.results, result);
    }
    NoneAlivePrefix(s.results, result, b.begin);
    SurvivorsLastAppend(s.results, result, s.simDuration);
    DrawnAppend(sim, rand, s.results, s.k, s.simDuration);
  }

  /** The turn that ends a pass with no survivor: after the candidate is
      appended, the restart (index back to 0 and then incremented, batch
      doubled, flag forced once the batch passes the cap, horizon shortened
      while above 4) begins pass n + 1. */
  lemma Restarted(sim: seq<Input> --> SimResult, rand: nat -> real, s: Loop, b: Books, result: SimResult)
    requires Looping(sim, rand, s, b) && s.i < s.simCount
    requires sim.requires(Candidate(rand, s.k, s.simDuration)) && result == sim(Candidate(rand, s.k, s.simDuration))
    requires !s.anyAlive && !result.alive && s.i == s.simCount - 1
    ensures Looping(sim, rand,
      Loop(s.results + [result], s.simCount * 2,
           if s.simDuration > MinDuration then s.simDuration - 1 else s.simDuration,
           s.simCount * 2 > RetryCap, 0 + 1, s.k + 2 * s.simDuration),
      Books(b.n + 1, |s.results + [result]|, b.survivor))
  {
    NextScheduled(sim, rand, s, b);
    var rs := s.results + [result];
    NoneAliveAppend(s.results, result);
    DeadHaveNoSurvivors(rs, s.simDuration - 1);
    DrawnAppend(sim, rand, s.results, s.k, s.simDuration);
    NextPass(b.n);
    assert rs[..|rs|] == rs;
    assert s.simDuration > MinDuration;
    assert |rs| + SimCount + (b.n + 1) == s.simCount * 2 + 1;
  }

  lemma DeadHaveNoSurvivors(rs: seq<SimResult>, d: nat)
    requires NoneAlive(rs)
    ensures SurvivorsLast(rs, d)
  {
  }

  /** One turn of search's loop: simulate the candidate drawn from the next
      2 * simDuration draws, record it, and when the pass has ended with no
      survivor restart with twice the batch and a shorter horizon; then
      advance the index. The invariant is kept and the loop progresses:
      either a doubling happened or the index moved closer to the end; the
      turn appends exactly the simulation of the next candidate and consumes
      its 2 * simDuration draws. */
  method Turn(sim: seq<Input> --> SimResult, rand: nat -> real, s: Loop, ghost b: Books)
    returns (t: Loop, ghost c: Books)
    requires var c := Candidate(rand, s.k, s.simDuration); sim.requires(c) && Shaped(sim(c), c)
    requires Looping(sim, rand, s, b) && s.i < s.simCount
    ensures Looping(sim, rand, t, c)
    ensures b.n < c.n || (c.n == b.n && t.simCount - t.i < s.simCount - s.i)
    ensures t.results == s.results + [sim(Candidate(rand, s.k, s.simDuration))]
    ensures t.k == s.k + 2 * s.simDuration
  {
    var inputs := Candidate(rand, s.k, s.simDuration);
    var result := sim(inputs);
    var anyAlive := s.anyAlive;
    ghost var survivor := b.survivor;
    if result.alive {
      anyAlive := true;
      survivor := |s.results|;
    }
    var results := s.results + [result];
    var k := s.k + 2 * s.simDuration;
    var i, simCount, simDuration := s.i, s.simCount, s.simDuration;
    ghost var n, begin := b.n, b.begin;
    if !anyAlive && i == simCount - 1 {
      Restarted(sim, rand, s, b, result);
      i := 0;
      simCount := simCount * 2;
      if simCount > RetryCap {
        anyAlive := true;
      }
      if simDuration > MinDuration {
        simDuration := simDuration - 1;
      }
      n, begin := n + 1, |results|;
    } else {
      Appended(sim, rand, s, b, result);
    }
    i := i + 1;
    t := Loop(results, simCount, simDuration, anyAlive, i, k);
    c := Books(n, begin, survivor);
  }

  /** The loop of search: turns until the index reaches the batch size. On
      return, for the bookkeeping b: batch size and horizon are those of pass
      b.n; results holds 2 * simCount - 128 - b.n entries of which the first
      b.begin, the earlier passes, are all dead; unless the cap was reached,
      a result survived; survivors have lived the final horizon; and result
      j is the simulation of the j-th scheduled candidate, HorizonOf(j)
      steps drawn from OffsetOf(j) on. */
  method Passes(sim: seq<Input> --> SimResult, rand: nat -> real)
    returns (results: seq<SimResult>, simCount: nat, simDuration: nat, ghost b: Books)
    requires WellShaped(sim)
    ensures b.n <= 7 && simCount == BatchSize(b.n) && simDuration == SimDuration - b.n
    ensures |results| + SimCount + b.n == 2 * simCount
    ensures b.begin + simCount == |results| + PassStart(b.n) && NoneAlive(results[..b.begin])
    ensures b.n == 7 || (b.survivor < |results| && results[b.survivor].alive)
    ensures SurvivorsLast(results, simDuration)
    ensures Drawn(sim, rand, results)
  {
    var s := Loop([], SimCount, SimDuration, false, 0, 0);
    b := Books(0, 0, 0);
    while s.i < s.simCount
      invariant Looping(sim, rand, s, b)
      decreases 7 - b.n, s.simCount - s.i
    {
      ShapedAt(sim, Candidate(rand, s.k, s.simDuration));
      s, b := Turn(sim, rand, s, b);
    }
    results, simCount, simDuration := s.results, s.simCount, s.simDuration;
  }

  /** search, for a simulator given as a function of the input sequence. On
      return: simCount and simDuration are the final batch size and horizon,
      reached after n doublings; the results are those of the n earlier
      passes followed by the final one, and nothing before the final pass
      survived; either some result survived or the cap was reached; every
      survivor has lived the full final horizon; and result j is the
      simulation of the j-th scheduled candidate: consecutive draw windows,
      each with the horizon of its pass. */
  method SearchWith(sim: seq<Input> --> SimResult, rand: nat -> real)
    returns (results: seq<SimResult>, simCount: nat, simDuration: nat)
    requires WellShaped(sim)
    requires UnitDraws(rand)
    ensures exists n :: (0 <= n <= 7 && simCount == BatchSize(n) && simDuration == SimDuration - n
      && |results| == RunsBefore(n) + PassLength(n)
      && (forall j :: 0 <= j < RunsBefore(n) ==> !results[j].alive))
    ensures SimCount <= simCount <= 16384
    ensures MinDuration <= SimDuration - 7 <= simDuration <= SimDuration
    ensures (exists j :: 0 <= j < |results| && results[j].alive) || simCount > RetryCap
    ensures SurvivorsLast(results, simDuration)
    ensures forall j :: 0 <= j < |results| ==>
      && 1 <= |results[j].steps| <= SimDuration
      && results[j].score <= 0.0
      && 0.1 <= results[j].thrust < 0.3
      && 0.0 <= results[j].theta < 2.0 * Pi
    ensures Drawn(sim, rand, results)
  {
    ghost var b;
    results, simCount, simDuration, b := Passes(sim, rand);
    Finished(sim, rand, results, simCount, simDuration, b.n, b.begin, b.survivor);
  }

  /** The pass structure in closed form, read off the final batch size and
      horizon: the horizon fixes how many restarts there were, the batch
      size is the doubled one, the results number twice the batch less the
      first batch and one per restart, and all but the last pass died. */
  lemma PassCounts(results: seq<SimResult>, simCount: nat, simDuration: nat)
    requires exists n :: (0 <= n <= 7 && simCount == BatchSize(n) && simDuration == SimDuration - n
      && |results| == RunsBefore(n) + PassLength(n)
      && (forall j :: 0 <= j < RunsBefore(n) ==> !results[j].alive))
    ensures SimDuration - 7 <= simDuration <= SimDuration
    ensures simCount == BatchSize(SimDuration - simDuration)
    ensures |results| == 2 * simCount - SimCount - (SimDuration - simDuration)
    ensures forall j :: 0 <= j < |results| - PassLength(SimDuration - simDuration) ==> !results[j].alive
  {
    var n :| 0 <= n <= 7 && simCount == BatchSize(n) && simDuration == SimDuration - n
      && |results| == RunsBefore(n) + PassLength(n)
      && (forall j :: 0 <= j < RunsBefore(n) ==> !results[j].alive);
    TotalRuns(n);
  }

  /** Results drawn through a simulator that agrees with Simulate on the
      given world are Simulate's results on the scheduled candidates. */
  lemma Simulated(m: Maths, player: Player, asteroids: seq<Asteroid>, rand: nat -> real,
                  sim: seq<Input> --> SimResult, results: seq<SimResult>)
    requires ValidSqrt(m.sqrt)
    requires forall inputs :: |inputs| > 0 ==> sim.requires(inputs) && sim(inputs) == Simulate(m, player, asteroids, inputs)
    requires Drawn(sim, rand, results)
    ensures forall j :: 0 <= j < |results| ==>
      results[j] == Simulate(m, player, asteroids, Candidate(rand, OffsetOf(j), HorizonOf(j)))
  {
    forall j | 0 <= j < |results|
      ensures results[j] == Simulate(m, player, asteroids, Candidate(rand, OffsetOf(j), HorizonOf(j)))
    {
      assert Scheduled(sim, rand, j, results[j]);
    }
  }

  /** search itself: the planner's simulator replays each candidate on the
      current player and asteroids. */
  method Search(m: Maths, player: Player, asteroids: seq<Asteroid>, rand: nat -> real)
    returns (results: seq<SimResult>, simCount: nat, simDuration: nat)
    requires ValidSqrt(m.sqrt)
    requires UnitDraws(rand)
    ensures SimCount <= simCount <= 16384
    ensures SimDuration - 7 <= simDuration <= SimDuration
    ensures simCount == BatchSize(SimDuration - simDuration)
    ensures |results| == 2 * simCount - SimCount - (SimDuration - simDuration)
    ensures forall j :: 0 <= j < |results| - PassLength(SimDuration - simDuration) ==> !results[j].alive
    ensures (exists j :: 0 <= j < |results| && results[j].alive) || simCount > RetryCap
    ensures forall j :: 0 <= j < |results| && results[j].alive ==> |results[j].steps| == simDuration
    ensures forall j :: 0 <= j < |results| ==>
      1 <= |results[j].steps| <= SimDuration && 0.1 <= results[j].thrust < 0.3 && 0.0 <= results[j].theta < 2.0 * Pi
    ensures forall j :: 0 <= j < |results| ==>
      results[j] == Simulate(m, player, asteroids, Candidate(rand, OffsetOf(j), HorizonOf(j)))
  {
    var sim := (inputs: seq<Input>) requires ValidSqrt(m.sqrt) && |inputs| > 0 =>
      Simulate(m, player, asteroids, inputs);
    results, simCount, simDuration := SearchWith(sim, rand);
    PassCounts(results, simCount, simDuration);
    Simulated(m, player, asteroids, rand, sim, results);
  }
}
