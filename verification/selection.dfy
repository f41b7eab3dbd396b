/** Choosing the frame's control from the search results (aster.js, the
    selection block of draw): the results are sorted by score, best first,
    and the control is the first input of the first surviving result that
    got furthest; with no surviving result the ship coasts. */
module Selection {
  import opened Numerics
  import opened Players
  import opened Asteroids
  import opened Simulator
  import opened Planner

  /** The control the frame applies: an absolute heading and a thrust. */
  datatype Action = Action(theta: real, thrust: real)

  /** What draw applies when nothing better is found. */
  const Coast: Action := Action(0.0, 0.0)

  function ActionOf(r: SimResult): Action
  {
    Action(r.theta, r.thrust)
  }

  /** Best score first. */
  predicate Descending(s: seq<SimResult>)
  {
    forall i, j :: 0 <= i < j < |s| ==> s[i].score >= s[j].score
  }

  /** The results of score v, in the order they appear in s. */
  function WithScore(s: seq<SimResult>, v: real): seq<SimResult>
  {
    if |s| == 0 then []
    else (if s[0].score == v then [s[0]] else []) + WithScore(s[1..], v)
  }

  /** Inserts x in front of the first element scoring no more than x, so that
      x stays ahead of the ties it preceded in the input. */
  function Insert(x: SimResult, s: seq<SimResult>): (r: seq<SimResult>)
    ensures multiset(r) == multiset(s) + multiset{x}
    ensures Descending(s) ==> Descending(r)
  {
    if |s| == 0 then [x]
    else if s[0].score <= x.score then [x] + s
    else
      var rest := Insert(x, s[1..]);
      assert s == [s[0]] + s[1..];
      HeadThenInserted(s, x, rest);
      [s[0]] + rest
  }

  /** Every element of the insertion into the tail scores no more than the
      head, so the head may stay in front. */
  lemma HeadThenInserted(s: seq<SimResult>, x: SimResult, rest: seq<SimResult>)
    requires |s| > 0 && x.score < s[0].score
    requires multiset(rest) == multiset(s[1..]) + multiset{x}
    requires Descending(s[1..]) ==> Descending(rest)
    ensures Descending(s) ==> Descending([s[0]] + rest)
  {
    if Descending(s) {
      forall k | 0 <= k < |rest|
        ensures rest[k].score <= s[0].score
      {
        assert rest[k] in multiset(rest);
        if rest[k] != x {
          assert rest[k] in multiset(s[1..]);
          var j :| 0 <= j < |s[1..]| && s[1..][j] == rest[k];
          assert s[j + 1] == rest[k];
        }
      }
      assert Descending(s[1..]);
      var r := [s[0]] + rest;
      forall i, j | 0 <= i < j < |r|
        ensures r[i].score >= r[j].score
      {
        assert r[j] == rest[j - 1];
        if i > 0 {
          assert r[i] == rest[i - 1];
        }
      }
    }
  }

  /** The sort in draw, with comparator b.score - a.score: a stable sort by
      descending score (the results are sorted in place; the model returns
      the sorted sequence). */
  function SortByScore(s: seq<SimResult>): (r: seq<SimResult>)
    ensures multiset(r) == multiset(s)
    ensures Descending(r)
  {
    if |s| == 0 then []
    else
      assert s == [s[0]] + s[1..];
      Insert(s[0], SortByScore(s[1..]))
  }

  /** Insertion keeps the relative order of equal scores, x going first. */
  lemma {:induction false} InsertKeepsTies(x: SimResult, s: seq<SimResult>, v: real)
    ensures WithScore(Insert(x, s), v) == (if x.score == v then [x] else []) + WithScore(s, v)
  {
    if |s| == 0 {
      assert Insert(x, s) == [x] + s;
      WithScoreCons(x, s, v);
    } else if s[0].score <= x.score {
      assert Insert(x, s) == [x] + s;
      WithScoreCons(x, s, v);
    } else {
      var rest := Insert(x, s[1..]);
      assert Insert(x, s) == [s[0]] + rest;
      var hx := if x.score == v then [x] else [];
      var hs := if s[0].score == v then [s[0]] else [];
      calc {
        WithScore(Insert(x, s), v);
      == { WithScoreCons(s[0], rest, v); }
        hs + WithScore(rest, v);
      == { InsertKeepsTies(x, s[1..], v); }
        hs + (hx + WithScore(s[1..], v));
      == { assert hs == [] || hx == []; }
        hx + (hs + WithScore(s[1..], v));
      == { WithScoreCons(s[0], s[1..], v); assert [s[0]] + s[1..] == s; }
        hx + WithScore(s, v);
      }
    }
  }

  lemma WithScoreCons(h: SimResult, t: seq<SimResult>, v: real)
    ensures WithScore([h] + t, v) == (if h.score == v then [h] else []) + WithScore(t, v)
  {
    assert ([h] + t)[1..] == t;
  }

  /** The sort is stable: for every score, the results of that score keep
      their input order. */
  lemma {:induction false} SortIsStable(s: seq<SimResult>, v: real)
    ensures WithScore(SortByScore(s), v) == WithScore(s, v)
  {
    if |s| > 0 {
      SortIsStable(s[1..], v);
      InsertKeepsTies(s[0], SortByScore(s[1..]), v);
    }
  }

  /** How far a result got, as the selection loop sees it: the number of
      recorded steps for a surviving result, nothing for a dead one. */
  function Reach(r: SimResult): nat
  {
    if r.alive then |r.steps| else 0
  }

  /** The furthest reach among the results (0 if none got anywhere). */
  function MaxReach(s: seq<SimResult>): (m: nat)
    ensures forall j :: 0 <= j < |s| ==> Reach(s[j]) <= m
    ensures m == 0 || exists j :: 0 <= j < |s| && Reach(s[j]) == m
  {
    if |s| == 0 then 0
    else
      var rest := MaxReach(s[1..]);
      assert forall j :: 1 <= j < |s| ==> s[j] == s[1..][j - 1];
      if Reach(s[0]) >= rest then Reach(s[0]) else rest
  }

  /** s[k] is the first result that got as far as any: the one the selection
      loop settles on. */
  predicate Longest(s: seq<SimResult>, k: int)
  {
    && 0 <= k < |s|
    && 0 < MaxReach(s)
    && Reach(s[k]) == MaxReach(s)
    && forall j :: 0 <= j < k ==> Reach(s[j]) < MaxReach(s)
  }

  /** The selection loop of draw from a given result on, with the current
      choice and the longest step count seen so far. A surviving result that
      got further than any before replaces the choice; one that reached the
      full horizon of SimDuration steps ends the loop at once. */
  function Scan(s: seq<SimResult>, best: Action, maxDist: nat): (a: Action)
    ensures a == best || exists j :: 0 <= j < |s| && s[j].alive && a == ActionOf(s[j])
  {
    if |s| == 0 then best
    else if s[0].alive && |s[0].steps| > maxDist then
      if |s[0].steps| == SimDuration then ActionOf(s[0])
      else
        var a := Scan(s[1..], ActionOf(s[0]), |s[0].steps|);
        assert forall j :: 1 <= j < |s| ==> s[j] == s[1..][j - 1];
        a
    else
      var a := Scan(s[1..], best, maxDist);
      assert forall j :: 1 <= j < |s| ==> s[j] == s[1..][j - 1];
      a
  }

  /** With every result at most SimDuration steps long, the early exit never
      cuts the scan short of the right answer: the scan keeps its current
      choice when nothing gets further than maxDist, and otherwise ends on
      the first result of the furthest reach. */
  lemma {:induction false} ScanFindsFirstLongest(s: seq<SimResult>, best: Action, maxDist: nat)
    requires forall j :: 0 <= j < |s| ==> |s[j].steps| <= SimDuration
    ensures MaxReach(s) <= maxDist ==> Scan(s, best, maxDist) == best
    ensures forall k :: Longest(s, k) && MaxReach(s) > maxDist ==> Scan(s, best, maxDist) == ActionOf(s[k])
  {
    if |s| > 0 {
      var t := s[1..];
      assert forall j :: 1 <= j < |s| ==> s[j] == t[j - 1];
      var m := MaxReach(s);
      var mt := MaxReach(t);
      assert m == if Reach(s[0]) >= mt then Reach(s[0]) else mt;
      if s[0].alive && |s[0].steps| > maxDist {
        if |s[0].steps| == SimDuration {
          assert m == Reach(s[0]);
          assert Longest(s, 0);
        } else {
          ScanFindsFirstLongest(t, ActionOf(s[0]), |s[0].steps|);
          if mt <= |s[0].steps| {
            assert m == Reach(s[0]);
          } else {
            forall k | Longest(s, k)
              ensures Scan(s, best, maxDist) == ActionOf(s[k])
            {
              assert k != 0;
              assert Longest(t, k - 1);
            }
          }
        }
      } else {
        ScanFindsFirstLongest(t, best, maxDist);
        if mt > maxDist {
          forall k | Longest(s, k)
            ensures Scan(s, best, maxDist) == ActionOf(s[k])
          {
            assert k != 0;
            assert Longest(t, k - 1);
          }
        }
      }
    }
  }

  /** Whenever some result got anywhere, a first furthest one exists. */
  lemma {:induction false} LongestExists(s: seq<SimResult>)
    requires MaxReach(s) > 0
    ensures exists k :: Longest(s, k)
  {
    var k :| 0 <= k < |s| && Reach(s[k]) == MaxReach(s);
    var i := 0;
    while Reach(s[i]) != MaxReach(s)
      invariant 0 <= i <= k
      invariant forall j :: 0 <= j < i ==> Reach(s[j]) < MaxReach(s)
      decreases k - i
    {
      i := i + 1;
    }
    assert Longest(s, i);
  }

  /** The furthest reach depends only on which results there are, not on
      their order. */
  lemma MaxReachPermuted(a: seq<SimResult>, b: seq<SimResult>)
    requires multiset(a) == multiset(b)
    ensures MaxReach(a) == MaxReach(b)
  {
    MaxReachBounded(a, b);
    MaxReachBounded(b, a);
  }

  lemma MaxReachBounded(x: seq<SimResult>, y: seq<SimResult>)
    requires multiset(x) == multiset(y)
    ensures MaxReach(y) <= MaxReach(x)
  {
    if MaxReach(y) > 0 {
      var j :| 0 <= j < |y| && Reach(y[j]) == MaxReach(y);
      assert y[j] in multiset(x);
    }
  }

  /** The selection block: sort, then scan from the start with no choice
      yet. The control is to coast or to take the first input of a
      surviving result. */
  function Choose(results: seq<SimResult>): (a: Action)
    ensures a == Coast || exists j :: 0 <= j < |results| && results[j].alive && a == ActionOf(results[j])
  {
    ScanPicksSurvivor(results);
    Scan(SortByScore(results), Coast, 0)
  }

  /** The sorted scan ends on coast or on the first input of a surviving
      result, which the sort took from the unsorted results. */
  lemma ScanPicksSurvivor(results: seq<SimResult>)
    ensures var a := Scan(SortByScore(results), Coast, 0);
      a == Coast || exists j :: 0 <= j < |results| && results[j].alive && a == ActionOf(results[j])
  {
    var s := SortByScore(results);
    var a := Scan(s, Coast, 0);
    if a != Coast {
      var j :| 0 <= j < |s| && s[j].alive && a == ActionOf(s[j]);
      assert s[j] in multiset(results);
    }
  }

  /** What the selection amounts to, for results no longer than the full
      horizon: coast when no result survived with a step recorded, and
      otherwise take the first input of the first result, best score first,
      among those that got furthest. */
  lemma ChoosesFirstLongest(results: seq<SimResult>)
    requires forall j :: 0 <= j < |results| ==> |results[j].steps| <= SimDuration
    ensures MaxReach(results) == 0 ==> Choose(results) == Coast
    ensures MaxReach(results) > 0 ==> exists k :: Longest(SortByScore(results), k)
    ensures forall k :: Longest(SortByScore(results), k) ==> Choose(results) == ActionOf(SortByScore(results)[k])
  {
    var s := SortByScore(results);
    MaxReachPermuted(results, s);
    forall j | 0 <= j < |s|
      ensures |s[j].steps| <= SimDuration
    {
      assert s[j] in multiset(results);
    }
    ScanFindsFirstLongest(s, Coast, 0);
    if MaxReach(s) > 0 {
      LongestExists(s);
    }
  }

  /** One frame's decision: search, then select. Result j is Simulate on
      the current world for the j-th scheduled candidate. The frame coasts
      exactly when no candidate survived; otherwise it takes the first input
      of a surviving candidate that ran the search's final horizon, namely
      the first one, best score first, of those. */
  method Decide(m: Maths, player: Player, asteroids: seq<Asteroid>, rand: nat -> real)
    returns (a: Action, results: seq<SimResult>, simCount: nat, simDuration: nat)
    requires ValidSqrt(m.sqrt)
    requires UnitDraws(rand)
    ensures SimCount <= simCount <= 16384
    ensures SimDuration - 7 <= simDuration <= SimDuration
    ensures |results| == 2 * simCount - SimCount - (SimDuration - simDuration)
    ensures forall j :: 0 <= j < |results| ==>
      results[j] == Simulate(m, player, asteroids, Candidate(rand, OffsetOf(j), HorizonOf(j)))
    ensures a == Coast <==> forall j :: 0 <= j < |results| ==> !results[j].alive
    ensures a != Coast ==> 0.1 <= a.thrust < 0.3 && 0.0 <= a.theta < 2.0 * Pi
    ensures a != Coast ==>
      exists j :: 0 <= j < |results| && results[j].alive && |results[j].steps| == simDuration && a == ActionOf(results[j])
    ensures forall k :: Longest(SortByScore(results), k) ==> a == ActionOf(SortByScore(results)[k])
    ensures asteroids == [] ==> a != Coast
  {
    results, simCount, simDuration := Search(m, player, asteroids, rand);
    a := Choose(results);
    ChoiceFacts(results, simDuration);
    if asteroids == [] {
      EmptyFieldSurvives(m, player, Candidate(rand, OffsetOf(0), HorizonOf(0)));
    }
  }

  /** The selection over results shaped as the search leaves them: coasting
      happens exactly when none survived, and otherwise the control is a
      drawn first input of a survivor that ran the full final horizon. */
  lemma ChoiceFacts(results: seq<SimResult>, simDuration: nat)
    requires forall j :: 0 <= j < |results| ==>
      1 <= |results[j].steps| <= SimDuration && 0.1 <= results[j].thrust < 0.3 && 0.0 <= results[j].theta < 2.0 * Pi
    requires forall j :: 0 <= j < |results| && results[j].alive ==> |results[j].steps| == simDuration
    ensures Choose(results) == Coast <==> forall j :: 0 <= j < |results| ==> !results[j].alive
    ensures Choose(results) != Coast ==> 0.1 <= Choose(results).thrust < 0.3 && 0.0 <= Choose(results).theta < 2.0 * Pi
    ensures Choose(results) != Coast ==>
      exists j :: 0 <= j < |results| && results[j].alive && |results[j].steps| == simDuration && Choose(results) == ActionOf(results[j])
    ensures forall k :: Longest(SortByScore(results), k) ==> Choose(results) == ActionOf(SortByScore(results)[k])
  {
    ChoosesFirstLongest(results);
    if exists j :: 0 <= j < |results| && results[j].alive {
      var j :| 0 <= j < |results| && results[j].alive;
      assert Reach(results[j]) >= 1;
      var s := SortByScore(results);
      MaxReachPermuted(results, s);
      var k :| Longest(s, k);
      assert s[k] in multiset(results);
    }
  }
}
