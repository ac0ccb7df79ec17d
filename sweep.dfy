/**
 * The parameter sweep of `main`: for every (n, r, f) of the configuration it
 * derives the well width, runs the planner, scores each successful layout,
 * keeps every success, keeps the ones whose zero percentage lies in
 * [25, 50] as accepted, counts the failures, and ranks the accepted list.
 */
module Sweep {
  import opened Wells
  import opened Ranking
  import FoldLemmas
  import Planner

  /** Rust struct `Solution`: the score of one successful layout. */
  datatype Solution = Solution(n: int, r: int, f: int, w: real, maxBuildHeight: int, zeroPercentage: real)

  /** One point (n, r, f) of the sweep, with the width derived from n. */
  datatype Params = Params(n: int, r: int, f: int, w: real)

  /** `(130.0 / n as f64).max(2.5)`. */
  function Width(n: int): (w: real)
    requires n >= 1
    ensures w >= 2.5 && w >= 130.0 / n as real
    ensures w == 2.5 || w == 130.0 / n as real
    ensures n <= 52 ==> w == 130.0 / n as real
  {
    var q := 130.0 / n as real;
    if q > 2.5 then q else 2.5
  }

  // ---------------------------------------------------------------------
  // Statistics of one layout
  // ---------------------------------------------------------------------

  /** `wells.iter().map(|w| w.build_height).max().unwrap_or(0)`. */
  function MaxBuildHeight(ws: seq<Well>): (m: int)
    ensures ws == [] ==> m == 0
    ensures forall i :: 0 <= i < |ws| ==> ws[i].buildHeight <= m
  {
    if ws == [] then 0
    else if |ws| == 1 then ws[0].buildHeight
    else
      var rest := MaxBuildHeight(ws[1..]);
      if ws[0].buildHeight > rest then ws[0].buildHeight else rest
  }

  /** The maximum is the build height of some well. */
  lemma {:induction false} MaxBuildHeightAttained(ws: seq<Well>)
    requires ws != []
    ensures exists i :: 0 <= i < |ws| && ws[i].buildHeight == MaxBuildHeight(ws)
  {
    if |ws| == 1 || MaxBuildHeight(ws) == ws[0].buildHeight {
      assert ws[0].buildHeight == MaxBuildHeight(ws);
    } else {
      var rest := ws[1..];
      MaxBuildHeightAttained(rest);
      var k :| 0 <= k < |rest| && rest[k].buildHeight == MaxBuildHeight(rest);
      assert MaxBuildHeight(ws) == MaxBuildHeight(rest);
      assert ws[k + 1] == rest[k];
    }
  }

  /** The number of wells with build height 0. */
  function ZeroCount(ws: seq<Well>): (c: nat)
    ensures c <= |ws|
    ensures c == 0 <==> forall i :: 0 <= i < |ws| ==> ws[i].buildHeight != 0
    ensures c == |ws| <==> forall i :: 0 <= i < |ws| ==> ws[i].buildHeight == 0
  {
    if ws == [] then 0
    else
      var rest := ZeroCount(ws[1..]);
      assert forall i :: 1 <= i < |ws| ==> ws[i] == ws[1..][i - 1];
      (if ws[0].buildHeight == 0 then 1 else 0) + rest
  }

  /** `(zero_count as f64 / wells.len() as f64) * 100.0`. */
  function ZeroPercentage(ws: seq<Well>): (p: real)
    requires ws != []
    ensures 0.0 <= p <= 100.0
    ensures p == 0.0 <==> forall i :: 0 <= i < |ws| ==> ws[i].buildHeight != 0
    ensures p == 100.0 <==> forall i :: 0 <= i < |ws| ==> ws[i].buildHeight == 0
  {
    Percentage(ZeroCount(ws), |ws|);
    (ZeroCount(ws) as real / |ws| as real) * 100.0
  }

  lemma Percentage(c: nat, d: nat)
    requires 0 < d && c <= d
    ensures var p := (c as real / d as real) * 100.0;
      && 0.0 <= p <= 100.0 && (p == 0.0 <==> c == 0) && (p == 100.0 <==> c == d)
  {
    var q := c as real / d as real;
    assert q * d as real == c as real;
    assert 0.0 <= q <= 1.0;
  }

  function Score(p: Params, ws: seq<Well>): Solution
    requires ws != []
  {
    Solution(p.n, p.r, p.f, p.w, MaxBuildHeight(ws), ZeroPercentage(ws))
  }

  /** The acceptance filter: zero percentage within [25, 50]. */
  predicate InBand(s: Solution)
  {
    25.0 <= s.zeroPercentage <= 50.0
  }

  /** Ranking key of accepted solutions: max build height, then zero percentage. */
  function SolutionKey(s: Solution): Key
  {
    Key(s.maxBuildHeight, s.zeroPercentage)
  }

  // ---------------------------------------------------------------------
  // The configuration and the tuples it enumerates
  // ---------------------------------------------------------------------

  /** The planner can run (i32 arithmetic, no out-of-bounds index) on every tuple. */
  predicate ValidParams(p: Params)
  {
    3 <= p.n <= MaxModulus && 0 <= p.r < p.n
  }

  /** Every listed n that has a root list is in range, and so are its roots. */
  predicate ValidConfig(ns: seq<int>, roots: map<int, seq<int>>)
  {
    forall k :: 0 <= k < |ns| && ns[k] in roots ==>
      3 <= ns[k] <= MaxModulus && forall j :: 0 <= j < |roots[ns[k]]| ==> 0 <= roots[ns[k]][j] < ns[k]
  }

  /** The tuples (n, r, f) for f over fs, in order. */
  function FTuples(n: int, r: int, w: real, fs: seq<int>): (ps: seq<Params>)
    ensures |ps| == |fs|
    ensures forall k :: 0 <= k < |fs| ==> ps[k] == Params(n, r, fs[k], w)
  {
    if fs == [] then [] else FTuples(n, r, w, fs[..|fs| - 1]) + [Params(n, r, fs[|fs| - 1], w)]
  }

  /** The tuples for one n: each root r of rs in turn, and every f for it. */
  function RTuples(n: int, rs: seq<int>, w: real, fs: seq<int>): seq<Params>
  {
    if rs == [] then []
    else RTuples(n, rs[..|rs| - 1], w, fs) + FTuples(n, rs[|rs| - 1], w, fs)
  }

  /** The tuples for an n: none when the root table has no entry for it. */
  function NTuple(n: int, roots: map<int, seq<int>>, fs: seq<int>): seq<Params>
    requires ValidConfig([n], roots)
  {
    if n in roots then
      assert [n][0] == n;
      RTuples(n, roots[n], Width(n), fs)
    else []
  }

  lemma ValidConfigPrefix(ns: seq<int>, roots: map<int, seq<int>>, a: nat)
    requires ValidConfig(ns, roots) && a <= |ns|
    ensures ValidConfig(ns[..a], roots)
    ensures a < |ns| ==> ValidConfig([ns[a]], roots)
  {
    if a < |ns| {
      assert [ns[a]][0] == ns[a];
    }
  }

  /** All tuples of the sweep, in the order the three nested loops visit them. */
  function Tuples(ns: seq<int>, roots: map<int, seq<int>>, fs: seq<int>): seq<Params>
    requires ValidConfig(ns, roots)
  {
    if ns == [] then []
    else
      ValidConfigPrefix(ns, roots, |ns| - 1);
      Tuples(ns[..|ns| - 1], roots, fs) + NTuple(ns[|ns| - 1], roots, fs)
  }

  // ---------------------------------------------------------------------
  // What the sweep collects
  // ---------------------------------------------------------------------

  /**
   * The outcome of one tuple: its score, or None when the planner fails.  A tuple
   * outside the planner's domain also gives None, which would count as an error;
   * the precondition of `RunSweep` (ValidConfig) makes such a tuple unreachable.
   */
  function Evaluate(p: Params): Option<Solution>
  {
    if !ValidParams(p) then None
    else
      match Plan(p.n, p.r, p.f, p.w)
      case Ok(ws) => Some(Score(p, ws))
      case Err(_) => None
  }

  /** The outcomes of the tuples, in visiting order. */
  function Outcomes(ps: seq<Params>): (os: seq<Option<Solution>>)
    ensures |os| == |ps|
  {
    if ps == [] then [] else Outcomes(ps[..|ps| - 1]) + [Evaluate(ps[|ps| - 1])]
  }

  /** `all_successful_solutions` after the outcomes os. */
  function Successes(os: seq<Option<Solution>>): (ss: seq<Solution>)
    ensures |ss| <= |os|
  {
    if os == [] then []
    else Successes(os[..|os| - 1]) + (match os[|os| - 1] case Some(s) => [s] case None => [])
  }

  /** `error_count` after the outcomes os. */
  function Errors(os: seq<Option<Solution>>): (e: nat)
    ensures e <= |os|
  {
    if os == [] then 0
    else Errors(os[..|os| - 1]) + (if os[|os| - 1].None? then 1 else 0)
  }

  /** The successes in the acceptance band, in visiting order. */
  function Accepted(ss: seq<Solution>): (r: seq<Solution>)
    ensures |r| <= |ss|
  {
    if ss == [] then []
    else Accepted(ss[..|ss| - 1]) + (if InBand(ss[|ss| - 1]) then [ss[|ss| - 1]] else [])
  }

  // ---------------------------------------------------------------------
  // Properties of the sweep's specification
  // ---------------------------------------------------------------------

  /** Every tuple is either a success or an error, never both and never neither. */
  lemma {:induction false} SuccessesPlusErrors(os: seq<Option<Solution>>)
    ensures |Successes(os)| + Errors(os) == |os|
  {
    if os != [] {
      SuccessesPlusErrors(os[..|os| - 1]);
    }
  }

  /** A solution is kept exactly when some tuple produced it. */
  lemma {:induction false} SuccessesExact(os: seq<Option<Solution>>, s: Solution)
    ensures s in Successes(os) <==> Some(s) in os
  {
    if os != [] {
      SuccessesExact(os[..|os| - 1], s);
      assert os == os[..|os| - 1] + [os[|os| - 1]];
    }
  }

  lemma {:induction false} OutcomesAt(ps: seq<Params>, k: nat)
    requires k < |ps|
    ensures Outcomes(ps)[k] == Evaluate(ps[k])
    decreases |ps|
  {
    if k < |ps| - 1 {
      OutcomesAt(ps[..|ps| - 1], k);
    }
  }

  lemma {:induction false} FTuplesExact(n: int, r: int, w: real, fs: seq<int>, p: Params)
    ensures p in FTuples(n, r, w, fs) <==> p.n == n && p.r == r && p.w == w && p.f in fs
  {
    var ps := FTuples(n, r, w, fs);
    if p in ps {
      var k :| 0 <= k < |ps| && ps[k] == p;
      assert fs[k] == p.f;
    }
    if p.n == n && p.r == r && p.w == w && p.f in fs {
      var k :| 0 <= k < |fs| && fs[k] == p.f;
      assert ps[k] == p;
    }
  }

  lemma {:induction false} RTuplesExact(n: int, rs: seq<int>, w: real, fs: seq<int>, p: Params)
    ensures p in RTuples(n, rs, w, fs) <==> p.n == n && p.w == w && p.r in rs && p.f in fs
    decreases |rs|
  {
    if rs != [] {
      var init := rs[..|rs| - 1];
      RTuplesExact(n, init, w, fs, p);
      FTuplesExact(n, rs[|rs| - 1], w, fs, p);
      assert rs == init + [rs[|rs| - 1]];
    }
  }

  /**
   * The sweep visits exactly the tuples (n, r, f) with n listed and in the root
   * table, r one of its roots and f listed, each with the width derived from n.
   */
  lemma {:induction false} TuplesExact(ns: seq<int>, roots: map<int, seq<int>>, fs: seq<int>, p: Params)
    requires ValidConfig(ns, roots)
    ensures p in Tuples(ns, roots, fs) <==>
      p.n in ns && p.n in roots && p.r in roots[p.n] && p.f in fs && p.n >= 1 && p.w == Width(p.n)
    decreases |ns|
  {
    if ns != [] {
      var init := ns[..|ns| - 1];
      var last := ns[|ns| - 1];
      ValidConfigPrefix(ns, roots, |ns| - 1);
      TuplesExact(init, roots, fs, p);
      assert ns == init + [last];
      if last in roots {
        assert [last][0] == last;
        RTuplesExact(last, roots[last], Width(last), fs, p);
      }
      if p.n in ns && p.n in roots {
        var k :| 0 <= k < |ns| && ns[k] == p.n;
      }
    }
  }

  /**
   * What the sweep's two tallies mean: every visited tuple adds to exactly one of
   * them, and the successes are exactly the scores of the tuples whose plan succeeds.
   */
  lemma SweepTallies(ns: seq<int>, roots: map<int, seq<int>>, fs: seq<int>)
    requires ValidConfig(ns, roots)
    ensures var ps := Tuples(ns, roots, fs);
      var os := Outcomes(ps);
      && |Successes(os)| + Errors(os) == |ps|
      && forall s :: s in Successes(os) <==> exists k :: 0 <= k < |ps| && Evaluate(ps[k]) == Some(s)
  {
    var ps := Tuples(ns, roots, fs);
    var os := Outcomes(ps);
    SuccessesPlusErrors(os);
    forall s
      ensures s in Successes(os) <==> exists k :: 0 <= k < |ps| && Evaluate(ps[k]) == Some(s)
    {
      SuccessesExact(os, s);
      if Some(s) in os {
        var k :| 0 <= k < |os| && os[k] == Some(s);
        OutcomesAt(ps, k);
      }
      if exists k :: 0 <= k < |ps| && Evaluate(ps[k]) == Some(s) {
        var k :| 0 <= k < |ps| && Evaluate(ps[k]) == Some(s);
        OutcomesAt(ps, k);
        assert os[k] == Some(s);
      }
    }
  }

  /** A kept solution is the score of a successful layout of its own parameters. */
  lemma ScoreOfSuccess(p: Params)
    requires ValidParams(p)
    requires Evaluate(p).Some?
    ensures var s := Evaluate(p).value;
      var ws := Plan(p.n, p.r, p.f, p.w).wells;
      && Plan(p.n, p.r, p.f, p.w).Ok?
      && s.n == p.n && s.r == p.r && s.f == p.f && s.w == p.w
      && |ws| == p.n - 1
      && (forall i :: 0 <= i < |ws| ==> ws[i].buildHeight <= s.maxBuildHeight)
      && (exists i :: 0 <= i < |ws| && ws[i].buildHeight == s.maxBuildHeight)
      && s.zeroPercentage == (ZeroCount(ws) as real / (p.n - 1) as real) * 100.0
      && 0.0 <= s.zeroPercentage <= 100.0
  {
    FoldLemmas.PlanSucceeds(p.n, p.r, p.f, p.w);
    var ws := Plan(p.n, p.r, p.f, p.w).wells;
    assert Evaluate(p).value == Score(p, ws);
    MaxBuildHeightAttained(ws);
  }

  /** The accepted list holds exactly the in-band successes. */
  lemma {:induction false} AcceptedExact(ss: seq<Solution>, s: Solution)
    ensures s in Accepted(ss) <==> s in ss && InBand(s)
  {
    if ss != [] {
      AcceptedExact(ss[..|ss| - 1], s);
      assert ss == ss[..|ss| - 1] + [ss[|ss| - 1]];
    }
  }

  /**
   * What `valid_solutions` ends as: every in-band success and nothing else, each as
   * often as it was produced, ordered by (max build height, zero percentage), ties
   * in production order.
   */
  lemma RankedAccepted(ss: seq<Solution>)
    ensures var v := SortByKey(Accepted(ss), SolutionKey);
      && multiset(v) == multiset(Accepted(ss))
      && (forall s :: s in v <==> s in ss && InBand(s))
      && SortedByKey(v, SolutionKey)
      && (forall k :: WithKey(v, SolutionKey, k) == WithKey(Accepted(ss), SolutionKey, k))
  {
    var v := SortByKey(Accepted(ss), SolutionKey);
    forall s
      ensures s in v <==> s in ss && InBand(s)
    {
      assert s in v <==> s in multiset(v);
      AcceptedExact(ss, s);
    }
    SortByKeySorted(Accepted(ss), SolutionKey);
    forall k
      ensures WithKey(v, SolutionKey, k) == WithKey(Accepted(ss), SolutionKey, k)
    {
      SortByKeyStable(Accepted(ss), SolutionKey, k);
    }
  }

  // ---------------------------------------------------------------------
  // The sweep loop
  // ---------------------------------------------------------------------

  lemma AppendLast<T>(s: seq<T>, x: T)
    ensures (s + [x])[..|s|] == s && (s + [x])[|s|] == x
  {
  }

  lemma Assoc<T>(a: seq<T>, b: seq<T>, c: seq<T>)
    ensures (a + b) + c == a + (b + c)
  {
  }

  /** Visiting two runs of tuples one after the other collects the outcomes of both, in order. */
  lemma {:induction false} OutcomesConcat(a: seq<Params>, b: seq<Params>)
    ensures Outcomes(a + b) == Outcomes(a) + Outcomes(b)
    decreases |b|
  {
    if b != [] {
      var b0 := b[..|b| - 1];
      assert (a + b)[..|a + b| - 1] == a + b0;
      OutcomesConcat(a, b0);
    } else {
      assert a + b == a;
    }
  }

  lemma {:induction false} CollectConcat(x: seq<Option<Solution>>, y: seq<Option<Solution>>)
    ensures Successes(x + y) == Successes(x) + Successes(y)
    ensures Errors(x + y) == Errors(x) + Errors(y)
    ensures Accepted(Successes(x + y)) == Accepted(Successes(x)) + Accepted(Successes(y))
    decreases |y|
  {
    if y != [] {
      var y0 := y[..|y| - 1];
      assert (x + y)[..|x + y| - 1] == x + y0;
      assert (x + y)[|x + y| - 1] == y[|y| - 1];
      CollectConcat(x, y0);
      AcceptedConcat(Successes(x), Successes(y));
    } else {
      assert x + y == x;
    }
  }

  lemma {:induction false} AcceptedConcat(u: seq<Solution>, v: seq<Solution>)
    ensures Accepted(u + v) == Accepted(u) + Accepted(v)
    decreases |v|
  {
    if v != [] {
      var v0 := v[..|v| - 1];
      assert (u + v)[..|u + v| - 1] == u + v0;
      assert (u + v)[|u + v| - 1] == v[|v| - 1];
      AcceptedConcat(u, v0);
    } else {
      assert u + v == u;
    }
  }

  /** One more outcome: a success is appended (and accepted if in band), a failure is counted. */
  lemma CollectStep(os: seq<Option<Solution>>, o: Option<Solution>)
    ensures Successes(os + [o]) == (match o case Some(s) => Successes(os) + [s] case None => Successes(os))
    ensures Errors(os + [o]) == Errors(os) + (if o.None? then 1 else 0)
    ensures Accepted(Successes(os + [o])) ==
      (match o case Some(s) => if InBand(s) then Accepted(Successes(os)) + [s] else Accepted(Successes(os))
               case None => Accepted(Successes(os)))
  {
    AppendLast(os, o);
    if o.Some? {
      AppendLast(Successes(os), o.value);
    } else {
      assert Successes(os) + [] == Successes(os);
    }
    assert Accepted(Successes(os)) + [] == Accepted(Successes(os));
  }

  /** The body of the innermost loop: run the planner and score a success. */
  method ScoreTuple(n: int, r: int, f: int, w: real) returns (outcome: Option<Solution>)
    requires 3 <= n <= MaxModulus && 0 <= r < n
    ensures outcome == Evaluate(Params(n, r, f, w))
  {
    var res := Planner.Calculate(n, r, f, w);
    match res {
      case Ok(wells) =>
        FoldLemmas.PlanSucceeds(n, r, f, w);
        var maxBuildHeight := MaxBuildHeight(wells);
        var zeroPercentage := ZeroPercentage(wells);
        outcome := Some(Solution(n, r, f, w, maxBuildHeight, zeroPercentage));
      case Err(_) =>
        outcome := None;
    }
  }

  lemma FStep(n: int, r: int, w: real, fs: seq<int>, c: nat)
    requires c < |fs|
    ensures Outcomes(FTuples(n, r, w, fs[..c + 1]))
         == Outcomes(FTuples(n, r, w, fs[..c])) + [Evaluate(Params(n, r, fs[c], w))]
  {
    assert fs[..c + 1][..c] == fs[..c];
    var p := Params(n, r, fs[c], w);
    var ps := FTuples(n, r, w, fs[..c]);
    assert FTuples(n, r, w, fs[..c + 1]) == ps + [p];
    AppendLast(ps, p);
  }

  lemma RStep(n: int, rs: seq<int>, w: real, fs: seq<int>, b: nat)
    requires b < |rs|
    ensures Outcomes(RTuples(n, rs[..b + 1], w, fs))
         == Outcomes(RTuples(n, rs[..b], w, fs)) + Outcomes(FTuples(n, rs[b], w, fs))
  {
    assert rs[..b + 1][..b] == rs[..b];
    var ps0, ps1 := RTuples(n, rs[..b], w, fs), FTuples(n, rs[b], w, fs);
    assert RTuples(n, rs[..b + 1], w, fs) == ps0 + ps1;
    OutcomesConcat(ps0, ps1);
  }

  lemma NStep(ns: seq<int>, roots: map<int, seq<int>>, fs: seq<int>, a: nat)
    requires ValidConfig(ns, roots) && a < |ns|
    ensures ValidConfig(ns[..a], roots) && ValidConfig(ns[..a + 1], roots) && ValidConfig([ns[a]], roots)
    ensures Outcomes(Tuples(ns[..a + 1], roots, fs))
         == Outcomes(Tuples(ns[..a], roots, fs)) + Outcomes(NTuple(ns[a], roots, fs))
  {
    ValidConfigPrefix(ns, roots, a);
    ValidConfigPrefix(ns, roots, a + 1);
    assert ns[..a + 1][..a] == ns[..a];
    var ps0, ps1 := Tuples(ns[..a], roots, fs), NTuple(ns[a], roots, fs);
    assert Tuples(ns[..a + 1], roots, fs) == ps0 + ps1;
    OutcomesConcat(ps0, ps1);
  }

  /** The innermost loop: every f for one (n, r). */
  method SweepF(n: int, r: int, w: real, fValues: seq<int>,
                all0: seq<Solution>, valid0: seq<Solution>, errors0: nat)
    returns (all: seq<Solution>, valid: seq<Solution>, errorCount: nat)
    requires 3 <= n <= MaxModulus && 0 <= r < n
    ensures var os := Outcomes(FTuples(n, r, w, fValues));
      && all == all0 + Successes(os)
      && valid == valid0 + Accepted(Successes(os))
      && errorCount == errors0 + Errors(os)
  {
    all, valid, errorCount := all0, valid0, errors0;
    for c := 0 to |fValues|
      invariant var os := Outcomes(FTuples(n, r, w, fValues[..c]));
        && all == all0 + Successes(os)
        && valid == valid0 + Accepted(Successes(os))
        && errorCount == errors0 + Errors(os)
    {
      var f := fValues[c];
      var outcome := ScoreTuple(n, r, f, w);
      ghost var os := Outcomes(FTuples(n, r, w, fValues[..c]));
      FStep(n, r, w, fValues, c);
      CollectStep(os, outcome);
      match outcome {
        case Some(solution) =>
          Assoc(all0, Successes(os), [solution]);
          all := all + [solution];
          if InBand(solution) {
            Assoc(valid0, Accepted(Successes(os)), [solution]);
            valid := valid + [solution];
          }
        case None =>
          errorCount := errorCount + 1;
      }
    }
    assert fValues[..|fValues|] == fValues;
  }

  /** The middle loop: every root r of one n, and every f for it. */
  method SweepR(n: int, rs: seq<int>, w: real, fValues: seq<int>,
                all0: seq<Solution>, valid0: seq<Solution>, errors0: nat)
    returns (all: seq<Solution>, valid: seq<Solution>, errorCount: nat)
    requires 3 <= n <= MaxModulus && forall j :: 0 <= j < |rs| ==> 0 <= rs[j] < n
    ensures var os := Outcomes(RTuples(n, rs, w, fValues));
      && all == all0 + Successes(os)
      && valid == valid0 + Accepted(Successes(os))
      && errorCount == errors0 + Errors(os)
  {
    all, valid, errorCount := all0, valid0, errors0;
    for b := 0 to |rs|
      invariant var os := Outcomes(RTuples(n, rs[..b], w, fValues));
        && all == all0 + Successes(os)
        && valid == valid0 + Accepted(Successes(os))
        && errorCount == errors0 + Errors(os)
    {
      var r := rs[b];
      ghost var os0, os1 := Outcomes(RTuples(n, rs[..b], w, fValues)), Outcomes(FTuples(n, r, w, fValues));
      Assoc(all0, Successes(os0), Successes(os1));
      Assoc(valid0, Accepted(Successes(os0)), Accepted(Successes(os1)));
      all, valid, errorCount := SweepF(n, r, w, fValues, all, valid, errorCount);
      RStep(n, rs, w, fValues, b);
      CollectConcat(os0, os1);
    }
    assert rs[..|rs|] == rs;
  }

  /** The outer loop's body: every root and f for one n, or nothing when n has no root entry. */
  method SweepN(n: int, roots: map<int, seq<int>>, fValues: seq<int>,
                all0: seq<Solution>, valid0: seq<Solution>, errors0: nat)
    returns (all: seq<Solution>, valid: seq<Solution>, errorCount: nat)
    requires ValidConfig([n], roots)
    ensures var os := Outcomes(NTuple(n, roots, fValues));
      && all == all0 + Successes(os)
      && valid == valid0 + Accepted(Successes(os))
      && errorCount == errors0 + Errors(os)
  {
    if n in roots {
      assert [n][0] == n;
      var w := Width(n);
      all, valid, errorCount := SweepR(n, roots[n], w, fValues, all0, valid0, errors0);
    } else {
      all, valid, errorCount := all0, valid0, errors0;
      assert all0 + [] == all0 && valid0 + [] == valid0;
    }
  }

  /**
   * The sweep: `all` is the list of every success, `errorCount` the number of
   * failures, and `valid` the ranked accepted list.
   */
  method RunSweep(nValues: seq<int>, roots: map<int, seq<int>>, fValues: seq<int>)
    returns (valid: seq<Solution>, all: seq<Solution>, errorCount: nat)
    requires ValidConfig(nValues, roots)
    ensures all == Successes(Outcomes(Tuples(nValues, roots, fValues)))
    ensures errorCount == Errors(Outcomes(Tuples(nValues, roots, fValues)))
    ensures valid == SortByKey(Accepted(all), SolutionKey)
  {
    valid, all, errorCount := [], [], 0;
    for a := 0 to |nValues|
      invariant ValidConfig(nValues[..a], roots)
      invariant var os := Outcomes(Tuples(nValues[..a], roots, fValues));
        && all == Successes(os) && valid == Accepted(Successes(os)) && errorCount == Errors(os)
    {
      NStep(nValues, roots, fValues, a);
      ghost var os0, os1 := Outcomes(Tuples(nValues[..a], roots, fValues)), Outcomes(NTuple(nValues[a], roots, fValues));
      all, valid, errorCount := SweepN(nValues[a], roots, fValues, all, valid, errorCount);
      CollectConcat(os0, os1);
    }
    assert nValues[..|nValues|] == nValues;
    valid := SortByKey(valid, SolutionKey);
  }
}
