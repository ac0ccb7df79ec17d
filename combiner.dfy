/**
 * The combination search `find_combined_solutions`: among the solutions of
 * width at least 6 it collects every repetition of one solution, and every mix
 * of counts 0..20 of two distinct solutions, whose total width lies in
 * [120, 140], then ranks them by (combined max height, distance of the total
 * width from 130).  The reference enumeration below has no early exit; the
 * methods keep the source's `continue` and `break` and are proved equal to it.
 */
module Combiner {
  import opened Wells
  import opened Ranking
  import opened Sweep

  /** Rust struct `CombinedSolution`. */
  datatype CombinedSolution = CombinedSolution(
    solutions: seq<Solution>, combinedMaxHeight: int, totalWidth: real, combinedZeroPercentage: real)

  const MinCombinableWidth: real := 6.0
  const BandLow: real := 120.0
  const BandHigh: real := 140.0
  const TargetWidth: real := 130.0
  const MaxRepeat: nat := 20

  predicate Combinable(s: Solution)
  {
    s.w >= MinCombinableWidth
  }

  /** A combinable solution whose well count n - 1 is positive. */
  predicate Usable(s: Solution)
  {
    Combinable(s) && s.n >= 2
  }

  predicate Pool(cs: seq<Solution>)
  {
    forall k :: 0 <= k < |cs| ==> Usable(cs[k])
  }

  predicate InWidthBand(x: real)
  {
    BandLow <= x <= BandHigh
  }

  function Floor(x: real): (k: int)
    ensures k as real <= x < k as real + 1.0
  {
    x.Floor
  }

  function Ceil(x: real): (k: int)
    ensures x <= k as real < x + 1.0
  {
    -((-x).Floor)
  }

  /** `x.round() as usize`: nearest integer, halves away from zero, negatives saturate to 0. */
  function RoundToUsize(x: real): (k: nat)
    ensures x < 0.0 ==> k == 0
    ensures x >= 0.0 ==> k as real - 0.5 <= x < k as real + 0.5
  {
    if x < 0.0 then 0 else (x + 0.5).Floor
  }

  function Max(a: int, b: int): int
  {
    if a >= b then a else b
  }

  /** `f64::abs`; the integer `abs` of the planner is `Wells.Abs`. */
  function AbsReal(x: real): real
  {
    if x < 0.0 then -x else x
  }

  // ---------------------------------------------------------------------
  // One combination
  // ---------------------------------------------------------------------

  function Repeat(s: Solution, count: nat): (ss: seq<Solution>)
    ensures |ss| == count && forall k :: 0 <= k < count ==> ss[k] == s
  {
    seq(count, _ => s)
  }

  /**
   * w added to itself k times.  Exactly the product `w * k as f64` (see
   * TimesIsProduct); written as repeated addition so that the enumeration
   * below stays in linear arithmetic.
   */
  function Times(w: real, k: nat): real
  {
    if k == 0 then 0.0 else Times(w, k - 1) + w
  }

  /** a added to itself k times: the integer product `a * k`. */
  function Copies(a: int, k: nat): int
  {
    if k == 0 then 0 else Copies(a, k - 1) + a
  }

  lemma {:induction false} TimesIsProduct(w: real, k: nat)
    ensures Times(w, k) == w * k as real
  {
    if k > 0 {
      TimesIsProduct(w, k - 1);
      assert w * k as real == w * (k - 1) as real + w;
    }
  }

  lemma {:induction false} CopiesIsProduct(a: int, k: nat)
    ensures Copies(a, k) == a * k
  {
    if k > 0 {
      CopiesIsProduct(a, k - 1);
      assert a * k == a * (k - 1) + a;
    }
  }

  /** On whole numbers repeated real addition agrees with repeated integer addition. */
  lemma {:induction false} TimesOfInt(a: int, k: nat)
    ensures Times(a as real, k) == Copies(a, k) as real
  {
    if k > 0 {
      TimesOfInt(a, k - 1);
    }
  }

  lemma {:induction false} TimesGrows(w: real, k: nat, m: nat)
    requires w >= 0.0 && k <= m
    ensures Times(w, k) <= Times(w, m)
    decreases m
  {
    if k < m {
      TimesGrows(w, k, m - 1);
    }
  }

  lemma {:induction false} CopiesAtLeast(a: int, k: nat)
    ensures a >= 1 ==> Copies(a, k) >= k
  {
    if k > 0 {
      CopiesAtLeast(a, k - 1);
    }
  }

  /** Total width of `count` copies of s: `sol.w * count as f64`. */
  function HomWidth(s: Solution, count: nat): real
  {
    Times(s.w, count)
  }

  predicate HomFits(s: Solution, count: nat)
  {
    InWidthBand(HomWidth(s, count))
  }

  /** `count` copies of s. */
  function HomCombo(s: Solution, count: nat): CombinedSolution
  {
    CombinedSolution(Repeat(s, count), s.maxBuildHeight, HomWidth(s, count), s.zeroPercentage)
  }

  /** Total width of c1 copies of s1 and c2 copies of s2: `sol1.w * count1 as f64 + sol2.w * count2 as f64`. */
  function PairWidth(s1: Solution, s2: Solution, c1: nat, c2: nat): real
  {
    Times(s1.w, c1) + Times(s2.w, c2)
  }

  /** The two tests a mix must pass: at least 2 members and a width in the band. */
  predicate PairFits(s1: Solution, s2: Solution, c1: nat, c2: nat)
  {
    c1 + c2 >= 2 && InWidthBand(PairWidth(s1, s2, c1, c2))
  }

  /** The number of wells of c1 layouts of s1 and c2 layouts of s2: `(sol1.n - 1) * count1 + (sol2.n - 1) * count2`. */
  function TotalWells(s1: Solution, s2: Solution, c1: nat, c2: nat): (t: int)
    ensures s1.n >= 2 && s2.n >= 2 ==> t >= c1 + c2
  {
    CopiesAtLeast(s1.n - 1, c1);
    CopiesAtLeast(s2.n - 1, c2);
    Copies(s1.n - 1, c1) + Copies(s2.n - 1, c2)
  }

  /** The zero wells of `count` copies of s, rounded from its percentage: `((zp / 100) * (n - 1) * count).round()`. */
  function RoundedZeros(s: Solution, count: nat): nat
    requires s.n >= 1
  {
    RoundToUsize(Times(Times(s.zeroPercentage / 100.0, s.n - 1), count))
  }

  /** The zero percentage of a layout of `wells` wells with `zeros` zero-height wells. */
  function ZeroShare(zeros: int, wells: int): real
    requires wells > 0
  {
    (zeros as real / wells as real) * 100.0
  }

  /** c1 copies of s1 followed by c2 copies of s2. */
  function PairCombo(s1: Solution, s2: Solution, c1: nat, c2: nat): CombinedSolution
    requires s1.n >= 2 && s2.n >= 2 && c1 + c2 >= 1
  {
    CombinedSolution(Repeat(s1, c1) + Repeat(s2, c2), Max(s1.maxBuildHeight, s2.maxBuildHeight),
                     PairWidth(s1, s2, c1, c2),
                     ZeroShare(RoundedZeros(s1, c1) + RoundedZeros(s2, c2), TotalWells(s1, s2, c1, c2)))
  }

  /** The ranking key: lower combined max height first, then width closer to 130. */
  function CombinedKey(c: CombinedSolution): Key
  {
    Key(c.combinedMaxHeight, AbsReal(c.totalWidth - TargetWidth))
  }

  // ---------------------------------------------------------------------
  // The reference enumeration
  // ---------------------------------------------------------------------

  /** `valid_solutions.iter().filter(|s| s.w >= 6.0)`, in order. */
  function CombinableOf(ss: seq<Solution>): (cs: seq<Solution>)
    ensures |cs| <= |ss|
  {
    if ss == [] then []
    else CombinableOf(ss[..|ss| - 1]) + (if Combinable(ss[|ss| - 1]) then [ss[|ss| - 1]] else [])
  }

  function MinCopies(s: Solution): int
    requires Combinable(s)
  {
    Ceil(BandLow / s.w)
  }

  function MaxCopies(s: Solution): int
    requires Combinable(s)
  {
    Floor(BandHigh / s.w)
  }

  lemma MinCopiesPositive(s: Solution)
    requires Combinable(s)
    ensures 1 <= MinCopies(s) <= 20
  {
    assert BandLow / s.w <= 20.0 by {
      assert BandLow <= 20.0 * s.w;
    }
  }

  /** Repetitions of s with counts in [lo, hi) that pass the width check. */
  function HomRange(s: Solution, lo: nat, hi: int): seq<CombinedSolution>
    decreases hi - lo
  {
    if hi <= lo then []
    else HomRange(s, lo, hi - 1) + (if HomFits(s, hi - 1) then [HomCombo(s, hi - 1)] else [])
  }

  /** The repetitions tried for s: counts ceil(120 / w) to floor(140 / w). */
  function HomFor(s: Solution): seq<CombinedSolution>
    requires Combinable(s)
  {
    MinCopiesPositive(s);
    HomRange(s, MinCopies(s), MaxCopies(s) + 1)
  }

  /** The repetitions of cs[0], ..., cs[hi - 1], in order. */
  function HomAll(cs: seq<Solution>, hi: nat): seq<CombinedSolution>
    requires Pool(cs) && hi <= |cs|
  {
    if hi == 0 then [] else HomAll(cs, hi - 1) + HomFor(cs[hi - 1])
  }

  /** The mix of counts (c1, c2), if it passes both tests. */
  function PairCell(s1: Solution, s2: Solution, c1: nat, c2: nat): seq<CombinedSolution>
    requires s1.n >= 2 && s2.n >= 2
  {
    if PairFits(s1, s2, c1, c2) then [PairCombo(s1, s2, c1, c2)] else []
  }

  /** The mixes of s1 and s2 with count1 = c1 and count2 in [0, hi). */
  function PairRow(s1: Solution, s2: Solution, c1: nat, hi: nat): seq<CombinedSolution>
    requires s1.n >= 2 && s2.n >= 2
  {
    if hi == 0 then [] else PairRow(s1, s2, c1, hi - 1) + PairCell(s1, s2, c1, hi - 1)
  }

  /** The mixes of s1 and s2 with count1 in [0, hi) and count2 in [0, 20]. */
  function PairGrid(s1: Solution, s2: Solution, hi: nat): seq<CombinedSolution>
    requires s1.n >= 2 && s2.n >= 2
  {
    if hi == 0 then [] else PairGrid(s1, s2, hi - 1) + PairRow(s1, s2, hi - 1, MaxRepeat + 1)
  }

  /**
   * The mixes of every pair (a, b), a < b, that the pair loops reach before
   * (i, j): a < i, or a == i and b < j.
   */
  function PairsBelow(cs: seq<Solution>, i: nat, j: nat): seq<CombinedSolution>
    requires Pool(cs) && i < j <= |cs|
    decreases i, j
  {
    if j > i + 1 then PairsBelow(cs, i, j - 1) + PairGrid(cs[i], cs[j - 1], MaxRepeat + 1)
    else if i == 0 then []
    else PairsBelow(cs, i - 1, |cs|)
  }

  /** The mixes of every pair of cs whose first index is below hi. */
  function AllPairs(cs: seq<Solution>, hi: nat): seq<CombinedSolution>
    requires Pool(cs) && hi <= |cs|
  {
    if hi == 0 then [] else PairsBelow(cs, hi - 1, |cs|)
  }

  /** Every combination the search pushes, in push order. */
  function Candidates(cs: seq<Solution>): seq<CombinedSolution>
    requires Pool(cs)
  {
    HomAll(cs, |cs|) + AllPairs(cs, |cs|)
  }

  /** The n of every combinable solution is at least 2. */
  predicate WellCountsPositive(ss: seq<Solution>)
  {
    forall k :: 0 <= k < |ss| && Combinable(ss[k]) ==> ss[k].n >= 2
  }

  lemma {:induction false} CombinableOfPool(ss: seq<Solution>)
    requires WellCountsPositive(ss)
    ensures Pool(CombinableOf(ss))
  {
    if ss != [] {
      CombinableOfPool(ss[..|ss| - 1]);
    }
  }

  /** `find_combined_solutions(ss)`. */
  function Combine(ss: seq<Solution>): seq<CombinedSolution>
    requires WellCountsPositive(ss)
  {
    CombinableOfPool(ss);
    SortByKey(Candidates(CombinableOf(ss)), CombinedKey)
  }

  // ---------------------------------------------------------------------
  // What the enumeration yields
  // ---------------------------------------------------------------------

  /** `count` copies of s, a count whose width is in the band. */
  ghost predicate HomCandidate(s: Solution, count: int, c: CombinedSolution)
  {
    count >= 0 && HomFits(s, count) && c == HomCombo(s, count)
  }

  /** Counts 0..20 of s1 and s2 that pass both tests of the mix loop. */
  ghost predicate PairCandidate(s1: Solution, s2: Solution, c1: int, c2: int, c: CombinedSolution)
  {
    && s1.n >= 2 && s2.n >= 2
    && 0 <= c1 <= MaxRepeat && 0 <= c2 <= MaxRepeat
    && PairFits(s1, s2, c1, c2) && c == PairCombo(s1, s2, c1, c2)
  }

  /** Exactly the combinable solutions take part, in their original order. */
  lemma {:induction false} CombinableOfExact(ss: seq<Solution>, s: Solution)
    ensures s in CombinableOf(ss) <==> s in ss && Combinable(s)
  {
    if ss != [] {
      CombinableOfExact(ss[..|ss| - 1], s);
      assert ss == ss[..|ss| - 1] + [ss[|ss| - 1]];
    }
  }

  /** a / w <= x exactly when a <= w * x, for positive w. */
  lemma DivLe(a: real, w: real, x: real)
    requires w > 0.0
    ensures a / w <= x <==> a <= w * x
    ensures x <= a / w <==> w * x <= a
  {
    var q := a / w;
    assert q * w == a && w * q == a;
    if a / w <= x {
      MulMono(w, a / w, x);
    }
    if x <= a / w {
      MulMono(w, x, a / w);
    }
    if a <= w * x && a / w > x {
      MulMonoStrict(w, x, a / w);
    }
    if w * x <= a && x > a / w {
      MulMonoStrict(w, a / w, x);
    }
  }

  lemma MulMono(a: real, x: real, y: real)
    requires a >= 0.0 && x <= y
    ensures a * x <= a * y
  {
    assert a * y - a * x == a * (y - x);
  }

  lemma MulMonoStrict(a: real, x: real, y: real)
    requires a > 0.0 && x < y
    ensures a * x < a * y
  {
    assert a * y - a * x == a * (y - x);
  }

  /**
   * With exact arithmetic the width check inside the repetition loop never fails:
   * every count between ceil(120 / w) and floor(140 / w) gives a width in the band,
   * and every count whose width is in the band lies in that range.
   */
  lemma HomCountsInBand(s: Solution, count: nat)
    requires Combinable(s)
    ensures MinCopies(s) <= count <= MaxCopies(s) <==> HomFits(s, count)
  {
    var x := count as real;
    TimesIsProduct(s.w, count);
    DivLe(BandLow, s.w, x);
    DivLe(BandHigh, s.w, x);
    assert MinCopies(s) <= count <==> BandLow / s.w <= x;
    assert count <= MaxCopies(s) <==> x <= BandHigh / s.w;
  }

  lemma InLeft<T>(a: seq<T>, b: seq<T>, x: T)
    requires x in a
    ensures x in a + b
  {
  }

  lemma InRight<T>(a: seq<T>, b: seq<T>, x: T)
    requires x in b
    ensures x in a + b
  {
  }

  lemma InEither<T>(a: seq<T>, b: seq<T>, x: T)
    requires x in a + b
    ensures x in a || x in b
  {
  }

  lemma {:induction false} HomRangeSound(s: Solution, lo: nat, hi: int, c: CombinedSolution)
    requires c in HomRange(s, lo, hi)
    ensures exists count :: lo <= count < hi && HomCandidate(s, count, c)
    decreases hi - lo
  {
    var rest, last := HomRange(s, lo, hi - 1), if HomFits(s, hi - 1) then [HomCombo(s, hi - 1)] else [];
    assert HomRange(s, lo, hi) == rest + last;
    InEither(rest, last, c);
    if c in rest {
      HomRangeSound(s, lo, hi - 1, c);
    } else {
      assert HomCandidate(s, hi - 1, c);
    }
  }

  lemma {:induction false} HomRangeComplete(s: Solution, lo: nat, hi: int, count: nat, c: CombinedSolution)
    requires lo <= count < hi && HomCandidate(s, count, c)
    ensures c in HomRange(s, lo, hi)
    decreases hi - lo
  {
    var rest, last := HomRange(s, lo, hi - 1), if HomFits(s, hi - 1) then [HomCombo(s, hi - 1)] else [];
    assert HomRange(s, lo, hi) == rest + last;
    if count < hi - 1 {
      HomRangeComplete(s, lo, hi - 1, count, c);
      InLeft(rest, last, c);
    } else {
      InRight(rest, last, c);
    }
  }

  /** The repetitions of s found are exactly its counts whose width is in the band. */
  lemma HomForExact(s: Solution, c: CombinedSolution)
    requires Combinable(s)
    ensures c in HomFor(s) <==> exists count :: HomCandidate(s, count, c)
  {
    MinCopiesPositive(s);
    if c in HomFor(s) {
      HomRangeSound(s, MinCopies(s), MaxCopies(s) + 1, c);
    }
    if exists count :: HomCandidate(s, count, c) {
      var count :| HomCandidate(s, count, c);
      HomCountsInBand(s, count);
      HomRangeComplete(s, MinCopies(s), MaxCopies(s) + 1, count, c);
    }
  }

  lemma {:induction false} HomAllSound(cs: seq<Solution>, hi: nat, c: CombinedSolution)
    requires Pool(cs) && hi <= |cs| && c in HomAll(cs, hi)
    ensures exists k, count :: 0 <= k < hi && HomCandidate(cs[k], count, c)
  {
    var rest, last := HomAll(cs, hi - 1), HomFor(cs[hi - 1]);
    InEither(rest, last, c);
    if c in rest {
      HomAllSound(cs, hi - 1, c);
    } else {
      HomForExact(cs[hi - 1], c);
      var count :| HomCandidate(cs[hi - 1], count, c);
    }
  }

  lemma {:induction false} HomAllComplete(cs: seq<Solution>, hi: nat, k: nat, count: nat, c: CombinedSolution)
    requires Pool(cs) && k < hi <= |cs| && HomCandidate(cs[k], count, c)
    ensures c in HomAll(cs, hi)
  {
    var rest, last := HomAll(cs, hi - 1), HomFor(cs[hi - 1]);
    if k < hi - 1 {
      HomAllComplete(cs, hi - 1, k, count, c);
      InLeft(rest, last, c);
    } else {
      HomForExact(cs[k], c);
      InRight(rest, last, c);
    }
  }

  lemma {:induction false} PairRowSound(s1: Solution, s2: Solution, c1: nat, hi: nat, c: CombinedSolution)
    requires s1.n >= 2 && s2.n >= 2 && c1 <= MaxRepeat && hi <= MaxRepeat + 1
    requires c in PairRow(s1, s2, c1, hi)
    ensures exists c2 :: 0 <= c2 < hi && PairCandidate(s1, s2, c1, c2, c)
  {
    var rest, last := PairRow(s1, s2, c1, hi - 1), PairCell(s1, s2, c1, hi - 1);
    InEither(rest, last, c);
    if c in rest {
      PairRowSound(s1, s2, c1, hi - 1, c);
    } else {
      assert PairCandidate(s1, s2, c1, hi - 1, c);
    }
  }

  lemma {:induction false} PairRowComplete(s1: Solution, s2: Solution, c1: nat, hi: nat, c2: nat, c: CombinedSolution)
    requires s1.n >= 2 && s2.n >= 2 && c2 < hi
    requires PairCandidate(s1, s2, c1, c2, c)
    ensures c in PairRow(s1, s2, c1, hi)
  {
    var rest, last := PairRow(s1, s2, c1, hi - 1), PairCell(s1, s2, c1, hi - 1);
    if c2 < hi - 1 {
      PairRowComplete(s1, s2, c1, hi - 1, c2, c);
      InLeft(rest, last, c);
    } else {
      InRight(rest, last, c);
    }
  }

  lemma {:induction false} PairGridSound(s1: Solution, s2: Solution, hi: nat, c: CombinedSolution)
    requires s1.n >= 2 && s2.n >= 2 && hi <= MaxRepeat + 1
    requires c in PairGrid(s1, s2, hi)
    ensures exists c1, c2 :: 0 <= c1 < hi && PairCandidate(s1, s2, c1, c2, c)
  {
    var rest, last := PairGrid(s1, s2, hi - 1), PairRow(s1, s2, hi - 1, MaxRepeat + 1);
    InEither(rest, last, c);
    if c in rest {
      PairGridSound(s1, s2, hi - 1, c);
    } else {
      PairRowSound(s1, s2, hi - 1, MaxRepeat + 1, c);
      var c2 :| 0 <= c2 < MaxRepeat + 1 && PairCandidate(s1, s2, hi - 1, c2, c);
    }
  }

  lemma {:induction false} PairGridComplete(s1: Solution, s2: Solution, hi: nat, c1: nat, c2: nat, c: CombinedSolution)
    requires s1.n >= 2 && s2.n >= 2 && c1 < hi
    requires PairCandidate(s1, s2, c1, c2, c)
    ensures c in PairGrid(s1, s2, hi)
  {
    var rest, last := PairGrid(s1, s2, hi - 1), PairRow(s1, s2, hi - 1, MaxRepeat + 1);
    if c1 < hi - 1 {
      PairGridComplete(s1, s2, hi - 1, c1, c2, c);
      InLeft(rest, last, c);
    } else {
      PairRowComplete(s1, s2, c1, MaxRepeat + 1, c2, c);
      InRight(rest, last, c);
    }
  }

  /** c is one of the mixes of s1 and s2 that the count loops push. */
  ghost predicate InGrid(s1: Solution, s2: Solution, c: CombinedSolution)
    requires s1.n >= 2 && s2.n >= 2
  {
    c in PairGrid(s1, s2, MaxRepeat + 1)
  }

  /** The count loops for one pair push exactly its mixes that pass both tests. */
  lemma InGridExact(s1: Solution, s2: Solution, c: CombinedSolution)
    requires s1.n >= 2 && s2.n >= 2
    ensures InGrid(s1, s2, c) <==> exists c1, c2 :: PairCandidate(s1, s2, c1, c2, c)
  {
    if InGrid(s1, s2, c) {
      PairGridSound(s1, s2, MaxRepeat + 1, c);
    }
    if exists c1, c2 :: PairCandidate(s1, s2, c1, c2, c) {
      var c1, c2 :| PairCandidate(s1, s2, c1, c2, c);
      PairGridComplete(s1, s2, MaxRepeat + 1, c1, c2, c);
    }
  }

  lemma {:induction false} PairsBelowSound(cs: seq<Solution>, i: nat, j: nat, c: CombinedSolution)
    requires Pool(cs) && i < j <= |cs|
    requires c in PairsBelow(cs, i, j)
    ensures exists a, b :: 0 <= a < b < |cs| && (a < i || (a == i && b < j)) && InGrid(cs[a], cs[b], c)
    decreases i, j
  {
    if j > i + 1 {
      var rest, last := PairsBelow(cs, i, j - 1), PairGrid(cs[i], cs[j - 1], MaxRepeat + 1);
      InEither(rest, last, c);
      if c in rest {
        PairsBelowSound(cs, i, j - 1, c);
      } else {
        assert InGrid(cs[i], cs[j - 1], c);
      }
    } else if i > 0 {
      PairsBelowSound(cs, i - 1, |cs|, c);
    }
  }

  lemma {:induction false} PairsBelowComplete(cs: seq<Solution>, i: nat, j: nat, a: nat, b: nat, c: CombinedSolution)
    requires Pool(cs) && i < j <= |cs| && a < b < |cs| && (a < i || (a == i && b < j))
    requires InGrid(cs[a], cs[b], c)
    ensures c in PairsBelow(cs, i, j)
    decreases i, j
  {
    if j > i + 1 {
      var rest, last := PairsBelow(cs, i, j - 1), PairGrid(cs[i], cs[j - 1], MaxRepeat + 1);
      if a == i && b == j - 1 {
        InRight(rest, last, c);
      } else {
        PairsBelowComplete(cs, i, j - 1, a, b, c);
        InLeft(rest, last, c);
      }
    } else if i == 0 {
      assert false;
    } else {
      PairsBelowComplete(cs, i - 1, |cs|, a, b, c);
    }
  }

  /** The pair loops push exactly the mixes of counts 0..20 of two positions i < j that pass both tests. */
  lemma AllPairsSound(cs: seq<Solution>, c: CombinedSolution)
    requires Pool(cs) && c in AllPairs(cs, |cs|)
    ensures exists i, j, c1, c2 :: 0 <= i < j < |cs| && PairCandidate(cs[i], cs[j], c1, c2, c)
  {
    PairsBelowSound(cs, |cs| - 1, |cs|, c);
    var i, j :| 0 <= i < j < |cs| && InGrid(cs[i], cs[j], c);
    InGridExact(cs[i], cs[j], c);
    var c1, c2 :| PairCandidate(cs[i], cs[j], c1, c2, c);
    assert 0 <= i < j < |cs| && PairCandidate(cs[i], cs[j], c1, c2, c);
  }

  lemma AllPairsComplete(cs: seq<Solution>, i: nat, j: nat, c1: int, c2: int, c: CombinedSolution)
    requires Pool(cs) && i < j < |cs| && PairCandidate(cs[i], cs[j], c1, c2, c)
    ensures c in AllPairs(cs, |cs|)
  {
    InGridExact(cs[i], cs[j], c);
    PairsBelowComplete(cs, |cs| - 1, |cs|, i, j, c);
  }

  /** The pair loops push exactly the mixes of counts 0..20 of two positions i < j that pass both tests. */
  lemma AllPairsCandidates(cs: seq<Solution>, c: CombinedSolution)
    requires Pool(cs)
    ensures c in AllPairs(cs, |cs|) <==>
      exists i, j, c1, c2 :: 0 <= i < j < |cs| && PairCandidate(cs[i], cs[j], c1, c2, c)
  {
    if c in AllPairs(cs, |cs|) {
      AllPairsSound(cs, c);
    }
    if exists i, j, c1, c2 :: 0 <= i < j < |cs| && PairCandidate(cs[i], cs[j], c1, c2, c) {
      var i, j, c1, c2 :| 0 <= i < j < |cs| && PairCandidate(cs[i], cs[j], c1, c2, c);
      AllPairsComplete(cs, i, j, c1, c2, c);
    }
  }

  /**
   * The candidates are exactly the in-band repetitions of one combinable solution
   * and the mixes of counts 0..20 (at least 2 in all, width in the band) of the
   * solutions at two positions i < j.
   */
  lemma CandidatesExact(cs: seq<Solution>, c: CombinedSolution)
    requires Pool(cs)
    ensures c in Candidates(cs) <==>
      || (exists k, count :: 0 <= k < |cs| && HomCandidate(cs[k], count, c))
      || (exists i, j, c1, c2 :: 0 <= i < j < |cs| && PairCandidate(cs[i], cs[j], c1, c2, c))
  {
    var hom, pairs := HomAll(cs, |cs|), AllPairs(cs, |cs|);
    AllPairsCandidates(cs, c);
    if c in Candidates(cs) {
      InEither(hom, pairs, c);
      if c in hom {
        HomAllSound(cs, |cs|, c);
      }
    }
    if exists k, count :: 0 <= k < |cs| && HomCandidate(cs[k], count, c) {
      var k, count :| 0 <= k < |cs| && HomCandidate(cs[k], count, c);
      HomAllComplete(cs, |cs|, k, count, c);
      InLeft(hom, pairs, c);
    }
    if c in pairs {
      InRight(hom, pairs, c);
    }
  }

  /** Every candidate has total width in [120, 140]. */
  lemma CandidatesInBand(cs: seq<Solution>, c: CombinedSolution)
    requires Pool(cs) && c in Candidates(cs)
    ensures InWidthBand(c.totalWidth)
  {
    CandidatesExact(cs, c);
  }

  /** The highest build height among the member solutions. */
  function MemberMaxHeight(ss: seq<Solution>): (m: int)
    requires ss != []
    ensures forall k :: 0 <= k < |ss| ==> ss[k].maxBuildHeight <= m
    ensures exists k :: 0 <= k < |ss| && ss[k].maxBuildHeight == m
  {
    if |ss| == 1 then ss[0].maxBuildHeight
    else
      var rest := MemberMaxHeight(ss[1..]);
      assert forall k :: 1 <= k < |ss| ==> ss[k] == ss[1..][k - 1];
      if ss[0].maxBuildHeight >= rest then ss[0].maxBuildHeight else rest
  }

  /**
   * A repetition that passes the width check has at least one member, all of them
   * s; its height, width and zero percentage are those of its members.
   */
  lemma HomCandidateShape(s: Solution, count: int, c: CombinedSolution)
    requires Combinable(s) && HomCandidate(s, count, c)
    ensures |c.solutions| == count >= 1
    ensures forall m :: 0 <= m < |c.solutions| ==> c.solutions[m] == s
    ensures c.combinedMaxHeight == MemberMaxHeight(c.solutions)
    ensures c.totalWidth == s.w * |c.solutions| as real
    ensures c.combinedZeroPercentage == s.zeroPercentage
  {
    var k: nat := count;
    assert c.solutions == Repeat(s, k);
    assert c.totalWidth == Times(s.w, k) && |c.solutions| == k;
    TimesIsProduct(s.w, k);
    var idx :| 0 <= idx < |c.solutions| && c.solutions[idx].maxBuildHeight == MemberMaxHeight(c.solutions);
    assert c.solutions[idx] == s;
  }

  /**
   * A mix lists c1 copies of s1, then c2 copies of s2; its height is the larger of
   * the two heights, which is the members' highest when both counts are positive.
   */
  lemma PairCandidateShape(s1: Solution, s2: Solution, c1: int, c2: int, c: CombinedSolution)
    requires PairCandidate(s1, s2, c1, c2, c)
    ensures |c.solutions| == c1 + c2 && 2 <= c1 + c2 <= 2 * MaxRepeat
    ensures forall m :: 0 <= m < c1 ==> c.solutions[m] == s1
    ensures forall m :: c1 <= m < c1 + c2 ==> c.solutions[m] == s2
    ensures c.combinedMaxHeight == Max(s1.maxBuildHeight, s2.maxBuildHeight)
    ensures c1 > 0 && c2 > 0 ==> c.combinedMaxHeight == MemberMaxHeight(c.solutions)
    ensures c.totalWidth == PairWidth(s1, s2, c1, c2)
  {
    if c1 > 0 && c2 > 0 {
      var m := MemberMaxHeight(c.solutions);
      assert c.solutions[0] == s1 && c.solutions[c1] == s2;
      var idx :| 0 <= idx < |c.solutions| && c.solutions[idx].maxBuildHeight == m;
      assert c.solutions[idx] == s1 || c.solutions[idx] == s2;
    }
  }

  /**
   * The mix with no copy of s1 still takes s1's height into its combined max height,
   * so that height can exceed every member's.
   */
  lemma PairHeightCountsAbsentMember(s1: Solution, s2: Solution, c2: nat)
    requires s1.n >= 2 && s2.n >= 2 && c2 >= 1
    requires s1.maxBuildHeight > s2.maxBuildHeight
    ensures var c := PairCombo(s1, s2, 0, c2);
      c.solutions != [] && c.combinedMaxHeight == s1.maxBuildHeight > MemberMaxHeight(c.solutions)
  {
    var c := PairCombo(s1, s2, 0, c2);
    assert c.solutions == Repeat(s2, c2);
    var idx :| 0 <= idx < |c.solutions| && c.solutions[idx].maxBuildHeight == MemberMaxHeight(c.solutions);
  }

  /** Widths are positive, so the total width of a row grows with count2. */
  lemma PairWidthGrows(s1: Solution, s2: Solution, c1: nat, c2: nat, k: nat)
    requires s2.w >= 0.0 && c2 <= k
    ensures PairWidth(s1, s2, c1, c2) <= PairWidth(s1, s2, c1, k)
  {
    TimesGrows(s2.w, c2, k);
  }

  /**
   * The pruning rule: once the total width exceeds 140 no larger count2 of the
   * same row can be in the band, so leaving the row early loses nothing.
   */
  lemma {:induction false} PairRowPruned(s1: Solution, s2: Solution, c1: nat, c2: nat, hi: nat)
    requires s1.n >= 2 && s2.n >= 2 && s2.w >= 0.0
    requires PairWidth(s1, s2, c1, c2) > BandHigh && c2 <= hi
    ensures PairRow(s1, s2, c1, hi) == PairRow(s1, s2, c1, c2)
    decreases hi
  {
    if hi > c2 {
      PairRowPruned(s1, s2, c1, c2, hi - 1);
      PairWidthGrows(s1, s2, c1, c2, hi - 1);
      assert PairCell(s1, s2, c1, hi - 1) == [];
      AppendNil(PairRow(s1, s2, c1, hi - 1));
    }
  }

  lemma RoundExact(k: nat)
    ensures RoundToUsize(k as real) == k
  {
  }

  /** m wells' worth of the share z / m of one well is z. */
  lemma ShareOfZeros(z: nat, m: nat)
    requires m >= 1
    ensures Times(ZeroShare(z, m) / 100.0, m) == z as real
  {
    var q := z as real / m as real;
    assert ZeroShare(z, m) / 100.0 == q;
    assert q * m as real == z as real;
    TimesIsProduct(q, m);
  }

  /**
   * Rounding is exact for solutions the sweep produced: with zero percentage
   * 100 z / (n - 1), the rounded zero count of `count` copies is z * count.
   */
  lemma RoundedZerosExact(s: Solution, z: nat, count: nat)
    requires s.n >= 2 && z <= s.n - 1
    requires s.zeroPercentage == ZeroShare(z, s.n - 1)
    ensures RoundedZeros(s, count) == z * count
  {
    ShareOfZeros(z, s.n - 1);
    TimesOfInt(z, count);
    CopiesIsProduct(z, count);
    RoundExact(z * count);
  }

  lemma TotalWellsExact(s1: Solution, s2: Solution, c1: nat, c2: nat)
    ensures TotalWells(s1, s2, c1, c2) == (s1.n - 1) * c1 + (s2.n - 1) * c2
  {
    CopiesIsProduct(s1.n - 1, c1);
    CopiesIsProduct(s2.n - 1, c2);
  }

  /**
   * So the combined zero percentage of a mix of two such solutions is the zero
   * share of the concatenated layouts.
   */
  lemma PairZeroShareExact(s1: Solution, s2: Solution, z1: nat, z2: nat, c1: nat, c2: nat)
    requires s1.n >= 2 && s2.n >= 2 && c1 + c2 >= 1
    requires z1 <= s1.n - 1 && s1.zeroPercentage == ZeroShare(z1, s1.n - 1)
    requires z2 <= s2.n - 1 && s2.zeroPercentage == ZeroShare(z2, s2.n - 1)
    ensures PairCombo(s1, s2, c1, c2).combinedZeroPercentage
         == ZeroShare(z1 * c1 + z2 * c2, TotalWells(s1, s2, c1, c2))
  {
    RoundedZerosExact(s1, z1, c1);
    RoundedZerosExact(s2, z2, c2);
  }

  /** The zero percentage of z zero wells among the n - 1 wells of s. */
  function WellShare(s: Solution, z: int): real
    requires s.n >= 2
  {
    ZeroShare(z, s.n - 1)
  }

  /** The zero percentage of s is z out of its n - 1 wells, for some whole z. */
  ghost predicate WholeZeroShare(s: Solution)
  {
    s.n >= 2 && exists z :: 0 <= z <= s.n - 1 && s.zeroPercentage == WellShare(s, z)
  }

  lemma SuccessIsWhole(ps: seq<Params>, k: nat, s: Solution)
    requires k < |ps| && Evaluate(ps[k]) == Some(s)
    ensures s.n >= 3 && WholeZeroShare(s)
  {
    var p := ps[k];
    ScoreOfSuccess(p);
    var ws := Plan(p.n, p.r, p.f, p.w).wells;
    assert s.zeroPercentage == WellShare(s, ZeroCount(ws));
  }

  /**
   * What the sweep hands to the search at the call `find_combined_solutions(&all_successful_solutions)`:
   * every solution has n >= 3, so the search's precondition holds, and a zero
   * percentage that is a whole number of its wells, so rounding is exact.
   */
  lemma SweepFeedsCombiner(ns: seq<int>, roots: map<int, seq<int>>, fs: seq<int>)
    requires ValidConfig(ns, roots)
    ensures var ss := Successes(Outcomes(Tuples(ns, roots, fs)));
      && WellCountsPositive(ss)
      && forall k :: 0 <= k < |ss| ==> ss[k].n >= 3 && WholeZeroShare(ss[k])
  {
    var ps := Tuples(ns, roots, fs);
    var ss := Successes(Outcomes(ps));
    SweepTallies(ns, roots, fs);
    forall k | 0 <= k < |ss|
      ensures ss[k].n >= 3 && WholeZeroShare(ss[k])
    {
      assert ss[k] in ss;
      var idx :| 0 <= idx < |ps| && Evaluate(ps[idx]) == Some(ss[k]);
      SuccessIsWhole(ps, idx, ss[k]);
    }
  }

  /**
   * The result is the candidates ranked: the same combinations, ordered by
   * (combined max height, |total width - 130|), ties in push order; each in the band.
   */
  lemma CombineRanked(ss: seq<Solution>)
    requires WellCountsPositive(ss)
    ensures Pool(CombinableOf(ss))
    ensures var cands := Candidates(CombinableOf(ss));
      && multiset(Combine(ss)) == multiset(cands)
      && SortedByKey(Combine(ss), CombinedKey)
      && (forall k :: WithKey(Combine(ss), CombinedKey, k) == WithKey(cands, CombinedKey, k))
      && (forall c :: c in Combine(ss) ==> InWidthBand(c.totalWidth))
  {
    CombinableOfPool(ss);
    var cs := CombinableOf(ss);
    var cands := Candidates(cs);
    SortByKeySorted(cands, CombinedKey);
    forall k
      ensures WithKey(Combine(ss), CombinedKey, k) == WithKey(cands, CombinedKey, k)
    {
      SortByKeyStable(cands, CombinedKey, k);
    }
    forall c | c in Combine(ss)
      ensures InWidthBand(c.totalWidth)
    {
      assert c in multiset(cands);
      CandidatesInBand(cs, c);
    }
  }

  /** With no solution of width at least 6 there is no combination. */
  lemma NoCombinableNoResult(ss: seq<Solution>)
    requires WellCountsPositive(ss)
    requires forall k :: 0 <= k < |ss| ==> !Combinable(ss[k])
    ensures Combine(ss) == []
  {
    CombinableOfPool(ss);
    if CombinableOf(ss) != [] {
      var s := CombinableOf(ss)[0];
      CombinableOfExact(ss, s);
    }
  }

  // ---------------------------------------------------------------------
  // The search loops
  // ---------------------------------------------------------------------

  lemma AppendNil<T>(a: seq<T>)
    ensures a + [] == a
  {
  }

  lemma HomStep(s: Solution, lo: nat, count: nat)
    requires lo <= count
    ensures HomFits(s, count) ==> HomRange(s, lo, count + 1) == HomRange(s, lo, count) + [HomCombo(s, count)]
    ensures !HomFits(s, count) ==> HomRange(s, lo, count + 1) == HomRange(s, lo, count)
  {
    AppendNil(HomRange(s, lo, count));
  }

  /** The loop over `min_copies..=max_copies` for one solution. */
  method PushHomogeneous(sol: Solution, combined0: seq<CombinedSolution>) returns (combined: seq<CombinedSolution>)
    requires Combinable(sol)
    ensures combined == combined0 + HomFor(sol)
  {
    MinCopiesPositive(sol);
    var minCopies := MinCopies(sol);
    var maxCopies := MaxCopies(sol);
    combined := combined0;
    AppendNil(combined0);
    var count: nat := minCopies;
    while count <= maxCopies
      invariant minCopies <= count && (count <= maxCopies + 1 || count == minCopies)
      invariant combined == combined0 + HomRange(sol, minCopies, count)
      decreases maxCopies - count
    {
      var totalWidth := HomWidth(sol, count);
      HomStep(sol, minCopies, count);
      if totalWidth >= 120.0 && totalWidth <= 140.0 {
        var combinedMaxHeight := sol.maxBuildHeight;
        var combinedZeroPercentage := sol.zeroPercentage;
        Assoc(combined0, HomRange(sol, minCopies, count), [HomCombo(sol, count)]);
        combined := combined + [CombinedSolution(Repeat(sol, count), combinedMaxHeight, totalWidth, combinedZeroPercentage)];
      }
      count := count + 1;
    }
  }

  lemma RowStep(s1: Solution, s2: Solution, c1: nat, c2: nat)
    requires s1.n >= 2 && s2.n >= 2
    ensures !PairFits(s1, s2, c1, c2) ==> PairRow(s1, s2, c1, c2 + 1) == PairRow(s1, s2, c1, c2)
    ensures PairFits(s1, s2, c1, c2) ==>
      PairRow(s1, s2, c1, c2 + 1) == PairRow(s1, s2, c1, c2) + [PairCombo(s1, s2, c1, c2)]
  {
    AppendNil(PairRow(s1, s2, c1, c2));
  }

  /** The `count2` loop for one count1, with its `continue` and its early `break`. */
  method PushPairRow(sol1: Solution, sol2: Solution, count1: nat, combined0: seq<CombinedSolution>)
    returns (combined: seq<CombinedSolution>)
    requires Usable(sol1) && Usable(sol2)
    ensures combined == combined0 + PairRow(sol1, sol2, count1, MaxRepeat + 1)
  {
    combined := combined0;
    AppendNil(combined0);
    for count2 := 0 to MaxRepeat + 1
      invariant combined == combined0 + PairRow(sol1, sol2, count1, count2)
    {
      RowStep(sol1, sol2, count1, count2);
      if count1 + count2 < 2 {
        continue;
      }
      var totalWidth := PairWidth(sol1, sol2, count1, count2);
      if totalWidth > 140.0 {
        PairRowPruned(sol1, sol2, count1, count2, MaxRepeat + 1);
        break;
      }
      if totalWidth >= 120.0 && totalWidth <= 140.0 {
        var combinedMaxHeight := Max(sol1.maxBuildHeight, sol2.maxBuildHeight);
        var totalWells := TotalWells(sol1, sol2, count1, count2);
        var totalZeroWells := RoundedZeros(sol1, count1) + RoundedZeros(sol2, count2);
        var combinedZeroPercentage := ZeroShare(totalZeroWells, totalWells);
        var solutions := Repeat(sol1, count1) + Repeat(sol2, count2);
        Assoc(combined0, PairRow(sol1, sol2, count1, count2), [PairCombo(sol1, sol2, count1, count2)]);
        combined := combined + [CombinedSolution(solutions, combinedMaxHeight, totalWidth, combinedZeroPercentage)];
      }
    }
  }

  /** The `count1` loop for one pair. */
  method PushPair(sol1: Solution, sol2: Solution, combined0: seq<CombinedSolution>)
    returns (combined: seq<CombinedSolution>)
    requires Usable(sol1) && Usable(sol2)
    ensures combined == combined0 + PairGrid(sol1, sol2, MaxRepeat + 1)
  {
    combined := combined0;
    AppendNil(combined0);
    for count1 := 0 to MaxRepeat + 1
      invariant combined == combined0 + PairGrid(sol1, sol2, count1)
    {
      Assoc(combined0, PairGrid(sol1, sol2, count1), PairRow(sol1, sol2, count1, MaxRepeat + 1));
      combined := PushPairRow(sol1, sol2, count1, combined);
    }
  }

  lemma CombinableStep(ss: seq<Solution>, k: nat)
    requires k < |ss|
    ensures Combinable(ss[k]) ==> CombinableOf(ss[..k + 1]) == CombinableOf(ss[..k]) + [ss[k]]
    ensures !Combinable(ss[k]) ==> CombinableOf(ss[..k + 1]) == CombinableOf(ss[..k])
  {
    assert ss[..k + 1][..k] == ss[..k];
    AppendNil(CombinableOf(ss[..k]));
  }

  /** The filter `s.w >= 6.0`. */
  method CombinableSolutions(validSolutions: seq<Solution>) returns (combinable: seq<Solution>)
    ensures combinable == CombinableOf(validSolutions)
  {
    combinable := [];
    for k := 0 to |validSolutions|
      invariant combinable == CombinableOf(validSolutions[..k])
    {
      CombinableStep(validSolutions, k);
      if validSolutions[k].w >= 6.0 {
        combinable := combinable + [validSolutions[k]];
      }
    }
    assert validSolutions[..|validSolutions|] == validSolutions;
  }

  /** The loop over every combinable solution, pushing its repetitions. */
  method PushAllHomogeneous(cs: seq<Solution>) returns (combined: seq<CombinedSolution>)
    requires Pool(cs)
    ensures combined == HomAll(cs, |cs|)
  {
    combined := [];
    for a := 0 to |cs|
      invariant combined == HomAll(cs, a)
    {
      combined := PushHomogeneous(cs[a], combined);
    }
  }

  /** The `j` loop: solution i against every later one. */
  method PushPairsFrom(cs: seq<Solution>, i: nat, combined0: seq<CombinedSolution>, ghost base: seq<CombinedSolution>)
    returns (combined: seq<CombinedSolution>)
    requires Pool(cs) && i < |cs|
    requires combined0 == base + PairsBelow(cs, i, i + 1)
    ensures combined == base + PairsBelow(cs, i, |cs|)
  {
    combined := combined0;
    for j := i + 1 to |cs|
      invariant combined == base + PairsBelow(cs, i, j)
    {
      var sol1 := cs[i];
      var sol2 := cs[j];
      assert PairsBelow(cs, i, j + 1) == PairsBelow(cs, i, j) + PairGrid(sol1, sol2, MaxRepeat + 1);
      Assoc(base, PairsBelow(cs, i, j), PairGrid(sol1, sol2, MaxRepeat + 1));
      combined := PushPair(sol1, sol2, combined);
    }
  }

  lemma AllPairsStep(cs: seq<Solution>, i: nat)
    requires Pool(cs) && i < |cs|
    ensures PairsBelow(cs, i, i + 1) == AllPairs(cs, i)
    ensures AllPairs(cs, i + 1) == PairsBelow(cs, i, |cs|)
  {
  }

  /** The `i` loop over every first solution of a pair. */
  method PushAllPairs(cs: seq<Solution>, combined0: seq<CombinedSolution>)
    returns (combined: seq<CombinedSolution>)
    requires Pool(cs)
    ensures combined == combined0 + AllPairs(cs, |cs|)
  {
    combined := combined0;
    AppendNil(combined0);
    for i := 0 to |cs|
      invariant combined == combined0 + AllPairs(cs, i)
    {
      AllPairsStep(cs, i);
      combined := PushPairsFrom(cs, i, combined, combined0);
    }
  }

  /** `find_combined_solutions`. */
  method FindCombinedSolutions(validSolutions: seq<Solution>) returns (result: seq<CombinedSolution>)
    requires WellCountsPositive(validSolutions)
    ensures result == Combine(validSolutions)
  {
    var combinable := CombinableSolutions(validSolutions);
    CombinableOfPool(validSolutions);
    if |combinable| == 0 {
      return [];
    }
    var combined := PushAllHomogeneous(combinable);
    combined := PushAllPairs(combinable, combined);
    result := SortByKey(combined, CombinedKey);
  }
}
