/**
 * `calculate` as the source writes it: a fixed-size array of wells filled by
 * three index loops (depths by binary modular exponentiation, raw heights,
 * then the greedy fold pass), each proved to follow the functions of module
 * Wells.
 */
module Planner {
  import opened Wells
  import FoldLemmas

  // ---------------------------------------------------------------------
  // Arithmetic behind binary exponentiation
  // ---------------------------------------------------------------------

  lemma {:induction false} PowAdd(b: int, x: nat, y: nat)
    ensures Pow(b, x + y) == Pow(b, x) * Pow(b, y)
    decreases x
  {
    if x > 0 {
      PowAdd(b, x - 1, y);
    }
  }

  lemma {:induction false} PowSquare(b: int, e: nat)
    ensures Pow(b * b, e) == Pow(b, 2 * e)
    decreases e
  {
    if e > 0 {
      PowSquare(b, e - 1);
      PowAdd(b, 2, 2 * e - 2);
    }
  }

  /** Euclidean division is unique: a quotient and a remainder in [0, n) are a / n and a % n. */
  lemma DivModUnique(a: int, q: int, rem: int, n: int)
    requires n > 0 && 0 <= rem < n && a == q * n + rem
    ensures a % n == rem
  {
    var d := a / n - q;
    assert a == (a / n) * n + a % n;
    assert d * n == rem - a % n;
    assert d >= 1 ==> d * n >= n;
    assert d <= -1 ==> d * n <= -n;
  }

  lemma MulModLeft(a: int, b: int, n: int)
    requires n > 0
    ensures (a * b) % n == ((a % n) * b) % n
  {
    var q := a / n;
    var rem := a % n;
    assert a == q * n + rem;
    var t := (rem * b) / n;
    var u := (rem * b) % n;
    assert rem * b == t * n + u;
    assert a * b == (q * b + t) * n + u;
    DivModUnique(a * b, q * b + t, u, n);
  }

  lemma MulModRight(a: int, b: int, n: int)
    requires n > 0
    ensures (a * b) % n == (a * (b % n)) % n
  {
    MulModLeft(b, a, n);
  }

  lemma {:induction false} PowMod(b: int, e: nat, n: int)
    requires n > 0
    ensures Pow(b % n, e) % n == Pow(b, e) % n
    decreases e
  {
    if e > 0 {
      calc {
        Pow(b % n, e) % n;
        ((b % n) * Pow(b % n, e - 1)) % n;
        { MulModRight(b % n, Pow(b % n, e - 1), n); }
        ((b % n) * (Pow(b % n, e - 1) % n)) % n;
        { PowMod(b, e - 1, n); }
        ((b % n) * (Pow(b, e - 1) % n)) % n;
        { MulModRight(b % n, Pow(b, e - 1), n); }
        ((b % n) * Pow(b, e - 1)) % n;
        { MulModLeft(b, Pow(b, e - 1), n); }
        (b * Pow(b, e - 1)) % n;
      }
    }
  }

  /** One iteration of the exponentiation loop keeps (result * base^exp) mod n. */
  lemma ModPowStep(result: int, base: int, exp: nat, n: int)
    requires n > 0 && exp > 0
    ensures var result' := if exp % 2 == 1 then (result * base) % n else result;
      (result' * Pow((base * base) % n, exp / 2)) % n == (result * Pow(base, exp)) % n
  {
    var half := exp / 2;
    var p := Pow(base * base, half);
    calc {
      Pow((base * base) % n, half) % n;
      { PowMod(base * base, half, n); }
      p % n;
    }
    PowSquare(base, half);
    if exp % 2 == 1 {
      PowAdd(base, 1, 2 * half);
      assert Pow(base, exp) == base * p;
      calc {
        (((result * base) % n) * Pow((base * base) % n, half)) % n;
        { MulModLeft(result * base, Pow((base * base) % n, half), n); }
        ((result * base) * Pow((base * base) % n, half)) % n;
        { MulModRight(result * base, Pow((base * base) % n, half), n); }
        ((result * base) * (Pow((base * base) % n, half) % n)) % n;
        ((result * base) * (p % n)) % n;
        { MulModRight(result * base, p, n); }
        ((result * base) * p) % n;
        { assert (result * base) * p == result * (base * p); }
        (result * Pow(base, exp)) % n;
      }
    } else {
      assert Pow(base, exp) == p;
      calc {
        (result * Pow((base * base) % n, half)) % n;
        { MulModRight(result, Pow((base * base) % n, half), n); }
        (result * (Pow((base * base) % n, half) % n)) % n;
        (result * (p % n)) % n;
        { MulModRight(result, p, n); }
        (result * p) % n;
      }
    }
  }

  /** Two residues of a modulus up to MaxModulus multiply without leaving the i32 range. */
  lemma ResidueProductFitsI32(a: int, b: int, n: int)
    requires 0 <= a < n <= MaxModulus && 0 <= b < n
    ensures 0 <= a * b <= I32Max
  {
    MulLe(a, b, MaxModulus - 1);
    MulLe(MaxModulus - 1, a, MaxModulus - 1);
    assert (MaxModulus - 1) * (MaxModulus - 1) <= I32Max;
  }

  /**
   * The fold pass stays within i32 when f does: for n - I32Max <= f <= I32Max and a
   * raw height in [0, n), both `raw_height - f` and the build height fit.
   */
  lemma FoldArithmeticFitsI32(raw: int, f: int, n: int)
    requires 1 <= n <= MaxModulus && 0 <= raw < n && n - I32Max <= f <= I32Max
    ensures -I32Max - 1 <= raw - f <= I32Max
    ensures -I32Max - 1 <= BuildHeight(raw, f, n) <= I32Max
  {
  }

  lemma MulLe(a: int, b: int, c: int)
    requires 0 <= a && 0 <= b <= c
    ensures 0 <= a * b <= a * c
  {
    assert a * c - a * b == a * (c - b);
  }

  // ---------------------------------------------------------------------
  // The depth generator
  // ---------------------------------------------------------------------

  /** r^i mod n by repeated squaring, every intermediate product within the i32 range. */
  method ModPow(r: int, i: nat, n: int) returns (result: int)
    requires 2 <= n <= MaxModulus && 0 <= r < n
    ensures result == Pow(r, i) % n
  {
    result := 1;
    var base := r;
    var exp := i;
    while exp > 0
      invariant 0 <= result < n && 0 <= base < n
      invariant (result * Pow(base, exp)) % n == Pow(r, i) % n
      decreases exp
    {
      ModPowStep(result, base, exp, n);
      ghost var goal := (result * Pow(base, exp)) % n;
      if exp % 2 == 1 {
        ResidueProductFitsI32(result, base, n);
        result := (result * base) % n;
      }
      ResidueProductFitsI32(base, base, n);
      base := (base * base) % n;
      exp := exp / 2;
      assert (result * Pow(base, exp)) % n == goal;
    }
    assert Pow(base, exp) == 1 && result * Pow(base, exp) == result;
    DivModUnique(result, 0, result, n);
  }

  // ---------------------------------------------------------------------
  // calculate
  // ---------------------------------------------------------------------

  /** The first loop of `calculate`: allocate the wells, fill in each depth and keep the running maximum. */
  method FillDepths(n: int, r: int) returns (wells: array<Well>, maxDepth: int)
    requires 3 <= n <= MaxModulus && 0 <= r < n
    ensures fresh(wells) && wells.Length == n - 1
    ensures forall j :: 0 <= j < n - 1 ==> wells[j] == Well(Depths(n, r)[j], 0, NoFold, 0, 0)
    ensures maxDepth == MaxDepth(Depths(n, r))
  {
    var numWells := n - 1;
    wells := new Well[numWells](_ => Well(0, 0, NoFold, 0, 0));
    ghost var ds := Depths(n, r);
    maxDepth := 0;
    for i := 0 to numWells
      invariant forall j :: 0 <= j < i ==> wells[j] == Well(ds[j], 0, NoFold, 0, 0)
      invariant forall j :: i <= j < numWells ==> wells[j] == Well(0, 0, NoFold, 0, 0)
      invariant maxDepth == MaxDepth(ds[..i])
    {
      var d := ModPow(r, i, n);
      wells[i] := wells[i].(depth := d);
      assert ds[..i + 1][..i] == ds[..i];
      if wells[i].depth > maxDepth {
        maxDepth := wells[i].depth;
      }
    }
    assert ds[..numWells] == ds;
  }

  /** The second loop of `calculate`: raw height = maximum depth - depth. */
  method DepthsAndRawHeights(n: int, r: int) returns (wells: array<Well>)
    requires 3 <= n <= MaxModulus && 0 <= r < n
    ensures fresh(wells)
    ensures wells[..] == InitialLayout(n, r)
  {
    var maxDepth;
    wells, maxDepth := FillDepths(n, r);
    ghost var init := InitialLayout(n, r);
    ghost var ds := Depths(n, r);
    for i := 0 to wells.Length
      invariant forall j :: 0 <= j < i ==> wells[j] == init[j]
      invariant forall j :: i <= j < wells.Length ==> wells[j] == Well(ds[j], 0, NoFold, 0, 0)
    {
      wells[i] := wells[i].(rawHeight := maxDepth - wells[i].depth);
    }
  }

  /** `calculate(n, r, f, w)`: the initial layout, then the fold loop; equal to Plan. */
  method Calculate(n: int, r: int, f: int, w: real) returns (res: PlanResult)
    requires 3 <= n <= MaxModulus && 0 <= r < n
    ensures res == Plan(n, r, f, w)
  {
    var wells := DepthsAndRawHeights(n, r);
    res := FoldAll(wells, n, f, w);
  }

  /** The fold loop over every well of the layout, stopping at the first failure. */
  method FoldAll(wells: array<Well>, n: int, f: int, w: real) returns (res: PlanResult)
    requires 2 <= wells.Length && n >= 1
    modifies wells
    ensures res == FoldPrefix(old(wells[..]), wells.Length, n, f, w)
  {
    var numWells := wells.Length;
    ghost var init := wells[..];
    for i := 0 to numWells
      invariant FoldPrefix(init, i, n, f, w) == Ok(wells[..])
    {
      var failure := FoldWell(wells, i, n, f, w);
      if failure.Some? {
        res := Err(failure.value);
        FoldLemmas.ErrorPropagates(init, i + 1, numWells, n, f, w);
        return;
      }
    }
    res := Ok(wells[..]);
  }

  /**
   * The body of the fold loop for well i: writes its build height and, when it has
   * a deficit, the fold of the chosen neighbour; or reports the failure.
   */
  method FoldWell(wells: array<Well>, i: nat, n: int, f: int, w: real) returns (failure: Option<FoldError>)
    requires 2 <= wells.Length && i < wells.Length && n >= 1
    modifies wells
    ensures failure.None? ==> Step(old(wells[..]), i, n, f, w) == Ok(wells[..])
    ensures failure.Some? ==> Step(old(wells[..]), i, n, f, w) == Err(failure.value)
  {
    ghost var before := wells[..];
    var numWells := wells.Length;
    var requiredFoldDepth := Abs(Clamp(wells[i].rawHeight - f, -n, 0));
    wells[i] := wells[i].(buildHeight := wells[i].rawHeight - f + requiredFoldDepth);
    ghost var cur := wells[..];
    assert cur == before[i := before[i].(buildHeight := before[i].rawHeight - f + requiredFoldDepth)];
    failure := None;
    if requiredFoldDepth > 0 {
      if requiredFoldDepth as real >= w {
        return Some(FoldTooDeep(i, requiredFoldDepth));
      }
      var isLeftmost := i == 0;
      var isRightmost := i == numWells - 1;
      if isLeftmost {
        if wells[1].fold != NoFold {
          return Some(BoundaryNeighborFolded(i, 1));
        }
        if (wells[1].rawHeight as real) < w {
          return Some(BoundaryNeighborTooShort(i, 1, wells[1].rawHeight));
        }
        wells[1] := wells[1].(fold := Left, foldDepth := requiredFoldDepth);
        assert wells[..] == cur[1 := cur[1].(fold := Left, foldDepth := requiredFoldDepth)];
      } else if isRightmost {
        if wells[numWells - 2].fold != NoFold {
          return Some(BoundaryNeighborFolded(i, numWells - 2));
        }
        if (wells[numWells - 2].rawHeight as real) < w {
          return Some(BoundaryNeighborTooShort(i, numWells - 2, wells[numWells - 2].rawHeight));
        }
        wells[numWells - 2] := wells[numWells - 2].(fold := Right, foldDepth := requiredFoldDepth);
        assert wells[..] == cur[numWells - 2 := cur[numWells - 2].(fold := Right, foldDepth := requiredFoldDepth)];
      } else {
        var leftNeighborFolded := wells[i - 1].fold == Right;
        var rightNeighborFolded := wells[i + 1].fold == Left;
        var leftNeighborHasSpace := (wells[i - 1].rawHeight - wells[i].buildHeight) as real > w;
        var rightNeighborHasSpace := (wells[i + 1].rawHeight - wells[i].buildHeight) as real > w;
        var canFoldBehindLeft := !leftNeighborFolded && leftNeighborHasSpace;
        var canFoldBehindRight := !rightNeighborFolded && rightNeighborHasSpace;
        if !(canFoldBehindLeft || canFoldBehindRight) {
          var reasons := InteriorReasons(i, leftNeighborFolded, leftNeighborHasSpace,
                                         rightNeighborFolded, rightNeighborHasSpace,
                                         wells[i - 1].rawHeight, wells[i + 1].rawHeight);
          return Some(NoAvailableNeighbor(i, reasons));
        } else if !canFoldBehindLeft {
          wells[i + 1] := wells[i + 1].(fold := Left, foldDepth := requiredFoldDepth);
          assert wells[..] == cur[i + 1 := cur[i + 1].(fold := Left, foldDepth := requiredFoldDepth)];
        } else if !canFoldBehindRight {
          wells[i - 1] := wells[i - 1].(fold := Right, foldDepth := requiredFoldDepth);
          assert wells[..] == cur[i - 1 := cur[i - 1].(fold := Right, foldDepth := requiredFoldDepth)];
        } else {
          // Prefer folding behind the left neighbour
          wells[i - 1] := wells[i - 1].(fold := Right, foldDepth := requiredFoldDepth);
          assert wells[..] == cur[i - 1 := cur[i - 1].(fold := Right, foldDepth := requiredFoldDepth)];
        }
      }
    }
  }
}
