/**
 * Well layouts: the depth generator and the greedy fold pass of `calculate`,
 * stated as functions over sequences of well records.  The imperative
 * version that works on an array lives in module Planner and is proved
 * equal to `Plan` below.
 */
module Wells {

  /** Largest value of Rust's i32. */
  const I32Max: int := 0x7fff_ffff

  /** Largest modulus whose residue products (at most (n-1)^2) fit in an i32. */
  const MaxModulus: int := 46340

  /** The side a fold is recorded on; `NoFold` is Rust's `None`. */
  datatype FoldDirection = NoFold | Left | Right

  /** One well of a layout (Rust struct `Well`). */
  datatype Well = Well(depth: int, rawHeight: int, fold: FoldDirection, foldDepth: int, buildHeight: int)

  datatype Side = LeftSide | RightSide

  /** One itemised reason why an interior well cannot fold behind a neighbour. */
  datatype Reason =
    | AlreadyFolded(side: Side, neighbor: nat)
    | TooShort(side: Side, neighbor: nat, height: int)

  /** The failures of `calculate`, each carrying the index of the failing well. */
  datatype FoldError =
    | FoldTooDeep(well: nat, required: int)
    | BoundaryNeighborFolded(well: nat, neighbor: nat)
    | BoundaryNeighborTooShort(well: nat, neighbor: nat, height: int)
    | NoAvailableNeighbor(well: nat, reasons: seq<Reason>)

  datatype Option<T> = None | Some(value: T)

  /** Rust's `Result<Vec<Well>, String>`. */
  datatype PlanResult = Ok(wells: seq<Well>) | Err(error: FoldError)

  // ---------------------------------------------------------------------
  // Depth generator
  // ---------------------------------------------------------------------

  function Pow(b: int, e: nat): int
  {
    if e == 0 then 1 else b * Pow(b, e - 1)
  }

  /** depth[i] = r^i mod n for every well index i < n - 1. */
  function Depths(n: int, r: int): seq<int>
    requires n >= 2
  {
    seq(n - 1, i requires 0 <= i => Pow(r, i) % n)
  }

  /** The running maximum of the first loop of `calculate`, which starts at 0. */
  function MaxDepth(ds: seq<int>): (m: int)
    ensures 0 <= m
    ensures forall i :: 0 <= i < |ds| ==> ds[i] <= m
  {
    if ds == [] then 0
    else
      var m0 := MaxDepth(ds[..|ds| - 1]);
      if ds[|ds| - 1] > m0 then ds[|ds| - 1] else m0
  }

  /** The running maximum is one of the depths, unless it never rose above its start 0. */
  lemma {:induction false} MaxDepthAttained(ds: seq<int>)
    ensures MaxDepth(ds) == 0 || exists i :: 0 <= i < |ds| && ds[i] == MaxDepth(ds)
  {
    if ds != [] {
      var init := ds[..|ds| - 1];
      MaxDepthAttained(init);
      if MaxDepth(ds) != ds[|ds| - 1] && MaxDepth(ds) != 0 {
        var k :| 0 <= k < |init| && init[k] == MaxDepth(init);
        assert ds[k] == MaxDepth(ds);
      }
    }
  }

  /** The layout after the depth and raw-height loops, before any fold. */
  function InitialLayout(n: int, r: int): seq<Well>
    requires n >= 2
  {
    var ds := Depths(n, r);
    var top := MaxDepth(ds);
    seq(n - 1, i requires 0 <= i < n - 1 => Well(ds[i], top - ds[i], NoFold, 0, 0))
  }

  /** No well is folded and all fold depths and build heights are still 0. */
  ghost predicate Unfolded(ws: seq<Well>)
  {
    forall j :: 0 <= j < |ws| ==> ws[j].fold == NoFold && ws[j].foldDepth == 0 && ws[j].buildHeight == 0
  }

  // ---------------------------------------------------------------------
  // Required fold depth and build height of one well
  // ---------------------------------------------------------------------

  function Clamp(x: int, lo: int, hi: int): int
    requires lo <= hi
  {
    if x < lo then lo else if x > hi then hi else x
  }

  function Abs(x: int): int
  {
    if x < 0 then -x else x
  }

  /** `(raw_height - f).clamp(-n, 0).abs()`: the part of the deficit, capped at n, that must be folded away. */
  function RequiredFoldDepth(raw: int, f: int, n: int): (d: int)
    requires n >= 1
    ensures 0 <= d <= n
    ensures d == 0 <==> raw >= f
    ensures raw < f ==> d == (if f - raw <= n then f - raw else n)
  {
    Abs(Clamp(raw - f, -n, 0))
  }

  /** `raw_height - f + required_fold_depth`; negative (not clamped) once the deficit exceeds n. */
  function BuildHeight(raw: int, f: int, n: int): (h: int)
    requires n >= 1
    ensures raw >= f ==> h == raw - f
    ensures 0 < f - raw <= n ==> h == 0
    ensures f - raw > n ==> h == raw - f + n && h < 0
  {
    raw - f + RequiredFoldDepth(raw, f, n)
  }

  // ---------------------------------------------------------------------
  // The fold pass
  // ---------------------------------------------------------------------

  /** The position of a reason in the source's fixed order: left before right, and on each side folded before too short. */
  function ReasonRank(x: Reason): int
  {
    (if x.side == LeftSide then 0 else 2) + (if x.AlreadyFolded? then 0 else 1)
  }

  /** The diagnostics collected when an interior well has no available neighbour, in the source's order. */
  function InteriorReasons(i: nat, leftFolded: bool, leftSpace: bool, rightFolded: bool, rightSpace: bool,
                           leftHeight: int, rightHeight: int): (rs: seq<Reason>)
    requires i >= 1
    ensures AlreadyFolded(LeftSide, i - 1) in rs <==> leftFolded
    ensures TooShort(LeftSide, i - 1, leftHeight) in rs <==> !leftSpace
    ensures AlreadyFolded(RightSide, i + 1) in rs <==> rightFolded
    ensures TooShort(RightSide, i + 1, rightHeight) in rs <==> !rightSpace
    ensures |rs| <= 4
    ensures forall a, b :: 0 <= a < b < |rs| ==> ReasonRank(rs[a]) < ReasonRank(rs[b])
  {
    (if leftFolded then [AlreadyFolded(LeftSide, i - 1)] else [])
    + (if !leftSpace then [TooShort(LeftSide, i - 1, leftHeight)] else [])
    + (if rightFolded then [AlreadyFolded(RightSide, i + 1)] else [])
    + (if !rightSpace then [TooShort(RightSide, i + 1, rightHeight)] else [])
  }

  /**
   * Whether an interior well of build height h may fold behind neighbour nb: the
   * neighbour must not already carry a fold facing that well (`facing`), and its raw
   * height must exceed h by strictly more than w.
   */
  predicate Available(nb: Well, facing: FoldDirection, h: int, w: real)
  {
    nb.fold != facing && (nb.rawHeight - h) as real > w
  }

  /**
   * One iteration of the fold loop for well i: set its build height, and if it has a
   * deficit record the deficit on one neighbour, or fail.
   */
  function Step(ws: seq<Well>, i: nat, n: int, f: int, w: real): (res: PlanResult)
    requires 2 <= |ws| && i < |ws| && n >= 1
    ensures res.Err? ==> res.error.well == i
    ensures res.Ok? ==> |res.wells| == |ws|
  {
    var m := |ws|;
    var req := RequiredFoldDepth(ws[i].rawHeight, f, n);
    var cur := ws[i := ws[i].(buildHeight := ws[i].rawHeight - f + req)];
    if req <= 0 then Ok(cur)
    else if req as real >= w then Err(FoldTooDeep(i, req))
    else if i == 0 then
      if cur[1].fold != NoFold then Err(BoundaryNeighborFolded(i, 1))
      else if (cur[1].rawHeight as real) < w then Err(BoundaryNeighborTooShort(i, 1, cur[1].rawHeight))
      else Ok(cur[1 := cur[1].(fold := Left, foldDepth := req)])
    else if i == m - 1 then
      if cur[m - 2].fold != NoFold then Err(BoundaryNeighborFolded(i, m - 2))
      else if (cur[m - 2].rawHeight as real) < w then Err(BoundaryNeighborTooShort(i, m - 2, cur[m - 2].rawHeight))
      else Ok(cur[m - 2 := cur[m - 2].(fold := Right, foldDepth := req)])
    else
      var leftFolded := cur[i - 1].fold == Right;
      var rightFolded := cur[i + 1].fold == Left;
      var leftSpace := (cur[i - 1].rawHeight - cur[i].buildHeight) as real > w;
      var rightSpace := (cur[i + 1].rawHeight - cur[i].buildHeight) as real > w;
      var canLeft := Available(cur[i - 1], Right, cur[i].buildHeight, w);
      var canRight := Available(cur[i + 1], Left, cur[i].buildHeight, w);
      if !(canLeft || canRight) then
        Err(NoAvailableNeighbor(i, InteriorReasons(i, leftFolded, leftSpace, rightFolded, rightSpace,
                                                   cur[i - 1].rawHeight, cur[i + 1].rawHeight)))
      else if !canLeft then Ok(cur[i + 1 := cur[i + 1].(fold := Left, foldDepth := req)])
      else Ok(cur[i - 1 := cur[i - 1].(fold := Right, foldDepth := req)])
  }

  /**
   * What one successful iteration changes: only wells i-1, i and i+1; of well i only
   * its build height; of a neighbour only its fold, which then faces well i and
   * records its deficit; and a deficit always ends up recorded on one neighbour.
   */
  lemma StepFrame(ws: seq<Well>, i: nat, n: int, f: int, w: real, t: seq<Well>)
    requires 2 <= |ws| && i < |ws| && n >= 1
    requires Step(ws, i, n, f, w) == Ok(t)
    ensures |t| == |ws|
    ensures forall j :: 0 <= j < |ws| && j != i - 1 && j != i && j != i + 1 ==> t[j] == ws[j]
    ensures t[i] == ws[i].(buildHeight := BuildHeight(ws[i].rawHeight, f, n))
    ensures forall j :: 0 <= j < |ws| ==> t[j].depth == ws[j].depth && t[j].rawHeight == ws[j].rawHeight
    ensures i >= 1 && t[i - 1] != ws[i - 1] ==>
      var req := RequiredFoldDepth(ws[i].rawHeight, f, n);
      t[i - 1] == ws[i - 1].(fold := Right, foldDepth := req) && 0 < req && req as real < w
    ensures i + 1 < |ws| && t[i + 1] != ws[i + 1] ==>
      var req := RequiredFoldDepth(ws[i].rawHeight, f, n);
      t[i + 1] == ws[i + 1].(fold := Left, foldDepth := req) && 0 < req && req as real < w
    ensures var req := RequiredFoldDepth(ws[i].rawHeight, f, n);
      req > 0 ==>
        && req as real < w
        && ((i >= 1 && t[i - 1].fold == Right && t[i - 1].foldDepth == req) ||
            (i + 1 < |ws| && t[i + 1].fold == Left && t[i + 1].foldDepth == req))
  {
  }

  /**
   * The neighbour choice of an interior well with a deficit narrower than w: the left
   * neighbour whenever it is available, the right one only when the left one is not,
   * and a failure listing the reasons when neither is.
   */
  lemma StepInteriorChoice(ws: seq<Well>, i: nat, n: int, f: int, w: real)
    requires 2 <= |ws| && 0 < i < |ws| - 1 && n >= 1
    requires var req := RequiredFoldDepth(ws[i].rawHeight, f, n); 0 < req && req as real < w
    ensures var req := RequiredFoldDepth(ws[i].rawHeight, f, n);
      var h := BuildHeight(ws[i].rawHeight, f, n);
      var cur := ws[i := ws[i].(buildHeight := h)];
      Available(ws[i - 1], Right, h, w) ==>
        Step(ws, i, n, f, w) == Ok(cur[i - 1 := ws[i - 1].(fold := Right, foldDepth := req)])
    ensures var req := RequiredFoldDepth(ws[i].rawHeight, f, n);
      var h := BuildHeight(ws[i].rawHeight, f, n);
      var cur := ws[i := ws[i].(buildHeight := h)];
      !Available(ws[i - 1], Right, h, w) && Available(ws[i + 1], Left, h, w) ==>
        Step(ws, i, n, f, w) == Ok(cur[i + 1 := ws[i + 1].(fold := Left, foldDepth := req)])
    ensures var h := BuildHeight(ws[i].rawHeight, f, n);
      !Available(ws[i - 1], Right, h, w) && !Available(ws[i + 1], Left, h, w) ==>
        Step(ws, i, n, f, w) == Err(NoAvailableNeighbor(i, InteriorReasons(i,
          ws[i - 1].fold == Right, (ws[i - 1].rawHeight - h) as real > w,
          ws[i + 1].fold == Left, (ws[i + 1].rawHeight - h) as real > w,
          ws[i - 1].rawHeight, ws[i + 1].rawHeight)))
  {
    var h := BuildHeight(ws[i].rawHeight, f, n);
    var cur := ws[i := ws[i].(buildHeight := h)];
    assert cur[i - 1] == ws[i - 1] && cur[i + 1] == ws[i + 1] && cur[i].buildHeight == h;
  }

  /**
   * When each kind of failure is raised, over all inputs: a too-deep fold exactly
   * when the deficit is at least w; the two boundary failures only at the first or
   * last well, by the state of its one neighbour; no available neighbour only at an
   * interior well with neither side available.  A well without deficit changes only
   * its own build height.
   */
  lemma StepErrorKinds(ws: seq<Well>, i: nat, n: int, f: int, w: real)
    requires 2 <= |ws| && i < |ws| && n >= 1
    ensures var req := RequiredFoldDepth(ws[i].rawHeight, f, n);
      req <= 0 ==> Step(ws, i, n, f, w) == Ok(ws[i := ws[i].(buildHeight := BuildHeight(ws[i].rawHeight, f, n))])
    ensures var req := RequiredFoldDepth(ws[i].rawHeight, f, n); var res := Step(ws, i, n, f, w);
      res.Err? && res.error.FoldTooDeep? <==> 0 < req && req as real >= w
    ensures var req := RequiredFoldDepth(ws[i].rawHeight, f, n); var res := Step(ws, i, n, f, w);
      res.Err? && res.error.BoundaryNeighborFolded? <==>
        && 0 < req && req as real < w
        && ((i == 0 && ws[1].fold != NoFold) || (i == |ws| - 1 && ws[i - 1].fold != NoFold))
    ensures var req := RequiredFoldDepth(ws[i].rawHeight, f, n); var res := Step(ws, i, n, f, w);
      res.Err? && res.error.BoundaryNeighborTooShort? <==>
        && 0 < req && req as real < w
        && ((i == 0 && ws[1].fold == NoFold && (ws[1].rawHeight as real) < w) ||
            (i == |ws| - 1 && ws[i - 1].fold == NoFold && (ws[i - 1].rawHeight as real) < w))
    ensures var req := RequiredFoldDepth(ws[i].rawHeight, f, n); var res := Step(ws, i, n, f, w);
      var h := BuildHeight(ws[i].rawHeight, f, n);
      res.Err? && res.error.NoAvailableNeighbor? <==>
        && 0 < req && req as real < w && 0 < i < |ws| - 1
        && !Available(ws[i - 1], Right, h, w) && !Available(ws[i + 1], Left, h, w)
  {
    var h := BuildHeight(ws[i].rawHeight, f, n);
    var cur := ws[i := ws[i].(buildHeight := h)];
    assert cur[i].buildHeight == h;
    assert i >= 1 ==> cur[i - 1] == ws[i - 1];
    assert i + 1 < |ws| ==> cur[i + 1] == ws[i + 1];
  }

  /** The outcome of the first k iterations of the fold loop, starting from `init`; the first error stops it. */
  function FoldPrefix(init: seq<Well>, k: nat, n: int, f: int, w: real): (res: PlanResult)
    requires 2 <= |init| && k <= |init| && n >= 1
    ensures res.Ok? ==> |res.wells| == |init|
    decreases k
  {
    if k == 0 then Ok(init)
    else
      match FoldPrefix(init, k - 1, n, f, w)
      case Err(e) => Err(e)
      case Ok(ws) => Step(ws, k - 1, n, f, w)
  }

  /** `calculate(n, r, f, w)`. */
  function Plan(n: int, r: int, f: int, w: real): PlanResult
    requires n >= 3
  {
    FoldPrefix(InitialLayout(n, r), n - 1, n, f, w)
  }
}
