/**
 * Properties of the depth generator and of the fold pass: what the initial
 * layout looks like, what holds after every prefix of the fold loop, how an
 * error stops it, and which of its "already folded" checks can never fire.
 */
module FoldLemmas {
  import opened Wells

  /** Depths are residues, raw heights lie in [0, n-1], and some well has raw height 0. */
  lemma RawHeightsBounded(n: int, r: int)
    requires n >= 2
    ensures Unfolded(InitialLayout(n, r)) && |InitialLayout(n, r)| == n - 1
    ensures forall i :: 0 <= i < n - 1 ==>
      var wl := InitialLayout(n, r)[i];
      && wl.depth == Pow(r, i) % n
      && 0 <= wl.depth < n
      && wl.rawHeight == MaxDepth(Depths(n, r)) - wl.depth
      && 0 <= wl.rawHeight <= n - 1
    ensures exists i :: 0 <= i < n - 1 && InitialLayout(n, r)[i].rawHeight == 0
  {
    var ds := Depths(n, r);
    assert ds[0] == 1;
    var top := MaxDepth(ds);
    MaxDepthAttained(ds);
    assert top != 0;
    var k :| 0 <= k < |ds| && ds[k] == top;
    assert InitialLayout(n, r)[k].rawHeight == 0;
  }

  /** The fold recorded on well j, if any, names a real deficit of the neighbour it faces, narrower than w. */
  ghost predicate FoldRecordedAt(s: seq<Well>, j: int, f: int, n: int, w: real)
    requires n >= 1 && 0 <= j < |s|
  {
    && (s[j].fold == NoFold ==> s[j].foldDepth == 0)
    && (s[j].fold == Left ==>
          1 <= j && s[j].foldDepth == RequiredFoldDepth(s[j - 1].rawHeight, f, n)
          && 0 < s[j].foldDepth && s[j].foldDepth as real < w)
    && (s[j].fold == Right ==>
          j + 1 < |s| && s[j].foldDepth == RequiredFoldDepth(s[j + 1].rawHeight, f, n)
          && 0 < s[j].foldDepth && s[j].foldDepth as real < w)
  }

  ghost predicate FoldsRecorded(s: seq<Well>, f: int, n: int, w: real)
    requires n >= 1
  {
    forall j :: 0 <= j < |s| ==> FoldRecordedAt(s, j, f, n, w)
  }

  /** What holds of the layout s once the first k wells have been processed. */
  ghost predicate Settled(init: seq<Well>, s: seq<Well>, k: nat, f: int, n: int, w: real)
    requires n >= 1
  {
    && |s| == |init|
    && (forall j :: 0 <= j < |s| ==> s[j].depth == init[j].depth && s[j].rawHeight == init[j].rawHeight)
    && (forall j :: 0 <= j < k && j < |s| ==>
          s[j].buildHeight == BuildHeight(init[j].rawHeight, f, n)
          && (RequiredFoldDepth(init[j].rawHeight, f, n) > 0 ==> RequiredFoldDepth(init[j].rawHeight, f, n) as real < w))
    // the wells right of k have not been touched yet
    && (forall j :: k < j < |s| ==> s[j] == init[j])
    && (k < |s| ==> s[k].buildHeight == init[k].buildHeight)
    // a Right fold on well j is written only at step j + 1
    && (forall j :: 0 <= j < |s| && k <= j + 1 ==> s[j].fold != Right)
    && FoldsRecorded(s, f, n, w)
  }

  /** One step keeps every recorded fold consistent. */
  lemma StepKeepsFoldsRecorded(s: seq<Well>, i: nat, n: int, f: int, w: real)
    requires 2 <= |s| && i < |s| && n >= 1
    requires FoldsRecorded(s, f, n, w)
    requires Step(s, i, n, f, w).Ok?
    ensures FoldsRecorded(Step(s, i, n, f, w).wells, f, n, w)
  {
    var t := Step(s, i, n, f, w).wells;
    StepFrame(s, i, n, f, w, t);
    forall j | 0 <= j < |t|
      ensures FoldRecordedAt(t, j, f, n, w)
    {
      assert FoldRecordedAt(s, j, f, n, w);
      assert j >= 1 ==> t[j - 1].rawHeight == s[j - 1].rawHeight;
      assert j + 1 < |t| ==> t[j + 1].rawHeight == s[j + 1].rawHeight;
    }
  }

  /** One step moves the settled boundary from k to k + 1. */
  lemma StepKeepsSettled(init: seq<Well>, s: seq<Well>, k: nat, n: int, f: int, w: real)
    requires 2 <= |init| && k < |init| && n >= 1
    requires Unfolded(init)
    requires Settled(init, s, k, f, n, w)
    requires Step(s, k, n, f, w).Ok?
    ensures Settled(init, Step(s, k, n, f, w).wells, k + 1, f, n, w)
  {
    StepKeepsFoldsRecorded(s, k, n, f, w);
    StepFrame(s, k, n, f, w, Step(s, k, n, f, w).wells);
  }

  lemma {:induction false} PrefixSettled(init: seq<Well>, k: nat, n: int, f: int, w: real)
    requires 2 <= |init| && k <= |init| && n >= 1
    requires Unfolded(init)
    ensures FoldPrefix(init, k, n, f, w).Ok? ==> Settled(init, FoldPrefix(init, k, n, f, w).wells, k, f, n, w)
  {
    if k > 0 {
      PrefixSettled(init, k - 1, n, f, w);
      var prev := FoldPrefix(init, k - 1, n, f, w);
      if prev.Ok? && Step(prev.wells, k - 1, n, f, w).Ok? {
        StepKeepsSettled(init, prev.wells, k - 1, n, f, w);
      }
    }
  }

  /** Once the fold loop has failed it stays failed with the same error. */
  lemma {:induction false} ErrorPropagates(init: seq<Well>, k: nat, k2: nat, n: int, f: int, w: real)
    requires 2 <= |init| && k <= k2 <= |init| && n >= 1
    requires FoldPrefix(init, k, n, f, w).Err?
    ensures FoldPrefix(init, k2, n, f, w) == FoldPrefix(init, k, n, f, w)
    decreases k2 - k
  {
    if k2 > k {
      ErrorPropagates(init, k, k2 - 1, n, f, w);
    }
  }

  /**
   * Fail-fast: an error of the first k iterations is raised by the iteration of
   * the well it names, all earlier iterations succeeded, and the wells to its
   * right were never touched.
   */
  lemma {:induction false} FirstFailure(init: seq<Well>, k: nat, n: int, f: int, w: real)
    requires 2 <= |init| && k <= |init| && n >= 1
    requires Unfolded(init)
    requires FoldPrefix(init, k, n, f, w).Err?
    ensures var e := FoldPrefix(init, k, n, f, w).error;
      && e.well < k
      && FoldPrefix(init, e.well, n, f, w).Ok?
      && Step(FoldPrefix(init, e.well, n, f, w).wells, e.well, n, f, w) == Err(e)
      && forall j :: e.well < j < |init| ==> FoldPrefix(init, e.well, n, f, w).wells[j] == init[j]
  {
    var prev := FoldPrefix(init, k - 1, n, f, w);
    if prev.Err? {
      FirstFailure(init, k - 1, n, f, w);
    } else {
      PrefixSettled(init, k - 1, n, f, w);
    }
  }

  /** `calculate` fails at the first well whose step fails, having left every well to its right untouched. */
  lemma PlanFailsAtFirstFailure(n: int, r: int, f: int, w: real)
    requires n >= 3
    requires Plan(n, r, f, w).Err?
    ensures var e := Plan(n, r, f, w).error;
      var init := InitialLayout(n, r);
      && e.well < n - 1
      && FoldPrefix(init, e.well, n, f, w).Ok?
      && Step(FoldPrefix(init, e.well, n, f, w).wells, e.well, n, f, w) == Err(e)
      && forall j :: e.well < j < n - 1 ==> FoldPrefix(init, e.well, n, f, w).wells[j] == init[j]
  {
    RawHeightsBounded(n, r);
    FirstFailure(InitialLayout(n, r), n - 1, n, f, w);
  }

  /**
   * A successful layout: depths and raw heights are those of the depth generator,
   * every build height is the formula's, every deficit is narrower than w, and every
   * recorded fold faces a neighbour with that deficit.
   */
  lemma PlanSucceeds(n: int, r: int, f: int, w: real)
    requires n >= 3
    requires Plan(n, r, f, w).Ok?
    ensures var ws := Plan(n, r, f, w).wells;
      && |ws| == n - 1
      && (forall i :: 0 <= i < n - 1 ==>
            && ws[i].depth == Pow(r, i) % n
            && ws[i].rawHeight == MaxDepth(Depths(n, r)) - ws[i].depth
            && ws[i].buildHeight == BuildHeight(ws[i].rawHeight, f, n)
            && (RequiredFoldDepth(ws[i].rawHeight, f, n) > 0 ==> RequiredFoldDepth(ws[i].rawHeight, f, n) as real < w))
      && FoldsRecorded(ws, f, n, w)
  {
    RawHeightsBounded(n, r);
    PrefixSettled(InitialLayout(n, r), n - 1, n, f, w);
  }

  /**
   * The "already folded" tests that can never fire: at the iteration of well i the
   * leftmost well's neighbour is unfolded, an interior well's right neighbour is
   * unfolded, and its left neighbour is never folded Right.
   */
  lemma DeadFoldedChecks(init: seq<Well>, i: nat, n: int, f: int, w: real)
    requires 2 <= |init| && i < |init| && n >= 1
    requires Unfolded(init)
    requires FoldPrefix(init, i, n, f, w).Ok?
    ensures var s := FoldPrefix(init, i, n, f, w).wells;
      && (i == 0 ==> s[1].fold == NoFold)
      && (0 < i < |init| - 1 ==> s[i - 1].fold != Right && s[i + 1].fold == NoFold)
  {
    PrefixSettled(init, i, n, f, w);
  }

  /**
   * An interior failure at a well whose neighbours do not face it (the shape the
   * previous lemma guarantees) can only name neighbours without room.
   */
  lemma InteriorStepFailure(s: seq<Well>, i: nat, n: int, f: int, w: real)
    requires 2 <= |s| && i < |s| && n >= 1
    requires Step(s, i, n, f, w).Err? && Step(s, i, n, f, w).error.NoAvailableNeighbor?
    requires 0 < i < |s| - 1 ==> s[i - 1].fold != Right && s[i + 1].fold == NoFold
    ensures var e := Step(s, i, n, f, w).error;
      && 0 < i < |s| - 1
      && 1 <= |e.reasons| <= 2
      && forall k :: 0 <= k < |e.reasons| ==> e.reasons[k].TooShort?
  {
  }

  /** Hence an interior failure is only ever for lack of space, never for a folded neighbour. */
  lemma InteriorFailureIsSpace(n: int, r: int, f: int, w: real)
    requires n >= 3
    requires Plan(n, r, f, w).Err? && Plan(n, r, f, w).error.NoAvailableNeighbor?
    ensures var e := Plan(n, r, f, w).error;
      && 0 < e.well < n - 2
      && 1 <= |e.reasons| <= 2
      && forall k :: 0 <= k < |e.reasons| ==> e.reasons[k].TooShort?
  {
    PlanFailsAtFirstFailure(n, r, f, w);
    var e := Plan(n, r, f, w).error;
    var init := InitialLayout(n, r);
    DeadFoldedChecks(init, e.well, n, f, w);
    InteriorStepFailure(FoldPrefix(init, e.well, n, f, w).wells, e.well, n, f, w);
  }

  /**
   * What the iteration of well i sees of its neighbourhood: the raw heights of
   * init, and neighbours that do not face it (DeadFoldedChecks).
   */
  lemma Neighbourhood(init: seq<Well>, i: nat, n: int, f: int, w: real)
    requires 2 <= |init| && i < |init| && n >= 1
    requires Unfolded(init)
    requires FoldPrefix(init, i, n, f, w).Ok?
    ensures var s := FoldPrefix(init, i, n, f, w).wells;
      && |s| == |init|
      && s[i].rawHeight == init[i].rawHeight
      && (i >= 1 ==> s[i - 1].rawHeight == init[i - 1].rawHeight)
      && (i + 1 < |s| ==> s[i + 1].rawHeight == init[i + 1].rawHeight)
      && (i == 0 ==> s[1].fold == NoFold)
      && (0 < i < |s| - 1 ==> s[i - 1].fold != Right && s[i + 1].fold == NoFold)
  {
    PrefixSettled(init, i, n, f, w);
    DeadFoldedChecks(init, i, n, f, w);
  }

  /**
   * The neighbour choice within the fold loop: once the wells before an interior
   * well i with a deficit narrower than w have been processed, its iteration folds
   * behind the left neighbour whenever that one's raw height exceeds the new build
   * height by more than w, behind the right one only otherwise, and else the loop
   * fails there naming both neighbours as too short.
   */
  lemma PrefixInteriorChoice(init: seq<Well>, i: nat, n: int, f: int, w: real)
    requires 2 <= |init| && 0 < i < |init| - 1 && n >= 1
    requires Unfolded(init)
    requires FoldPrefix(init, i, n, f, w).Ok?
    requires var req := RequiredFoldDepth(init[i].rawHeight, f, n); 0 < req && req as real < w
    ensures var s := FoldPrefix(init, i, n, f, w).wells;
      var req := RequiredFoldDepth(init[i].rawHeight, f, n);
      var h := BuildHeight(init[i].rawHeight, f, n);
      (init[i - 1].rawHeight - h) as real > w ==>
        FoldPrefix(init, i + 1, n, f, w) == Ok(s[i := s[i].(buildHeight := h)][i - 1 := s[i - 1].(fold := Right, foldDepth := req)])
    ensures var s := FoldPrefix(init, i, n, f, w).wells;
      var req := RequiredFoldDepth(init[i].rawHeight, f, n);
      var h := BuildHeight(init[i].rawHeight, f, n);
      (init[i - 1].rawHeight - h) as real <= w && (init[i + 1].rawHeight - h) as real > w ==>
        FoldPrefix(init, i + 1, n, f, w) == Ok(s[i := s[i].(buildHeight := h)][i + 1 := s[i + 1].(fold := Left, foldDepth := req)])
    ensures var h := BuildHeight(init[i].rawHeight, f, n);
      (init[i - 1].rawHeight - h) as real <= w && (init[i + 1].rawHeight - h) as real <= w ==>
        FoldPrefix(init, i + 1, n, f, w) == Err(NoAvailableNeighbor(i,
          [TooShort(LeftSide, i - 1, init[i - 1].rawHeight), TooShort(RightSide, i + 1, init[i + 1].rawHeight)]))
  {
    var s := FoldPrefix(init, i, n, f, w).wells;
    Neighbourhood(init, i, n, f, w);
    StepInteriorChoice(s, i, n, f, w);
  }

  /** The same choice for `calculate` itself, where a failure ends the whole layout. */
  lemma PlanInteriorChoice(n: int, r: int, f: int, w: real, i: nat)
    requires n >= 3 && 0 < i < n - 2
    requires FoldPrefix(InitialLayout(n, r), i, n, f, w).Ok?
    requires var req := RequiredFoldDepth(InitialLayout(n, r)[i].rawHeight, f, n); 0 < req && req as real < w
    ensures var init := InitialLayout(n, r);
      var h := BuildHeight(init[i].rawHeight, f, n);
      (init[i - 1].rawHeight - h) as real <= w && (init[i + 1].rawHeight - h) as real <= w ==>
        Plan(n, r, f, w) == Err(NoAvailableNeighbor(i,
          [TooShort(LeftSide, i - 1, init[i - 1].rawHeight), TooShort(RightSide, i + 1, init[i + 1].rawHeight)]))
  {
    var init := InitialLayout(n, r);
    RawHeightsBounded(n, r);
    PrefixInteriorChoice(init, i, n, f, w);
    var h := BuildHeight(init[i].rawHeight, f, n);
    if (init[i - 1].rawHeight - h) as real <= w && (init[i + 1].rawHeight - h) as real <= w {
      ErrorPropagates(init, i + 1, n - 1, n, f, w);
    }
  }

  /**
   * The classification of a failing step at well i of a layout s reached by the
   * fold loop from init: raw heights as in init, and the neighbour tests that
   * cannot fire (DeadFoldedChecks) not firing.
   */
  lemma StepFailureKinds(init: seq<Well>, s: seq<Well>, i: nat, n: int, f: int, w: real)
    requires 2 <= |init| == |s| && i < |s| && n >= 1
    requires Step(s, i, n, f, w).Err?
    requires s[i].rawHeight == init[i].rawHeight
    requires i >= 1 ==> s[i - 1].rawHeight == init[i - 1].rawHeight
    requires i + 1 < |s| ==> s[i + 1].rawHeight == init[i + 1].rawHeight
    requires i == 0 ==> s[1].fold == NoFold
    requires 0 < i < |s| - 1 ==> s[i - 1].fold != Right && s[i + 1].fold == NoFold
    ensures var e := Step(s, i, n, f, w).error;
      var m := |s|;
      var req := RequiredFoldDepth(init[i].rawHeight, f, n);
      var h := BuildHeight(init[i].rawHeight, f, n);
      && 0 < req
      && (e.FoldTooDeep? <==> req as real >= w)
      && (e.BoundaryNeighborFolded? <==> req as real < w && i == m - 1 && s[m - 2].fold != NoFold)
      && (e.BoundaryNeighborTooShort? <==>
            && req as real < w
            && ((i == 0 && (init[1].rawHeight as real) < w) ||
                (i == m - 1 && s[m - 2].fold == NoFold && (init[m - 2].rawHeight as real) < w)))
      && (e.NoAvailableNeighbor? <==>
            && req as real < w && 0 < i < m - 1
            && (init[i - 1].rawHeight - h) as real <= w && (init[i + 1].rawHeight - h) as real <= w)
  {
    StepErrorKinds(s, i, n, f, w);
  }

  /**
   * Which failure the fold loop reports, over all inputs, in terms of the initial
   * layout: the failing well always has a deficit; it is too deep exactly when that
   * deficit is at least w; a folded boundary neighbour only at the last well; a short
   * boundary neighbour only at the first or last well; and no available neighbour
   * only at an interior well with both neighbours too short.
   */
  lemma PrefixErrorKinds(init: seq<Well>, k: nat, n: int, f: int, w: real)
    requires 2 <= |init| && k <= |init| && n >= 1
    requires Unfolded(init)
    requires FoldPrefix(init, k, n, f, w).Err?
    ensures var e := FoldPrefix(init, k, n, f, w).error;
      var m := |init|;
      e.well < m && FoldPrefix(init, e.well, n, f, w).Ok? &&
      var req := RequiredFoldDepth(init[e.well].rawHeight, f, n);
      var s := FoldPrefix(init, e.well, n, f, w).wells;
      var h := BuildHeight(init[e.well].rawHeight, f, n);
      && 0 < req
      && (e.FoldTooDeep? <==> req as real >= w)
      && (e.BoundaryNeighborFolded? <==> req as real < w && e.well == m - 1 && s[m - 2].fold != NoFold)
      && (e.BoundaryNeighborTooShort? <==>
            && req as real < w
            && ((e.well == 0 && (init[1].rawHeight as real) < w) ||
                (e.well == m - 1 && s[m - 2].fold == NoFold && (init[m - 2].rawHeight as real) < w)))
      && (e.NoAvailableNeighbor? <==>
            && req as real < w && 0 < e.well < m - 1
            && (init[e.well - 1].rawHeight - h) as real <= w && (init[e.well + 1].rawHeight - h) as real <= w)
  {
    FirstFailure(init, k, n, f, w);
    var e := FoldPrefix(init, k, n, f, w).error;
    var i := e.well;
    var s := FoldPrefix(init, i, n, f, w).wells;
    Neighbourhood(init, i, n, f, w);
    StepFailureKinds(init, s, i, n, f, w);
    assert e == Step(s, i, n, f, w).error;
  }

  /** The same classification for `calculate` itself. */
  lemma PlanErrorKinds(n: int, r: int, f: int, w: real)
    requires n >= 3
    requires Plan(n, r, f, w).Err?
    ensures var e := Plan(n, r, f, w).error;
      var init := InitialLayout(n, r);
      e.well < n - 1 && FoldPrefix(init, e.well, n, f, w).Ok? &&
      var req := RequiredFoldDepth(init[e.well].rawHeight, f, n);
      var s := FoldPrefix(init, e.well, n, f, w).wells;
      var h := BuildHeight(init[e.well].rawHeight, f, n);
      && 0 < req
      && (e.FoldTooDeep? <==> req as real >= w)
      && (e.BoundaryNeighborFolded? <==> req as real < w && e.well == n - 2 && s[n - 3].fold != NoFold)
      && (e.BoundaryNeighborTooShort? <==>
            && req as real < w
            && ((e.well == 0 && (init[1].rawHeight as real) < w) ||
                (e.well == n - 2 && s[n - 3].fold == NoFold && (init[n - 3].rawHeight as real) < w)))
      && (e.NoAvailableNeighbor? <==>
            && req as real < w && 0 < e.well < n - 2
            && (init[e.well - 1].rawHeight - h) as real <= w && (init[e.well + 1].rawHeight - h) as real <= w)
  {
    RawHeightsBounded(n, r);
    PrefixErrorKinds(InitialLayout(n, r), n - 1, n, f, w);
  }

  /** And the leftmost well can never fail because its neighbour is folded. */
  lemma BoundaryFoldedOnlyRightmost(n: int, r: int, f: int, w: real)
    requires n >= 3
    requires Plan(n, r, f, w).Err? && Plan(n, r, f, w).error.BoundaryNeighborFolded?
    ensures Plan(n, r, f, w).error.well == n - 2 >= 1
  {
    PlanFailsAtFirstFailure(n, r, f, w);
    var e := Plan(n, r, f, w).error;
    DeadFoldedChecks(InitialLayout(n, r), e.well, n, f, w);
  }
}
