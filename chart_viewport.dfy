/**
 * The zoom and pan state of components/tree/family-tree-chart.tsx: the d3 transform
 * arithmetic, the auto-fit transform computed after a layout, the transform that centres the
 * focused node, the reset to the first auto-fit, and the state that decides among them —
 * `savedTransform` and `initialTransform`, shared by every chart on the page, and the
 * per-chart `isInitialRender` flag and `zoomRef`.
 *
 * d3 applies every transform through the chart's `zoom` listener, which stores it in
 * `savedTransform` (lines 380-383); an animated transition ends on its target, so the model
 * records only that target.
 */
module ChartViewport {
  import opened Wrappers
  import opened TreeLayout
  import opened ChartLayout
  import opened ChartRender

  /** A d3 `ZoomTransform`: it maps a point `p` to `k·p + (x, y)`. */
  datatype Transform = Transform(k: real, x: real, y: real)

  function Apply(t: Transform, p: Point): Point {
    Point(t.k * p.x + t.x, t.k * p.y + t.y)
  }

  /** `d3.zoomIdentity` */
  const Identity: Transform := Transform(1.0, 0.0, 0.0)

  /** `t.translate(dx, dy)`: a shift by `(dx, dy)` before `t`. */
  function Translate(t: Transform, dx: real, dy: real): Transform {
    Transform(t.k, t.x + t.k * dx, t.y + t.k * dy)
  }

  /** `t.scale(s)`: a scaling by `s` before `t`. */
  function Scale(t: Transform, s: real): Transform {
    Transform(t.k * s, t.x, t.y)
  }

  /** A translated transform moves a point as the original moves the shifted point. */
  lemma TranslateApply(t: Transform, dx: real, dy: real, p: Point)
    ensures Apply(Translate(t, dx, dy), p) == Apply(t, Point(p.x + dx, p.y + dy))
  {
    var a, b := Apply(Translate(t, dx, dy), p), Apply(t, Point(p.x + dx, p.y + dy));
    assert a.x == b.x by {
      assert t.k * (p.x + dx) == t.k * p.x + t.k * dx;
    }
    assert a.y == b.y by {
      assert t.k * (p.y + dy) == t.k * p.y + t.k * dy;
    }
  }

  /** A scaled transform moves a point as the original moves the scaled point. */
  lemma ScaleApply(t: Transform, s: real, p: Point)
    ensures Apply(Scale(t, s), p) == Apply(t, Point(s * p.x, s * p.y))
  {
    assert (t.k * s) * p.x == t.k * (s * p.x);
    assert (t.k * s) * p.y == t.k * (s * p.y);
  }

  /**
   * `zoomIdentity.translate(width / 2, height / 2).scale(s).translate(-px, -py)`: zoom `s`
   * with the point `(px, py)` at the centre of the canvas.
   */
  function CenterOn(width: real, height: real, s: real, px: real, py: real): (t: Transform)
    ensures t.k == s
    ensures Apply(t, Point(px, py)) == Point(width / 2.0, height / 2.0)
  {
    var t := Translate(Scale(Translate(Identity, width / 2.0, height / 2.0), s), -px, -py);
    assert t == Transform(s, width / 2.0 - s * px, height / 2.0 - s * py) by {
      assert s * -px == -(s * px);
      assert s * -py == -(s * py);
    }
    t
  }

  /** Under `CenterOn`, a point lands at the canvas centre plus `s` times its offset from `(px, py)`. */
  lemma CenterOnApply(width: real, height: real, s: real, px: real, py: real, p: Point)
    ensures Apply(CenterOn(width, height, s, px, py), p) == Point(width / 2.0 + s * (p.x - px), height / 2.0 + s * (p.y - py))
  {
    var t := CenterOn(width, height, s, px, py);
    assert t == Transform(s, width / 2.0 - s * px, height / 2.0 - s * py) by {
      assert s * -px == -(s * px);
      assert s * -py == -(s * py);
    }
    assert s * (p.x + -px) == s * p.x + s * -px;
    assert s * (p.y + -py) == s * p.y + s * -py;
    assert s * -px == -(s * px);
    assert s * -py == -(s * py);
  }

  function Xs<K>(ns: seq<TreeNode<K>>): (r: seq<real>)
    ensures |r| == |ns| && forall i | 0 <= i < |ns| :: r[i] == ns[i].x
  {
    if ns == [] then [] else Xs(ns[..|ns| - 1]) + [ns[|ns| - 1].x]
  }

  function Ys<K>(ns: seq<TreeNode<K>>): (r: seq<real>)
    ensures |r| == |ns| && forall i | 0 <= i < |ns| :: r[i] == ns[i].y
  {
    if ns == [] then [] else Ys(ns[..|ns| - 1]) + [ns[|ns| - 1].y]
  }

  /** The smallest value, `d3.extent(...)[0]`. */
  function Min(s: seq<real>): (m: real)
    requires |s| > 0
    ensures forall i | 0 <= i < |s| :: m <= s[i]
    ensures exists i | 0 <= i < |s| :: s[i] == m
  {
    if |s| == 1 then s[0]
    else
      var m := Min(s[..|s| - 1]);
      assert forall i | 0 <= i < |s| - 1 :: s[..|s| - 1][i] == s[i];
      if s[|s| - 1] < m then s[|s| - 1] else m
  }

  /** The largest value, `d3.extent(...)[1]`. */
  function Max(s: seq<real>): (m: real)
    requires |s| > 0
    ensures forall i | 0 <= i < |s| :: s[i] <= m
    ensures exists i | 0 <= i < |s| :: s[i] == m
  {
    if |s| == 1 then s[0]
    else
      var m := Max(s[..|s| - 1]);
      assert forall i | 0 <= i < |s| - 1 :: s[..|s| - 1][i] == s[i];
      if s[|s| - 1] > m then s[|s| - 1] else m
  }

  /** `Math.min(a, b, c)` */
  function Min3(a: real, b: real, c: real): (m: real)
    ensures m <= a && m <= b && m <= c
    ensures m == a || m == b || m == c
  {
    if a <= b && a <= c then a else if b <= c then b else c
  }

  /** The largest zoom the auto-fit allows. */
  const MaxFitScale: real := 0.8

  /** The zoom the chart moves to when a node is focused. */
  const FocusScale: real := 1.2

  /** The width of the bounding box of the nodes, widened by a node and 100 (line 393). */
  function FitWidth<K>(ns: seq<TreeNode<K>>, width: real): (dx: real)
    requires |ns| > 0
    ensures dx >= Max(Xs(ns)) - Min(Xs(ns)) + 220.0
  {
    Max(Xs(ns)) - Min(Xs(ns)) + DimsFor(width).nodeWidth + 100.0
  }

  /** The height of the bounding box of the nodes, widened by a node and 100 (line 394). */
  function FitHeight<K>(ns: seq<TreeNode<K>>, width: real): (dy: real)
    requires |ns| > 0
    ensures dy >= Max(Ys(ns)) - Min(Ys(ns)) + 170.0
  {
    Max(Ys(ns)) - Min(Ys(ns)) + DimsFor(width).nodeHeight + 100.0
  }

  /** The zoom of the auto-fit (line 396). */
  function FitScale<K>(ns: seq<TreeNode<K>>, width: real, height: real): real
    requires |ns| > 0
  {
    Min3((width - Margin - Margin) / FitWidth(ns, width), (height - Margin - Margin) / FitHeight(ns, width), MaxFitScale)
  }

  /** The centre of the bounding box of the nodes' centres (lines 398-399). */
  function FitCentre<K>(ns: seq<TreeNode<K>>): Point
    requires |ns| > 0
  {
    Point((Min(Xs(ns)) + Max(Xs(ns))) / 2.0, (Min(Ys(ns)) + Max(Ys(ns))) / 2.0)
  }

  /** `defaultTransform`, the auto-fit of the positioned nodes on a canvas of the given size. */
  function AutoFit<K>(ns: seq<TreeNode<K>>, width: real, height: real): Transform
    requires |ns| > 0
  {
    var c := FitCentre(ns);
    CenterOn(width, height, FitScale(ns, width, height), c.x, c.y)
  }

  /**
   * The auto-fit zooms by the smallest of the three ratios, so never in beyond 0.8, and puts
   * the centre of the nodes' extent at the centre of the canvas.
   */
  lemma AutoFitScale<K>(ns: seq<TreeNode<K>>, width: real, height: real)
    requires |ns| > 0
    ensures var k := AutoFit(ns, width, height).k;
      && k <= MaxFitScale
      && k <= (width - 2.0 * Margin) / FitWidth(ns, width)
      && k <= (height - 2.0 * Margin) / FitHeight(ns, width)
      && (k == MaxFitScale || k == (width - 2.0 * Margin) / FitWidth(ns, width) || k == (height - 2.0 * Margin) / FitHeight(ns, width))
    ensures Apply(AutoFit(ns, width, height), FitCentre(ns)) == Point(width / 2.0, height / 2.0)
  {
  }

  /** The auto-fit zoom is positive and within both ratios of the canvas to the widened extent. */
  lemma FitScaleBounds<K>(ns: seq<TreeNode<K>>, width: real, height: real)
    requires |ns| > 0 && width >= 500.0 && height >= 500.0
    ensures var k := FitScale(ns, width, height);
      && FitWidth(ns, width) > 0.0 && FitHeight(ns, width) > 0.0
      && 0.0 < k <= (width - 2.0 * Margin) / FitWidth(ns, width)
      && k <= (height - 2.0 * Margin) / FitHeight(ns, width)
  {
    var dx, dy := FitWidth(ns, width), FitHeight(ns, width);
    assert (width - 2.0 * Margin) / dx > 0.0;
    assert (height - 2.0 * Margin) / dy > 0.0;
  }

  /**
   * A zoom no larger than `room / span` keeps an offset of at most half of `span` within
   * half of `room`.
   */
  lemma ScaledOffset(k: real, offset: real, span: real, room: real)
    requires k > 0.0 && span > 0.0 && k <= room / span && -span / 2.0 <= offset <= span / 2.0
    ensures -room / 2.0 <= k * offset <= room / 2.0
  {
    assert span * k <= span * (room / span);
    assert span * (room / span) == room;
    assert k * offset <= k * (span / 2.0);
    assert k * (-span / 2.0) <= k * offset;
    assert k * (span / 2.0) == (k * span) / 2.0 && k * (-span / 2.0) == -((k * span) / 2.0);
  }

  /** The box from corner `lo` to corner `hi`, moved by `t`, lies inside the canvas margins. */
  predicate InsideMargins(t: Transform, lo: Point, hi: Point, width: real, height: real) {
    && Margin <= Apply(t, lo).x && Apply(t, hi).x <= width - Margin
    && Margin <= Apply(t, lo).y && Apply(t, hi).y <= height - Margin
  }

  /**
   * A box whose corners lie within half of `(dx, dy)` of `(cx, cy)`, centred there at a zoom
   * that shrinks `(dx, dy)` into the canvas less its margins, lands inside those margins.
   */
  lemma CenterOnFits(width: real, height: real, k: real, cx: real, cy: real, lo: Point, hi: Point, dx: real, dy: real)
    requires k > 0.0 && dx > 0.0 && dy > 0.0
    requires k <= (width - 2.0 * Margin) / dx && k <= (height - 2.0 * Margin) / dy
    requires -dx / 2.0 <= lo.x - cx && lo.x <= hi.x && hi.x - cx <= dx / 2.0
    requires -dy / 2.0 <= lo.y - cy && lo.y <= hi.y && hi.y - cy <= dy / 2.0
    ensures InsideMargins(CenterOn(width, height, k, cx, cy), lo, hi, width, height)
  {
    ScaledOffset(k, lo.x - cx, dx, width - 2.0 * Margin);
    ScaledOffset(k, hi.x - cx, dx, width - 2.0 * Margin);
    ScaledOffset(k, lo.y - cy, dy, height - 2.0 * Margin);
    ScaledOffset(k, hi.y - cy, dy, height - 2.0 * Margin);
    CenterOnApply(width, height, k, cx, cy, lo);
    CenterOnApply(width, height, k, cx, cy, hi);
  }

  /** The top-left and bottom-right corners of a node's box. */
  function TopLeft<K>(n: TreeNode<K>, d: Dims): Point {
    Point(n.x - d.nodeWidth / 2.0, n.y - d.nodeHeight / 2.0)
  }

  function BottomRight<K>(n: TreeNode<K>, d: Dims): Point {
    Point(n.x + d.nodeWidth / 2.0, n.y + d.nodeHeight / 2.0)
  }

  /** The corners of a node's box lie within half the widened extent of the fitted centre. */
  lemma CornerOffsets<K>(ns: seq<TreeNode<K>>, width: real, i: nat)
    requires |ns| > 0 && i < |ns|
    ensures var lo, hi := TopLeft(ns[i], DimsFor(width)), BottomRight(ns[i], DimsFor(width));
      var c := FitCentre(ns);
      var dx, dy := FitWidth(ns, width), FitHeight(ns, width);
      && -dx / 2.0 <= lo.x - c.x && lo.x <= hi.x && hi.x - c.x <= dx / 2.0
      && -dy / 2.0 <= lo.y - c.y && lo.y <= hi.y && hi.y - c.y <= dy / 2.0
  {
    assert Xs(ns)[i] == ns[i].x && Ys(ns)[i] == ns[i].y;
  }

  /**
   * On the canvas sizes the chart uses (at least 500 by 500, lines 62-66), the auto-fit
   * shows every node whole: each node's box lands inside the 40-pixel margins.
   */
  lemma AutoFitShowsAll<K>(ns: seq<TreeNode<K>>, width: real, height: real, i: nat)
    requires |ns| > 0 && i < |ns| && width >= 500.0 && height >= 500.0
    ensures InsideMargins(AutoFit(ns, width, height), TopLeft(ns[i], DimsFor(width)), BottomRight(ns[i], DimsFor(width)), width, height)
  {
    var d := DimsFor(width);
    var c := FitCentre(ns);
    FitScaleBounds(ns, width, height);
    CornerOffsets(ns, width, i);
    CenterOnFits(width, height, FitScale(ns, width, height), c.x, c.y, TopLeft(ns[i], d), BottomRight(ns[i], d),
                 FitWidth(ns, width), FitHeight(ns, width));
  }

  /** The first positioned node whose id is `id` (`allNodesWithPositions.find`, line 433). */
  function FindNode<K(==)>(ns: seq<TreeNode<K>>, id: K): (o: Option<TreeNode<K>>)
    ensures o.Some? ==> exists i | 0 <= i < |ns| ::
      (ns[i] == o.value && o.value.id == id && forall j | 0 <= j < i :: ns[j].id != id)
    ensures o.None? <==> forall i | 0 <= i < |ns| :: ns[i].id != id
  {
    if ns == [] then None
    else if ns[0].id == id then Some(ns[0])
    else
      var o := FindNode(ns[1..], id);
      assert forall i | 1 <= i < |ns| :: ns[1..][i - 1] == ns[i];
      if o.Some? then
        var i :| 0 <= i < |ns[1..]| &&
          (ns[1..][i] == o.value && o.value.id == id && forall j | 0 <= j < i :: ns[1..][j].id != id);
        assert ns[i + 1] == o.value && forall j | 0 <= j < i + 1 :: ns[j].id != id;
        o
      else o
  }

  /** The transform that zooms to the focused node (lines 435-438). */
  function FocusOn<K>(n: TreeNode<K>, width: real, height: real): (t: Transform)
    ensures t.k == FocusScale
    ensures Apply(t, Point(n.x, n.y)) == Point(width / 2.0, height / 2.0)
  {
    CenterOn(width, height, FocusScale, n.x, n.y)
  }

  /**
   * The transforms shared by all charts (`savedTransform`, `initialTransform`) and the
   * chart's own `isInitialRender` flag and whether its `zoomRef` is set.
   */
  datatype ViewState = ViewState(saved: Option<Transform>, initial: Option<Transform>, isInitialRender: bool, zoomAttached: bool)

  /** Before any chart has been drawn. */
  const Start: ViewState := ViewState(None, None, true, false)

  /**
   * The drawing effect after a layout (lines 82, 385-447): nothing for an empty input;
   * otherwise the zoom is attached, the first render with nodes fixes the auto-fit as both
   * the initial and the current transform, a later one keeps the current transform, and a
   * focused id found among the nodes moves the view to it. The source tests
   * `if (focusedPerson)`, so an empty name would count as no focus; `focused` is `None`
   * there, and the view never focuses an empty name because no name contains a non-blank
   * search term unless it is non-empty.
   */
  function RenderStep<K(==)>(s: ViewState, inputCount: nat, ns: seq<TreeNode<K>>, width: real, height: real,
                             focused: Option<K>): ViewState
  {
    if inputCount == 0 then s
    else
      var attached := s.(zoomAttached := true);
      var fitted :=
        if |ns| == 0 then attached
        else
          var fit := AutoFit(ns, width, height);
          if attached.isInitialRender then attached.(initial := Some(fit), saved := Some(fit), isInitialRender := false)
          else if attached.saved.Some? then attached
          else attached.(saved := Some(fit));
      if focused.None? then fitted
      else
        match FindNode(ns, focused.value)
        case Some(n) => fitted.(saved := Some(FocusOn(n, width, height)))
        case None => fitted
  }

  /** A pan or zoom gesture, stored by the zoom listener (line 382). */
  function ZoomStep(s: ViewState, t: Transform): ViewState {
    s.(saved := Some(t))
  }

  /**
   * A reset: back to the initial transform, if there is one. `resetFunc` (lines 46-51), the
   * copy registered as `window.familyTreeResetZoom` for the parent's reset button, and
   * `handleResetZoom` (lines 451-456) have the same body.
   */
  function ResetStep(s: ViewState): ViewState {
    if s.zoomAttached && s.initial.Some? then s.(saved := s.initial) else s
  }

  /** A chart mounted anew: its own flag and zoom are fresh, the shared transforms persist. */
  function RemountStep(s: ViewState): ViewState {
    s.(isInitialRender := true, zoomAttached := false)
  }

  /** The shared transforms are consistent: once a render has fixed one, both exist. */
  predicate Consistent(s: ViewState) {
    && (s.initial.Some? ==> s.saved.Some?)
    && (!s.isInitialRender ==> s.initial.Some?)
  }

  /** Every step keeps the shared transforms consistent. */
  lemma StepsKeepConsistent<K>(s: ViewState, inputCount: nat, ns: seq<TreeNode<K>>, width: real, height: real,
                                   focused: Option<K>, t: Transform)
    requires Consistent(s)
    ensures Consistent(RenderStep(s, inputCount, ns, width, height, focused))
    ensures Consistent(ZoomStep(s, t)) && Consistent(ResetStep(s)) && Consistent(RemountStep(s))
  {
  }

  /**
   * `initialTransform` is fixed by the first render that has nodes to show, as that
   * render's auto-fit, and no later render of the same chart changes it. When no focused
   * node moves the view, the first such render also makes the auto-fit the current
   * transform (line 409), a later one keeps the current transform (lines 412-414), and one
   * with no current transform takes the auto-fit (lines 415-416).
   */
  lemma InitialFixedOnce<K>(s: ViewState, inputCount: nat, ns: seq<TreeNode<K>>, width: real, height: real,
                                focused: Option<K>)
    ensures var r := RenderStep(s, inputCount, ns, width, height, focused);
      && (!s.isInitialRender ==> r.initial == s.initial && !r.isInitialRender)
      && (s.isInitialRender && inputCount > 0 && |ns| > 0 ==>
            r.initial == Some(AutoFit(ns, width, height)) && !r.isInitialRender)
      && (s.isInitialRender && (inputCount == 0 || |ns| == 0) ==> r.initial == s.initial && r.isInitialRender)
    ensures var r := RenderStep(s, inputCount, ns, width, height, focused);
      inputCount > 0 && |ns| > 0 && (focused.None? || FindNode(ns, focused.value).None?) ==>
        && (s.isInitialRender ==> r.saved == Some(AutoFit(ns, width, height)))
        && (!s.isInitialRender && s.saved.Some? ==> r.saved == s.saved)
        && (!s.isInitialRender && s.saved.None? ==> r.saved == Some(AutoFit(ns, width, height)))
  {
    if inputCount > 0 && |ns| > 0 && (focused.None? || FindNode(ns, focused.value).None?) {
      var fit := AutoFit(ns, width, height);
      var attached := s.(zoomAttached := true);
      var fitted :=
        if attached.isInitialRender then attached.(initial := Some(fit), saved := Some(fit), isInitialRender := false)
        else if attached.saved.Some? then attached
        else attached.(saved := Some(fit));
      assert RenderStep(s, inputCount, ns, width, height, focused) == fitted;
    }
  }

  /**
   * A render with a focused id that some node has ends with the view on the first such
   * node, at zoom 1.2, that node at the centre of the canvas.
   */
  lemma RenderFocuses<K>(s: ViewState, inputCount: nat, ns: seq<TreeNode<K>>, width: real, height: real, id: K, i: nat)
    requires inputCount > 0 && i < |ns| && ns[i].id == id
    ensures var r := RenderStep(s, inputCount, ns, width, height, Some(id));
      var n := FindNode(ns, id).value;
      && r.saved.Some? && r.saved.value.k == FocusScale
      && Apply(r.saved.value, Point(n.x, n.y)) == Point(width / 2.0, height / 2.0)
      && r.initial == RenderStep(s, inputCount, ns, width, height, None).initial
  {
  }

  /** Resetting twice is resetting once. */
  lemma ResetIdempotent(s: ViewState)
    ensures ResetStep(ResetStep(s)) == ResetStep(s)
  {
  }

  /** A run of pan and zoom gestures. */
  function Gestures(s: ViewState, ts: seq<Transform>): ViewState
    decreases |ts|
  {
    if ts == [] then s else Gestures(ZoomStep(s, ts[0]), ts[1..])
  }

  /** Gestures change only the current transform, and only to the last gesture's. */
  lemma {:induction false} GesturesKeepInitial(s: ViewState, ts: seq<Transform>)
    ensures Gestures(s, ts) == if ts == [] then s else s.(saved := Some(ts[|ts| - 1]))
    decreases |ts|
  {
    if ts != [] {
      GesturesKeepInitial(ZoomStep(s, ts[0]), ts[1..]);
      if |ts| > 1 {
        assert ts[1..][|ts[1..]| - 1] == ts[|ts| - 1];
      }
    }
  }

  /**
   * After any pans and zooms, a reset restores exactly the transform of the first auto-fit;
   * with no initial transform, or before the zoom is attached, it changes nothing.
   */
  lemma ResetAfterGestures(s: ViewState, ts: seq<Transform>)
    ensures s.zoomAttached && s.initial.Some? ==> ResetStep(Gestures(s, ts)) == s.(saved := s.initial)
    ensures !s.zoomAttached || s.initial.None? ==> ResetStep(Gestures(s, ts)) == Gestures(s, ts)
  {
    GesturesKeepInitial(s, ts);
  }

  /** The chart's zoom state, updated in place by its effects and handlers. */
  class Viewport {
    var savedTransform: Option<Transform>
    var initialTransform: Option<Transform>
    var isInitialRender: bool
    var zoomAttached: bool

    function State(): ViewState
      reads this
    {
      ViewState(savedTransform, initialTransform, isInitialRender, zoomAttached)
    }

    constructor()
      ensures State() == Start
    {
      savedTransform, initialTransform := None, None;
      isInitialRender, zoomAttached := true, false;
    }

    /** The zoom part of the drawing effect, after the layout of `inputCount` input nodes into `ns`. */
    method Render<K(==)>(inputCount: nat, ns: seq<TreeNode<K>>, width: real, height: real, focused: Option<K>)
      modifies this
      ensures State() == RenderStep(old(State()), inputCount, ns, width, height, focused)
    {
      if inputCount == 0 {
        return;
      }
      zoomAttached := true;
      if |ns| > 0 {
        var defaultTransform := AutoFit(ns, width, height);
        if isInitialRender {
          initialTransform := Some(defaultTransform);
          savedTransform := Some(defaultTransform);
          isInitialRender := false;
        } else if savedTransform.None? {
          savedTransform := Some(defaultTransform);
        }
      }
      if focused.Some? {
        var focusedNode := FindNode(ns, focused.value);
        if focusedNode.Some? {
          savedTransform := Some(FocusOn(focusedNode.value, width, height));
        }
      }
    }

    /** The zoom listener, on a pan or zoom gesture. */
    method OnZoom(t: Transform)
      modifies this
      ensures State() == ZoomStep(old(State()), t)
    {
      savedTransform := Some(t);
    }

    /** `resetFunc` (lines 46-51), reached through `window.familyTreeResetZoom`, or `handleResetZoom` */
    method ResetZoom()
      modifies this
      ensures State() == ResetStep(old(State()))
    {
      if !zoomAttached || initialTransform.None? {
        return;
      }
      savedTransform := initialTransform;
    }

    /** The chart component mounted again: a fresh flag and zoom, the same shared transforms. */
    method Remount()
      modifies this
      ensures State() == RemountStep(old(State()))
    {
      isInitialRender := true;
      zoomAttached := false;
    }
  }
}
