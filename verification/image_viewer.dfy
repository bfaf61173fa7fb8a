/** The zoom-and-pan state of the automaton image viewer (`ImageModal` in
    frontend/src/components/ImageModal.jsx).

    The four state hooks, together with the zoom the drag listener captured, become one record,
    and every handler a function from record to record.
    Zoom and coordinates are real numbers. The sizes the load handler measures in the page are
    parameters, and the parent's `onClose` callback is not modelled. */
module ImageViewer {
  datatype Point = Point(x: real, y: real)

  /** `zoom`, `position`, `isDragging` and `dragStart`, and `dragZoom`: the zoom seen by the
      `mousemove` listener on `document`. That listener is registered again only when
      `isDragging` or `dragStart` change, which happens on a mouse press, so its `zoom` is the
      one of the render after the press; the field matters only while dragging. */
  datatype Viewer = Viewer(zoom: real, position: Point, dragging: bool, anchor: Point, dragZoom: real)

  const Origin: Point := Point(0.0, 0.0)

  /** The initial `useState` values. */
  const Initial: Viewer := Viewer(1.0, Origin, false, Origin, 1.0)

  const MaxZoom: real := 5.0
  const MinZoom: real := 0.1
  const ZoomFactor: real := 1.2

  /** The states every handler keeps: a zoom between 0 and the ceiling. The load handler can go
      below `MinZoom`, down to 0, so 0 is the true floor. */
  predicate Valid(v: Viewer) {
    0.0 <= v.zoom <= MaxZoom
  }

  /** `handleZoomIn`: `min(zoom * 1.2, 5)`. */
  function ZoomIn(v: Viewer): (r: Viewer)
    ensures r.zoom <= MaxZoom
    ensures v.zoom * ZoomFactor <= MaxZoom ==> r.zoom == v.zoom * ZoomFactor
    ensures v.zoom * ZoomFactor >= MaxZoom ==> r.zoom == MaxZoom
    ensures 0.0 <= v.zoom <= MaxZoom ==> v.zoom <= r.zoom
    ensures r.position == v.position && r.dragging == v.dragging && r.anchor == v.anchor && r.dragZoom == v.dragZoom
  {
    v.(zoom := if v.zoom * ZoomFactor < MaxZoom then v.zoom * ZoomFactor else MaxZoom)
  }

  /** `handleZoomOut`: `max(zoom / 1.2, 0.1)`. */
  function ZoomOut(v: Viewer): (r: Viewer)
    ensures r.zoom >= MinZoom
    ensures v.zoom / ZoomFactor >= MinZoom ==> r.zoom == v.zoom / ZoomFactor
    ensures v.zoom / ZoomFactor <= MinZoom ==> r.zoom == MinZoom
    ensures v.zoom >= MinZoom ==> r.zoom <= v.zoom
    ensures r.position == v.position && r.dragging == v.dragging && r.anchor == v.anchor && r.dragZoom == v.dragZoom
  {
    v.(zoom := if v.zoom / ZoomFactor > MinZoom then v.zoom / ZoomFactor else MinZoom)
  }

  /** `handleFitToScreen`: zoom 1 at the origin; a drag in progress stays in progress. */
  function Fit(v: Viewer): (r: Viewer)
    ensures r.zoom == 1.0 && r.position == Origin
    ensures r.dragging == v.dragging && r.anchor == v.anchor && r.dragZoom == v.dragZoom
  {
    v.(zoom := 1.0, position := Origin)
  }

  /** `handleMouseDown` at pointer `p`: only a zoomed-in image can be dragged; the anchor is
      the pointer relative to the current position, and the listener registered for the drag
      keeps the current zoom. */
  function MouseDown(v: Viewer, p: Point): (r: Viewer)
    ensures v.zoom <= 1.0 ==> r == v
    ensures v.zoom > 1.0 ==> r.dragging && r.anchor == Point(p.x - v.position.x, p.y - v.position.y)
    ensures v.zoom > 1.0 ==> r.dragZoom == v.zoom
    ensures r.zoom == v.zoom && r.position == v.position
  {
    if v.zoom <= 1.0 then v
    else v.(dragging := true, anchor := Point(p.x - v.position.x, p.y - v.position.y), dragZoom := v.zoom)
  }

  /** `handleMouseMove` to pointer `p`, as the `document` listener runs it: while dragging, and
      if the zoom at the press was above 1, the position follows the pointer minus the anchor.
      The current zoom is not consulted. */
  function MouseMove(v: Viewer, p: Point): (r: Viewer)
    ensures !v.dragging || v.dragZoom <= 1.0 ==> r == v
    ensures v.dragging && v.dragZoom > 1.0 ==> r.position == Point(p.x - v.anchor.x, p.y - v.anchor.y)
    ensures r.zoom == v.zoom && r.dragging == v.dragging && r.anchor == v.anchor && r.dragZoom == v.dragZoom
  {
    if !v.dragging || v.dragZoom <= 1.0 then v
    else v.(position := Point(p.x - v.anchor.x, p.y - v.anchor.y))
  }

  /** `handleMouseUp`. */
  function MouseUp(v: Viewer): (r: Viewer)
    ensures !r.dragging
    ensures r.zoom == v.zoom && r.position == v.position && r.anchor == v.anchor && r.dragZoom == v.dragZoom
  {
    v.(dragging := false)
  }

  /** `handleWheel`: scroll down multiplies by 0.9, anything else by 1.1, then the zoom is
      clamped into `[0.1, 5]`. */
  function Wheel(v: Viewer, deltaY: real): (r: Viewer)
    ensures MinZoom <= r.zoom <= MaxZoom
    ensures var f := if deltaY > 0.0 then 0.9 else 1.1;
      MinZoom <= v.zoom * f <= MaxZoom ==> r.zoom == v.zoom * f
    ensures var f := if deltaY > 0.0 then 0.9 else 1.1;
      v.zoom * f >= MaxZoom ==> r.zoom == MaxZoom
    ensures var f := if deltaY > 0.0 then 0.9 else 1.1;
      v.zoom * f <= MinZoom ==> r.zoom == MinZoom
    ensures r.position == v.position && r.dragging == v.dragging && r.anchor == v.anchor && r.dragZoom == v.dragZoom
  {
    var delta := if deltaY > 0.0 then 0.9 else 1.1;
    var z := if v.zoom * delta < MaxZoom then v.zoom * delta else MaxZoom;
    v.(zoom := if MinZoom > z then MinZoom else z)
  }

  /** `handleClose` (before calling the parent): back to zoom 1 at the origin, not dragging. */
  function Close(v: Viewer): (r: Viewer)
    ensures r.zoom == 1.0 && r.position == Origin && !r.dragging
    ensures r.anchor == v.anchor && r.dragZoom == v.dragZoom
  {
    v.(zoom := 1.0, position := Origin, dragging := false)
  }

  /** `handleKeyDown`: Escape closes, `+` and `=` zoom in, `-` zooms out, `0` fits, any other key
      does nothing. */
  function KeyDown(v: Viewer, key: string): (r: Viewer)
    ensures key == "Escape" ==> r == Close(v)
    ensures key == "+" || key == "=" ==> r == ZoomIn(v)
    ensures key == "-" ==> r == ZoomOut(v)
    ensures key == "0" ==> r == Fit(v)
    ensures key !in ["Escape", "+", "=", "-", "0"] ==> r == v
    ensures key != "Escape" ==> r.dragging == v.dragging
  {
    if key == "Escape" then Close(v)
    else if key == "+" || key == "=" then ZoomIn(v)
    else if key == "-" then ZoomOut(v)
    else if key == "0" then Fit(v)
    else v
  }

  // ---------------------------------------------------------------- the load handler

  /** A JavaScript division of two sizes: finite, `+Infinity` (`c / 0` with `c > 0`) or `NaN`
      (`0 / 0`). */
  datatype Ratio = Finite(value: real) | PosInfinity | NotANumber

  function Divide(c: nat, i: nat): (r: Ratio)
    ensures i > 0 ==> r == Finite(c as real / i as real)
    ensures r.Finite? ==> r.value >= 0.0
  {
    if i > 0 then Finite(c as real / i as real)
    else if c > 0 then PosInfinity
    else NotANumber
  }

  /** `Math.min(a, b, 1)`: `NaN` if either is `NaN`, otherwise the least of the three, where
      `+Infinity` never wins. */
  function MinWithOne(a: Ratio, b: Ratio): (r: Ratio)
    ensures r.NotANumber? <==> a.NotANumber? || b.NotANumber?
    ensures r.Finite? ==> r.value <= 1.0
    ensures r.Finite? && a.Finite? ==> r.value <= a.value
    ensures r.Finite? && b.Finite? ==> r.value <= b.value
    ensures !r.PosInfinity?
    ensures r.Finite? ==> r.value == 1.0 || (a.Finite? && r.value == a.value) || (b.Finite? && r.value == b.value)
  {
    if a.NotANumber? || b.NotANumber? then NotANumber
    else
      var m := if a.Finite? && a.value < 1.0 then a.value else 1.0;
      Finite(if b.Finite? && b.value < m then b.value else m)
  }

  /** The image's `onLoad`: with container size `cw × ch` and natural size `iw × ih`, the
      zoom becomes `min(cw/iw, ch/ih, 1)` when that is below 1; otherwise nothing changes. */
  function OnLoad(v: Viewer, cw: nat, ch: nat, iw: nat, ih: nat): (r: Viewer)
    ensures r.position == v.position && r.dragging == v.dragging && r.anchor == v.anchor && r.dragZoom == v.dragZoom
    ensures r.zoom == v.zoom || 0.0 <= r.zoom < 1.0
    ensures r.zoom != v.zoom ==> iw > 0 || ih > 0
    ensures iw > 0 && ih > 0 && r.zoom != v.zoom ==>
      r.zoom <= cw as real / iw as real && r.zoom <= ch as real / ih as real
    ensures iw > 0 && ih > 0 && cw as real / iw as real < 1.0 ==> r.zoom <= cw as real / iw as real
    ensures iw > 0 && ih > 0 && ch as real / ih as real < 1.0 ==> r.zoom <= ch as real / ih as real
    ensures iw > 0 && ih > 0 ==> var x := cw as real / iw as real; var y := ch as real / ih as real;
      x < 1.0 || y < 1.0 ==> r.zoom == (if x < y then x else y)
    ensures (iw == 0 || cw >= iw) && (ih == 0 || ch >= ih) ==> r == v
  {
    var initial := MinWithOne(Divide(cw, iw), Divide(ch, ih));
    RatioAtLeastOne(cw, iw);
    RatioAtLeastOne(ch, ih);
    if initial.Finite? && initial.value < 1.0 then v.(zoom := initial.value) else v
  }

  /** A size over a positive size no larger than it is at least 1. */
  lemma RatioAtLeastOne(c: nat, i: nat)
    ensures 0 < i <= c ==> c as real / i as real >= 1.0
  {
    if 0 < i <= c {
      assert (c as real / i as real) * i as real == c as real;
    }
  }

  /** The load handler never zooms in, but it can go below the floor the other handlers keep:
      a 1000×1000 image in a 10×10 container opens at 0.01, and zooming out from there jumps
      up to 0.1. */
  lemma OnLoadBelowFloor()
    ensures OnLoad(Initial, 10, 10, 1000, 1000).zoom == 0.01 < MinZoom
    ensures ZoomOut(OnLoad(Initial, 10, 10, 1000, 1000)).zoom == MinZoom
  {
  }

  /** A zero-sized container opens the image at zoom 0, and zooming in cannot leave 0. */
  lemma OnLoadZero(iw: nat, ih: nat)
    requires iw > 0 && ih > 0
    ensures OnLoad(Initial, 0, 0, iw, ih).zoom == 0.0
    ensures ZoomIn(OnLoad(Initial, 0, 0, iw, ih)).zoom == 0.0
  {
  }

  // ---------------------------------------------------------------- runs of events

  datatype Event =
    | ZoomInClicked | ZoomOutClicked | FitClicked | CloseClicked
    | Down(p: Point) | Move(p: Point) | Up
    | Scroll(deltaY: real) | Key(key: string)
    | Loaded(cw: nat, ch: nat, iw: nat, ih: nat)

  function Apply(v: Viewer, e: Event): Viewer {
    match e
    case ZoomInClicked => ZoomIn(v)
    case ZoomOutClicked => ZoomOut(v)
    case FitClicked => Fit(v)
    case CloseClicked => Close(v)
    case Down(p) => MouseDown(v, p)
    case Move(p) => MouseMove(v, p)
    case Up => MouseUp(v)
    case Scroll(d) => Wheel(v, d)
    case Key(k) => KeyDown(v, k)
    case Loaded(cw, ch, iw, ih) => OnLoad(v, cw, ch, iw, ih)
  }

  function Run(v: Viewer, es: seq<Event>): Viewer
    decreases |es|
  {
    if es == [] then v else Run(Apply(v, es[0]), es[1..])
  }

  /** Every handler keeps the zoom within `[0, 5]`. */
  lemma ApplyValid(v: Viewer, e: Event)
    requires Valid(v)
    ensures Valid(Apply(v, e))
  {
  }

  /** From any state with its zoom in `[0, 5]` (the initial state among them), any run of
      events keeps the zoom within `[0, 5]`. */
  lemma {:induction false} RunValid(v: Viewer, es: seq<Event>)
    requires Valid(v)
    ensures Valid(Run(v, es))
    decreases |es|
  {
    if es != [] {
      ApplyValid(v, es[0]);
      RunValid(Apply(v, es[0]), es[1..]);
    }
  }

  /** Pressing at `p`, dragging anywhere and coming back to `p` restores the position the
      image had when the press began. */
  lemma DragBack(v: Viewer, p: Point, q: Point)
    requires v.zoom > 1.0
    ensures MouseMove(MouseDown(v, p), p).position == v.position
    ensures MouseMove(MouseMove(MouseDown(v, p), q), p).position == v.position
  {
  }

  /** A listener holds a zoom above 1 while a drag is in progress: only a press on a zoomed-in
      image starts a drag. */
  predicate DragListener(v: Viewer) {
    v.dragging ==> v.dragZoom > 1.0
  }

  lemma ApplyDragListener(v: Viewer, e: Event)
    requires DragListener(v)
    ensures DragListener(Apply(v, e))
  {
  }

  /** From any state where a drag has a listener above zoom 1 (the initial state among them),
      every move during a drag moves the image, whatever the zoom has become since the press. */
  lemma {:induction false} RunDragMoves(v: Viewer, es: seq<Event>, p: Point)
    requires DragListener(v)
    ensures DragListener(Run(v, es))
    ensures Run(v, es).dragging ==>
      MouseMove(Run(v, es), p).position == Point(p.x - Run(v, es).anchor.x, p.y - Run(v, es).anchor.y)
    decreases |es|
  {
    if es != [] {
      ApplyDragListener(v, es[0]);
      RunDragMoves(Apply(v, es[0]), es[1..], p);
    }
  }

  /** Fitting to the screen in the middle of a drag does not end it: the listener still sees the
      zoom of the press, so the next move pans the fitted image. */
  lemma FitDuringDrag()
    ensures Run(Initial.(zoom := 2.0), [Down(Point(10.0, 10.0)), Key("0"), Move(Point(30.0, 30.0))])
      == Viewer(1.0, Point(20.0, 20.0), true, Point(10.0, 10.0), 2.0)
  {
  }

  /** Scrolling down then up does not undo the zoom: within range it scales it by 0.99. */
  lemma WheelNotInverse(v: Viewer)
    requires 1.0 <= v.zoom <= 4.0
    ensures Wheel(Wheel(v, 1.0), -1.0).zoom == v.zoom * 0.99
    ensures Wheel(Wheel(v, 1.0), -1.0).zoom != v.zoom
  {
  }

  /** Closing from any state gives the initial view (up to the stale anchor and drag zoom), and
      closing twice is closing once. */
  lemma CloseResets(v: Viewer)
    ensures Close(v) == Initial.(anchor := v.anchor, dragZoom := v.dragZoom)
    ensures Close(Close(v)) == Close(v)
  {
  }
}
