/** An optional value; stands in for a JavaScript reference that may be `null`. */
module Optional {

  datatype Option<T> = None | Some(value: T)
}

/**
 This module models the `Shape` record of the editor: its construction defaults,
 the outline (a Path2D in the browser) derived from its type, position and size,
 and the mapping of page coordinates to canvas coordinates.
 */
module Shapes {
  import opened Optional

  /** A point in page or canvas coordinates. */
  datatype Point = Point(x: real, y: real)

  /** The outline built for a shape; only its geometry is modelled, never its pixels. */
  datatype Outline =
    | Rect(left: real, top: real, w: real, h: real)   // axis-aligned box from its top-left corner
    | Arc(cx: real, cy: real, r: real)                 // full circle
    | Tri(p1: Point, p2: Point, p3: Point)             // apex, then the two base corners
    | EmptyPath                                        // a path with no sub-path: unrecognised type
    | NoPath                                           // no path object at all: empty type

  /** The type names the tool buttons hand to the editor. */
  const RectangleKind := "rectangle"
  const CircleKind := "circle"
  const TriangleKind := "triangle"

  /** Default arguments of the shape constructor. */
  const DefaultColor := "#000"
  const DefaultWidth := 10.0

  datatype Shape = Shape(kind: string, color: string, x: real, y: real,
                         width: real, height: real, path: Outline)

  /**
   Whether building the outline throws: a circle's radius is half its width, and an arc
   with a negative radius raises an IndexSizeError, which leaves the constructor unfinished.
   */
  predicate ArcThrows(kind: string, width: real) {
    kind == CircleKind && width < 0.0
  }

  /**
   The outline of a shape of the given type centred at (x, y) with the given size, or
   none when building it throws.
   */
  function ShapePath(kind: string, x: real, y: real, width: real, height: real): (r: Option<Outline>)
    ensures r.None? <==> ArcThrows(kind, width)
    ensures r.Some? ==> var o := r.value;
      && (kind == "" <==> o == NoPath)
      && (kind == RectangleKind <==> o.Rect?)
      && (kind == CircleKind <==> o.Arc?)
      && (kind == TriangleKind <==> o.Tri?)
      // a rectangle is centred on (x, y) and spans width by height
      && (o.Rect? ==> o.left + o.w / 2.0 == x && o.top + o.h / 2.0 == y
                      && o.w == width && o.h == height)
      // a circle is centred on (x, y), its diameter is the width, the height plays no part
      && (o.Arc? ==> o.cx == x && o.cy == y && 2.0 * o.r == width && o.r >= 0.0)
      // an isosceles triangle: apex above the centre, horizontal base below it
      && (o.Tri? ==> o.p1.x == x && o.p2.y == o.p3.y
                     && o.p2.x + o.p3.x == 2.0 * x
                     && o.p3.x - o.p2.x == width && o.p2.y - o.p1.y == height
                     && o.p1.y + o.p2.y == 2.0 * y)
  {
    if kind == "" then Some(NoPath)
    else if kind == RectangleKind then
      Some(Rect(x - width / 2.0, y - height / 2.0, width, height))
    else if kind == CircleKind then
      if width / 2.0 < 0.0 then None else Some(Arc(x, y, width / 2.0))
    else if kind == TriangleKind then
      Some(Tri(Point(x, y - height / 2.0),
               Point(x - width / 2.0, y + height / 2.0),
               Point(x + width / 2.0, y + height / 2.0)))
    else Some(EmptyPath)
  }

  /** A shape whose stored outline is the one its type, position and size determine. */
  predicate WellFormed(s: Shape) {
    ShapePath(s.kind, s.x, s.y, s.width, s.height) == Some(s.path)
  }

  /**
   The shape constructor: a missing height takes the value of the width; when building
   the outline throws, no shape comes out.
   */
  function NewShape(kind: string, color: string, x: real, y: real,
                    width: real, height: Option<real>): (r: Option<Shape>)
    ensures r.None? <==> ArcThrows(kind, width)
    ensures r.Some? ==> var s := r.value;
      && WellFormed(s)
      && s.kind == kind && s.color == color && s.x == x && s.y == y && s.width == width
      && (height.None? ==> s.height == width)
      && (height.Some? ==> s.height == height.value)
  {
    var h := if height.None? then width else height.value;
    match ShapePath(kind, x, y, width, h)
    case None => None
    case Some(path) => Some(Shape(kind, color, x, y, width, h, path))
  }

  /** A shape built from the type alone: a black 10 by 10 square-proportioned shape at the origin. */
  function DefaultShape(kind: string): (s: Shape)
    ensures WellFormed(s)
    ensures s.kind == kind && s.color == DefaultColor
    ensures s.x == 0.0 && s.y == 0.0 && s.width == s.height == DefaultWidth
  {
    NewShape(kind, DefaultColor, 0.0, 0.0, DefaultWidth, None).value
  }

  /** The centre and size an outline was built from. */
  datatype Placement = Placement(x: real, y: real, width: real, height: real)

  /** Reads the placement back from an outline; outlines with no geometry give none. */
  function PlacementOf(o: Outline): Option<Placement> {
    match o
    case Rect(l, t, w, h) => Some(Placement(l + w / 2.0, t + h / 2.0, w, h))
    case Arc(cx, cy, r) => Some(Placement(cx, cy, 2.0 * r, 2.0 * r))
    case Tri(a, b, c) => Some(Placement(a.x, (a.y + b.y) / 2.0, c.x - b.x, b.y - a.y))
    case EmptyPath => None
    case NoPath => None
  }

  /** The outline of every recognised type gives back the placement it was built from. */
  lemma PlacementRoundTrip(kind: string, x: real, y: real, width: real, height: real)
    ensures kind == RectangleKind || kind == TriangleKind ==>
              && ShapePath(kind, x, y, width, height).Some?
              && PlacementOf(ShapePath(kind, x, y, width, height).value) == Some(Placement(x, y, width, height))
    ensures kind == CircleKind && width >= 0.0 ==>
              && ShapePath(kind, x, y, width, height).Some?
              && PlacementOf(ShapePath(kind, x, y, width, height).value) == Some(Placement(x, y, width, width))
    ensures kind != RectangleKind && kind != CircleKind && kind != TriangleKind ==>
              && ShapePath(kind, x, y, width, height).Some?
              && PlacementOf(ShapePath(kind, x, y, width, height).value) == None
  {
  }

  /** Changes the fill colour; the outline does not depend on it. */
  function SetColor(s: Shape, color: string): (r: Shape)
    ensures r.color == color
    ensures WellFormed(s) ==> WellFormed(r)
    ensures r.(color := s.color) == s
  {
    s.(color := color)
  }

  /** Moves a shape as the source does: the stored outline is left where it was. */
  function SetLocation(s: Shape, x: real, y: real): (r: Shape)
    ensures r.x == x && r.y == y
    ensures r.path == s.path
    ensures r.(x := s.x, y := s.y) == s
  {
    s.(x := x, y := y)
  }

  /** Moving a freshly built rectangle leaves an outline that no longer matches its position. */
  lemma SetLocationLeavesStaleOutline()
    ensures WellFormed(DefaultShape(RectangleKind))
    ensures !WellFormed(SetLocation(DefaultShape(RectangleKind), 100.0, 100.0))
  {
    var s := DefaultShape(RectangleKind);
    var m := SetLocation(s, 100.0, 100.0);
    assert m.path == Rect(-5.0, -5.0, 10.0, 10.0);
    assert ShapePath(m.kind, m.x, m.y, m.width, m.height) == Some(Rect(95.0, 95.0, 10.0, 10.0));
  }

  /** Moves a shape and rebuilds its outline at the new position; the rebuild throws exactly when construction would. */
  function MoveTo(s: Shape, x: real, y: real): (r: Option<Shape>)
    ensures r.None? <==> ArcThrows(s.kind, s.width)
    ensures WellFormed(s) ==> r.Some?
    ensures r.Some? ==> var m := r.value;
      && WellFormed(m)
      && m.x == x && m.y == y
      && m.kind == s.kind && m.color == s.color && m.width == s.width && m.height == s.height
      && (s.kind == RectangleKind || s.kind == TriangleKind ==>
            PlacementOf(m.path) == Some(Placement(x, y, s.width, s.height)))
  {
    PlacementRoundTrip(s.kind, x, y, s.width, s.height);
    match ShapePath(s.kind, x, y, s.width, s.height)
    case None => None
    case Some(path) => Some(s.(x := x, y := y, path := path))
  }

  /** Translates a page position into canvas coordinates; `origin` is the canvas's offset (`offsetLeft`, `offsetTop`). */
  function OffsetMouseToCanvas(origin: Point, page: Point): (p: Point)
    ensures p.x + origin.x == page.x && p.y + origin.y == page.y
  {
    Point(page.x - origin.x, page.y - origin.y)
  }

  /** The mapping is a translation: the displacement between two clicks is the same on the page and on the canvas. */
  lemma OffsetKeepsDisplacement(origin: Point, a: Point, b: Point)
    ensures OffsetMouseToCanvas(origin, a).x - OffsetMouseToCanvas(origin, b).x == a.x - b.x
    ensures OffsetMouseToCanvas(origin, a).y - OffsetMouseToCanvas(origin, b).y == a.y - b.y
  {
  }
}
