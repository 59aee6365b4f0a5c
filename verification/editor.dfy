/**
 The editor state machine: the ordered shape list, the interaction mode, the pending
 tool and the selected shape, and one pure step function per user event. The steps
 follow the code as written; `SelectShapeExclusive` and `ProcessMouseClickExclusive`
 are the corrected variant in which a selection click first forgets any earlier
 selection.
 */
module Editors {
  import opened Optional
  import opened Shapes
  import opened HitTest

  datatype Mode = Draw | Select | Delete

  /** The editor's state; the last shape of `shapes` is drawn on top. */
  datatype Editor = Editor(shapes: seq<Shape>, mode: Mode, newShapeType: string, selected: Option<Shape>)

  /** The state the editor starts in: no shapes, drawing, no tool, nothing selected. */
  const Initial := Editor([], Draw, "", None)

  /** What the height control holds at the time of a click: nothing, or a number. */
  datatype HeightField = Blank | Number(value: real)

  /**
   The height the click hands to the shape constructor as written: the control's value is
   always a string, the empty one when blank, and the outline arithmetic reads it as 0.
   */
  function HeightAsWritten(f: HeightField): (h: Option<real>)
    ensures h.Some?
    ensures f.Blank? ==> h == Some(0.0)
    ensures f.Number? ==> h == Some(f.value)
  {
    match f
    case Blank => Some(0.0)
    case Number(v) => Some(v)
  }

  /** The values the colour, width and height controls hold at the time of a click. */
  datatype ToolInputs = ToolInputs(color: string, width: real, height: HeightField)

  function Last(s: seq<Shape>): Shape
    requires |s| > 0
  {
    s[|s| - 1]
  }

  /** Chooses the tool for the next drawing click; nothing else changes. */
  function SetNewShape(ed: Editor, kind: string): (r: Editor)
    ensures r.newShapeType == kind
    ensures r.(newShapeType := ed.newShapeType) == ed
  {
    ed.(newShapeType := kind)
  }

  /** The mode after toggling `target`: leave it for Draw when already in it, otherwise enter it. */
  function Toggled(current: Mode, target: Mode): Mode {
    if current != target then target else Draw
  }

  function ToggleSelect(ed: Editor): (r: Editor)
    ensures r.mode == Select <==> ed.mode != Select
    ensures r.mode == Select || r.mode == Draw
    ensures r.(mode := ed.mode) == ed
  {
    ed.(mode := Toggled(ed.mode, Select))
  }

  function ToggleDelete(ed: Editor): (r: Editor)
    ensures r.mode == Delete <==> ed.mode != Delete
    ensures r.mode == Delete || r.mode == Draw
    ensures r.(mode := ed.mode) == ed
  {
    ed.(mode := Toggled(ed.mode, Delete))
  }

  /** Toggling Select twice returns to the starting mode unless the editor was deleting. */
  lemma ToggleSelectTwice(ed: Editor)
    ensures ToggleSelect(ToggleSelect(ed)).mode == (if ed.mode == Delete then Draw else ed.mode)
  {
  }

  /** The last toggle wins: toggling one mode after another always ends in the later one. */
  lemma LastToggleWins(ed: Editor)
    ensures ToggleDelete(ToggleSelect(ed)).mode == Delete
    ensures ToggleSelect(ToggleDelete(ed)).mode == Select
  {
  }

  /** Empties the shape list; the mode, the tool and the (now stale) selection stay. */
  function ClearCanvas(ed: Editor): (r: Editor)
    ensures r.shapes == []
    ensures r.mode == ed.mode && r.newShapeType == ed.newShapeType && r.selected == ed.selected
  {
    ed.(shapes := [])
  }

  /**
   A drawing click: with a tool chosen, a new shape is placed at `pos` on top of the others.
   When the shape constructor throws (a circle of negative width), the exception abandons
   the click before anything is appended, so the state is unchanged.
   */
  function CreateShape(ed: Editor, pos: Point, tools: ToolInputs): (r: Editor)
    ensures ed.newShapeType == "" || ArcThrows(ed.newShapeType, tools.width) ==> r == ed
    ensures ed.newShapeType != "" && !ArcThrows(ed.newShapeType, tools.width) ==>
              && |r.shapes| == |ed.shapes| + 1
              && r.shapes[..|ed.shapes|] == ed.shapes
              && Some(Last(r.shapes)) == NewShape(ed.newShapeType, tools.color, pos.x, pos.y, tools.width, HeightAsWritten(tools.height))
              && r.selected == None
    ensures r.mode == ed.mode && r.newShapeType == ed.newShapeType
  {
    if ed.newShapeType == "" then ed
    else
      match NewShape(ed.newShapeType, tools.color, pos.x, pos.y, tools.width, HeightAsWritten(tools.height))
      case None => ed
      case Some(shape) =>
        assert (ed.shapes + [shape])[..|ed.shapes|] == ed.shapes;
        ed.(shapes := ed.shapes + [shape], selected := None)
  }

  /** As written, a blank height makes a rectangle or triangle flat: its outline has zero height. */
  lemma BlankHeightDrawsFlat(kind: string, color: string, x: real, y: real, width: real)
    requires kind == RectangleKind || kind == TriangleKind
    ensures var s := NewShape(kind, color, x, y, width, HeightAsWritten(Blank));
            && s.Some?
            && s.value.height == 0.0
            && PlacementOf(s.value.path) == Some(Placement(x, y, width, 0.0))
  {
    PlacementRoundTrip(kind, x, y, width, 0.0);
  }

  /** The height as the constructor's default intends it: a blank control means no height. */
  function HeightIntended(f: HeightField): (h: Option<real>)
    ensures h.None? <==> f.Blank?
    ensures f.Number? ==> h == Some(f.value)
  {
    match f
    case Blank => None
    case Number(v) => Some(v)
  }

  /** With the intended reading, a blank height gives a shape as tall as it is wide. */
  lemma BlankHeightDrawsProportioned(kind: string, color: string, x: real, y: real, width: real)
    requires kind == RectangleKind || kind == TriangleKind
    ensures var s := NewShape(kind, color, x, y, width, HeightIntended(Blank));
            && s.Some?
            && s.value.height == width
            && PlacementOf(s.value.path) == Some(Placement(x, y, width, width))
  {
    PlacementRoundTrip(kind, x, y, width, width);
  }

  /** A selection click as written: a hit is promoted to the top and selected; a miss changes nothing. */
  function SelectShape(ed: Editor, contains: Containment, p: Point): (r: Editor)
    ensures (forall j :: 0 <= j < |ed.shapes| ==> !Hits(contains, ed.shapes[j], p)) ==> r == ed
    ensures (exists j :: 0 <= j < |ed.shapes| && Hits(contains, ed.shapes[j], p)) ==>
              |r.shapes| > 0 && r.selected == Some(Last(r.shapes)) && Hits(contains, Last(r.shapes), p)
    ensures |r.shapes| == |ed.shapes| && multiset(r.shapes) == multiset(ed.shapes)
    ensures r.mode == ed.mode && r.newShapeType == ed.newShapeType
  {
    match Topmost(ed.shapes, contains, p)
    case None => ed
    case Some(i) => ed.(shapes := Promote(ed.shapes, i), selected := Some(ed.shapes[i]))
  }

  /** A hit promotes exactly the highest-indexed shape containing the point and selects it. */
  lemma SelectHit(ed: Editor, contains: Containment, p: Point, i: nat)
    requires i < |ed.shapes| && Hits(contains, ed.shapes[i], p)
    requires forall j :: i < j < |ed.shapes| ==> !Hits(contains, ed.shapes[j], p)
    ensures SelectShape(ed, contains, p).shapes == Promote(ed.shapes, i)
    ensures SelectShape(ed, contains, p).shapes == ed.shapes[..i] + ed.shapes[i + 1..] + [ed.shapes[i]]
    ensures SelectShape(ed, contains, p).selected == Some(ed.shapes[i])
  {
    TopmostIsHighestHit(ed.shapes, contains, p, i);
    var r := Promote(ed.shapes, i);
    assert r == r[..|r| - 1] + [r[|r| - 1]];
  }

  /** Removes the top shape when something is selected, without checking what is on top. */
  function DeleteShape(ed: Editor): (r: Editor)
    ensures r.selected == None
    ensures ed.selected.None? ==> r == ed
    ensures ed.selected.Some? && |ed.shapes| > 0 ==> r.shapes + [Last(ed.shapes)] == ed.shapes
    ensures ed.selected.Some? && |ed.shapes| == 0 ==> r.shapes == []
    ensures r.mode == ed.mode && r.newShapeType == ed.newShapeType
  {
    if ed.selected.None? then ed
    else
      var rest := if |ed.shapes| == 0 then [] else ed.shapes[..|ed.shapes| - 1];
      ed.(shapes := rest, selected := None)
  }

  lemma DropLast(front: seq<Shape>, x: Shape, s: seq<Shape>)
    requires front + [x] == s
    ensures front == s[..|s| - 1]
  {
    assert s[..|s| - 1] == (front + [x])[..|front|];
  }

  /** One click at page position `page`; `origin` is the canvas's offset (`offsetLeft`, `offsetTop`). */
  function ProcessMouseClick(ed: Editor, contains: Containment, origin: Point, page: Point,
                             tools: ToolInputs): (r: Editor)
    ensures r.mode == ed.mode && r.newShapeType == ed.newShapeType
    ensures ed.mode == Draw ==> r == CreateShape(ed, OffsetMouseToCanvas(origin, page), tools)
    ensures ed.mode == Select ==> r == SelectShape(ed, contains, OffsetMouseToCanvas(origin, page))
    ensures ed.mode == Delete ==>
              r == DeleteShape(SelectShape(ed, contains, OffsetMouseToCanvas(origin, page)))
  {
    var p := OffsetMouseToCanvas(origin, page);
    match ed.mode
    case Select => SelectShape(ed, contains, p)
    case Delete => DeleteShape(SelectShape(ed, contains, p))
    case Draw => CreateShape(ed, p, tools)
  }

  /** A drawing click appends one shape at the canvas point, keeping the others as they were, unless the constructor throws. */
  lemma DrawClick(ed: Editor, contains: Containment, origin: Point, page: Point, tools: ToolInputs)
    requires ed.mode == Draw
    ensures var r := ProcessMouseClick(ed, contains, origin, page, tools);
            && (ed.newShapeType == "" ==> r == ed)
            && (ArcThrows(ed.newShapeType, tools.width) ==> r == ed)
            && (ed.newShapeType != "" && !ArcThrows(ed.newShapeType, tools.width) ==>
                  && r.shapes[..|ed.shapes|] == ed.shapes
                  && |r.shapes| == |ed.shapes| + 1
                  && Last(r.shapes).kind == ed.newShapeType
                  && Last(r.shapes).x + origin.x == page.x
                  && Last(r.shapes).y + origin.y == page.y
                  && Last(r.shapes).height == (if tools.height.Blank? then 0.0 else tools.height.value)
                  && WellFormed(Last(r.shapes))
                  && r.selected == None)
  {
  }

  /** A selection click that misses leaves the list and any earlier selection in place. */
  lemma SelectClickMiss(ed: Editor, contains: Containment, origin: Point, page: Point, tools: ToolInputs)
    requires ed.mode == Select
    requires forall j :: 0 <= j < |ed.shapes| ==>
               !Hits(contains, ed.shapes[j], OffsetMouseToCanvas(origin, page))
    ensures ProcessMouseClick(ed, contains, origin, page, tools) == ed
  {
  }

  /** A deleting click that hits removes exactly the topmost shape under the point. */
  lemma DeleteClickHit(ed: Editor, contains: Containment, origin: Point, page: Point, tools: ToolInputs, i: nat)
    requires ed.mode == Delete
    requires i < |ed.shapes| && Hits(contains, ed.shapes[i], OffsetMouseToCanvas(origin, page))
    requires forall j :: i < j < |ed.shapes| ==>
               !Hits(contains, ed.shapes[j], OffsetMouseToCanvas(origin, page))
    ensures var r := ProcessMouseClick(ed, contains, origin, page, tools);
            && r.shapes == Without(ed.shapes, i)
            && |r.shapes| == |ed.shapes| - 1
            && multiset(r.shapes) + multiset{ed.shapes[i]} == multiset(ed.shapes)
            && r.selected == None
  {
    var p := OffsetMouseToCanvas(origin, page);
    SelectHit(ed, contains, p, i);
    var s := SelectShape(ed, contains, p);
    DropLast(DeleteShape(s).shapes, Last(s.shapes), s.shapes);
  }

  /** A deleting click that misses, with nothing selected before, leaves the list alone. */
  lemma DeleteClickMissUnselected(ed: Editor, contains: Containment, origin: Point, page: Point,
                                  tools: ToolInputs)
    requires ed.mode == Delete && ed.selected.None?
    requires forall j :: 0 <= j < |ed.shapes| ==>
               !Hits(contains, ed.shapes[j], OffsetMouseToCanvas(origin, page))
    ensures ProcessMouseClick(ed, contains, origin, page, tools) == ed
  {
  }

  /** A deleting click on an empty canvas leaves it empty and clears any stale selection. */
  lemma DeleteClickEmptyCanvas(ed: Editor, contains: Containment, origin: Point, page: Point,
                               tools: ToolInputs)
    requires ed.mode == Delete && ed.shapes == []
    ensures var r := ProcessMouseClick(ed, contains, origin, page, tools);
            r.shapes == [] && r.selected == None
  {
  }

  /** As written, a deleting click that misses still pops the top shape when an earlier selection survives. */
  lemma DeleteClickMissSelected(ed: Editor, contains: Containment, origin: Point, page: Point,
                                tools: ToolInputs)
    requires ed.mode == Delete && ed.selected.Some? && |ed.shapes| > 0
    requires forall j :: 0 <= j < |ed.shapes| ==>
               !Hits(contains, ed.shapes[j], OffsetMouseToCanvas(origin, page))
    ensures ProcessMouseClick(ed, contains, origin, page, tools).shapes == ed.shapes[..|ed.shapes| - 1]
  {
    var r := ProcessMouseClick(ed, contains, origin, page, tools);
    DropLast(r.shapes, Last(ed.shapes), ed.shapes);
  }

  /** A containment that no outline satisfies: every click misses. */
  function NothingContains(o: Outline, x: real, y: real): bool {
    false
  }

  /**
   A run of the discrepancy: the only shape is selected, the editor is switched to
   deleting, and a click on empty canvas at (500, 500) deletes that shape.
   */
  lemma StaleSelectionDeletesOnMiss(shape: Shape)
    ensures var ed := Editor([shape], Delete, RectangleKind, Some(shape));
            ProcessMouseClick(ed, NothingContains, Point(0.0, 0.0), Point(500.0, 500.0),
                              ToolInputs("#f00", 20.0, Number(20.0))).shapes == []
  {
    var ed := Editor([shape], Delete, RectangleKind, Some(shape));
    DeleteClickMissSelected(ed, NothingContains, Point(0.0, 0.0), Point(500.0, 500.0),
                            ToolInputs("#f00", 20.0, Number(20.0)));
  }

  /** The corrected selection click: the earlier selection is forgotten before scanning. */
  function SelectShapeExclusive(ed: Editor, contains: Containment, p: Point): (r: Editor)
    ensures r.selected.Some? <==> exists j :: 0 <= j < |ed.shapes| && Hits(contains, ed.shapes[j], p)
    ensures r.selected.Some? ==> |r.shapes| > 0 && r.selected == Some(Last(r.shapes))
                                 && Hits(contains, r.selected.value, p)
    ensures r.selected.None? ==> r.shapes == ed.shapes
    ensures multiset(r.shapes) == multiset(ed.shapes)
    ensures r.mode == ed.mode && r.newShapeType == ed.newShapeType
  {
    var cleared := ed.(selected := None);
    var hit := Topmost(ed.shapes, contains, p);
    assert hit.Some? ==> Hits(contains, ed.shapes[hit.value], p);
    SelectShape(cleared, contains, p)
  }

  /** The corrected click: as written, except that selecting and deleting use the exclusive selection. */
  function ProcessMouseClickExclusive(ed: Editor, contains: Containment, origin: Point, page: Point,
                                      tools: ToolInputs): (r: Editor)
    ensures r.mode == ed.mode && r.newShapeType == ed.newShapeType
    ensures ed.mode == Draw ==> r == ProcessMouseClick(ed, contains, origin, page, tools)
    ensures ed.mode != Draw && (forall j :: 0 <= j < |ed.shapes| ==>
              !Hits(contains, ed.shapes[j], OffsetMouseToCanvas(origin, page)))
            ==> r.shapes == ed.shapes && r.selected == None
    ensures ed.mode == Delete ==> r.selected == None
    ensures ed.mode == Delete ==> |r.shapes| == |ed.shapes| || |r.shapes| + 1 == |ed.shapes|
  {
    var p := OffsetMouseToCanvas(origin, page);
    match ed.mode
    case Select => SelectShapeExclusive(ed, contains, p)
    case Delete => DeleteShape(SelectShapeExclusive(ed, contains, p))
    case Draw => CreateShape(ed, p, tools)
  }

  /** With the correction, a deleting click removes exactly the topmost hit, and a miss removes nothing. */
  lemma DeleteClickExclusive(ed: Editor, contains: Containment, origin: Point, page: Point, tools: ToolInputs)
    requires ed.mode == Delete
    ensures var r := ProcessMouseClickExclusive(ed, contains, origin, page, tools);
            var hit := Topmost(ed.shapes, contains, OffsetMouseToCanvas(origin, page));
            && (hit.None? ==> r.shapes == ed.shapes)
            && (hit.Some? ==> r.shapes == Without(ed.shapes, hit.value))
  {
    var p := OffsetMouseToCanvas(origin, page);
    var hit := Topmost(ed.shapes, contains, p);
    if hit.Some? {
      var cleared := ed.(selected := None);
      SelectHit(cleared, contains, p, hit.value);
      var s := SelectShape(cleared, contains, p);
      DropLast(DeleteShape(s).shapes, Last(s.shapes), s.shapes);
    }
  }

  /** With the correction, the discrepancy's run deletes nothing. */
  lemma StaleSelectionKeptOnMissExclusive(shape: Shape)
    ensures var ed := Editor([shape], Delete, RectangleKind, Some(shape));
            ProcessMouseClickExclusive(ed, NothingContains, Point(0.0, 0.0), Point(500.0, 500.0),
                                       ToolInputs("#f00", 20.0, Number(20.0))).shapes == [shape]
  {
  }
}
