/**
 A session of the editor: the user events the page delivers, one at a time, and the
 state reached by processing a sequence of them from the initial state. The module
 proves the invariant every reachable state keeps and replays two concrete sessions.
 */
module Session {
  import opened Optional
  import opened Shapes
  import opened HitTest
  import opened Editors

  /** The events the tool, mode and clear buttons and the canvas deliver. */
  datatype Event =
    | ChooseTool(kind: string)
    | SelectPressed
    | DeletePressed
    | ClearPressed
    | Click(page: Point, tools: ToolInputs)

  /** Processes one event; `origin` is the canvas's offset (`offsetLeft`, `offsetTop`). */
  function Step(ed: Editor, contains: Containment, origin: Point, ev: Event): (r: Editor)
    ensures !ev.Click? && !ev.ClearPressed? ==> r.shapes == ed.shapes && r.selected == ed.selected
    ensures !ev.ChooseTool? ==> r.newShapeType == ed.newShapeType
    ensures ev.Click? || ev.ClearPressed? || ev.ChooseTool? ==> r.mode == ed.mode
  {
    match ev
    case ChooseTool(kind) => SetNewShape(ed, kind)
    case SelectPressed => ToggleSelect(ed)
    case DeletePressed => ToggleDelete(ed)
    case ClearPressed => ClearCanvas(ed)
    case Click(page, tools) => ProcessMouseClick(ed, contains, origin, page, tools)
  }

  /** Processes the events in order. */
  function Run(ed: Editor, contains: Containment, origin: Point, evs: seq<Event>): Editor
    decreases |evs|
  {
    if |evs| == 0 then ed
    else Run(Step(ed, contains, origin, evs[0]), contains, origin, evs[1..])
  }

  lemma RunPair(ed: Editor, contains: Containment, origin: Point, a: Event, b: Event)
    ensures Run(ed, contains, origin, [a, b]) == Step(Step(ed, contains, origin, a), contains, origin, b)
  {
    var first := Step(ed, contains, origin, a);
    assert [a, b][1..] == [b];
    assert Run(ed, contains, origin, [a, b]) == Run(first, contains, origin, [b]);
    assert [b][1..] == [];
    assert Run(first, contains, origin, [b]) == Run(Step(first, contains, origin, b), contains, origin, []);
  }

  /**
   The invariant of reachable states: every shape carries the outline its type, position
   and size determine and has a non-empty type, and a selection, when the list is not
   empty, is the shape on top.
   */
  predicate Consistent(ed: Editor) {
    && (forall s :: s in ed.shapes ==> WellFormed(s) && s.kind != "")
    && (ed.selected.Some? && |ed.shapes| > 0 ==> Last(ed.shapes) == ed.selected.value)
  }

  lemma InitialConsistent()
    ensures Consistent(Initial)
  {
  }

  lemma MultisetMembers(a: seq<Shape>, b: seq<Shape>)
    requires multiset(a) == multiset(b)
    ensures forall s :: s in a ==> s in b
  {
    forall s | s in a
      ensures s in b
    {
      assert s in multiset(a);
    }
  }

  lemma PrefixMembers(front: seq<Shape>, x: Shape, s: seq<Shape>)
    requires front + [x] == s
    ensures forall t :: t in front ==> t in s
  {
    forall t | t in front
      ensures t in s
    {
      var k :| 0 <= k < |front| && front[k] == t;
      assert s[k] == t;
    }
  }

  /** Every event keeps the invariant. */
  lemma StepConsistent(ed: Editor, contains: Containment, origin: Point, ev: Event)
    requires Consistent(ed)
    ensures Consistent(Step(ed, contains, origin, ev))
  {
    if ev.Click? {
      var p := OffsetMouseToCanvas(origin, ev.page);
      match ed.mode
      case Draw =>
        var r := CreateShape(ed, p, ev.tools);
        if ed.newShapeType != "" && !ArcThrows(ed.newShapeType, ev.tools.width) {
          var front := r.shapes[..|ed.shapes|];
          assert r.shapes == front + [Last(r.shapes)];
          forall s | s in r.shapes
            ensures WellFormed(s) && s.kind != ""
          {
            if s != Last(r.shapes) {
              assert s in front;
            }
          }
        }
      case Select =>
        var r := SelectShape(ed, contains, p);
        MultisetMembers(r.shapes, ed.shapes);
      case Delete =>
        var s := SelectShape(ed, contains, p);
        MultisetMembers(s.shapes, ed.shapes);
        var r := DeleteShape(s);
        if s.selected.Some? && |s.shapes| > 0 {
          PrefixMembers(r.shapes, Last(s.shapes), s.shapes);
        }
    }
  }

  /** Every reachable state keeps the invariant. */
  lemma {:induction false} RunConsistent(ed: Editor, contains: Containment, origin: Point, evs: seq<Event>)
    requires Consistent(ed)
    ensures Consistent(Run(ed, contains, origin, evs))
    decreases |evs|
  {
    if |evs| > 0 {
      StepConsistent(ed, contains, origin, evs[0]);
      RunConsistent(Step(ed, contains, origin, evs[0]), contains, origin, evs[1..]);
    }
  }

  /** The corrected click keeps the invariant as well, and never leaves a selection that is not on top. */
  lemma ExclusiveClickConsistent(ed: Editor, contains: Containment, origin: Point, page: Point, tools: ToolInputs)
    requires Consistent(ed)
    ensures var r := ProcessMouseClickExclusive(ed, contains, origin, page, tools);
            && Consistent(r)
            && (ed.mode != Draw ==> r.selected.None? || (|r.shapes| > 0 && r.selected == Some(Last(r.shapes))))
  {
    var p := OffsetMouseToCanvas(origin, page);
    if ed.mode == Draw {
      StepConsistent(ed, contains, origin, Click(page, tools));
    } else {
      var s := SelectShapeExclusive(ed, contains, p);
      MultisetMembers(s.shapes, ed.shapes);
      if ed.mode == Delete && s.selected.Some? {
        PrefixMembers(DeleteShape(s).shapes, Last(s.shapes), s.shapes);
      }
    }
  }

  /** In a consistent state the pop of a deletion removes exactly the selected shape. */
  lemma DeletePopsSelected(ed: Editor)
    requires Consistent(ed) && ed.selected.Some? && |ed.shapes| > 0
    ensures multiset(DeleteShape(ed).shapes) + multiset{ed.selected.value} == multiset(ed.shapes)
  {
    var r := DeleteShape(ed);
    assert r.shapes + [ed.selected.value] == ed.shapes;
  }

  /** No shape of a reachable state has the missing outline of the empty type. */
  lemma ReachableShapesHaveOutlines(contains: Containment, origin: Point, evs: seq<Event>)
    ensures forall s :: s in Run(Initial, contains, origin, evs).shapes ==> s.path != NoPath
  {
    RunConsistent(Initial, contains, origin, evs);
  }

  /** The outline of the 20 by 20 rectangle placed at (50, 50). */
  const ScenarioRect := Rect(40.0, 40.0, 20.0, 20.0)

  /**
   Draw a 20 by 20 rectangle at (50, 50), select it there, then delete it there:
   the selection picks the rectangle without reordering, and the deletion empties the list.
   */
  lemma RectangleScenario(contains: Containment, color: string)
    requires contains(ScenarioRect, 50.0, 50.0)
    ensures var origin := Point(0.0, 0.0);
            var at := Point(50.0, 50.0);
            var click := Click(at, ToolInputs(color, 20.0, Number(20.0)));
            var drawn := Run(Initial, contains, origin, [ChooseTool(RectangleKind), click]);
            var selected := Run(drawn, contains, origin, [SelectPressed, click]);
            var deleted := Run(selected, contains, origin, [DeletePressed, click]);
            && |drawn.shapes| == 1
            && Some(drawn.shapes[0]) == NewShape(RectangleKind, color, 50.0, 50.0, 20.0, Some(20.0))
            && selected.shapes == drawn.shapes
            && selected.selected == Some(drawn.shapes[0])
            && deleted.shapes == []
            && deleted.selected == None
  {
    var origin := Point(0.0, 0.0);
    var at := Point(50.0, 50.0);
    var tools := ToolInputs(color, 20.0, Number(20.0));
    var rect := NewShape(RectangleKind, color, 50.0, 50.0, 20.0, Some(20.0)).value;
    assert rect.path == ScenarioRect;
    var e1 := SetNewShape(Initial, RectangleKind);
    var e2 := ProcessMouseClick(e1, contains, origin, at, tools);
    assert e2.shapes == [rect];
    RunPair(Initial, contains, origin, ChooseTool(RectangleKind), Click(at, tools));
    var e3 := ToggleSelect(e2);
    var e4 := ProcessMouseClick(e3, contains, origin, at, tools);
    SelectHit(e3, contains, OffsetMouseToCanvas(origin, at), 0);
    PromoteLastIsIdentity(e3.shapes);
    assert e4.shapes == [rect] && e4.selected == Some(rect);
    RunPair(e2, contains, origin, SelectPressed, Click(at, tools));
    var e5 := ToggleDelete(e4);
    var e6 := ProcessMouseClick(e5, contains, origin, at, tools);
    DeleteClickHit(e5, contains, origin, at, tools, 0);
    assert e6.shapes == [];
    RunPair(e4, contains, origin, DeletePressed, Click(at, tools));
  }

  lemma RunOne(ed: Editor, contains: Containment, origin: Point, a: Event)
    ensures Run(ed, contains, origin, [a]) == Step(ed, contains, origin, a)
  {
    assert [a][1..] == [];
  }

  /** Choosing the circle tool and clicking twice at (50, 50) stacks the two circles in click order. */
  lemma TwoCirclesDrawn(contains: Containment, first: string, second: string)
    ensures var origin := Point(0.0, 0.0);
            var at := Point(50.0, 50.0);
            var tool := Run(Initial, contains, origin, [ChooseTool(CircleKind)]);
            Run(tool, contains, origin,
                [Click(at, ToolInputs(first, 20.0, Number(20.0))), Click(at, ToolInputs(second, 20.0, Number(20.0)))])
            == Editor([NewShape(CircleKind, first, 50.0, 50.0, 20.0, Some(20.0)).value,
                       NewShape(CircleKind, second, 50.0, 50.0, 20.0, Some(20.0)).value], Draw, CircleKind, None)
  {
    var origin := Point(0.0, 0.0);
    var at := Point(50.0, 50.0);
    var t1 := ToolInputs(first, 20.0, Number(20.0));
    var t2 := ToolInputs(second, 20.0, Number(20.0));
    var e1 := SetNewShape(Initial, CircleKind);
    RunOne(Initial, contains, origin, ChooseTool(CircleKind));
    var c1 := NewShape(CircleKind, first, 50.0, 50.0, 20.0, Some(20.0)).value;
    var c2 := NewShape(CircleKind, second, 50.0, 50.0, 20.0, Some(20.0)).value;
    assert HeightAsWritten(t1.height) == Some(20.0) && HeightAsWritten(t2.height) == Some(20.0);
    var e2 := CreateShape(e1, Point(50.0, 50.0), t1);
    assert Some(Last(e2.shapes)) == Some(c1);
    assert e2.shapes == e2.shapes[..0] + [Last(e2.shapes)];
    assert e2 == Editor([c1], Draw, CircleKind, None);
    var e3 := CreateShape(e2, Point(50.0, 50.0), t2);
    assert Some(Last(e3.shapes)) == Some(c2);
    assert e3.shapes == e3.shapes[..1] + [Last(e3.shapes)];
    assert e3 == Editor([c1, c2], Draw, CircleKind, None);
    RunPair(e1, contains, origin, Click(at, t1), Click(at, t2));
  }

  /**
   Two circles drawn at the same point: a selection click there picks the later one,
   which is already on top, so the order stays.
   */
  lemma OverlappingCirclesScenario(contains: Containment, first: string, second: string)
    requires contains(Arc(50.0, 50.0, 10.0), 50.0, 50.0)
    ensures var origin := Point(0.0, 0.0);
            var at := Point(50.0, 50.0);
            var tool := Run(Initial, contains, origin, [ChooseTool(CircleKind)]);
            var drawn := Run(tool, contains, origin,
                             [Click(at, ToolInputs(first, 20.0, Number(20.0))), Click(at, ToolInputs(second, 20.0, Number(20.0)))]);
            var r := Run(drawn, contains, origin, [SelectPressed, Click(at, ToolInputs(first, 20.0, Number(20.0)))]);
            && |r.shapes| == 2
            && r.shapes[0].color == first && r.shapes[1].color == second
            && r.shapes == drawn.shapes
            && r.selected == Some(r.shapes[1])
  {
    var origin := Point(0.0, 0.0);
    var at := Point(50.0, 50.0);
    var t1 := ToolInputs(first, 20.0, Number(20.0));
    var c1 := NewShape(CircleKind, first, 50.0, 50.0, 20.0, Some(20.0)).value;
    var c2 := NewShape(CircleKind, second, 50.0, 50.0, 20.0, Some(20.0)).value;
    assert c2.path == Arc(50.0, 50.0, 10.0);
    TwoCirclesDrawn(contains, first, second);
    var e3 := Editor([c1, c2], Draw, CircleKind, None);
    var e4 := ToggleSelect(e3);
    SelectHit(e4, contains, OffsetMouseToCanvas(origin, at), 1);
    PromoteLastIsIdentity(e4.shapes);
    RunPair(e3, contains, origin, SelectPressed, Click(at, t1));
  }
}
