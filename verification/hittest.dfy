/**
 The hit test of the editor: scan the shape list from its end (the topmost shape)
 to its front, and promote the first shape whose outline contains the point to the
 end of the list. Point containment belongs to the rendering surface and is a
 parameter here.
 */
module HitTest {
  import opened Optional
  import opened Shapes

  /** Whether an outline contains the point (x, y), as the drawing surface decides it. */
  type Containment = (Outline, real, real) -> bool

  predicate Hits(contains: Containment, s: Shape, p: Point) {
    contains(s.path, p.x, p.y)
  }

  /** The index of the topmost shape containing `p`, if any. */
  function Topmost(shapes: seq<Shape>, contains: Containment, p: Point): (r: Option<nat>)
    ensures r.Some? ==> r.value < |shapes| && Hits(contains, shapes[r.value], p)
    ensures r.Some? ==> forall j :: r.value < j < |shapes| ==> !Hits(contains, shapes[j], p)
    ensures r.None? <==> forall j :: 0 <= j < |shapes| ==> !Hits(contains, shapes[j], p)
    decreases |shapes|
  {
    if |shapes| == 0 then None
    else if Hits(contains, shapes[|shapes| - 1], p) then Some(|shapes| - 1)
    else Topmost(shapes[..|shapes| - 1], contains, p)
  }

  /** A hit with no hit above it is the one the scan chooses. */
  lemma TopmostIsHighestHit(shapes: seq<Shape>, contains: Containment, p: Point, i: nat)
    requires i < |shapes| && Hits(contains, shapes[i], p)
    requires forall j :: i < j < |shapes| ==> !Hits(contains, shapes[j], p)
    ensures Topmost(shapes, contains, p) == Some(i)
  {
  }

  /** The scanning loop of the source: from the last index down to the first, stop at the first hit. */
  method ScanTopmost(shapes: seq<Shape>, contains: Containment, p: Point) returns (found: bool, i: int)
    ensures found ==> 0 <= i < |shapes| && Hits(contains, shapes[i], p)
    ensures found ==> forall j :: i < j < |shapes| ==> !Hits(contains, shapes[j], p)
    ensures !found ==> forall j :: 0 <= j < |shapes| ==> !Hits(contains, shapes[j], p)
    ensures found <==> Topmost(shapes, contains, p).Some?
    ensures found ==> Topmost(shapes, contains, p) == Some(i)
  {
    i := |shapes| - 1;
    while i >= 0
      invariant -1 <= i < |shapes|
      invariant forall j :: i < j < |shapes| ==> !Hits(contains, shapes[j], p)
      decreases i
    {
      if Hits(contains, shapes[i], p) {
        TopmostIsHighestHit(shapes, contains, p, i);
        return true, i;
      }
      i := i - 1;
    }
    found := false;
  }

  /** The list with the element at index i taken out. */
  function Without(shapes: seq<Shape>, i: nat): (r: seq<Shape>)
    requires i < |shapes|
    ensures |r| == |shapes| - 1
    ensures forall j :: 0 <= j < i ==> r[j] == shapes[j]
    ensures forall j :: i <= j < |r| ==> r[j] == shapes[j + 1]
    ensures multiset(r) + multiset{shapes[i]} == multiset(shapes)
  {
    assert shapes == shapes[..i] + [shapes[i]] + shapes[i + 1..];
    shapes[..i] + shapes[i + 1..]
  }

  /** Splices the element at index i out and re-appends it, making it topmost. */
  function Promote(shapes: seq<Shape>, i: nat): (r: seq<Shape>)
    requires i < |shapes|
    ensures |r| == |shapes|
    ensures r[|r| - 1] == shapes[i]
    ensures r[..|r| - 1] == Without(shapes, i)
    ensures multiset(r) == multiset(shapes)
  {
    var rest := Without(shapes, i);
    assert (rest + [shapes[i]])[..|rest|] == rest;
    rest + [shapes[i]]
  }

  /** Promotion keeps the relative order of every other shape. */
  lemma PromoteKeepsOrder(shapes: seq<Shape>, i: nat, a: nat, b: nat)
    requires i < |shapes| && a < b < |shapes| && a != i && b != i
    ensures var r := Promote(shapes, i);
            exists a', b' :: 0 <= a' < b' < |r| - 1 && r[a'] == shapes[a] && r[b'] == shapes[b]
  {
    var r := Promote(shapes, i);
    var a' := if a < i then a else a - 1;
    var b' := if b < i then b else b - 1;
    assert r[a'] == Without(shapes, i)[a'];
    assert r[b'] == Without(shapes, i)[b'];
  }

  /** Promoting the topmost shape changes nothing. */
  lemma PromoteLastIsIdentity(shapes: seq<Shape>)
    requires |shapes| > 0
    ensures Promote(shapes, |shapes| - 1) == shapes
  {
    var r := Promote(shapes, |shapes| - 1);
    assert forall j :: 0 <= j < |shapes| - 1 ==> r[j] == Without(shapes, |shapes| - 1)[j];
  }
}
