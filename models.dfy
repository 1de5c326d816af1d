/** The drawing model the command works against: points, shapes on a canvas,
    and the process-wide count of live vertices. Only the parts the command
    touches are modelled. */
module Models {

  /** A location on the canvas. */
  datatype Point = Point(x: real, y: real)

  /** What a shape is: a free vertex, a pentagon with its five points in
      drawing order, or any other shape the editor can draw. */
  datatype ShapeKind =
    | Vertex(location: Point)
    | Pentagon(points: seq<Point>)
    | OtherShape

  /** A shape object. Shapes are compared by identity: the shape classes are
      not part of this model and are assumed not to override equality. */
  class Shape {
    const kind: ShapeKind

    constructor (kind: ShapeKind)
      ensures this.kind == kind
    {
      this.kind := kind;
    }
  }

  predicate IsVertex(s: Shape) {
    s.kind.Vertex?
  }

  /** The shapes of `shapes` for which `test` gives `keep`, in their order. */
  function Filter(shapes: seq<Shape>, test: Shape -> bool, keep: bool): (r: seq<Shape>)
    ensures |r| <= |shapes|
  {
    if shapes == [] then []
    else (if test(shapes[0]) == keep then [shapes[0]] else []) + Filter(shapes[1..], test, keep)
  }

  /** A shape is kept iff it is on the list and `test` gives `keep` for it. */
  lemma {:induction false} FilterMember(shapes: seq<Shape>, test: Shape -> bool, keep: bool, s: Shape)
    ensures s in Filter(shapes, test, keep) <==> s in shapes && test(s) == keep
  {
    if shapes != [] {
      FilterMember(shapes[1..], test, keep, s);
      assert shapes == [shapes[0]] + shapes[1..];
    }
  }

  /** `shapes.OfType<Vertex>()`. */
  function Vertices(shapes: seq<Shape>): seq<Shape> {
    Filter(shapes, IsVertex, true)
  }

  /** What `RemoveAll(shape => shape is Vertex)` leaves. */
  function WithoutVertices(shapes: seq<Shape>): seq<Shape> {
    Filter(shapes, IsVertex, false)
  }

  /** Filtering distributes over concatenation, so the kept shapes stay in
      their relative order. */
  lemma {:induction false} FilterConcat(a: seq<Shape>, b: seq<Shape>, test: Shape -> bool, keep: bool)
    ensures Filter(a + b, test, keep) == Filter(a, test, keep) + Filter(b, test, keep)
  {
    if a == [] {
      assert a + b == b;
    } else {
      var head := if test(a[0]) == keep then [a[0]] else [];
      assert (a + b)[0] == a[0] && (a + b)[1..] == a[1..] + b;
      FilterConcat(a[1..], b, test, keep);
      calc {
        Filter(a + b, test, keep);
        head + Filter(a[1..] + b, test, keep);
        head + (Filter(a[1..], test, keep) + Filter(b, test, keep));
        (head + Filter(a[1..], test, keep)) + Filter(b, test, keep);
        Filter(a, test, keep) + Filter(b, test, keep);
      }
    }
  }

  /** A sequence whose every shape passes is kept whole. */
  lemma {:induction false} FilterAll(shapes: seq<Shape>, test: Shape -> bool, keep: bool)
    requires forall s :: s in shapes ==> test(s) == keep
    ensures Filter(shapes, test, keep) == shapes
  {
    if shapes != [] {
      FilterAll(shapes[1..], test, keep);
    }
  }

  /** A sequence whose every shape fails is dropped whole. */
  lemma {:induction false} FilterNone(shapes: seq<Shape>, test: Shape -> bool, keep: bool)
    requires forall s :: s in shapes ==> test(s) != keep
    ensures Filter(shapes, test, keep) == []
  {
    if shapes != [] {
      assert shapes[0] in shapes;
      FilterNone(shapes[1..], test, keep);
    }
  }

  /** Every shape at every index is a vertex. */
  ghost predicate AllVertices(shapes: seq<Shape>) {
    forall i :: 0 <= i < |shapes| ==> IsVertex(shapes[i])
  }

  /** What `OfType<Vertex>()` yields holds vertices only. */
  lemma VerticesAreVertices(shapes: seq<Shape>)
    ensures AllVertices(Vertices(shapes))
  {
    var r := Vertices(shapes);
    forall i | 0 <= i < |r| ensures IsVertex(r[i]) {
      FilterMember(shapes, IsVertex, true, r[i]);
    }
  }

  /** Every shape is either a vertex or not: the two filters split the canvas. */
  lemma {:induction false} VerticesSplit(shapes: seq<Shape>)
    ensures |Vertices(shapes)| + |WithoutVertices(shapes)| == |shapes|
  {
    if shapes != [] {
      VerticesSplit(shapes[1..]);
    }
  }

  /** `List<Shape>.Remove(s)`: the first occurrence of `s` taken out, or the
      list unchanged when `s` is absent. */
  function RemoveFirst(shapes: seq<Shape>, s: Shape): (r: seq<Shape>)
    ensures s !in shapes ==> r == shapes
    ensures s in shapes ==> |r| == |shapes| - 1 && multiset(r) == multiset(shapes) - multiset{s}
  {
    if shapes == [] then []
    else
      assert shapes == [shapes[0]] + shapes[1..];
      if shapes[0] == s then shapes[1..]
      else [shapes[0]] + RemoveFirst(shapes[1..], s)
  }

  /** The shape removed is the first occurrence, at some index `i`, and the
      shapes before and after it keep their order. */
  lemma {:induction false} RemoveFirstAt(shapes: seq<Shape>, s: Shape) returns (i: nat)
    requires s in shapes
    ensures i < |shapes| && shapes[i] == s && s !in shapes[..i]
    ensures RemoveFirst(shapes, s) == shapes[..i] + shapes[i + 1..]
  {
    assert shapes == [shapes[0]] + shapes[1..];
    if shapes[0] == s {
      i := 0;
    } else {
      var rest := shapes[1..];
      assert s in rest;
      var j := RemoveFirstAt(rest, s);
      i := j + 1;
      assert shapes[..i] == [shapes[0]] + rest[..j];
      assert shapes[i + 1..] == rest[j + 1..];
    }
  }

  /** Removing a shape that was appended to a list not holding it gives the
      list back. */
  lemma {:induction false} RemoveFirstAppended(shapes: seq<Shape>, s: Shape)
    requires s !in shapes
    ensures RemoveFirst(shapes + [s], s) == shapes
  {
    if shapes != [] {
      assert (shapes + [s])[1..] == shapes[1..] + [s];
      RemoveFirstAppended(shapes[1..], s);
    }
  }

  /** The canvas: its list of shapes, and the counter `Vertex.CountVertices`,
      a static of the vertex type that the command sets. The canvas class
      itself is not part of this model: its methods are assumed to act as the
      list operations of the same names. */
  class Canvas {
    var shapes: seq<Shape>
    var countVertices: int

    method Add(s: Shape)
      modifies this
      ensures shapes == old(shapes) + [s]
      ensures countVertices == old(countVertices)
    {
      shapes := shapes + [s];
    }

    method Remove(s: Shape)
      modifies this
      ensures shapes == RemoveFirst(old(shapes), s)
      ensures countVertices == old(countVertices)
    {
      shapes := RemoveFirst(shapes, s);
    }

    /** Removes every shape that `test` accepts. */
    method RemoveAll(test: Shape -> bool)
      modifies this
      ensures shapes == Filter(old(shapes), test, false)
      ensures countVertices == old(countVertices)
    {
      var all, kept := shapes, [];
      for i := 0 to |all|
        invariant kept == Filter(all[..i], test, false)
        invariant countVertices == old(countVertices)
      {
        FilterConcat(all[..i], [all[i]], test, false);
        assert all[..i + 1] == all[..i] + [all[i]];
        if !test(all[i]) {
          kept := kept + [all[i]];
        }
      }
      assert all[..|all|] == all;
      shapes := kept;
    }
  }
}
