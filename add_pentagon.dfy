/** The undoable "add pentagon" command: Execute replaces the five vertices
    on the canvas by one pentagon through them, UnExecute takes the pentagon
    away and puts vertices back. */
module AddPentagonCommand {
  import opened Models
  import opened Permutations
  import opened CycleOrdering
  import opened ArraySort

  /** The locations of the given vertices, in the same order. */
  function Locations(vertices: seq<Shape>): (r: seq<Point>)
    requires AllVertices(vertices)
    ensures |r| == |vertices|
  {
    seq(|vertices|, i requires 0 <= i < |vertices| => vertices[i].kind.location)
  }

  /** What constructing the command gives: the command, or the
      `ArgumentNullException` thrown for a missing canvas, with the
      parameter name its one-string constructor receives. */
  datatype Construction = Created(command: AddPentagon) | ArgumentNull(paramName: string)

  class AddPentagon {
    /** The command's label, `Name`. */
    const Name: string := "Pentagon added"

    const canvas: Canvas
    /** The vertices captured by the first Execute, in canvas order; empty
        (null in the C# command) before it. */
    var arrUnsortedVertices: seq<Shape>
    var pentagon: Shape?
    /** null until the first Execute; the cache that tells Execute whether
        the ordering has been computed. */
    var arrSortedIndices: array?<int>

    /** Between calls the key array has been sorted back to 0..4 by
        `Array.Sort`, five vertices are held and the pentagon exists. */
    ghost predicate Valid()
      reads this, arrSortedIndices
    {
      arrSortedIndices != null ==>
        && arrSortedIndices.Length == CountVertex
        && (forall i :: 0 <= i < CountVertex ==> arrSortedIndices[i] == i)
        && |arrUnsortedVertices| == CountVertex
        && AllVertices(arrUnsortedVertices)
        && pentagon != null && pentagon.kind.Pentagon?
    }

    constructor (canvas: Canvas)
      ensures this.canvas == canvas
      ensures arrSortedIndices == null && pentagon == null && arrUnsortedVertices == []
      ensures Valid()
    {
      this.canvas := canvas;
      arrUnsortedVertices := [];
      pentagon := null;
      arrSortedIndices := null;
    }

    /** `new AddPentagon(canvas)`, including the null check that throws. */
    static method Create(canvas: Canvas?) returns (r: Construction)
      ensures canvas == null ==> r == ArgumentNull("Canvas is null.")
      ensures canvas != null ==> r.Created? && fresh(r.command) && r.command.canvas == canvas
      ensures canvas != null ==> r.command.arrSortedIndices == null && r.command.Valid()
      ensures canvas != null ==> r.command.Name == "Pentagon added"
    {
      if canvas == null {
        return ArgumentNull("Canvas is null.");
      }
      var command := new AddPentagon(canvas);
      r := Created(command);
    }

    /** Computes the ordering and stores it, as a fresh array, in the cache field. */
    method SortIndicesForVertices(dist: Metric, arrVertices: seq<Point>)
      requires |arrVertices| == CountVertex
      modifies this
      ensures arrSortedIndices != null && fresh(arrSortedIndices)
      ensures arrSortedIndices[..] == MinimalOrdering(dist, arrVertices)
      ensures arrUnsortedVertices == old(arrUnsortedVertices) && pentagon == old(pentagon)
    {
      var _, order := SelectOrdering(dist, arrVertices);
      arrSortedIndices := new int[|order|](i requires 0 <= i < |order| => order[i]);
      assert arrSortedIndices[..] == order;
    }

    /** The capture step of Execute: on the first call, capture the canvas
        vertices in canvas order and compute the ordering from their locations. */
    method CaptureVertices(dist: Metric)
      requires arrSortedIndices == null && |Vertices(canvas.shapes)| == CountVertex
      modifies this
      ensures arrUnsortedVertices == Vertices(canvas.shapes)
      ensures |arrUnsortedVertices| == CountVertex && AllVertices(arrUnsortedVertices)
      ensures arrSortedIndices != null && fresh(arrSortedIndices)
      ensures arrSortedIndices[..] == MinimalOrdering(dist, Locations(arrUnsortedVertices))
      ensures IsOrdering(arrSortedIndices[..])
      ensures pentagon == old(pentagon)
    {
      arrUnsortedVertices := Vertices(canvas.shapes);
      VerticesAreVertices(canvas.shapes);
      SortIndicesForVertices(dist, Locations(arrUnsortedVertices));
    }

    /** The build step of Execute: the captured locations, reordered by
        `Array.Sort(arrSortedIndices, arrPoints)`, become a new pentagon. */
    method BuildPentagon() returns (built: Shape)
      requires arrSortedIndices != null && IsOrdering(arrSortedIndices[..])
      requires |arrUnsortedVertices| == CountVertex && AllVertices(arrUnsortedVertices)
      modifies arrSortedIndices
      ensures fresh(built) && built.kind.Pentagon? && |built.kind.points| == CountVertex
      ensures forall i :: 0 <= i < CountVertex ==>
        built.kind.points[old(arrSortedIndices[i])] == Locations(arrUnsortedVertices)[i]
      ensures forall i :: 0 <= i < CountVertex ==> arrSortedIndices[i] == i
    {
      var locations := Locations(arrUnsortedVertices);
      var arrPoints := new Point[|locations|](i requires 0 <= i < |locations| => locations[i]);
      ghost var keys := arrSortedIndices[..];
      SortKeysAndItems(arrSortedIndices, arrPoints);
      assert forall i :: 0 <= i < CountVertex ==> arrPoints[keys[i]] == locations[i];
      built := new Shape(Pentagon(arrPoints[..]));
    }

    /** Adds the pentagon. The first call captures the canvas vertices and
        computes the ordering; later calls reuse both. */
    method Execute(dist: Metric)
      requires Valid()
      requires arrSortedIndices == null ==> |Vertices(canvas.shapes)| == CountVertex
      modifies this, canvas, arrSortedIndices
      ensures Valid() && arrSortedIndices != null
      // what is captured, and when
      ensures old(arrSortedIndices) == null ==>
        fresh(arrSortedIndices) && arrUnsortedVertices == Vertices(old(canvas.shapes))
      ensures old(arrSortedIndices) != null ==>
        arrSortedIndices == old(arrSortedIndices) && arrUnsortedVertices == old(arrUnsortedVertices)
      // the pentagon built
      ensures fresh(pentagon) && pentagon.kind.Pentagon? && |pentagon.kind.points| == CountVertex
      ensures old(arrSortedIndices) == null ==>
        var locations := Locations(arrUnsortedVertices);
        var p := MinimalOrdering(dist, locations);
        forall i :: 0 <= i < CountVertex ==> pentagon.kind.points[p[i]] == locations[i]
      ensures old(arrSortedIndices) != null ==> pentagon.kind.points == Locations(arrUnsortedVertices)
      // the canvas
      ensures canvas.shapes == WithoutVertices(old(canvas.shapes)) + [pentagon]
      ensures pentagon !in old(canvas.shapes)
      ensures canvas.countVertices == 0
    {
      if arrSortedIndices == null {
        CaptureVertices(dist);
      } else {
        assert arrSortedIndices[..] == Identity(CountVertex);
        assert IsOrdering(arrSortedIndices[..]);
      }
      ghost var keys := arrSortedIndices[..];
      var built := BuildPentagon();
      assert forall i :: 0 <= i < CountVertex ==> built.kind.points[keys[i]] == Locations(arrUnsortedVertices)[i];
      pentagon := built;
      canvas.RemoveAll(IsVertex);
      canvas.countVertices := 0;
      canvas.Add(pentagon);
    }

    /** Takes the pentagon away and adds back the first COUNT_VERTEX - 1
        captured vertices, setting the vertex count to COUNT_VERTEX - 1. */
    method UnExecute()
      requires Valid() && arrSortedIndices != null
      modifies canvas
      ensures canvas.shapes == RemoveFirst(old(canvas.shapes), pentagon) + arrUnsortedVertices[..CountVertex - 1]
      ensures canvas.countVertices == CountVertex - 1
      ensures Valid()
    {
      canvas.Remove(pentagon);
      for i := 0 to CountVertex - 1
        invariant canvas.shapes == RemoveFirst(old(canvas.shapes), pentagon) + arrUnsortedVertices[..i]
      {
        assert arrUnsortedVertices[..i + 1] == arrUnsortedVertices[..i] + [arrUnsortedVertices[i]];
        canvas.Add(arrUnsortedVertices[i]);
      }
      canvas.countVertices := CountVertex - 1;
    }
  }

  /** Execute followed by UnExecute on a fresh command: the canvas keeps its
      other shapes in order, followed by the first four of its five vertices. */
  method ExecuteThenUnExecute(command: AddPentagon, dist: Metric)
    requires command.Valid() && command.arrSortedIndices == null
    requires |Vertices(command.canvas.shapes)| == CountVertex
    modifies command, command.canvas
    ensures command.canvas.shapes ==
      WithoutVertices(old(command.canvas.shapes)) + Vertices(old(command.canvas.shapes))[..CountVertex - 1]
    ensures command.canvas.countVertices == CountVertex - 1
  {
    ghost var before := command.canvas.shapes;
    command.Execute(dist);
    FilterMember(before, IsVertex, false, command.pentagon);
    RemoveFirstAppended(WithoutVertices(before), command.pentagon);
    command.UnExecute();
  }

  /** After that round trip the fifth captured vertex is gone from the canvas
      and only four vertices remain. */
  lemma RoundTripLosesFifthVertex(shapes: seq<Shape>)
    requires |Vertices(shapes)| == CountVertex && Distinct(Vertices(shapes))
    ensures var after := WithoutVertices(shapes) + Vertices(shapes)[..CountVertex - 1];
      && Vertices(after) == Vertices(shapes)[..CountVertex - 1]
      && Vertices(shapes)[CountVertex - 1] !in after
      && WithoutVertices(after) == WithoutVertices(shapes)
  {
    var vs := Vertices(shapes);
    var others := WithoutVertices(shapes);
    var restored := vs[..CountVertex - 1];
    var fifth := vs[CountVertex - 1];
    var after := others + restored;
    forall s | s in restored ensures IsVertex(s) {
      var i :| 0 <= i < |restored| && restored[i] == s;
      assert vs[i] == s;
      FilterMember(shapes, IsVertex, true, s);
    }
    forall s | s in others ensures !IsVertex(s) {
      FilterMember(shapes, IsVertex, false, s);
    }
    FilterConcat(others, restored, IsVertex, true);
    FilterConcat(others, restored, IsVertex, false);
    FilterNone(others, IsVertex, true);
    FilterAll(restored, IsVertex, true);
    FilterNone(restored, IsVertex, false);
    FilterAll(others, IsVertex, false);
    assert [] + restored == restored && others + [] == others;
    FilterMember(shapes, IsVertex, false, fifth);
    assert fifth in vs;
    FilterMember(shapes, IsVertex, true, fifth);
    assert fifth !in restored by {
      forall i | 0 <= i < |restored| ensures restored[i] != fifth {
        assert restored[i] == vs[i];
      }
    }
  }

  /** The pentagon is filled through the inverse of the chosen ordering. The
      requires is the placement Execute ensures on its first call, taken for
      the ordering 0, 2, 3, 1, 4: the points come out as those of vertices
      0, 3, 1, 2, 4, not in the visiting order 0, 2, 3, 1, 4. */
  lemma InversePlacementExample(locations: seq<Point>, points: seq<Point>)
    requires |locations| == CountVertex && Distinct(locations) && |points| == CountVertex
    requires var p := [0, 2, 3, 1, 4];
      forall i :: 0 <= i < CountVertex ==> points[p[i]] == locations[i]
    ensures points == [locations[0], locations[3], locations[1], locations[2], locations[4]]
    ensures points != [locations[0], locations[2], locations[3], locations[1], locations[4]]
  {
    var p := [0, 2, 3, 1, 4];
    assert points[p[0]] == locations[0] && points[p[1]] == locations[1] && points[p[2]] == locations[2];
    assert points[p[3]] == locations[3] && points[p[4]] == locations[4];
    assert locations[1] != locations[2];
  }
}
