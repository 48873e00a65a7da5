/** One metre square and a run that hovers over it: the smallest analysis there is. */
module Squares {
  import opened Euclid
  import opened Rings
  import opened Coverage
  import opened Services

  /** The unit square with its lower left corner at (o, o). */
  function SquareAt(o: real): Polygon {
    [[Point(o, o), Point(o + 1.0, o), Point(o + 1.0, o + 1.0), Point(o, o + 1.0), Point(o, o)]]
  }

  lemma SquareIsValid(o: real)
    ensures ValidBoundary(SquareAt(o)) && Vertices(SquareAt(o)) != {}
  {
    var ring := SquareAt(o)[0];
    assert ring[0] in Vertices(SquareAt(o)) by { assert SquareAt(o)[0][0] == ring[0]; }
    EdgeSumStep(ring, 0);
    EdgeSumStep(ring, 1);
    EdgeSumStep(ring, 2);
    EdgeSumStep(ring, 3);
    EdgeSumStep(ring, 4);
    assert EdgeSum(ring, 5) == Wedge(ring[0], ring[1]) + Wedge(ring[1], ring[2]) + Wedge(ring[2], ring[3])
                             + Wedge(ring[3], ring[4]) + Wedge(ring[4], ring[0]);
    assert EdgeSum(ring, 5) == 2.0;
    assert SignedArea(ring) == 1.0;
    assert SquareAt(o)[1..] == [];
  }

  lemma SquareIsPolygon(o: real)
    ensures IsPolygon(SquareAt(o))
  {
    SquareIsValid(o);
    hide IsPolygon;
  }

  lemma SquareBounds(o: real)
    ensures Vertices(SquareAt(o)) != {} && Bounds(SquareAt(o)) == Box(o, o, o + 1.0, o + 1.0)
  {
    var s := SquareAt(o);
    assert s[0][0] in Vertices(s) && s[0][2] in Vertices(s);
    BoxUnique(Vertices(s), Bounds(s), Box(o, o, o + 1.0, o + 1.0));
  }

  lemma SquareContains(o: real, p: Point)
    requires o < p.x < o + 1.0 && o < p.y < o + 1.0
    ensures Contains(SquareAt(o), p)
  {
    var ring := SquareAt(o)[0];
    assert Part(0.0, 1.0, p.y - o) == 0.0 && Part(0.0, -1.0, p.y - (o + 1.0)) == 0.0;
    assert !Crosses(ring[1], ring[0], p) && Crosses(ring[2], ring[1], p);
    assert !Crosses(ring[3], ring[2], p) && !Crosses(ring[4], ring[3], p) && !Crosses(ring[0], ring[4], p);
    for k := 2 to 6
      invariant PathParity(ring[..k - 1], p) == (k >= 4)
    {
      assert ring[..k][..k - 1] == ring[..k - 1];
    }
    assert ring[..5] == ring;
  }

  /** One cell of one metre, at the centre of the square. */
  lemma SquareCells(o: real)
    ensures Vertices(SquareAt(o)) != {} && Inside(SquareAt(o), 1.0) == {(0, 0)}
    ensures Centre(Bounds(SquareAt(o)), 1.0, (0, 0)) == Point(o + 0.5, o + 0.5)
  {
    SquareBounds(o);
    SquareContains(o, Point(o + 0.5, o + 0.5));
    var b := Bounds(SquareAt(o));
    assert Columns(b, 1.0) == 1 && Rows(b, 1.0) == 1;
    assert (0, 0) in Inside(SquareAt(o), 1.0);
  }

  const SPOT := Point(0.5, 0.5)

  /** A run that stays at the centre of the first square, with a swath of two metres. */
  const HOVER := [Track([[SPOT, SPOT]], 2.0)]

  lemma HoverCovers(o: real)
    requires o == 0.0 || o >= 100.0
    ensures Passes(Point(o + 0.5, o + 0.5), HOVER) == if o == 0.0 then 1 else 0
  {
    var p := Point(o + 0.5, o + 0.5);
    assert HOVER[..0] == [];
    var line := HOVER[0].lines[0];
    assert Project(p, line[0], line[1]) == SPOT;
    assert Dist2(p, SPOT) == o * o + o * o;
    if o >= 100.0 {
      var _ := Product(o - 100.0, o + 100.0);
      assert (o - 100.0) * (o + 100.0) == o * o - 10000.0;
      assert !NearSegment(p, line[0], line[1], 1.0);
    } else {
      assert NearSegment(p, line[0], line[1], 1.0);
      assert LineNear(p, line, 1.0);
      assert Covers(HOVER[0], p);
    }
  }

  lemma SquareCovered(o: real)
    requires o == 0.0 || o >= 100.0
    ensures Vertices(SquareAt(o)) != {}
    ensures PassedAtLeast(SquareAt(o), HOVER, 1.0, 1) == if o == 0.0 then {(0, 0)} else {}
  {
    hide Inside, Passes, Bounds, Vertices, Centre;
    SquareCells(o);
    HoverCovers(o);
  }

  lemma SquareRatio(o: real)
    requires o == 0.0 || o >= 100.0
    ensures Vertices(SquareAt(o)) != {} && Assess(SquareAt(o), HOVER, 1.0).Ok?
    ensures Assess(SquareAt(o), HOVER, 1.0).value.coverageRatio == if o == 0.0 then 1.0 else 0.0
  {
    hide PassedAtLeast, GapBox, GapArtifacts, Inside, Area, Bounds, Vertices, SquareAt, Centre;
    SquareBounds(o);
    SquareCells(o);
    SquareCovered(o);
    assert Columns(Bounds(SquareAt(o)), 1.0) == 1 && Rows(Bounds(SquareAt(o)), 1.0) == 1;
  }
}
