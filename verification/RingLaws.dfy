/** What containment and area mean: exactly the inside of a triangle, to which chords reduce every
    ring, and what is left beside the holes. */
module RingLaws {
  import opened Euclid
  import opened Rings

  /** Twice the signed area of a triangle; positive when p lies left of the way from a to b. */
  function Turn(a: Point, b: Point, p: Point): real {
    (b.x - a.x) * (p.y - a.y) - (b.y - a.y) * (p.x - a.x)
  }

  /** An edge is crossed exactly when p lies left of it, taken upwards. */
  lemma CrossesBySide(a: Point, b: Point, p: Point)
    requires Straddles(a, b, p)
    ensures Crosses(a, b, p) <==> if a.y < b.y then Turn(a, b, p) > 0.0 else Turn(a, b, p) < 0.0
  {
    var w, h, d := b.x - a.x, b.y - a.y, p.y - a.y;
    var part := Part(w, h, d);
    Quotient(w * d, h);
    LeftOf(h, part - (p.x - a.x));
    assert h * (part - (p.x - a.x)) == w * d - h * (p.x - a.x);
  }

  lemma LeftOf(h: real, e: real)
    ensures h > 0.0 ==> (h * e > 0.0 <==> e > 0.0)
    ensures h < 0.0 ==> (h * e < 0.0 <==> e > 0.0)
  {
    var pos := Product(h, e);
    var neg := Product(-h, e);
    var posBack := Product(h, -e);
    var negBack := Product(-h, -e);
    assert neg == -(h * e) && posBack == -(h * e) && negBack == h * e;
  }

  // ----- triangles

  /** Whether an edge between heights y1 and y2, p being at height zero on its side s, is crossed. */
  predicate CrossedAt(y1: real, y2: real, s: real) {
    (y1 > 0.0) != (y2 > 0.0) && (if y1 < y2 then s > 0.0 else s < 0.0)
  }

  predicate Odd(x: bool, y: bool, z: bool) { x != (y != z) }

  lemma EdgeCrossed(a: Point, b: Point, p: Point)
    ensures Crosses(a, b, p) <==> CrossedAt(a.y - p.y, b.y - p.y, Turn(a, b, p))
  {
    if Straddles(a, b, p) {
      CrossesBySide(a, b, p);
    }
  }

  lemma TriangleParity(a: Point, b: Point, c: Point, p: Point)
    ensures Encloses([a, b, c], p) == Odd(Crosses(a, b, p), Crosses(b, c, p), Crosses(c, a, p))
  {
    var ring := [a, b, c];
    CrossesSymmetric(a, b, p);
    CrossesSymmetric(b, c, p);
    CrossesSymmetric(c, a, p);
    assert ring[..2] == [a, b] && ring[..2][..1] == [a];
    assert PathParity([a, b], p) == Crosses(b, a, p);
  }

  /** The sides on which p lies weigh the corners so that they balance at p. */
  lemma Balance(a: Point, b: Point, c: Point, p: Point)
    ensures Turn(b, c, p) + Turn(c, a, p) + Turn(a, b, p) == Turn(a, b, c)
    ensures Turn(b, c, p) * (a.y - p.y) + Turn(c, a, p) * (b.y - p.y) + Turn(a, b, p) * (c.y - p.y) == 0.0
  {
    var u, v, w := Point(a.x - p.x, a.y - p.y), Point(b.x - p.x, b.y - p.y), Point(c.x - p.x, c.y - p.y);
    FromCorner(a, b, p);
    FromCorner(b, c, p);
    FromCorner(c, a, p);
    assert Wedge(v, w) * u.y + Wedge(w, u) * v.y + Wedge(u, v) * w.y == 0.0;
    assert Turn(a, b, c) == (v.x - u.x) * (w.y - u.y) - (v.y - u.y) * (w.x - u.x);
  }

  lemma FromCorner(a: Point, b: Point, p: Point)
    ensures Turn(a, b, p) == Wedge(Point(a.x - p.x, a.y - p.y), Point(b.x - p.x, b.y - p.y))
  {
  }

  /** One corner on the one side of the height of p, two on the other. */
  lemma OneApart(ya: real, yb: real, yc: real, sa: real, sb: real, sc: real)
    requires sa * ya + sb * yb + sc * yc == 0.0 && sa + sb + sc > 0.0
    requires (ya > 0.0 && yb <= 0.0 && yc <= 0.0) || (ya <= 0.0 && yb > 0.0 && yc > 0.0)
    ensures sa > 0.0 && sb > 0.0 && sc > 0.0 ==> Odd(CrossedAt(ya, yb, sc), CrossedAt(yb, yc, sa), CrossedAt(yc, ya, sb))
    ensures sa < 0.0 || sb < 0.0 || sc < 0.0 ==> !Odd(CrossedAt(ya, yb, sc), CrossedAt(yb, yc, sa), CrossedAt(yc, ya, sb))
  {
    if sb > 0.0 && sc > 0.0 && sa < 0.0 {
      Signs(sa, ya);
      Signs(sb, yb);
      Signs(sc, yc);
      assert false;
    }
    if sb <= 0.0 && sc <= 0.0 && (sb < 0.0 || sc < 0.0) {
      Signs(sa, ya);
      Signs(sb, yb);
      Signs(sc, yc);
      assert false;
    }
  }

  /** With p on one side of all three, all corners cannot be on one side of the height of p. */
  lemma NoneApart(ya: real, yb: real, yc: real, sa: real, sb: real, sc: real)
    requires sa * ya + sb * yb + sc * yc == 0.0 && !(ya == 0.0 && yb == 0.0 && yc == 0.0)
    requires (ya > 0.0) == (yb > 0.0) && (yb > 0.0) == (yc > 0.0)
    ensures !(sa > 0.0 && sb > 0.0 && sc > 0.0)
  {
    Signs(sa, ya);
    Signs(sb, yb);
    Signs(sc, yc);
  }

  lemma Signs(s: real, y: real)
    ensures s > 0.0 && y > 0.0 ==> s * y > 0.0
    ensures s > 0.0 && y <= 0.0 ==> s * y <= 0.0
    ensures s > 0.0 && y < 0.0 ==> s * y < 0.0
    ensures s <= 0.0 && y > 0.0 ==> s * y <= 0.0
    ensures s <= 0.0 && y <= 0.0 ==> s * y >= 0.0
    ensures s < 0.0 && y < 0.0 ==> s * y > 0.0
    ensures s < 0.0 && y > 0.0 ==> s * y < 0.0
  {
    var pp := Product(s, y);
    var pn := Product(s, -y);
    var np := Product(-s, y);
    var nn := Product(-s, -y);
    assert pn == -pp && np == -pp && nn == pp;
  }

  /** A point strictly left of all three sides of a triangle is enclosed; one right of some side is not. */
  lemma LeftTriangle(a: Point, b: Point, c: Point, p: Point)
    requires Turn(a, b, c) > 0.0
    ensures Turn(a, b, p) > 0.0 && Turn(b, c, p) > 0.0 && Turn(c, a, p) > 0.0 ==> Encloses([a, b, c], p)
    ensures Turn(a, b, p) < 0.0 || Turn(b, c, p) < 0.0 || Turn(c, a, p) < 0.0 ==> !Encloses([a, b, c], p)
  {
    var ya, yb, yc := a.y - p.y, b.y - p.y, c.y - p.y;
    var sa, sb, sc := Turn(b, c, p), Turn(c, a, p), Turn(a, b, p);
    TriangleParity(a, b, c, p);
    Balance(a, b, c, p);
    EdgeCrossed(a, b, p);
    EdgeCrossed(b, c, p);
    EdgeCrossed(c, a, p);
    NotFlat(a, b, c);
    assert !(ya == 0.0 && yb == 0.0 && yc == 0.0);
    hide Turn, Encloses, Crosses;
    if (ya > 0.0) == (yb > 0.0) && (yb > 0.0) == (yc > 0.0) {
      NoneApart(ya, yb, yc, sa, sb, sc);
    } else if (yb > 0.0) == (yc > 0.0) {
      OneApart(ya, yb, yc, sa, sb, sc);
    } else if (yc > 0.0) == (ya > 0.0) {
      OneApart(yb, yc, ya, sb, sc, sa);
    } else {
      OneApart(yc, ya, yb, sc, sa, sb);
    }
  }

  lemma NotFlat(a: Point, b: Point, c: Point)
    requires Turn(a, b, c) > 0.0
    ensures !(a.y == b.y && b.y == c.y)
  {
  }

  /** p lies strictly on one and the same side of all three sides. */
  predicate WithinSides(a: Point, b: Point, c: Point, p: Point) {
    || (Turn(a, b, p) > 0.0 && Turn(b, c, p) > 0.0 && Turn(c, a, p) > 0.0)
    || (Turn(a, b, p) < 0.0 && Turn(b, c, p) < 0.0 && Turn(c, a, p) < 0.0)
  }

  /** p lies strictly on different sides of two of them. */
  predicate BeyondSides(a: Point, b: Point, c: Point, p: Point) {
    && (Turn(a, b, p) > 0.0 || Turn(b, c, p) > 0.0 || Turn(c, a, p) > 0.0)
    && (Turn(a, b, p) < 0.0 || Turn(b, c, p) < 0.0 || Turn(c, a, p) < 0.0)
  }

  /** A triangle, in whatever direction, encloses every point strictly on one side of all its sides,
      and none that lies on different sides of two; its signed area is half its turn. */
  lemma TriangleEncloses(a: Point, b: Point, c: Point, p: Point)
    requires Turn(a, b, c) != 0.0
    ensures WithinSides(a, b, c, p) ==> Encloses([a, b, c], p)
    ensures BeyondSides(a, b, c, p) ==> !Encloses([a, b, c], p)
    ensures SignedArea([a, b, c]) == Turn(a, b, c) / 2.0
  {
    TriangleArea(a, b, c);
    Balance(a, b, c, p);
    if Turn(a, b, c) > 0.0 {
      LeftTriangle(a, b, c, p);
    } else {
      OtherWay(a, b, c);
      OtherWay(a, b, p);
      OtherWay(b, c, p);
      OtherWay(c, a, p);
      LeftTriangle(c, b, a, p);
      ReverseRing([a, b, c], p);
      ReverseThree(a, b, c);
    }
  }

  lemma ReverseThree(a: Point, b: Point, c: Point)
    ensures Reverse([a, b, c]) == [c, b, a]
  {
    assert [a, b, c][..2] == [a, b] && [a, b][..1] == [a] && [a][..0] == [];
    assert Reverse([a]) == [a] + Reverse([a][..0]);
    assert Reverse([a, b]) == [b] + Reverse([a, b][..1]);
    assert Reverse([a, b, c]) == [c] + Reverse([a, b, c][..2]);
  }

  lemma OtherWay(a: Point, b: Point, c: Point)
    ensures Turn(b, a, c) == -Turn(a, b, c) && Turn(c, b, a) == -Turn(a, b, c)
  {
  }

  lemma TriangleArea(a: Point, b: Point, c: Point)
    ensures SignedArea([a, b, c]) == Turn(a, b, c) / 2.0
  {
    var ring := [a, b, c];
    assert ring[..2] == [a, b] && [a, b][..1] == [a];
    assert Shoelace([a, b]) == Wedge(a, b);
    assert Shoelace(ring) == Wedge(a, b) + Wedge(b, c);
  }

  // ----- holes

  /** One more hole takes out what it encloses, and its area, as far as there is any left. */
  lemma AddHole(polygon: Polygon, hole: Ring, p: Point)
    requires |polygon| > 0
    ensures Contains(polygon + [hole], p) <==> Contains(polygon, p) && !Encloses(hole, p)
    ensures Area(polygon + [hole]) == Max(Area(polygon) - Abs(SignedArea(hole)), 0.0)
  {
    hide Encloses, SignedArea;
    var more := polygon + [hole];
    var n := |polygon|;
    assert more[0] == polygon[0] && more[n] == hole;
    forall h | 1 <= h < n ensures more[h] == polygon[h] { }
    var holes := more[1..];
    assert holes == polygon[1..] + [hole];
    assert holes[..|holes| - 1] == polygon[1..];
    assert HoleArea(holes) == HoleArea(polygon[1..]) + Abs(SignedArea(hole));
  }

  /** A hole along one side of a chord leaves the other side. */
  lemma HoleByChord(ring: Ring, i: nat, j: nat, p: Point)
    requires i < j < |ring|
    ensures var one, two := ring[i..j + 1], ring[j..] + ring[..i + 1];
            && (Contains([ring, one], p) <==> Encloses(two, p) && !Encloses(one, p))
            && (SignedArea(one) >= 0.0 && SignedArea(two) >= 0.0 ==> Area([ring, one]) == SignedArea(two))
  {
    SplitByChord(ring, i, j, p);
    hide Encloses, SignedArea;
    var one := ring[i..j + 1];
    assert [ring, one] == [ring] + [one];
    AddHole([ring], one, p);
    assert [ring][1..] == [];
  }
}
