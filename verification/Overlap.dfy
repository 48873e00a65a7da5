/** The swath raster of a replay: which samples visit which cell, and how often a cell is
    visited again. */
module Overlap {
  import opened Euclid
  import opened Options

  datatype Flag = Dropout | Accuracy | Repeated

  // ----- one sample's footprint

  function CellCentre(c: Cell, res: real): Point {
    Point((c.0 as real + 0.5) * res, (c.1 as real + 0.5) * res)
  }

  /** The cell centre is within the swath radius of the sample. */
  predicate Reaches(p: Point, c: Cell, radius: real, res: real) {
    Within(CellCentre(c, res), p, radius)
  }

  function CellIndex(v: real, res: real): int
    requires res > 0.0
  {
    (v / res).Floor
  }

  function CellOf(p: Point, res: real): Cell
    requires res > 0.0
  {
    (CellIndex(p.x, res), CellIndex(p.y, res))
  }

  predicate InFootprintBox(p: Point, c: Cell, radius: real, res: real)
    requires res > 0.0
  {
    && CellIndex(p.x - radius, res) <= c.0 <= CellIndex(p.x + radius, res)
    && CellIndex(p.y - radius, res) <= c.1 <= CellIndex(p.y + radius, res)
  }

  ghost function Reached(p: Point, radius: real, res: real): set<Cell>
    requires res > 0.0
  {
    set cx, cy | CellIndex(p.x - radius, res) <= cx <= CellIndex(p.x + radius, res)
                 && CellIndex(p.y - radius, res) <= cy <= CellIndex(p.y + radius, res)
                 && Reaches(p, (cx, cy), radius, res) :: (cx, cy)
  }

  lemma AxisIndex(c: int, v: real, radius: real, res: real)
    requires res > 0.0
    requires v - radius <= (c as real + 0.5) * res <= v + radius
    ensures CellIndex(v - radius, res) <= c <= CellIndex(v + radius, res)
  {
    var low, high := (v - radius) / res, (v + radius) / res;
    Quotient(v - radius, res);
    Quotient(v + radius, res);
    if c as real + 0.5 < low { var _ := Product(low - (c as real + 0.5), res); }
    if c as real + 0.5 > high { var _ := Product(c as real + 0.5 - high, res); }
  }

  /** The bounding box of whole cells misses no cell the sample reaches. */
  lemma BoxMissesNone(p: Point, c: Cell, radius: real, res: real)
    requires res > 0.0 && Reaches(p, c, radius, res)
    ensures InFootprintBox(p, c, radius, res) && c in Reached(p, radius, res)
  {
    WithinAxes(CellCentre(c, res), p, radius);
    AxisIndex(c.0, p.x, radius, res);
    AxisIndex(c.1, p.y, radius, res);
    assert c == (c.0, c.1);
  }

  // ----- the visit lists

  /** The samples that reach a cell, in order. */
  ghost function Visits(points: seq<Point>, c: Cell, radius: real, res: real): seq<nat> {
    if |points| == 0 then []
    else
      var n := |points| - 1;
      Visits(points[..n], c, radius, res) + if Reaches(points[n], c, radius, res) then [n] else []
  }

  lemma {:induction false} VisitsMember(points: seq<Point>, c: Cell, radius: real, res: real, i: nat)
    ensures i in Visits(points, c, radius, res) <==> i < |points| && Reaches(points[i], c, radius, res)
  {
    if |points| > 0 {
      VisitsMember(points[..|points| - 1], c, radius, res, i);
    }
  }

  predicate Increasing(v: seq<nat>) {
    forall j, k :: 0 <= j < k < |v| ==> v[j] < v[k]
  }

  lemma {:induction false} VisitsIncreasing(points: seq<Point>, c: Cell, radius: real, res: real)
    ensures Increasing(Visits(points, c, radius, res))
    ensures forall k :: 0 <= k < |Visits(points, c, radius, res)| ==> Visits(points, c, radius, res)[k] < |points|
  {
    if |points| > 0 {
      VisitsIncreasing(points[..|points| - 1], c, radius, res);
    }
  }

  /** The list is strictly increasing and holds exactly the samples within radius of the centre. */
  lemma VisitsMeaning(points: seq<Point>, c: Cell, radius: real, res: real)
    ensures Increasing(Visits(points, c, radius, res))
    ensures forall i: nat :: i in Visits(points, c, radius, res)
                        <==> i < |points| && Reaches(points[i], c, radius, res)
  {
    VisitsIncreasing(points, c, radius, res);
    forall i: nat
      ensures i in Visits(points, c, radius, res) <==> i < |points| && Reaches(points[i], c, radius, res)
    {
      VisitsMember(points, c, radius, res, i);
    }
  }

  /** Every cell some sample reaches. */
  ghost function Touched(points: seq<Point>, radius: real, res: real): set<Cell>
    requires res > 0.0
  {
    if |points| == 0 then {}
    else Touched(points[..|points| - 1], radius, res) + Reached(points[|points| - 1], radius, res)
  }

  lemma {:induction false} TouchedMeaning(points: seq<Point>, c: Cell, radius: real, res: real)
    requires res > 0.0
    ensures c in Touched(points, radius, res) <==> Visits(points, c, radius, res) != []
  {
    if |points| > 0 {
      var n := |points| - 1;
      TouchedMeaning(points[..n], c, radius, res);
      if Reaches(points[n], c, radius, res) {
        BoxMissesNone(points[n], c, radius, res);
      }
    }
  }

  type Index = map<Cell, seq<nat>>

  /** The index lists, for every cell reached and for no other, exactly its visits. */
  ghost predicate IsIndex(index: Index, points: seq<Point>, radius: real, res: real)
    requires res > 0.0
  {
    && index.Keys == Touched(points, radius, res)
    && forall c :: c in index ==> index[c] == Visits(points, c, radius, res)
  }

  /** How many cells the bounding box of one sample holds. */
  function StampWork(p: Point, radius: real, res: real): int
    requires res > 0.0
  {
    (CellIndex(p.x + radius, res) - CellIndex(p.x - radius, res) + 1)
    * (CellIndex(p.y + radius, res) - CellIndex(p.y - radius, res) + 1)
  }

  ghost function Scope(p: Point, radius: real, res: real, cx: int, cy: int): set<Cell>
    requires res > 0.0
  {
    set c | c in Reached(p, radius, res) && (c.0 < cx || (c.0 == cx && c.1 < cy))
  }

  function VisitsIn(index: Index, c: Cell): seq<nat> {
    if c in index then index[c] else []
  }

  ghost predicate Stamped(before: Index, after: Index, cells: set<Cell>, sample: nat) {
    && after.Keys == before.Keys + cells
    && forall c :: c in after ==> after[c] == VisitsIn(before, c) + if c in cells then [sample] else []
  }

  lemma StampCell(before: Index, index: Index, p: Point, radius: real, res: real, cx: int, cy: int, sample: nat)
    requires res > 0.0 && InFootprintBox(p, (cx, cy), radius, res)
    requires Stamped(before, index, Scope(p, radius, res, cx, cy), sample)
    ensures Stamped(before,
                    if Reaches(p, (cx, cy), radius, res) then index[(cx, cy) := VisitsIn(index, (cx, cy)) + [sample]]
                    else index,
                    Scope(p, radius, res, cx, cy + 1), sample)
  {
    var c := (cx, cy);
    var old', new' := Scope(p, radius, res, cx, cy), Scope(p, radius, res, cx, cy + 1);
    assert c !in old';
    if Reaches(p, c, radius, res) {
      assert c in Reached(p, radius, res);
      assert new' == old' + {c};
    } else {
      assert c !in Reached(p, radius, res);
      assert new' == old';
    }
  }

  method StampColumn(ghost before: Index, index: Index, p: Point, radius: real, res: real, sample: nat, cx: int)
    returns (after: Index, ghost tests: int)
    requires res > 0.0 && radius >= 0.0
    requires CellIndex(p.x - radius, res) <= cx <= CellIndex(p.x + radius, res)
    requires Stamped(before, index, Scope(p, radius, res, cx, CellIndex(p.y - radius, res)), sample)
    ensures Stamped(before, after, Scope(p, radius, res, cx + 1, CellIndex(p.y - radius, res)), sample)
    ensures tests == CellIndex(p.y + radius, res) - CellIndex(p.y - radius, res) + 1
  {
    hide Within, Dist2, CellIndex, Scope, Stamped;
    after, tests := index, 0;
    var minY, maxY := CellIndex(p.y - radius, res), CellIndex(p.y + radius, res);
    AxisWidth(p.y, radius, res);
    var cy := minY;
    while cy <= maxY
      invariant minY <= cy <= maxY + 1
      invariant Stamped(before, after, Scope(p, radius, res, cx, cy), sample)
      invariant tests == cy - minY
    {
      StampCell(before, after, p, radius, res, cx, cy, sample);
      tests := tests + 1;
      var key := (cx, cy);
      if Reaches(p, key, radius, res) {
        after := after[key := VisitsIn(after, key) + [sample]];
      }
      cy := cy + 1;
    }
    ScopeColumn(p, radius, res, cx);
  }

  lemma ScopeColumn(p: Point, radius: real, res: real, cx: int)
    requires res > 0.0
    ensures Scope(p, radius, res, cx, CellIndex(p.y + radius, res) + 1)
         == Scope(p, radius, res, cx + 1, CellIndex(p.y - radius, res))
  {
  }

  lemma ScopeEnds(p: Point, radius: real, res: real)
    requires res > 0.0
    ensures Scope(p, radius, res, CellIndex(p.x - radius, res), CellIndex(p.y - radius, res)) == {}
    ensures Scope(p, radius, res, CellIndex(p.x + radius, res) + 1, CellIndex(p.y - radius, res))
         == Reached(p, radius, res)
  {
  }

  method Stamp(index: Index, p: Point, radius: real, res: real, sample: nat)
    returns (after: Index, ghost tests: int)
    requires res > 0.0 && radius >= 0.0
    ensures Stamped(index, after, Reached(p, radius, res), sample)
    ensures tests == StampWork(p, radius, res)
  {
    hide Within, Dist2, CellIndex, Scope, Reached;
    after, tests := index, 0;
    var minX, maxX := CellIndex(p.x - radius, res), CellIndex(p.x + radius, res);
    ghost var minY := CellIndex(p.y - radius, res);
    ghost var height := CellIndex(p.y + radius, res) - minY + 1;
    AxisWidth(p.x, radius, res);
    ScopeEnds(p, radius, res);
    var cx := minX;
    while cx <= maxX
      invariant minX <= cx <= maxX + 1
      invariant Stamped(index, after, Scope(p, radius, res, cx, minY), sample)
      invariant tests == (cx - minX) * height
    {
      ghost var more: int;
      after, more := StampColumn(index, after, p, radius, res, sample, cx);
      assert (cx + 1 - minX) * height == (cx - minX) * height + height;
      tests := tests + more;
      cx := cx + 1;
    }
  }

  lemma AxisWidth(v: real, radius: real, res: real)
    requires res > 0.0 && radius >= 0.0
    ensures 0 <= CellIndex(v + radius, res) - CellIndex(v - radius, res)
    ensures (CellIndex(v + radius, res) - CellIndex(v - radius, res) + 1) as real < 2.0 * (radius / res) + 2.0
  {
    var low, high, ratio := (v - radius) / res, (v + radius) / res, radius / res;
    Quotient(v - radius, res);
    Quotient(v + radius, res);
    Quotient(radius, res);
    assert res * (high - low - 2.0 * ratio) == 0.0;
    ZeroFactor(res, high - low - 2.0 * ratio);
    if ratio < 0.0 { var _ := Product(-ratio, res); }
  }

  lemma ZeroFactor(a: real, b: real)
    requires a > 0.0 && a * b == 0.0
    ensures b == 0.0
  {
    if b > 0.0 { var _ := Product(a, b); }
    if b < 0.0 { var _ := Product(a, -b); }
  }

  // ----- batches

  /** Visits fall into batches: a new one starts after a step longer than the window. */
  ghost function Batches(visits: seq<nat>, window: int): nat {
    if |visits| <= 1 then |visits|
    else
      var n := |visits| - 1;
      Batches(visits[..n], window) + if visits[n] - visits[n - 1] > window then 1 else 0
  }

  method CountBatches(visits: seq<nat>, window: int) returns (batches: nat)
    requires |visits| > 0
    ensures batches == Batches(visits, window)
  {
    batches := 1;
    for i := 1 to |visits|
      invariant batches == Batches(visits[..i], window)
    {
      assert visits[..i + 1][..i] == visits[..i];
      if visits[i] - visits[i - 1] > window {
        batches := batches + 1;
      }
    }
    assert visits[..|visits|] == visits;
  }

  ghost function Repeats(index: Index, window: int): set<Cell> {
    set c | c in index && Batches(index[c], window) >= 2
  }

  lemma RepeatCounted(index: Index, window: int, pending: set<Cell>, c: Cell)
    requires c in pending && pending <= index.Keys
    ensures |Repeats(index, window) - (pending - {c})|
         == |Repeats(index, window) - pending| + if Batches(index[c], window) >= 2 then 1 else 0
  {
    hide Batches;
    var repeats := Repeats(index, window);
    if Batches(index[c], window) >= 2 {
      assert repeats - (pending - {c}) == (repeats - pending) + {c};
    } else {
      assert repeats - (pending - {c}) == repeats - pending;
    }
  }

  /** Counts the cells with two batches or more, visiting the map in any order. */
  method CountRepeats(index: Index, window: int) returns (overlap: nat)
    requires forall c :: c in index ==> index[c] != []
    ensures overlap == |Repeats(index, window)|
  {
    overlap := 0;
    var pending := index.Keys;
    assert Repeats(index, window) - pending == {};
    while pending != {}
      invariant pending <= index.Keys
      invariant overlap == |Repeats(index, window) - pending|
      decreases pending
    {
      hide Batches, Repeats;
      var c :| c in pending;
      RepeatCounted(index, window, pending, c);
      pending := pending - {c};
      var batches := CountBatches(index[c], window);
      if batches >= 2 {
        overlap := overlap + 1;
      }
    }
    assert Repeats(index, window) - pending == Repeats(index, window);
  }

  // ----- the whole raster

  const MATH_PI := 3.14159265358979323846

  function CellsPerSample(ratio: real): real {
    MATH_PI * ratio * ratio
  }

  predicate TooManyCells(radius: real, res: real, samples: nat)
    requires res > 0.0
  {
    var cells := CellsPerSample(radius / res);
    cells > 5000.0 || Times(cells, samples as real) > 2000000.0
  }

  /** A sample is flagged when its own cell was visited more than a window earlier. */
  ghost predicate Flagged(points: seq<Point>, i: nat, radius: real, res: real, window: int)
    requires res > 0.0 && i < |points|
  {
    exists e :: e in Visits(points, CellOf(points[i], res), radius, res) && i - e > window
  }

  ghost function CellsRepeated(points: seq<Point>, radius: real, res: real, window: int): set<Cell>
    requires res > 0.0
  {
    set c | c in Touched(points, radius, res) && Batches(Visits(points, c, radius, res), window) >= 2
  }

  ghost function TotalWork(points: seq<Point>, radius: real, res: real): int
    requires res > 0.0
  {
    if |points| == 0 then 0
    else TotalWork(points[..|points| - 1], radius, res) + StampWork(points[|points| - 1], radius, res)
  }

  datatype OverlapError = GridTooLarge

  datatype OverlapCount = OverlapCount(covered: nat, overlap: nat)

  method BuildIndex(points: seq<Point>, radius: real, res: real) returns (index: Index, ghost tests: int)
    requires res > 0.0 && radius >= 0.0
    ensures IsIndex(index, points, radius, res)
    ensures tests == TotalWork(points, radius, res)
  {
    index, tests := map[], 0;
    for i := 0 to |points|
      invariant IsIndex(index, points[..i], radius, res)
      invariant tests == TotalWork(points[..i], radius, res)
    {
      assert points[..i + 1][..i] == points[..i];
      ghost var before := index;
      ghost var more: int;
      index, more := Stamp(index, points[i], radius, res, i);
      tests := tests + more;
      IndexStep(before, index, points, i, radius, res);
    }
    assert points[..|points|] == points;
  }

  lemma IndexStep(before: Index, after: Index, points: seq<Point>, i: nat, radius: real, res: real)
    requires res > 0.0 && i < |points|
    requires IsIndex(before, points[..i], radius, res)
    requires Stamped(before, after, Reached(points[i], radius, res), i)
    ensures IsIndex(after, points[..i + 1], radius, res)
  {
    assert points[..i + 1][..i] == points[..i];
    forall c | c in after ensures after[c] == Visits(points[..i + 1], c, radius, res) {
      TouchedMeaning(points[..i], c, radius, res);
      if Reaches(points[i], c, radius, res) {
        BoxMissesNone(points[i], c, radius, res);
      }
    }
  }

  ghost function OverlapFlags(points: seq<Point>, i: nat, radius: real, res: real, window: int): set<Flag>
    requires res > 0.0 && i < |points|
  {
    if Flagged(points, i, radius, res, window) then {Repeated} else {}
  }

  lemma RepeatsFound(index: Index, points: seq<Point>, radius: real, res: real, window: int)
    requires res > 0.0 && IsIndex(index, points, radius, res)
    ensures Repeats(index, window) == CellsRepeated(points, radius, res, window)
    ensures |index| == |Touched(points, radius, res)|
    ensures forall c :: c in index ==> index[c] != []
  {
    forall c | c in index ensures index[c] != [] {
      TouchedMeaning(points, c, radius, res);
    }
    assert |index| == |index.Keys|;
  }

  /** Looks for a visit of the sample's own cell more than a window earlier. */
  method FindEarlier(index: Index, points: seq<Point>, i: nat, radius: real, res: real, window: int)
    returns (found: bool)
    requires res > 0.0 && i < |points| && IsIndex(index, points, radius, res)
    ensures found <==> Flagged(points, i, radius, res, window)
  {
    hide Visits, Reached, Touched, CellIndex;
    var key := CellOf(points[i], res);
    TouchedMeaning(points, key, radius, res);
    var visits := VisitsIn(index, key);
    assert visits == Visits(points, key, radius, res);
    for k := 0 to |visits|
      invariant forall j :: 0 <= j < k ==> i - visits[j] <= window
    {
      if i - visits[k] > window {
        assert visits[k] in visits;
        return true;
      }
    }
    return false;
  }

  /** Rasters the swath, counts the cells, and flags the samples that revisit their own cell. */
  method MarkOverlap(points: seq<Point>, swath: real, res: real, window: int, flagSets: array<set<Flag>>)
    returns (r: Result<OverlapCount, OverlapError>, ghost tests: int)
    requires res > 0.0 && swath > 0.0 && flagSets.Length == |points|
    modifies flagSets
    ensures r.Err? <==> TooManyCells(swath / 2.0, res, |points|)
    ensures r.Err? ==> flagSets[..] == old(flagSets[..])
    ensures r.Ok? ==>
              && tests == TotalWork(points, swath / 2.0, res)
              && r.value.covered == |Touched(points, swath / 2.0, res)|
              && r.value.overlap == |CellsRepeated(points, swath / 2.0, res, window)|
              && forall i :: 0 <= i < |points| ==>
                   flagSets[i] == old(flagSets[i]) + OverlapFlags(points, i, swath / 2.0, res, window)
  {
    hide Within, Dist2, CellIndex, TooManyCells, Touched, CellsRepeated, IsIndex, Flagged, TotalWork, Repeats;
    var radius := swath / 2.0;
    tests := 0;
    if TooManyCells(radius, res, |points|) {
      return Err(GridTooLarge), 0;
    }
    var index;
    index, tests := BuildIndex(points, radius, res);
    RepeatsFound(index, points, radius, res, window);
    var overlap := CountRepeats(index, window);
    for i := 0 to |points|
      invariant forall k :: 0 <= k < i ==>
                  flagSets[k] == old(flagSets[k]) + OverlapFlags(points, k, radius, res, window)
      invariant forall k :: i <= k < |points| ==> flagSets[k] == old(flagSets[k])
    {
      var found := FindEarlier(index, points, i, radius, res, window);
      if found {
        flagSets[i] := flagSets[i] + {Repeated};
      }
    }
    r := Ok(OverlapCount(|index|, overlap));
  }
}
