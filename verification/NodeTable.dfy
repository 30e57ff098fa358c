/** The node table of the half-razor builder: ends that round to one key share one id. */
module NodeTable {
  import opened Results

  datatype Point = Point(x: real, y: real, z: real)

  datatype Key = Key(x: int, y: int, z: int)

  /** Rounding to the nearest integer, ties to the even one. */
  function RoundHalfEven(x: real): (n: int)
    ensures n as real - 0.5 <= x <= n as real + 0.5
    ensures x == n as real - 0.5 || x == n as real + 0.5 ==> n % 2 == 0
  {
    var f := x.Floor;
    var d := x - f as real;
    if d < 0.5 || (d == 0.5 && f % 2 == 0) then f else f + 1
  }

  /** The grid cell of a point, on a grid of one nanometre. */
  function KeyOf(p: Point): Key {
    Key(RoundHalfEven(p.x * 1000000000.0), RoundHalfEven(p.y * 1000000000.0), RoundHalfEven(p.z * 1000000000.0))
  }

  /** The first of the nodes in a cell. */
  function Find(nodes: seq<Point>, key: Key): (id: Option<nat>)
    ensures id.Some? ==> id.value < |nodes| && KeyOf(nodes[id.value]) == key
  {
    if nodes == [] then None
    else
      var before := Find(nodes[..|nodes| - 1], key);
      if before.Some? then before
      else if KeyOf(nodes[|nodes| - 1]) == key then Some(|nodes| - 1)
      else None
  }

  lemma {:induction false} FindIsFirst(nodes: seq<Point>, key: Key)
    ensures var id := Find(nodes, key);
            forall i :: 0 <= i < (if id.Some? then id.value else |nodes|) ==> KeyOf(nodes[i]) != key
  {
    hide KeyOf;
    if nodes != [] { FindIsFirst(nodes[..|nodes| - 1], key); }
  }

  /** One node per cell. */
  ghost predicate Distinct(nodes: seq<Point>) {
    forall i, j :: 0 <= i < j < |nodes| ==> KeyOf(nodes[i]) != KeyOf(nodes[j])
  }

  /** The nodes after a point has been looked up. */
  function Enter(nodes: seq<Point>, p: Point): seq<Point> {
    if Find(nodes, KeyOf(p)).Some? then nodes else nodes + [p]
  }

  function EnterAll(nodes: seq<Point>, points: seq<Point>): seq<Point> {
    if points == [] then nodes else Enter(EnterAll(nodes, points[..|points| - 1]), points[|points| - 1])
  }

  class Table {
    var nodeOf: map<Key, nat>
    var nodePos: seq<Point>

    ghost predicate Valid()
      reads this
    {
      && Distinct(nodePos)
      && (forall key <- nodeOf :: nodeOf[key] < |nodePos| && KeyOf(nodePos[nodeOf[key]]) == key)
      && forall i :: 0 <= i < |nodePos| ==> KeyOf(nodePos[i]) in nodeOf
    }

    constructor ()
      ensures Valid() && nodePos == []
    {
      nodeOf := map[];
      nodePos := [];
    }

    method Nid(p: Point) returns (id: nat)
      requires Valid()
      modifies this
      ensures Valid()
      ensures nodePos == Enter(old(nodePos), p)
      ensures Find(nodePos, KeyOf(p)) == Some(id)
    {
      hide KeyOf;
      var key := KeyOf(p);
      FindIsFirst(nodePos, key);
      if key !in nodeOf {
        assert Find(nodePos, key) == None;
        assert (nodePos + [p])[..|nodePos|] == nodePos;
        nodeOf := nodeOf[key := |nodePos|];
        nodePos := nodePos + [p];
      }
      id := nodeOf[key];
    }

    /** The ids of a list of points, in order. */
    method NumberAll(points: seq<Point>) returns (ids: seq<nat>)
      requires Valid()
      modifies this
      ensures Valid()
      ensures nodePos == EnterAll(old(nodePos), points)
      ensures |ids| == |points| && forall i :: 0 <= i < |ids| ==> Find(nodePos, KeyOf(points[i])) == Some(ids[i])
    {
      hide KeyOf, Find, Enter, Distinct;
      ids := [];
      var i := 0;
      while i < |points|
        invariant 0 <= i == |ids| <= |points|
        invariant Valid() && nodePos == EnterAll(old(nodePos), points[..i])
        invariant forall j :: 0 <= j < i ==> Find(nodePos, KeyOf(points[j])) == Some(ids[j])
      {
        ghost var before := nodePos;
        var id := Nid(points[i]);
        forall j | 0 <= j < i ensures Find(nodePos, KeyOf(points[j])) == Some(ids[j]) {
          IdsAreStable(before, points[i], KeyOf(points[j]));
        }
        assert points[..i + 1][..i] == points[..i];
        ids := ids + [id];
        i := i + 1;
      }
      assert points[..i] == points;
    }
  }

  /** A node keeps its id when later points are entered. */
  lemma IdsAreStable(nodes: seq<Point>, p: Point, key: Key)
    requires Find(nodes, key).Some?
    ensures Find(Enter(nodes, p), key) == Find(nodes, key)
  {
    hide KeyOf;
    assert (nodes + [p])[..|nodes|] == nodes;
  }

  lemma {:induction false} IdsAreStableAll(nodes: seq<Point>, points: seq<Point>, key: Key)
    requires Find(nodes, key).Some?
    ensures Find(EnterAll(nodes, points), key) == Find(nodes, key)
  {
    hide Find, Enter;
    if points != [] {
      IdsAreStableAll(nodes, points[..|points| - 1], key);
      IdsAreStable(EnterAll(nodes, points[..|points| - 1]), points[|points| - 1], key);
    }
  }

  /** The same point to a nanometre, in every coordinate. */
  predicate Near(p: Point, q: Point) {
    && -0.000000001 <= p.x - q.x <= 0.000000001
    && -0.000000001 <= p.y - q.y <= 0.000000001
    && -0.000000001 <= p.z - q.z <= 0.000000001
  }

  /** Ids for points: equal points share one, points sharing one are near, and so is its node; every node is used. */
  predicate IdsFit(ends: seq<Point>, ids: seq<nat>, nodes: seq<Point>) {
    && |ids| == |ends|
    && (forall i :: 0 <= i < |ends| ==> ids[i] < |nodes| && Near(nodes[ids[i]], ends[i]))
    && (forall i, j :: 0 <= i < |ends| && 0 <= j < |ends| ==>
          && (ends[i] == ends[j] ==> ids[i] == ids[j])
          && (ids[i] == ids[j] ==> Near(ends[i], ends[j])))
    && (forall node :: 0 <= node < |nodes| ==> node in ids)
  }

  /** Numbers that round alike on the nanometre grid differ by at most a nanometre. */
  lemma RoundAlike(x: real, y: real)
    requires RoundHalfEven(x * 1000000000.0) == RoundHalfEven(y * 1000000000.0)
    ensures -0.000000001 <= x - y <= 0.000000001
  {
  }

  /** Points in one cell are near. */
  lemma SameCellNear(p: Point, q: Point)
    requires KeyOf(p) == KeyOf(q)
    ensures Near(p, q)
  {
    hide RoundHalfEven;
    RoundAlike(p.x, q.x);
    RoundAlike(p.y, q.y);
    RoundAlike(p.z, q.z);
  }

  /** What the table promises of the ids, in coordinates. */
  lemma FoundIdsFit(ends: seq<Point>, ids: seq<nat>, nodes: seq<Point>)
    requires Found(ends, ids, nodes) && nodes == EnterAll([], ends)
    ensures IdsFit(ends, ids, nodes)
  {
    hide KeyOf, Near, EnterAll, FirstOfCell;
    forall i | 0 <= i < |ends| ensures ids[i] < |nodes| && Near(nodes[ids[i]], ends[i]) {
      SameCellNear(nodes[ids[i]], ends[i]);
    }
    forall i, j | 0 <= i < |ends| && 0 <= j < |ends| && ids[i] == ids[j] ensures Near(ends[i], ends[j]) {
      SameCellNear(ends[i], ends[j]);
    }
    forall node | 0 <= node < |nodes| ensures node in ids { NodeIsUsed(ends, ids, nodes, node); }
  }

  lemma NodeIsUsed(ends: seq<Point>, ids: seq<nat>, nodes: seq<Point>, node: nat)
    requires Found(ends, ids, nodes) && nodes == EnterAll([], ends) && node < |nodes|
    ensures node in ids
  {
    EveryNodeIsAFirstPoint(ends, node);
    EveryPointHasItsNode(ends);
    hide KeyOf, EnterAll, Find;
    var i :| 0 <= i < |ends| && ends[i] == nodes[node];
    assert KeyOf(nodes[ids[i]]) == KeyOf(nodes[node]);
    assert ids[i] == node;
  }

  ghost predicate Found(ends: seq<Point>, ids: seq<nat>, nodes: seq<Point>) {
    |ids| == |ends| && forall i :: 0 <= i < |ends| ==> Find(nodes, KeyOf(ends[i])) == Some(ids[i])
  }

  lemma BothSidesFit(segL: seq<Point>, segR: seq<Point>, left: seq<nat>, right: seq<nat>, nodes: seq<Point>)
    requires Found(segL, left, nodes) && Found(segR, right, nodes)
    requires nodes == EnterAll(EnterAll([], segL), segR)
    ensures IdsFit(segL + segR, left + right, nodes)
  {
    hide KeyOf, Find, IdsFit;
    assert Found(segL + segR, left + right, nodes);
    EnterAllAppend([], segL, segR);
    FoundIdsFit(segL + segR, left + right, nodes);
  }

  lemma {:induction false} EnterAllAppend(nodes: seq<Point>, points: seq<Point>, more: seq<Point>)
    ensures EnterAll(nodes, points + more) == EnterAll(EnterAll(nodes, points), more)
  {
    hide Enter;
    if more == [] {
      assert points + more == points;
    } else {
      var n := |more| - 1;
      assert (points + more)[..|points + more| - 1] == points + more[..n];
      EnterAllAppend(nodes, points, more[..n]);
    }
  }

  method BuildNodes(segL: seq<Point>, segR: seq<Point>) returns (left: seq<nat>, right: seq<nat>, nodes: seq<Point>)
    ensures nodes == EnterAll(EnterAll([], segL), segR)
    ensures |left| == |segL| && forall i :: 0 <= i < |left| ==> Find(nodes, KeyOf(segL[i])) == Some(left[i])
    ensures |right| == |segR| && forall i :: 0 <= i < |right| ==> Find(nodes, KeyOf(segR[i])) == Some(right[i])
    ensures IdsFit(segL + segR, left + right, nodes)
  {
    hide KeyOf, IdsFit, Enter, EnterAll;
    var table := new Table();
    left := table.NumberAll(segL);
    ghost var before := table.nodePos;
    right := table.NumberAll(segR);
    nodes := table.nodePos;
    forall i | 0 <= i < |left| ensures Find(nodes, KeyOf(segL[i])) == Some(left[i]) {
      IdsAreStableAll(before, segR, KeyOf(segL[i]));
    }
    BothSidesFit(segL, segR, left, right, nodes);
  }

  /** Entering keeps one node per cell. */
  lemma EnterDistinct(nodes: seq<Point>, p: Point)
    requires Distinct(nodes)
    ensures Distinct(Enter(nodes, p)) && Find(Enter(nodes, p), KeyOf(p)).Some?
  {
    hide KeyOf;
    FindIsFirst(nodes, KeyOf(p));
    assert (nodes + [p])[..|nodes|] == nodes;
  }

  /** The table of a list of points has one node per cell and an id for every point. */
  lemma {:induction false} EveryPointHasItsNode(points: seq<Point>)
    ensures Distinct(EnterAll([], points))
    ensures forall i :: 0 <= i < |points| ==> Find(EnterAll([], points), KeyOf(points[i])).Some?
  {
    hide KeyOf, Find, Enter, Distinct;
    if points == [] {
      NoNodes();
    } else {
      var n := |points| - 1;
      var before := EnterAll([], points[..n]);
      EveryPointHasItsNode(points[..n]);
      EnterDistinct(before, points[n]);
      forall i | 0 <= i < |points| ensures Find(EnterAll([], points), KeyOf(points[i])).Some? {
        if i < n {
          assert points[i] == points[..n][i];
          IdsAreStable(before, points[n], KeyOf(points[i]));
        }
      }
    }
  }

  lemma NoNodes()
    ensures Distinct([])
  {
  }

  /** No id is wasted, and a node sits at the first point of its cell. */
  lemma {:induction false} EveryNodeIsAFirstPoint(points: seq<Point>, id: nat)
    requires id < |EnterAll([], points)|
    ensures FirstOfCell(points, EnterAll([], points)[id])
  {
    hide KeyOf, Find, FirstOfCell;
    if points != [] {
      var n := |points| - 1;
      var before := EnterAll([], points[..n]);
      assert points[..n] + [points[n]] == points;
      if id < |before| {
        EveryNodeIsAFirstPoint(points[..n], id);
        FirstStays(points[..n], points[n], before[id]);
      } else {
        NewIsFirst(points[..n], points[n]);
      }
    }
  }

  lemma FirstStays(points: seq<Point>, q: Point, p: Point)
    requires FirstOfCell(points, p)
    ensures FirstOfCell(points + [q], p)
  {
    hide KeyOf;
    var i :| 0 <= i < |points| && points[i] == p && forall j :: 0 <= j < i ==> KeyOf(points[j]) != KeyOf(p);
    assert (points + [q])[i] == p;
  }

  lemma NewIsFirst(points: seq<Point>, q: Point)
    requires Find(EnterAll([], points), KeyOf(q)) == None
    ensures FirstOfCell(points + [q], q)
  {
    EveryPointHasItsNode(points);
    hide KeyOf, Find;
    assert (points + [q])[|points|] == q;
  }

  /** `p` is among the points and none before it lies in its cell. */
  ghost predicate FirstOfCell(points: seq<Point>, p: Point) {
    exists i :: 0 <= i < |points| && points[i] == p && forall j :: 0 <= j < i ==> KeyOf(points[j]) != KeyOf(p)
  }

  /** Two ends get the same id exactly when each of their coordinates rounds to the same multiple of a nanometre. */
  lemma SameIdSameCell(nodes: seq<Point>, p: Point, q: Point)
    requires Find(nodes, KeyOf(p)).Some? && Find(nodes, KeyOf(q)).Some?
    ensures Find(nodes, KeyOf(p)) == Find(nodes, KeyOf(q))
       <==> && RoundHalfEven(p.x * 1000000000.0) == RoundHalfEven(q.x * 1000000000.0)
            && RoundHalfEven(p.y * 1000000000.0) == RoundHalfEven(q.y * 1000000000.0)
            && RoundHalfEven(p.z * 1000000000.0) == RoundHalfEven(q.z * 1000000000.0)
  {
    hide RoundHalfEven;
  }
}
