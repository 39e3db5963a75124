/** The geometric half of the coverage core: the ordering of gate polytopes,
    the rho-symmetrization of the c-coordinates, and the composition of an
    a-region with a b-region into the c-region they reach. */
module Coverage {
  import opened Polytopes
  import QlrTable

  /** A region of the alcove together with the cost and the gate sequence of
      the circuits known to reach it. */
  datatype GatePolytope = GatePolytope(region: Polytope, cost: real, operations: seq<string>)

  function Volume(geo: Geometry, g: GatePolytope): PolytopeVolume
  {
    geo.volume(g.region)
  }

  predicate VolumeLe(u: PolytopeVolume, v: PolytopeVolume)
  {
    VolumeLt(u, v) || u == v
  }

  /** `__gt__`: higher cost, or equal cost and larger volume. */
  predicate Gt(geo: Geometry, g: GatePolytope, h: GatePolytope)
  {
    g.cost > h.cost || (g.cost == h.cost && VolumeLt(Volume(geo, h), Volume(geo, g)))
  }

  /** `__ge__`: higher cost, or equal cost and volume at least as large. */
  predicate Ge(geo: Geometry, g: GatePolytope, h: GatePolytope)
  {
    g.cost > h.cost || (g.cost == h.cost && VolumeLe(Volume(geo, h), Volume(geo, g)))
  }

  /** `__lt__`, the order the frontier heap uses: lower cost, or equal cost and
      smaller volume. */
  predicate Lt(geo: Geometry, g: GatePolytope, h: GatePolytope)
  {
    g.cost < h.cost || (g.cost == h.cost && VolumeLt(Volume(geo, g), Volume(geo, h)))
  }

  /** `__le__`: lower cost, or equal cost and volume at most as large. */
  predicate Le(geo: Geometry, g: GatePolytope, h: GatePolytope)
  {
    g.cost < h.cost || (g.cost == h.cost && VolumeLe(Volume(geo, g), Volume(geo, h)))
  }

  /** The four comparisons are one lexicographic order on (cost, volume) seen
      from both sides: `>` and `>=` are the converses of `<` and `<=`, `<=` is
      `<` or a tie on both keys, and `<=` is exactly "not `>`". */
  lemma ComparisonsAgree(geo: Geometry, g: GatePolytope, h: GatePolytope)
    ensures Gt(geo, g, h) <==> Lt(geo, h, g)
    ensures Ge(geo, g, h) <==> Le(geo, h, g)
    ensures Le(geo, g, h) <==> Lt(geo, g, h) || (g.cost == h.cost && Volume(geo, g) == Volume(geo, h))
    ensures Le(geo, g, h) <==> !Gt(geo, g, h)
    ensures Ge(geo, g, h) <==> !Lt(geo, g, h)
  {
  }

  /** `<` is a strict order, and any two gate polytopes are comparable unless
      they tie on both cost and volume; so a heap keyed by it pops an entry no
      other entry is below. */
  lemma LtStrictOrder(geo: Geometry, g: GatePolytope, h: GatePolytope, k: GatePolytope)
    ensures !Lt(geo, g, g)
    ensures Lt(geo, g, h) ==> !Lt(geo, h, g)
    ensures Lt(geo, g, h) && Lt(geo, h, k) ==> Lt(geo, g, k)
    ensures Lt(geo, g, h) || Lt(geo, h, g) || (g.cost == h.cost && Volume(geo, g) == Volume(geo, h))
  {
  }

  // ---------------------------------------------------------------------------
  // Rho-symmetrization

  /** Python's `inequality[1:-3]`: the coefficients strictly between the
      constant term and the last three, empty when there are none. */
  function MiddleCoefficients(ineq: Inequality): (mid: seq<real>)
    ensures |ineq| >= 4 ==> |mid| == |ineq| - 4 && ineq == ineq[..1] + mid + ineq[|ineq| - 3..]
    ensures |ineq| < 4 ==> mid == []
  {
    if |ineq| >= 4 then ineq[1..|ineq| - 3] else []
  }

  /** The rewrite of one inequality `d + ... + x a1 + y a2 + z a3 >= 0` under rho:
      `(d + x/2 + y/2 - z/2) + ... + (z - y) a1 + (-y) a2 + (x - y) a3 >= 0`. */
  function RhoRotate(ineq: Inequality): (r: Inequality)
    requires |ineq| >= 3
    ensures |ineq| >= 4 ==> |r| == |ineq|
    ensures |ineq| == 3 ==> |r| == 4
  {
    var n := |ineq|;
    var d, x, y, z := ineq[0], ineq[n - 3], ineq[n - 2], ineq[n - 1];
    [d + x / 2.0 + y / 2.0 - z / 2.0] + MiddleCoefficients(ineq) + [z - y, -y, x - y]
  }

  /** The action of rho on a point: its last three coordinates (a1, a2, a3),
      with a4 = -a1 - a2 - a3, go to (a3 + 1/2, a4 + 1/2, a1 - 1/2). */
  function RhoPoint(x: seq<real>): (y: seq<real>)
    requires |x| >= 3
    ensures |y| == |x| && y[..|x| - 3] == x[..|x| - 3]
  {
    var n := |x|;
    var a1, a2, a3 := x[n - 3], x[n - 2], x[n - 1];
    x[..n - 3] + [a3 + 0.5, -a1 - a2 - a3 + 0.5, a1 - 0.5]
  }

  /** The rotated inequality holds at a point exactly when the original holds
      at the rho-image of that point: the rewrite is the pull-back along rho. */
  lemma RhoRotateMeaning(ineq: Inequality, x: seq<real>)
    requires |ineq| == |x| + 1 && |x| >= 3
    ensures |RhoRotate(ineq)| == |ineq|
    ensures Eval(RhoRotate(ineq), x) == Eval(ineq, RhoPoint(x))
  {
    var n := |x|;
    var r := RhoRotate(ineq);
    var mid := MiddleCoefficients(ineq);
    var xm := x[..n - 3];
    var d, u, v, w := ineq[0], ineq[n - 2], ineq[n - 1], ineq[n];
    var a1, a2, a3 := x[n - 3], x[n - 2], x[n - 1];
    assert ineq[1..] == mid + ineq[n - 2..];
    assert x == xm + x[n - 3..];
    assert r[1..] == mid + [w - v, -v, u - v];
    DotConcat(mid, [w - v, -v, u - v], xm, x[n - 3..]);
    Dot3([w - v, -v, u - v], x[n - 3..]);
    var px := [a3 + 0.5, -a1 - a2 - a3 + 0.5, a1 - 0.5];
    assert RhoPoint(x) == xm + px;
    DotConcat(mid, ineq[n - 2..], xm, px);
    Dot3(ineq[n - 2..], px);
    assert u * (a3 + 0.5) + v * (-a1 - a2 - a3 + 0.5) + w * (a1 - 0.5)
        == u / 2.0 + v / 2.0 - w / 2.0 + (w - v) * a1 + (-v) * a2 + (u - v) * a3;
  }

  /** Rho on points is an involution. */
  lemma RhoPointInvolution(x: seq<real>)
    requires |x| >= 3
    ensures RhoPoint(RhoPoint(x)) == x
  {
    var n := |x|;
    var y := RhoPoint(x);
    assert y[..n - 3] == x[..n - 3];
    assert RhoPoint(y)[n - 3..] == x[n - 3..];
    assert x == x[..n - 3] + x[n - 3..];
  }

  /** `r` has the entries the rewrite gives `ineq`: the new constant, the
      unchanged middle coefficients and the three new c-coefficients. */
  predicate RotatedEntries(ineq: seq<real>, r: seq<real>)
  {
    var n := |ineq|;
    n >= 4 && |r| == n &&
    r[0] == ineq[0] + ineq[n - 3] / 2.0 + ineq[n - 2] / 2.0 - ineq[n - 1] / 2.0 &&
    (forall k :: 1 <= k < n - 3 ==> r[k] == ineq[k]) &&
    r[n - 3] == ineq[n - 1] - ineq[n - 2] && r[n - 2] == -ineq[n - 2] && r[n - 1] == ineq[n - 3] - ineq[n - 2]
  }

  lemma RhoRotateEntries(ineq: Inequality)
    requires |ineq| >= 4
    ensures RotatedEntries(ineq, RhoRotate(ineq))
  {
    var n := |ineq|;
    var mid := MiddleCoefficients(ineq);
    forall k | 1 <= k < n - 3
      ensures RhoRotate(ineq)[k] == ineq[k]
    {
      assert RhoRotate(ineq)[k] == mid[k - 1];
    }
  }

  /** Two rewrites in a row restore every entry. */
  lemma RotatedTwice(ineq: seq<real>, r: seq<real>, rr: seq<real>)
    requires RotatedEntries(ineq, r) && RotatedEntries(r, rr)
    ensures r[1..|ineq| - 3] == ineq[1..|ineq| - 3]
    ensures rr == ineq
  {
    var n := |ineq|;
    assert rr[0] == ineq[0];
    assert forall k :: 0 <= k < n ==> rr[k] == ineq[k];
  }

  /** For inequalities with a constant term and at least the three
      c-coefficients, the rewrite keeps the length and the middle
      coefficients, and rewriting twice gives back the original. */
  lemma RhoRotateInvolution(ineq: Inequality)
    requires |ineq| >= 4
    ensures |RhoRotate(ineq)| == |ineq|
    ensures RhoRotate(ineq)[1..|ineq| - 3] == ineq[1..|ineq| - 3]
    ensures RhoRotate(RhoRotate(ineq)) == ineq
  {
    var r := RhoRotate(ineq);
    RhoRotateEntries(ineq);
    RhoRotateEntries(r);
    RotatedTwice(ineq, r, RhoRotate(r));
  }

  /** Every inequality of every piece has at least `w` entries. */
  predicate WidthsAtLeast(p: Polytope, w: int)
  {
    forall j, i :: 0 <= j < |p.convexSubpolytopes| && 0 <= i < |p.convexSubpolytopes[j].inequalities| ==>
      |p.convexSubpolytopes[j].inequalities[i]| >= w
  }

  /** Every inequality of every piece has exactly `w` entries. */
  predicate WidthsExactly(p: Polytope, w: int)
  {
    forall j, i :: 0 <= j < |p.convexSubpolytopes| && 0 <= i < |p.convexSubpolytopes[j].inequalities| ==>
      |p.convexSubpolytopes[j].inequalities[i]| == w
  }

  function RhoConvex(c: ConvexPolytope): (r: ConvexPolytope)
    requires forall i :: 0 <= i < |c.inequalities| ==> |c.inequalities[i]| >= 3
    ensures |r.inequalities| == |c.inequalities|
  {
    ConvexPolytope(seq(|c.inequalities|, i requires 0 <= i < |c.inequalities| => RhoRotate(c.inequalities[i])))
  }

  /** `rho_p`: the piece-by-piece, inequality-by-inequality rewrite of `p`. */
  function RhoPolytope(p: Polytope): (r: Polytope)
    requires WidthsAtLeast(p, 3)
    ensures |r.convexSubpolytopes| == |p.convexSubpolytopes|
    ensures forall j :: 0 <= j < |p.convexSubpolytopes| ==>
      |r.convexSubpolytopes[j].inequalities| == |p.convexSubpolytopes[j].inequalities|
  {
    Polytope(seq(|p.convexSubpolytopes|, j requires 0 <= j < |p.convexSubpolytopes| => RhoConvex(p.convexSubpolytopes[j])))
  }

  /** A point lies in a rotated piece exactly when its rho-image lies in the
      original piece. */
  lemma RhoConvexContains(c: ConvexPolytope, x: seq<real>)
    requires |x| >= 3
    requires forall i :: 0 <= i < |c.inequalities| ==> |c.inequalities[i]| == |x| + 1
    ensures InConvex(RhoConvex(c), x) <==> InConvex(c, RhoPoint(x))
  {
    var r := RhoConvex(c);
    forall i | 0 <= i < |c.inequalities|
      ensures |r.inequalities[i]| == |x| + 1
      ensures Eval(r.inequalities[i], x) == Eval(c.inequalities[i], RhoPoint(x))
    {
      RhoRotateMeaning(c.inequalities[i], x);
    }
  }

  /** `rho_p` contains exactly the rho-images of the points of `p`. */
  lemma RhoPolytopeContains(p: Polytope, x: seq<real>)
    requires |x| >= 3 && WidthsExactly(p, |x| + 1)
    ensures Contains(RhoPolytope(p), x) <==> Contains(p, RhoPoint(x))
  {
    var r := RhoPolytope(p);
    forall j | 0 <= j < |p.convexSubpolytopes|
      ensures InConvex(r.convexSubpolytopes[j], x) <==> InConvex(p.convexSubpolytopes[j], RhoPoint(x))
    {
      RhoConvexContains(p.convexSubpolytopes[j], x);
    }
  }

  /** The point set of `p` together with `rho_p` is closed under rho: a point
      is in it exactly when its rho-image is, which is what taking the union
      is for. */
  lemma RhoUnionSymmetric(p: Polytope, x: seq<real>)
    requires |x| >= 3 && WidthsExactly(p, |x| + 1)
    ensures (Contains(p, x) || Contains(RhoPolytope(p), x))
        <==> (Contains(p, RhoPoint(x)) || Contains(RhoPolytope(p), RhoPoint(x)))
  {
    RhoPolytopeContains(p, x);
    RhoPolytopeContains(p, RhoPoint(x));
    RhoPointInvolution(x);
  }

  /** Applying the rewrite twice gives back `p`. */
  lemma RhoPolytopeInvolution(p: Polytope)
    requires WidthsAtLeast(p, 4)
    ensures WidthsAtLeast(RhoPolytope(p), 4)
    ensures RhoPolytope(RhoPolytope(p)) == p
  {
    var r := RhoPolytope(p);
    forall j, i | 0 <= j < |p.convexSubpolytopes| && 0 <= i < |p.convexSubpolytopes[j].inequalities|
      ensures |r.convexSubpolytopes[j].inequalities[i]| >= 4
      ensures RhoRotate(r.convexSubpolytopes[j].inequalities[i]) == p.convexSubpolytopes[j].inequalities[i]
    {
      RhoRotateInvolution(p.convexSubpolytopes[j].inequalities[i]);
    }
    var rr := RhoPolytope(r);
    forall j | 0 <= j < |p.convexSubpolytopes|
      ensures rr.convexSubpolytopes[j] == p.convexSubpolytopes[j]
    {
      assert rr.convexSubpolytopes[j].inequalities == p.convexSubpolytopes[j].inequalities;
    }
    assert rr.convexSubpolytopes == p.convexSubpolytopes;
  }

  /** The row the inner rho loop builds from the named entries is `RhoRotate`'s. */
  lemma RotatedRow(ineq: Inequality, d: real, x: real, y: real, z: real)
    requires |ineq| >= 3
    requires d == ineq[0] && x == ineq[|ineq| - 3] && y == ineq[|ineq| - 2] && z == ineq[|ineq| - 1]
    ensures [d + x / 2.0 + y / 2.0 - z / 2.0] + MiddleCoefficients(ineq) + [z - y, -y, x - y] == RhoRotate(ineq)
  {
  }

  /** The inner rho loop over one convex piece: its rotated inequalities, or
      `None` where the source raises `IndexError` on an inequality with
      fewer than three entries. */
  method RotatePiece(c: ConvexPolytope) returns (r: Option<ConvexPolytope>)
    ensures r.Some? <==> forall i :: 0 <= i < |c.inequalities| ==> |c.inequalities[i]| >= 3
    ensures r.Some? ==> r.value == RhoConvex(c)
  {
    var rotated: seq<Inequality> := [];
    for i := 0 to |c.inequalities|
      invariant forall i' :: 0 <= i' < i ==> |c.inequalities[i']| >= 3
      invariant |rotated| == i
      invariant forall i' :: 0 <= i' < i ==> rotated[i'] == RhoRotate(c.inequalities[i'])
    {
      var inequality := c.inequalities[i];
      if |inequality| < 3 {
        return None;
      }
      var n := |inequality|;
      var d := inequality[0];
      var x, y, z := inequality[n - 3], inequality[n - 2], inequality[n - 1];
      var row := [d + x / 2.0 + y / 2.0 - z / 2.0] + MiddleCoefficients(inequality) + [z - y, -y, x - y];
      RotatedRow(inequality, d, x, y, z);
      rotated := rotated + [row];
    }
    assert rotated == RhoConvex(c).inequalities;
    r := Some(ConvexPolytope(rotated));
  }

  /** The rho loop: `Some(rho_p)`, or `None` where the source raises
      `IndexError` on an inequality with fewer than three entries. */
  method RhoSymmetrize(p: Polytope) returns (r: Option<Polytope>)
    ensures r.Some? <==> WidthsAtLeast(p, 3)
    ensures r.Some? ==> r.value == RhoPolytope(p)
  {
    var pieces: seq<ConvexPolytope> := [];
    for j := 0 to |p.convexSubpolytopes|
      invariant forall j', i :: 0 <= j' < j && 0 <= i < |p.convexSubpolytopes[j'].inequalities| ==>
        |p.convexSubpolytopes[j'].inequalities[i]| >= 3
      invariant |pieces| == j
      invariant forall j' :: 0 <= j' < j ==> pieces[j'] == RhoConvex(p.convexSubpolytopes[j'])
    {
      var rotated := RotatePiece(p.convexSubpolytopes[j]);
      if rotated.None? {
        return None;
      }
      pieces := pieces + [rotated.value];
    }
    assert pieces == RhoPolytope(p).convexSubpolytopes;
    r := Some(Polytope(pieces));
  }

  // ---------------------------------------------------------------------------
  // Composition

  /** Where the a-, b- and c-coordinates sit among the nine coordinates of the
      monodromy polytope (position 0 is the constant term). */
  const AMap: seq<int> := [0, 1, 2, 3]
  const BMap: seq<int> := [0, 4, 5, 6]
  const CMap: seq<int> := [0, 7, 8, 9]

  /** The monodromy polytope cut down by the alcove on a and on b, then by the
      given a- and b-regions, in that order. */
  function Constrained(geo: Geometry, a: Polytope, b: Polytope): Polytope
  {
    var p := QlrTable.QlrPolytope();
    var p := geo.intersect(p, geo.cylinderize(QlrTable.Alcove(), AMap));
    var p := geo.intersect(p, geo.cylinderize(QlrTable.Alcove(), BMap));
    var p := geo.intersect(p, geo.cylinderize(a, AMap));
    geo.intersect(p, geo.cylinderize(b, BMap))
  }

  /** `project` then `reduce`, for the indices `index`, `index - 1`, ..., 1. */
  function ProjectDown(geo: Geometry, p: Polytope, index: nat): Polytope
    decreases index
  {
    if index == 0 then p else ProjectDown(geo, geo.reduce(geo.project(p, index)), index - 1)
  }

  /** The c-region reached by composing `a` with `b`, or `None` where the rho
      loop raises. */
  function ComposeSpec(geo: Geometry, a: Polytope, b: Polytope): (r: Option<Polytope>)
    ensures r.None? <==> !WidthsAtLeast(Constrained(geo, a, b), 3)
  {
    var p := Constrained(geo, a, b);
    if !WidthsAtLeast(p, 3) then None
    else
      var p := geo.union(p, RhoPolytope(p));
      var p := geo.intersect(p, geo.cylinderize(QlrTable.AlcoveC2(), CMap));
      Some(ProjectDown(geo, geo.reduce(p), 6))
  }

  /** `intersect_and_project_to_c`. */
  method IntersectAndProjectToC(geo: Geometry, a: Polytope, b: Polytope) returns (r: Option<Polytope>)
    ensures r == ComposeSpec(geo, a, b)
  {
    var p := QlrTable.QlrPolytope();
    p := geo.intersect(p, geo.cylinderize(QlrTable.Alcove(), AMap));
    p := geo.intersect(p, geo.cylinderize(QlrTable.Alcove(), BMap));
    p := geo.intersect(p, geo.cylinderize(a, AMap));
    p := geo.intersect(p, geo.cylinderize(b, BMap));
    assert p == Constrained(geo, a, b);
    var rhoP := RhoSymmetrize(p);
    if rhoP.None? {
      return None;
    }
    p := geo.union(p, rhoP.value);
    p := geo.intersect(p, geo.cylinderize(QlrTable.AlcoveC2(), CMap));
    p := ProjectAway(geo, p);
    r := Some(p);
  }

  /** The last step of `intersect_and_project_to_c`: `reduce`, then `project`
      and `reduce` for the indices 6 down to 1, leaving the c-coordinates. */
  method ProjectAway(geo: Geometry, p0: Polytope) returns (p: Polytope)
    ensures p == ProjectDown(geo, geo.reduce(p0), 6)
  {
    p := geo.reduce(p0);
    var index := 6;
    while index > 0
      invariant 0 <= index <= 6
      invariant ProjectDown(geo, p, index) == ProjectDown(geo, geo.reduce(p0), 6)
    {
      p := geo.project(p, index);
      p := geo.reduce(p);
      index := index - 1;
    }
  }

  /** Removing the coordinate at (1-based) position `index`, as `project` does. */
  function Eliminate(coordinates: seq<int>, index: int): (r: seq<int>)
    requires 1 <= index <= |coordinates|
    ensures |r| == |coordinates| - 1
  {
    coordinates[..index - 1] + coordinates[index..]
  }

  /** The coordinates that survive eliminating positions `index`, `index - 1`,
      ..., 1 in that order. */
  function SurvivingCoordinates(coordinates: seq<int>, index: nat): seq<int>
    requires index <= |coordinates|
  {
    if index == 0 then coordinates else SurvivingCoordinates(Eliminate(coordinates, index), index - 1)
  }

  /** Eliminating from the highest position down removes exactly the first
      `index` coordinates: each elimination leaves the positions still to be
      eliminated where they were. */
  lemma {:induction false} SurvivingSuffix(coordinates: seq<int>, index: nat)
    requires index <= |coordinates|
    ensures SurvivingCoordinates(coordinates, index) == coordinates[index..]
  {
    if index > 0 {
      var e := Eliminate(coordinates, index);
      SurvivingSuffix(e, index - 1);
      assert e[index - 1..] == coordinates[index..];
    }
  }

  /** The loop `for index in range(6, 0, -1)` leaves exactly the c-coordinates
      7, 8, 9 of the nine, the positions `CMap` placed the alcove on. */
  lemma ProjectionKeepsC()
    ensures SurvivingCoordinates([1, 2, 3, 4, 5, 6, 7, 8, 9], 6) == CMap[1..]
  {
    SurvivingSuffix([1, 2, 3, 4, 5, 6, 7, 8, 9], 6);
  }
}
