/** The data shapes of the polytope library that the coverage core works with,
    and the meaning of an inequality.

    The library's algorithms (intersection, union, redundancy reduction,
    cylinderization, Fourier–Motzkin projection, volume, trimming) are not
    modelled: they enter the core as the fields of a `Geometry` value and stay
    uninterpreted, so every property proved about the core holds for any
    implementation of them. */
module Polytopes {

  datatype Option<T> = None | Some(value: T)

  /** `[d, c1, ..., cn]`, read as the half-space `d + c1*x1 + ... + cn*xn >= 0`.
      Exact rationals are modelled as `real`. */
  type Inequality = seq<real>

  /** A conjunction of inequalities. */
  datatype ConvexPolytope = ConvexPolytope(inequalities: seq<Inequality>)

  /** A union of convex pieces. */
  datatype Polytope = Polytope(convexSubpolytopes: seq<ConvexPolytope>)

  /** Wraps one conjunction of inequalities as a single-piece polytope. */
  function MakeConvexPolytope(inequalities: seq<Inequality>): Polytope
  {
    Polytope([ConvexPolytope(inequalities)])
  }

  /** The volume of a polytope together with the dimension in which it is
      measured; volumes are compared lexicographically on (dimension, volume). */
  datatype PolytopeVolume = PolytopeVolume(dimension: int, volume: real)

  predicate VolumeLt(u: PolytopeVolume, v: PolytopeVolume)
  {
    u.dimension < v.dimension || (u.dimension == v.dimension && u.volume < v.volume)
  }

  /** The polytope library, as uninterpreted operations. `trimMask` is the
      decision `trim_polytope_set` takes: given the candidate regions and the
      fixed regions, one flag per candidate saying whether it is kept. */
  datatype Geometry = Geometry(
    intersect: (Polytope, Polytope) -> Polytope,
    union: (Polytope, Polytope) -> Polytope,
    reduce: Polytope -> Polytope,
    volume: Polytope -> PolytopeVolume,
    cylinderize: (Polytope, seq<int>) -> Polytope,
    project: (Polytope, int) -> Polytope,
    trimMask: (seq<Polytope>, seq<Polytope>) -> seq<bool>,
    identity: Polytope)

  function Dot(u: seq<real>, x: seq<real>): real
    requires |u| == |x|
  {
    if |u| == 0 then 0.0 else u[0] * x[0] + Dot(u[1..], x[1..])
  }

  /** The left-hand side `d + c . x` of an inequality at the point `x`. */
  function Eval(ineq: Inequality, x: seq<real>): real
    requires |ineq| == |x| + 1
  {
    ineq[0] + Dot(ineq[1..], x)
  }

  predicate Satisfies(ineq: Inequality, x: seq<real>)
    requires |ineq| == |x| + 1
  {
    Eval(ineq, x) >= 0.0
  }

  /** Every inequality of `c` has the width of the ambient space of `x` and holds at `x`. */
  predicate InConvex(c: ConvexPolytope, x: seq<real>)
  {
    forall i :: 0 <= i < |c.inequalities| ==>
      |c.inequalities[i]| == |x| + 1 && Satisfies(c.inequalities[i], x)
  }

  /** `x` lies in some convex piece of `p`. */
  ghost predicate Contains(p: Polytope, x: seq<real>)
  {
    exists j :: 0 <= j < |p.convexSubpolytopes| && InConvex(p.convexSubpolytopes[j], x)
  }

  lemma {:induction false} DotConcat(u1: seq<real>, u2: seq<real>, x1: seq<real>, x2: seq<real>)
    requires |u1| == |x1| && |u2| == |x2|
    ensures Dot(u1 + u2, x1 + x2) == Dot(u1, x1) + Dot(u2, x2)
  {
    if |u1| == 0 {
      assert u1 + u2 == u2 && x1 + x2 == x2;
    } else {
      assert (u1 + u2)[1..] == u1[1..] + u2;
      assert (x1 + x2)[1..] == x1[1..] + x2;
      DotConcat(u1[1..], u2, x1[1..], x2);
    }
  }

  lemma Dot3(u: seq<real>, x: seq<real>)
    requires |u| == |x| == 3
    ensures Dot(u, x) == u[0] * x[0] + u[1] * x[1] + u[2] * x[2]
  {
    assert Dot(u[2..], x[2..]) == u[2] * x[2];
  }

  lemma Dot4(u: seq<real>, x: seq<real>)
    requires |u| == |x| == 4
    ensures Dot(u, x) == u[0] * x[0] + u[1] * x[1] + u[2] * x[2] + u[3] * x[3]
  {
    Dot3(u[1..], x[1..]);
  }
}
