/** The search half of the coverage core: `build_coverage_set`, a cost-ordered
    exploration of gate sequences that composes each candidate with the
    region of its one-gate-shorter ancestor and collects, batch by batch of
    equal cost, the regions that the cheaper ones do not already cover. */
module CoverageSearch {
  import opened Polytopes
  import opened Coverage
  import QlrTable

  /** The starting entry: the identity region, at cost 0, with no operations. */
  function IdentityEntry(geo: Geometry): GatePolytope
  {
    GatePolytope(geo.identity, 0.0, [])
  }

  /** Python's `operations[:-1]`, which is empty for an empty list. */
  function DropLast(s: seq<string>): (r: seq<string>)
    ensures |s| > 0 ==> s == r + [s[|s| - 1]]
    ensures |s| == 0 ==> r == []
  {
    if |s| == 0 then [] else s[..|s| - 1]
  }

  function Regions(gs: seq<GatePolytope>): (rs: seq<Polytope>)
    ensures |rs| == |gs|
    ensures forall i :: 0 <= i < |gs| ==> rs[i] == gs[i].region
  {
    seq(|gs|, i requires 0 <= i < |gs| => gs[i].region)
  }

  /** The first `n` entries of `s` whose flag in `mask` is set, in order; a
      flag missing from a short mask counts as unset. */
  function Select(s: seq<GatePolytope>, mask: seq<bool>, n: nat): (r: seq<GatePolytope>)
    requires n <= |s|
    ensures |r| <= n
    ensures forall k :: 0 <= k < |r| ==> r[k] in s[..n]
  {
    if n == 0 then []
    else
      var r := Select(s, mask, n - 1);
      assert s[..n - 1] == s[..n][..n - 1];
      if n - 1 < |mask| && mask[n - 1] then r + [s[n - 1]] else r
  }

  /** `trim_polytope_set(batch, fixed_polytopes=fixed)`: the members of the
      batch that the library decides to keep, in batch order. */
  function Trim(geo: Geometry, batch: seq<GatePolytope>, fixed: seq<Polytope>): (r: seq<GatePolytope>)
    ensures |r| <= |batch|
    ensures forall k :: 0 <= k < |r| ==> r[k] in batch
  {
    assert batch[..|batch|] == batch;
    Select(batch, geo.trimMask(Regions(batch), fixed), |batch|)
  }

  /** `total.union(b).reduce()` for the first `n` members `b` of the batch, in order. */
  function UnionAll(geo: Geometry, total: Polytope, batch: seq<GatePolytope>, n: nat): Polytope
    requires n <= |batch|
  {
    if n == 0 then total else geo.reduce(geo.union(UnionAll(geo, total, batch, n - 1), batch[n - 1].region))
  }

  /** A flush: the kept members of the batch are appended to the necessary
      list, and every member of the batch is merged into the running total. */
  method Flush(geo: Geometry, necessary: seq<GatePolytope>, total: Polytope, batch: seq<GatePolytope>)
    returns (necessary': seq<GatePolytope>, total': Polytope)
    ensures necessary' == necessary + Trim(geo, batch, [total])
    ensures total' == UnionAll(geo, total, batch, |batch|)
  {
    necessary' := necessary + Trim(geo, batch, [total]);
    total' := total;
    for i := 0 to |batch|
      invariant total' == UnionAll(geo, total, batch, i)
    {
      total' := geo.reduce(geo.union(total', batch[i].region));
    }
  }

  /** `heapq.heappop`: removes one entry that no other entry is below in the
      order `__lt__`. Which of several tied entries the heap yields is not
      specified, and nothing proved below depends on it. */
  method PopMin(geo: Geometry, frontier: seq<GatePolytope>) returns (next: GatePolytope, rest: seq<GatePolytope>)
    requires |frontier| > 0
    ensures multiset(rest) + multiset{next} == multiset(frontier)
    ensures next in frontier && forall f :: f in rest ==> f in frontier
    ensures forall f :: f in frontier ==> !Lt(geo, f, next)
  {
    var m := 0;
    for i := 1 to |frontier|
      invariant 0 <= m < |frontier|
      invariant forall k :: 0 <= k < i ==> !Lt(geo, frontier[k], frontier[m])
    {
      if Lt(geo, frontier[i], frontier[m]) {
        forall k | 0 <= k < i
          ensures !Lt(geo, frontier[k], frontier[i])
        {
          LtStrictOrder(geo, frontier[k], frontier[i], frontier[m]);
        }
        m := i;
      }
    }
    next := frontier[m];
    rest := frontier[..m] + frontier[m + 1..];
    assert frontier == frontier[..m] + [next] + frontier[m + 1..];
  }

  /** `j` is the position of the first entry of `necessary` whose operations are `key`. */
  predicate IsFirstAncestor(necessary: seq<GatePolytope>, key: seq<string>, j: int)
  {
    0 <= j < |necessary| && necessary[j].operations == key &&
    forall j' :: 0 <= j' < j ==> necessary[j'].operations != key
  }

  /** The generator expression with `next(..., None)`: the first necessary
      entry whose operations are `key`, if any. */
  method FindAncestor(necessary: seq<GatePolytope>, key: seq<string>) returns (tail: Option<GatePolytope>)
    ensures tail.None? <==> forall j :: 0 <= j < |necessary| ==> necessary[j].operations != key
    ensures tail.Some? ==> exists j :: IsFirstAncestor(necessary, key, j) && tail.value == necessary[j]
  {
    for j := 0 to |necessary|
      invariant forall j' :: 0 <= j' < j ==> necessary[j'].operations != key
    {
      if necessary[j].operations == key {
        assert IsFirstAncestor(necessary, key, j);
        return Some(necessary[j]);
      }
    }
    return None;
  }

  /** The continuations of `next` by each operation: the operation's region,
      the summed cost and the concatenated gate sequence. */
  function Expansions(next: GatePolytope, operations: seq<GatePolytope>): (r: seq<GatePolytope>)
    ensures |r| == |operations|
  {
    seq(|operations|, i requires 0 <= i < |operations| =>
      GatePolytope(operations[i].region, next.cost + operations[i].cost, next.operations + operations[i].operations))
  }

  /** The gate sequence `s` ends with the gates `tail`. */
  predicate EndsWith(s: seq<string>, tail: seq<string>)
  {
    |tail| <= |s| && s[|s| - |tail|..] == tail
  }

  /** `f` continues by `op`: it carries `op`'s region, and its gate sequence
      ends with `op`'s gates. */
  predicate ContinuesWith(f: GatePolytope, op: GatePolytope)
  {
    f.region == op.region && EndsWith(f.operations, op.operations)
  }

  /** Every operation is a single gate, so `operations[:-1]` of a sequence
      names the sequence one operation shorter. */
  predicate OneGateOperations(operations: seq<GatePolytope>)
  {
    forall i :: 0 <= i < |operations| ==> |operations[i].operations| == 1
  }

  predicate NonNegativeCosts(operations: seq<GatePolytope>)
  {
    forall i :: 0 <= i < |operations| ==> operations[i].cost >= 0.0
  }

  /** A continuation by a one-gate operation has `next` as its ancestor key,
      so the search can find `next`'s region when it reaches it; every
      continuation carries an operation's region, ends with that operation's
      gates and costs `next`'s cost plus the operation's. */
  lemma ExpansionsExtend(next: GatePolytope, operations: seq<GatePolytope>)
    ensures |Expansions(next, operations)| == |operations|
    ensures forall i :: 0 <= i < |operations| && |operations[i].operations| == 1 ==>
      DropLast(Expansions(next, operations)[i].operations) == next.operations
    ensures forall f :: f in Expansions(next, operations) ==>
      exists i :: 0 <= i < |operations| && ContinuesWith(f, operations[i]) && f.cost == next.cost + operations[i].cost
  {
    var e := Expansions(next, operations);
    forall i | 0 <= i < |operations| && |operations[i].operations| == 1
      ensures DropLast(e[i].operations) == next.operations
    {
      assert e[i].operations == next.operations + operations[i].operations;
      assert DropLast(e[i].operations) == e[i].operations[..|next.operations|];
    }
    forall f | f in e
      ensures exists i :: 0 <= i < |operations| && ContinuesWith(f, operations[i]) && f.cost == next.cost + operations[i].cost
    {
      var i :| 0 <= i < |e| && e[i] == f;
      assert f.operations == next.operations + operations[i].operations;
      assert f.operations[|f.operations| - |operations[i].operations|..] == operations[i].operations;
      assert ContinuesWith(f, operations[i]);
    }
  }

  /** The entry an exploration step produces was built from the first
      necessary entry carrying its ancestor key, and keeps `next`'s cost and
      gate sequence. */
  lemma EntryComposed(geo: Geometry, operations: seq<GatePolytope>, necessary: seq<GatePolytope>,
                      next: GatePolytope, outcome: StepOutcome)
    requires exists i :: 0 <= i < |operations| && ContinuesWith(next, operations[i])
    requires exists j :: IsFirstAncestor(necessary, DropLast(next.operations), j) && StepFrom(geo, necessary[j], next, outcome)
    requires outcome.Expanded? || outcome.Full?
    ensures outcome.entry.cost == next.cost && outcome.entry.operations == next.operations
    ensures BuiltFrom(geo, operations, necessary, |necessary|, outcome.entry)
  {
    var i :| 0 <= i < |operations| && ContinuesWith(next, operations[i]);
    var j :| IsFirstAncestor(necessary, DropLast(next.operations), j) && StepFrom(geo, necessary[j], next, outcome);
    assert Composes(geo, necessary[j].region, operations[i].region, outcome.entry.region);
  }

  /** The push loop: every continuation is added to the frontier. */
  method PushExpansions(frontier: seq<GatePolytope>, next: GatePolytope, operations: seq<GatePolytope>)
    returns (frontier': seq<GatePolytope>)
    ensures frontier' == frontier + Expansions(next, operations)
  {
    frontier' := frontier;
    for i := 0 to |operations|
      invariant frontier' == frontier + Expansions(next, operations)[..i]
    {
      var operation := operations[i];
      frontier' := frontier' + [GatePolytope(operation.region, next.cost + operation.cost, next.operations + operation.operations)];
      assert Expansions(next, operations)[..i + 1] == Expansions(next, operations)[..i] + [Expansions(next, operations)[i]];
    }
    assert Expansions(next, operations)[..|operations|] == Expansions(next, operations);
  }

  /** What exploring one popped entry does. */
  datatype StepOutcome =
    | Skipped                     // no ancestor among the necessary entries
    | RhoIndexError               // the rho loop raises on the composed polytope
    | Expanded(entry: GatePolytope)  // new region, short of the full alcove: push continuations
    | Full(entry: GatePolytope)      // new region with the full alcove's volume: stop

  /** The outcome of exploring `next` once its ancestor `tail` is known. */
  predicate StepFrom(geo: Geometry, tail: GatePolytope, next: GatePolytope, outcome: StepOutcome)
  {
    match ComposeSpec(geo, tail.region, next.region)
    case None => outcome.RhoIndexError?
    case Some(c) =>
      var entry := GatePolytope(geo.reduce(c), next.cost, next.operations);
      outcome == if VolumeLt(geo.volume(entry.region), geo.volume(QlrTable.AlcoveC2())) then Expanded(entry) else Full(entry)
  }

  /** One exploration step: find the ancestor, compose, reduce, and compare
      the new region's volume with the whole alcove's. */
  method Explore(geo: Geometry, necessary: seq<GatePolytope>, next: GatePolytope) returns (outcome: StepOutcome)
    ensures outcome.Skipped? <==>
      forall j :: 0 <= j < |necessary| ==> necessary[j].operations != DropLast(next.operations)
    ensures !outcome.Skipped? ==>
      exists j :: IsFirstAncestor(necessary, DropLast(next.operations), j) && StepFrom(geo, necessary[j], next, outcome)
    ensures outcome.Expanded? ==> VolumeLt(geo.volume(outcome.entry.region), geo.volume(QlrTable.AlcoveC2()))
    ensures outcome.Full? ==> !VolumeLt(geo.volume(outcome.entry.region), geo.volume(QlrTable.AlcoveC2()))
  {
    var tail := FindAncestor(necessary, DropLast(next.operations));
    if tail.None? {
      return Skipped;
    }
    var composed := IntersectAndProjectToC(geo, tail.value.region, next.region);
    if composed.None? {
      return RhoIndexError;
    }
    var entry := GatePolytope(geo.reduce(composed.value), next.cost, next.operations);
    if VolumeLt(geo.volume(entry.region), geo.volume(QlrTable.AlcoveC2())) {
      outcome := Expanded(entry);
    } else {
      outcome := Full(entry);
    }
  }

  /** `c` is the composition of `a` with `b` and `r` its reduction. */
  predicate Composes(geo: Geometry, a: Polytope, b: Polytope, r: Polytope)
  {
    var c := ComposeSpec(geo, a, b);
    c.Some? && r == geo.reduce(c.value)
  }

  /** `g` was built from the first entry of `necessary` carrying its ancestor
      key, which sits before position `bound`, composed with the region of
      the operation whose gates end `g`'s gate sequence. */
  ghost predicate BuiltFrom(geo: Geometry, operations: seq<GatePolytope>, necessary: seq<GatePolytope>,
                            bound: int, g: GatePolytope)
  {
    exists j, i :: IsFirstAncestor(necessary, DropLast(g.operations), j) && j < bound && 0 <= i < |operations| &&
      EndsWith(g.operations, operations[i].operations) &&
      Composes(geo, necessary[j].region, operations[i].region, g.region)
  }

  /** Appending entries does not move the first ancestor of an entry built
      from the earlier ones, and a later bound still bounds it. */
  lemma BuiltFromExtend(geo: Geometry, operations: seq<GatePolytope>, necessary: seq<GatePolytope>,
                        more: seq<GatePolytope>, bound: int, bound': int, g: GatePolytope)
    requires BuiltFrom(geo, operations, necessary, bound, g) && bound <= bound'
    ensures BuiltFrom(geo, operations, necessary + more, bound', g)
  {
    var j, i :| IsFirstAncestor(necessary, DropLast(g.operations), j) && j < bound && 0 <= i < |operations| &&
      EndsWith(g.operations, operations[i].operations) &&
      Composes(geo, necessary[j].region, operations[i].region, g.region);
    var n := necessary + more;
    assert n[j] == necessary[j];
    assert forall j' :: 0 <= j' < j ==> n[j'] == necessary[j'];
    assert IsFirstAncestor(n, DropLast(g.operations), j);
  }

  /** Every necessary entry after the first was built from an earlier one. */
  ghost predicate BuiltInOrder(geo: Geometry, operations: seq<GatePolytope>, necessary: seq<GatePolytope>)
  {
    forall k :: 1 <= k < |necessary| ==> BuiltFrom(geo, operations, necessary, k, necessary[k])
  }

  /** Some entry before position `k` carries the gate sequence of entry `k`
      without its last gate. */
  predicate HasEarlierParent(necessary: seq<GatePolytope>, k: int)
    requires 0 <= k < |necessary|
  {
    exists j :: 0 <= j < k && necessary[j].operations == DropLast(necessary[k].operations)
  }

  /** Prefix closure: every entry after the first has, earlier in the list,
      an entry whose gate sequence is its own without the last gate. */
  lemma PrefixClosed(geo: Geometry, operations: seq<GatePolytope>, necessary: seq<GatePolytope>)
    requires BuiltInOrder(geo, operations, necessary)
    ensures forall k :: 1 <= k < |necessary| ==> HasEarlierParent(necessary, k)
  {
    forall k | 1 <= k < |necessary|
      ensures HasEarlierParent(necessary, k)
    {
      assert BuiltFrom(geo, operations, necessary, k, necessary[k]);
      var j, i :| IsFirstAncestor(necessary, DropLast(necessary[k].operations), j) && j < k && 0 <= i < |operations| &&
        EndsWith(necessary[k].operations, operations[i].operations) &&
        Composes(geo, necessary[j].region, operations[i].region, necessary[k].region);
      assert 0 <= j < k && necessary[j].operations == DropLast(necessary[k].operations);
    }
  }

  /** Entry `k` is the reduced composition of an earlier entry with the region
      of an operation, and its gate sequence is that entry's followed by the
      operation's gates. */
  ghost predicate ComposedFromEarlier(geo: Geometry, operations: seq<GatePolytope>, necessary: seq<GatePolytope>, k: int)
    requires 0 <= k < |necessary|
  {
    exists j, i :: 0 <= j < k && 0 <= i < |operations| &&
      necessary[k].operations == necessary[j].operations + operations[i].operations &&
      Composes(geo, necessary[j].region, operations[i].region, necessary[k].region)
  }

  /** With one-gate operations, every accepted sequence `s' + op` after the
      identity has the region `compose(region(s'), region(op))`, reduced,
      where `s'` was accepted before it. */
  lemma SequenceComposes(geo: Geometry, operations: seq<GatePolytope>, necessary: seq<GatePolytope>)
    requires OneGateOperations(operations)
    requires BuiltInOrder(geo, operations, necessary)
    ensures forall k :: 1 <= k < |necessary| ==> ComposedFromEarlier(geo, operations, necessary, k)
  {
    forall k | 1 <= k < |necessary|
      ensures ComposedFromEarlier(geo, operations, necessary, k)
    {
      EntryComposes(geo, operations, necessary, k);
    }
  }

  /** One entry of `SequenceComposes`. */
  lemma EntryComposes(geo: Geometry, operations: seq<GatePolytope>, necessary: seq<GatePolytope>, k: int)
    requires OneGateOperations(operations)
    requires 0 <= k < |necessary| && BuiltFrom(geo, operations, necessary, k, necessary[k])
    ensures ComposedFromEarlier(geo, operations, necessary, k)
  {
    var j, i :| IsFirstAncestor(necessary, DropLast(necessary[k].operations), j) && j < k && 0 <= i < |operations| &&
      EndsWith(necessary[k].operations, operations[i].operations) &&
      Composes(geo, necessary[j].region, operations[i].region, necessary[k].region);
    var s := necessary[k].operations;
    assert |operations[i].operations| == 1;
    assert s[|s| - 1..] == [s[|s| - 1]];
    assert s == necessary[j].operations + operations[i].operations;
  }

  predicate CostsSorted(necessary: seq<GatePolytope>)
  {
    forall j, k :: 0 <= j < k < |necessary| ==> necessary[j].cost <= necessary[k].cost
  }

  /** Every frontier entry continues by one of the operations. */
  ghost predicate FromOperations(operations: seq<GatePolytope>, frontier: seq<GatePolytope>)
  {
    forall f :: f in frontier ==> exists i :: 0 <= i < |operations| && ContinuesWith(f, operations[i])
  }

  /** With non-negative operation costs: the frontier is no cheaper than the
      waiting cost, the batch is exactly at it, and the necessary list is
      sorted by cost and no dearer than it. */
  predicate CostLevels(frontier: seq<GatePolytope>, batch: seq<GatePolytope>, necessary: seq<GatePolytope>, waiting: real)
  {
    (forall f :: f in frontier ==> f.cost >= waiting) &&
    (forall b :: b in batch ==> b.cost == waiting) &&
    (forall k :: 0 <= k < |necessary| ==> necessary[k].cost <= waiting) &&
    CostsSorted(necessary)
  }

  /** A flush keeps the necessary list built in order: the entries already
      there keep their first ancestors, and each kept batch member finds its
      first ancestor among them. */
  lemma FlushKeepsOrder(geo: Geometry, operations: seq<GatePolytope>, necessary: seq<GatePolytope>,
                        batch: seq<GatePolytope>, kept: seq<GatePolytope>)
    requires BuiltInOrder(geo, operations, necessary)
    requires forall b :: b in batch ==> BuiltFrom(geo, operations, necessary, |necessary|, b)
    requires forall k :: 0 <= k < |kept| ==> kept[k] in batch
    ensures BuiltInOrder(geo, operations, necessary + kept)
  {
    var n := necessary + kept;
    forall k | 1 <= k < |n|
      ensures BuiltFrom(geo, operations, n, k, n[k])
    {
      if k < |necessary| {
        assert n[k] == necessary[k];
        BuiltFromExtend(geo, operations, necessary, kept, k, k, n[k]);
      } else {
        assert n[k] == kept[k - |necessary|];
        BuiltFromExtend(geo, operations, necessary, kept, |necessary|, k, n[k]);
      }
    }
  }

  lemma FlushKeepsCosts(necessary: seq<GatePolytope>, batch: seq<GatePolytope>, kept: seq<GatePolytope>, waiting: real)
    requires CostLevels([], batch, necessary, waiting)
    requires forall k :: 0 <= k < |kept| ==> kept[k] in batch
    ensures CostLevels([], [], necessary + kept, waiting)
  {
  }

  /** What holds of the search state at the head of every iteration. */
  ghost predicate SearchInvariant(geo: Geometry, operations: seq<GatePolytope>, necessary: seq<GatePolytope>,
                                  frontier: seq<GatePolytope>, batch: seq<GatePolytope>, waiting: real)
  {
    |necessary| >= 1 && necessary[0] == IdentityEntry(geo) &&
    BuiltInOrder(geo, operations, necessary) &&
    (forall b :: b in batch ==> BuiltFrom(geo, operations, necessary, |necessary|, b)) &&
    FromOperations(operations, frontier) &&
    (NonNegativeCosts(operations) ==> CostLevels(frontier, batch, necessary, waiting))
  }

  /** Popping an entry dearer than the waiting cost flushes the batch and
      raises the waiting cost to the popped entry's, keeping the invariant. */
  lemma FlushStep(geo: Geometry, operations: seq<GatePolytope>, necessary: seq<GatePolytope>,
                  frontier: seq<GatePolytope>, batch: seq<GatePolytope>, waiting: real,
                  total: Polytope, next: GatePolytope, rest: seq<GatePolytope>)
    requires SearchInvariant(geo, operations, necessary, frontier, batch, waiting)
    requires next in frontier && (forall f :: f in rest ==> f in frontier)
    requires forall f :: f in frontier ==> !Lt(geo, f, next)
    requires next.cost > waiting
    ensures SearchInvariant(geo, operations, necessary + Trim(geo, batch, [total]), rest, [], next.cost)
  {
    var kept := Trim(geo, batch, [total]);
    FlushKeepsOrder(geo, operations, necessary, batch, kept);
    if NonNegativeCosts(operations) {
      FlushKeepsCosts(necessary, batch, kept, waiting);
    }
  }

  /** Popping an entry at the waiting cost leaves everything else as it was;
      with non-negative costs the popped entry is exactly at the waiting cost. */
  lemma WaitStep(geo: Geometry, operations: seq<GatePolytope>, necessary: seq<GatePolytope>,
                 frontier: seq<GatePolytope>, batch: seq<GatePolytope>, waiting: real,
                 next: GatePolytope, rest: seq<GatePolytope>)
    requires SearchInvariant(geo, operations, necessary, frontier, batch, waiting)
    requires next in frontier && (forall f :: f in rest ==> f in frontier)
    requires next.cost <= waiting
    ensures SearchInvariant(geo, operations, necessary, rest, batch, waiting)
    ensures NonNegativeCosts(operations) ==> next.cost == waiting
  {
  }

  /** Exploring the popped entry keeps the invariant: the new entry joins the
      batch, and its continuations, if pushed, are operation regions no
      cheaper than it. */
  lemma ExploreStep(geo: Geometry, operations: seq<GatePolytope>, necessary: seq<GatePolytope>,
                    rest: seq<GatePolytope>, batch: seq<GatePolytope>, waiting: real,
                    next: GatePolytope, outcome: StepOutcome)
    requires SearchInvariant(geo, operations, necessary, rest, batch, waiting)
    requires exists i :: 0 <= i < |operations| && ContinuesWith(next, operations[i])
    requires NonNegativeCosts(operations) ==> next.cost == waiting
    requires !outcome.Skipped? ==>
      exists j :: IsFirstAncestor(necessary, DropLast(next.operations), j) && StepFrom(geo, necessary[j], next, outcome)
    ensures outcome.Expanded? ==>
      SearchInvariant(geo, operations, necessary, rest + Expansions(next, operations), batch + [outcome.entry], waiting)
    ensures outcome.Full? ==>
      SearchInvariant(geo, operations, necessary, rest, batch + [outcome.entry], waiting)
  {
    if outcome.Expanded? || outcome.Full? {
      EntryComposed(geo, operations, necessary, next, outcome);
      BatchGrows(geo, operations, necessary, batch, waiting, outcome.entry);
      if outcome.Expanded? {
        FrontierGrows(operations, rest, next, waiting);
      }
    }
  }

  /** A new entry built from the necessary list, at the waiting cost, can
      join the batch without breaking what the invariant says of the batch. */
  lemma BatchGrows(geo: Geometry, operations: seq<GatePolytope>, necessary: seq<GatePolytope>,
                   batch: seq<GatePolytope>, waiting: real, entry: GatePolytope)
    requires forall b :: b in batch ==> BuiltFrom(geo, operations, necessary, |necessary|, b)
    requires BuiltFrom(geo, operations, necessary, |necessary|, entry)
    ensures forall b :: b in batch + [entry] ==> BuiltFrom(geo, operations, necessary, |necessary|, b)
    ensures (forall b :: b in batch ==> b.cost == waiting) && entry.cost == waiting ==>
      forall b :: b in batch + [entry] ==> b.cost == waiting
  {
    assert forall b :: b in batch + [entry] ==> b in batch || b == entry;
  }

  /** Pushing the continuations of `next` keeps the frontier made of operation
      regions and, with non-negative costs, no cheaper than the waiting cost. */
  lemma FrontierGrows(operations: seq<GatePolytope>, rest: seq<GatePolytope>, next: GatePolytope, waiting: real)
    requires FromOperations(operations, rest)
    requires NonNegativeCosts(operations) ==> next.cost == waiting && forall f :: f in rest ==> f.cost >= waiting
    ensures FromOperations(operations, rest + Expansions(next, operations))
    ensures NonNegativeCosts(operations) ==> forall f :: f in rest + Expansions(next, operations) ==> f.cost >= waiting
  {
    ExpansionsExtend(next, operations);
    assert forall f :: f in rest + Expansions(next, operations) ==> f in rest || f in Expansions(next, operations);
  }

  /** The last flush leaves a list that starts with the identity, is built in
      order and, with non-negative costs, is sorted by cost. */
  lemma FinalFlush(geo: Geometry, operations: seq<GatePolytope>, necessary: seq<GatePolytope>,
                   frontier: seq<GatePolytope>, batch: seq<GatePolytope>, waiting: real, total: Polytope)
    requires SearchInvariant(geo, operations, necessary, frontier, batch, waiting)
    ensures var n := necessary + Trim(geo, batch, [total]);
      |n| >= 1 && n[0] == IdentityEntry(geo) && BuiltInOrder(geo, operations, n) &&
      (OneGateOperations(operations) ==> forall k :: 1 <= k < |n| ==> ComposedFromEarlier(geo, operations, n, k)) &&
      (NonNegativeCosts(operations) ==> CostsSorted(n))
  {
    var kept := Trim(geo, batch, [total]);
    FlushKeepsOrder(geo, operations, necessary, batch, kept);
    if OneGateOperations(operations) {
      SequenceComposes(geo, operations, necessary + kept);
    }
    if NonNegativeCosts(operations) {
      FlushKeepsCosts(necessary, batch, kept, waiting);
    }
  }

  /** What `build_coverage_set` returns: the necessary list, or the error the
      rho loop raises, or (the search being unbounded) a report that the
      step budget ran out first. */
  datatype SearchResult = Built(necessary: seq<GatePolytope>) | RhoFailed | FuelExhausted

  /** The head of the main loop: pop the cheapest entry and, when it is
      dearer than the waiting cost, flush the batch and raise the waiting
      cost to the popped entry's. */
  method Advance(geo: Geometry, operations: seq<GatePolytope>, necessary: seq<GatePolytope>, total: Polytope,
                 frontier: seq<GatePolytope>, batch: seq<GatePolytope>, waiting: real)
    returns (next: GatePolytope, necessary': seq<GatePolytope>, total': Polytope, rest: seq<GatePolytope>,
             batch': seq<GatePolytope>, waiting': real)
    requires |frontier| > 0
    requires SearchInvariant(geo, operations, necessary, frontier, batch, waiting)
    ensures multiset(rest) + multiset{next} == multiset(frontier)
    ensures forall f :: f in frontier ==> !Lt(geo, f, next)
    ensures next.cost > waiting ==>
      necessary' == necessary + Trim(geo, batch, [total]) && total' == UnionAll(geo, total, batch, |batch|) &&
      batch' == [] && waiting' == next.cost
    ensures next.cost <= waiting ==>
      necessary' == necessary && total' == total && batch' == batch && waiting' == waiting
    ensures AfterPop(geo, SearchState(necessary, total, frontier, batch, waiting), next, rest) ==
      SearchState(necessary', total', rest, batch', waiting')
    ensures SearchInvariant(geo, operations, necessary', rest, batch', waiting')
    ensures exists i :: 0 <= i < |operations| && ContinuesWith(next, operations[i])
    ensures NonNegativeCosts(operations) ==> next.cost == waiting'
  {
    next, rest := PopMin(geo, frontier);
    assert next in frontier;
    if next.cost > waiting {
      FlushStep(geo, operations, necessary, frontier, batch, waiting, total, next, rest);
      necessary', total' := Flush(geo, necessary, total, batch);
      batch' := [];
      waiting' := next.cost;
    } else {
      WaitStep(geo, operations, necessary, frontier, batch, waiting, next, rest);
      necessary', total', batch', waiting' := necessary, total, batch, waiting;
    }
  }

  /** The rest of the loop body: explore the popped entry, add the new region
      to the batch and, short of the full volume, push its continuations. */
  method Record(geo: Geometry, operations: seq<GatePolytope>, necessary: seq<GatePolytope>,
                frontier: seq<GatePolytope>, batch: seq<GatePolytope>, waiting: real, next: GatePolytope)
    returns (outcome: StepOutcome, frontier': seq<GatePolytope>, batch': seq<GatePolytope>)
    requires SearchInvariant(geo, operations, necessary, frontier, batch, waiting)
    requires exists i :: 0 <= i < |operations| && ContinuesWith(next, operations[i])
    requires NonNegativeCosts(operations) ==> next.cost == waiting
    ensures outcome.Skipped? <==>
      forall j :: 0 <= j < |necessary| ==> necessary[j].operations != DropLast(next.operations)
    ensures !outcome.Skipped? ==>
      exists j :: IsFirstAncestor(necessary, DropLast(next.operations), j) && StepFrom(geo, necessary[j], next, outcome)
    ensures outcome.Skipped? || outcome.RhoIndexError? ==> frontier' == frontier && batch' == batch
    ensures outcome.Expanded? ==> batch' == batch + [outcome.entry] && frontier' == frontier + Expansions(next, operations)
    ensures outcome.Full? ==> batch' == batch + [outcome.entry] && frontier' == frontier && EndsFull(geo, batch')
    ensures !outcome.RhoIndexError? ==> SearchInvariant(geo, operations, necessary, frontier', batch', waiting)
  {
    outcome := Explore(geo, necessary, next);
    ExploreStep(geo, operations, necessary, frontier, batch, waiting, next, outcome);
    frontier', batch' := frontier, batch;
    match outcome {
      case Skipped =>
      case RhoIndexError =>
      case Expanded(entry) =>
        batch' := batch + [entry];
        frontier' := PushExpansions(frontier, next, operations);
      case Full(entry) =>
        batch' := batch + [entry];
    }
  }

  /** The batch ends with a region that has the full alcove's volume. */
  predicate EndsFull(geo: Geometry, batch: seq<GatePolytope>)
  {
    |batch| > 0 && !VolumeLt(geo.volume(batch[|batch| - 1].region), geo.volume(QlrTable.AlcoveC2()))
  }

  /** The variables of the main loop between two iterations: the necessary
      list, the running total, the frontier (heap), the batch to be reduced
      and the waiting cost. */
  datatype SearchState = SearchState(necessary: seq<GatePolytope>, total: Polytope, frontier: seq<GatePolytope>,
                                     batch: seq<GatePolytope>, waiting: real)

  /** One iteration, as seen from outside: the entry popped, the frontier left
      after the pop, and what exploring the entry gave. */
  datatype Move = Move(next: GatePolytope, rest: seq<GatePolytope>, outcome: StepOutcome)

  /** The outcomes after which the loop goes round again. */
  predicate Continues(outcome: StepOutcome)
  {
    outcome.Skipped? || outcome.Expanded?
  }

  /** The state after popping `next` (leaving `rest`): when `next` is dearer
      than the waiting cost, the batch is trimmed into the list, merged into
      the total and emptied, and the waiting cost becomes `next`'s. */
  function AfterPop(geo: Geometry, s: SearchState, next: GatePolytope, rest: seq<GatePolytope>): SearchState
  {
    if next.cost > s.waiting then
      SearchState(s.necessary + Trim(geo, s.batch, [s.total]), UnionAll(geo, s.total, s.batch, |s.batch|),
                  rest, [], next.cost)
    else
      SearchState(s.necessary, s.total, rest, s.batch, s.waiting)
  }

  /** Exploring `next` against the list `necessary` gives `outcome` and
      takes the frontier and batch to `frontier'` and `batch'`: skipped
      exactly when no necessary entry is its ancestor, otherwise the step
      from the first ancestor; the batch and frontier change as the outcome
      says. */
  ghost predicate Explored(geo: Geometry, operations: seq<GatePolytope>, necessary: seq<GatePolytope>,
                           frontier: seq<GatePolytope>, batch: seq<GatePolytope>, next: GatePolytope,
                           outcome: StepOutcome, frontier': seq<GatePolytope>, batch': seq<GatePolytope>)
  {
    (outcome.Skipped? <==> forall j :: 0 <= j < |necessary| ==> necessary[j].operations != DropLast(next.operations)) &&
    (!outcome.Skipped? ==>
      exists j :: IsFirstAncestor(necessary, DropLast(next.operations), j) && StepFrom(geo, necessary[j], next, outcome)) &&
    (outcome.Skipped? || outcome.RhoIndexError? ==> frontier' == frontier && batch' == batch) &&
    (outcome.Expanded? ==> batch' == batch + [outcome.entry] && frontier' == frontier + Expansions(next, operations)) &&
    (outcome.Full? ==> batch' == batch + [outcome.entry] && frontier' == frontier)
  }

  /** One iteration of the main loop takes `s` to `s'` by the move `m`: `m.next`
      is a least entry of the frontier, removed from it to leave `m.rest`, and
      is explored after the flush its cost may trigger. */
  ghost predicate SearchStep(geo: Geometry, operations: seq<GatePolytope>, s: SearchState, m: Move, s': SearchState)
  {
    multiset(m.rest) + multiset{m.next} == multiset(s.frontier) &&
    (forall f :: f in s.frontier ==> !Lt(geo, f, m.next)) &&
    var popped := AfterPop(geo, s, m.next, m.rest);
    s'.necessary == popped.necessary && s'.total == popped.total && s'.waiting == popped.waiting &&
    Explored(geo, operations, popped.necessary, popped.frontier, popped.batch, m.next, m.outcome, s'.frontier, s'.batch)
  }

  /** `states` is a run of the main loop: each state follows from the one
      before it by the corresponding move. */
  ghost predicate Trace(geo: Geometry, operations: seq<GatePolytope>, states: seq<SearchState>, moves: seq<Move>)
    decreases |moves|
  {
    |states| == |moves| + 1 &&
    (|moves| > 0 ==>
      Trace(geo, operations, states[..|moves|], moves[..|moves| - 1]) &&
      SearchStep(geo, operations, states[|moves| - 1], moves[|moves| - 1], states[|moves|]))
  }

  /** The first `n` moves all let the loop go round again. */
  ghost predicate ContinuedBefore(moves: seq<Move>, n: int)
  {
    forall t :: 0 <= t < n && t < |moves| ==> Continues(moves[t].outcome)
  }

  /** Appending a move keeps the earlier moves going round, and adds one
      more when the new move does too. */
  lemma ContinuedExtend(moves: seq<Move>, m: Move)
    requires ContinuedBefore(moves, |moves|)
    ensures ContinuedBefore(moves + [m], |moves|)
    ensures Continues(m.outcome) ==> ContinuedBefore(moves + [m], |moves| + 1)
  {
    var moves' := moves + [m];
    forall t | 0 <= t < |moves|
      ensures moves'[t] == moves[t]
    {
    }
  }

  /** A run extended by one more step is a run. */
  lemma TraceExtend(geo: Geometry, operations: seq<GatePolytope>, states: seq<SearchState>, moves: seq<Move>,
                    m: Move, s': SearchState)
    requires Trace(geo, operations, states, moves)
    requires SearchStep(geo, operations, states[|states| - 1], m, s')
    ensures Trace(geo, operations, states + [s'], moves + [m])
  {
    assert (states + [s'])[..|moves| + 1] == states;
    assert (moves + [m])[..|moves|] == moves;
  }

  /** Every step of a run is a `SearchStep`. */
  lemma {:induction false} TraceSteps(geo: Geometry, operations: seq<GatePolytope>, states: seq<SearchState>,
                                      moves: seq<Move>, t: int)
    requires Trace(geo, operations, states, moves)
    requires 0 <= t < |moves|
    ensures SearchStep(geo, operations, states[t], moves[t], states[t + 1])
    decreases |moves|
  {
    if t < |moves| - 1 {
      var n := |moves|;
      TraceSteps(geo, operations, states[..n], moves[..n - 1], t);
      assert states[..n][t] == states[t] && states[..n][t + 1] == states[t + 1] && moves[..n - 1][t] == moves[t];
    }
  }

  /** One iteration of the main loop on the state `s`: `Advance` followed by
      `Record`. Besides the step itself, it keeps the search invariant unless
      the rho loop raised. */
  method Iterate(geo: Geometry, operations: seq<GatePolytope>, s: SearchState) returns (m: Move, s': SearchState)
    requires |s.frontier| > 0
    requires SearchInvariant(geo, operations, s.necessary, s.frontier, s.batch, s.waiting)
    ensures SearchStep(geo, operations, s, m, s')
    ensures !m.outcome.RhoIndexError? ==> SearchInvariant(geo, operations, s'.necessary, s'.frontier, s'.batch, s'.waiting)
  {
    var next, necessary, total, rest, batch, waiting := Advance(geo, operations, s.necessary, s.total, s.frontier, s.batch, s.waiting);
    var outcome, frontier', batch' := Record(geo, operations, necessary, rest, batch, waiting, next);
    RecordExplores(geo, operations, necessary, rest, batch, next, outcome, frontier', batch');
    m, s' := Move(next, rest, outcome), SearchState(necessary, total, frontier', batch', waiting);
    StepOf(geo, operations, s, next, rest, outcome, SearchState(necessary, total, rest, batch, waiting), s');
  }

  /** The two outcomes that stop the loop, read off a step: a full-volume
      entry ends the new batch, and the rho error is raised for the first
      ancestor of the popped entry. */
  lemma StepEnds(geo: Geometry, operations: seq<GatePolytope>, s: SearchState, m: Move, s': SearchState)
    requires SearchStep(geo, operations, s, m, s')
    ensures m.outcome.Full? ==> EndsFull(geo, s'.batch)
    ensures m.outcome.RhoIndexError? ==>
      exists j :: IsFirstAncestor(s'.necessary, DropLast(m.next.operations), j) &&
        ComposeSpec(geo, s'.necessary[j].region, m.next.region).None?
  {
    var popped := AfterPop(geo, s, m.next, m.rest);
    if !m.outcome.Skipped? {
      var j :| IsFirstAncestor(popped.necessary, DropLast(m.next.operations), j) &&
        StepFrom(geo, popped.necessary[j], m.next, m.outcome);
      if m.outcome.Full? {
        assert s'.batch[|s'.batch| - 1] == m.outcome.entry;
      }
    }
  }

  /** `Iterate` on the last state of the run `states`, `moves`, which it
      extends by the step taken. */
  method IterateRun(geo: Geometry, operations: seq<GatePolytope>, s: SearchState,
                    ghost states: seq<SearchState>, ghost moves: seq<Move>)
    returns (m: Move, s': SearchState, ghost states': seq<SearchState>, ghost moves': seq<Move>)
    requires |s.frontier| > 0
    requires SearchInvariant(geo, operations, s.necessary, s.frontier, s.batch, s.waiting)
    requires Trace(geo, operations, states, moves) && states[|moves|] == s
    requires ContinuedBefore(moves, |moves|)
    ensures states' == states + [s'] && moves' == moves + [m]
    ensures Trace(geo, operations, states', moves') && states'[|moves'|] == s'
    ensures ContinuedBefore(moves', |moves|)
    ensures Continues(m.outcome) ==> ContinuedBefore(moves', |moves'|)
    ensures m.outcome.Full? ==> EndsFull(geo, s'.batch)
    ensures m.outcome.RhoIndexError? ==>
      exists j :: IsFirstAncestor(s'.necessary, DropLast(m.next.operations), j) &&
        ComposeSpec(geo, s'.necessary[j].region, m.next.region).None?
    ensures !m.outcome.RhoIndexError? ==> SearchInvariant(geo, operations, s'.necessary, s'.frontier, s'.batch, s'.waiting)
  {
    m, s' := Iterate(geo, operations, s);
    StepEnds(geo, operations, s, m, s');
    TraceExtend(geo, operations, states, moves, m, s');
    ContinuedExtend(moves, m);
    states', moves' := states + [s'], moves + [m];
  }

  /** A pop of a least entry, followed by the flush it triggers and an
      exploration, is a `SearchStep`. */
  lemma StepOf(geo: Geometry, operations: seq<GatePolytope>, s: SearchState, next: GatePolytope,
               rest: seq<GatePolytope>, outcome: StepOutcome, popped: SearchState, s': SearchState)
    requires multiset(rest) + multiset{next} == multiset(s.frontier)
    requires forall f :: f in s.frontier ==> !Lt(geo, f, next)
    requires AfterPop(geo, s, next, rest) == popped
    requires s'.necessary == popped.necessary && s'.total == popped.total && s'.waiting == popped.waiting
    requires Explored(geo, operations, popped.necessary, popped.frontier, popped.batch, next, outcome, s'.frontier, s'.batch)
    ensures SearchStep(geo, operations, s, Move(next, rest, outcome), s')
  {
  }

  /** What `Record` ensures is `Explored`. */
  lemma RecordExplores(geo: Geometry, operations: seq<GatePolytope>, necessary: seq<GatePolytope>,
                       frontier: seq<GatePolytope>, batch: seq<GatePolytope>, next: GatePolytope,
                       outcome: StepOutcome, frontier': seq<GatePolytope>, batch': seq<GatePolytope>)
    requires outcome.Skipped? <==>
      forall j :: 0 <= j < |necessary| ==> necessary[j].operations != DropLast(next.operations)
    requires !outcome.Skipped? ==>
      exists j :: IsFirstAncestor(necessary, DropLast(next.operations), j) && StepFrom(geo, necessary[j], next, outcome)
    requires outcome.Skipped? || outcome.RhoIndexError? ==> frontier' == frontier && batch' == batch
    requires outcome.Expanded? ==> batch' == batch + [outcome.entry] && frontier' == frontier + Expansions(next, operations)
    requires outcome.Full? ==> batch' == batch + [outcome.entry] && frontier' == frontier
    ensures Explored(geo, operations, necessary, frontier, batch, next, outcome, frontier', batch')
  {
  }

  /** How the main loop was left: the frontier ran out, a region reached the
      full volume, the rho loop raised on the given popped entry, or the
      step budget ran out. */
  datatype LoopExit = Drained | ReachedFull | RhoRaised(failedOn: GatePolytope) | OutOfFuel

  /** The main loop was left as `exit` says, in the state `last`, after
      `moves`: drained, or out of fuel after `fuel` iterations with entries
      left, only after moves that all let the loop go round again; on a full
      volume when the last move gave `Full`, whose region then ends the batch;
      on the rho error when the last move raised it, for the first ancestor of
      the popped entry. Short of the rho error the search invariant holds. */
  ghost predicate LeftAs(geo: Geometry, operations: seq<GatePolytope>, fuel: nat, exit: LoopExit, last: SearchState,
                         moves: seq<Move>)
  {
    (exit.Drained? ==> last.frontier == [] && ContinuedBefore(moves, |moves|)) &&
    (exit.OutOfFuel? ==> |moves| == fuel && |last.frontier| > 0 && ContinuedBefore(moves, |moves|)) &&
    (exit.ReachedFull? ==> |moves| > 0 && moves[|moves| - 1].outcome.Full? && EndsFull(geo, last.batch)) &&
    (exit.RhoRaised? ==>
      |moves| > 0 && moves[|moves| - 1].outcome.RhoIndexError? && exit.failedOn == moves[|moves| - 1].next &&
      exists j :: IsFirstAncestor(last.necessary, DropLast(exit.failedOn.operations), j) &&
        ComposeSpec(geo, last.necessary[j].region, exit.failedOn.region).None?) &&
    (!exit.RhoRaised? ==> SearchInvariant(geo, operations, last.necessary, last.frontier, last.batch, last.waiting))
  }

  /** What `build_coverage_set` reports after a run ending in `last` with
      `moves`: the exhausted budget only after `fuel` iterations, with entries
      left, none of which stopped the loop; the rho error exactly when the
      last move raised it, for the first ancestor of the popped entry;
      otherwise the last list followed by the trimmed last batch, on both
      ways out of the loop. That list starts with the identity, is built in
      order, composes every later entry from an earlier one (for one-gate
      operations), and is sorted by cost (for non-negative costs). */
  ghost predicate Concluded(geo: Geometry, operations: seq<GatePolytope>, fuel: nat, result: SearchResult,
                            last: SearchState, moves: seq<Move>)
  {
    (result.FuelExhausted? ==> |moves| == fuel && |last.frontier| > 0 && ContinuedBefore(moves, |moves|)) &&
    (result.RhoFailed? <==> |moves| > 0 && moves[|moves| - 1].outcome.RhoIndexError?) &&
    (result.RhoFailed? ==>
      exists j :: IsFirstAncestor(last.necessary, DropLast(moves[|moves| - 1].next.operations), j) &&
        ComposeSpec(geo, last.necessary[j].region, moves[|moves| - 1].next.region).None?) &&
    (result.Built? ==> result.necessary == last.necessary + Trim(geo, last.batch, [last.total])) &&
    (result.Built? ==>
      (last.frontier == [] && ContinuedBefore(moves, |moves|)) ||
      (|moves| > 0 && moves[|moves| - 1].outcome.Full? && EndsFull(geo, last.batch))) &&
    (result.Built? ==> |result.necessary| >= 1 && result.necessary[0] == IdentityEntry(geo)) &&
    (result.Built? ==> BuiltInOrder(geo, operations, result.necessary)) &&
    (result.Built? && OneGateOperations(operations) ==>
      forall k :: 1 <= k < |result.necessary| ==> ComposedFromEarlier(geo, operations, result.necessary, k)) &&
    (result.Built? && NonNegativeCosts(operations) ==> CostsSorted(result.necessary))
  }

  /** The `while` loop of `build_coverage_set`, for at most `fuel` iterations,
      from the state `s0`. The ghost `states` and `moves` are the run: it
      starts from `s0`, each iteration is a `SearchStep`, it ends in the
      returned state `s`, and every iteration but the last let the loop go
      round again. How the loop was left is read off the last move and `s`. */
  method MainLoop(geo: Geometry, operations: seq<GatePolytope>, fuel: nat, s0: SearchState)
    returns (exit: LoopExit, s: SearchState, ghost states: seq<SearchState>, ghost moves: seq<Move>)
    requires SearchInvariant(geo, operations, s0.necessary, s0.frontier, s0.batch, s0.waiting)
    ensures Trace(geo, operations, states, moves) && |moves| <= fuel
    ensures states[0] == s0 && states[|moves|] == s
    ensures ContinuedBefore(moves, |moves| - 1)
    ensures LeftAs(geo, operations, fuel, exit, s, moves)
  {
    s := s0;
    states, moves := [s], [];
    var fuelLeft := fuel;
    exit := Drained;
    while exit.Drained? && 0 < |s.frontier| && 0 < fuelLeft
      invariant Trace(geo, operations, states, moves) && |moves| + fuelLeft == fuel
      invariant states[0] == s0 && states[|moves|] == s
      invariant ContinuedBefore(moves, |moves| - 1)
      invariant !exit.OutOfFuel?
      invariant exit.Drained? ==> ContinuedBefore(moves, |moves|)
      invariant exit.ReachedFull? ==> |moves| > 0 && moves[|moves| - 1].outcome.Full? && EndsFull(geo, s.batch)
      invariant exit.RhoRaised? ==>
        |moves| > 0 && moves[|moves| - 1].outcome.RhoIndexError? && exit.failedOn == moves[|moves| - 1].next &&
        exists j :: IsFirstAncestor(s.necessary, DropLast(exit.failedOn.operations), j) &&
          ComposeSpec(geo, s.necessary[j].region, exit.failedOn.region).None?
      invariant !exit.RhoRaised? ==> SearchInvariant(geo, operations, s.necessary, s.frontier, s.batch, s.waiting)
      decreases fuelLeft
    {
      fuelLeft := fuelLeft - 1;
      var m;
      m, s, states, moves := IterateRun(geo, operations, s, states, moves);
      if m.outcome.RhoIndexError? {
        exit := RhoRaised(m.next);
      } else if m.outcome.Full? {
        exit := ReachedFull;
      }
    }
    if exit.Drained? && 0 < |s.frontier| {
      exit := OutOfFuel;
    }
  }

  /** The end of `build_coverage_set`, given how the main loop was left, the
      state `last` it was left in and its moves: report the exhausted budget
      or the rho error, or trim the last batch into the list and return it. */
  method Conclude(geo: Geometry, operations: seq<GatePolytope>, fuel: nat, exit: LoopExit, last: SearchState,
                  ghost moves: seq<Move>)
    returns (result: SearchResult)
    requires LeftAs(geo, operations, fuel, exit, last, moves)
    ensures Concluded(geo, operations, fuel, result, last, moves)
  {
    if exit.OutOfFuel? {
      return FuelExhausted;
    }
    if exit.RhoRaised? {
      return RhoFailed;
    }
    FinalFlush(geo, operations, last.necessary, last.frontier, last.batch, last.waiting, last.total);
    var necessary, total := Flush(geo, last.necessary, last.total, last.batch);
    result := Built(necessary);
  }

  /** `build_coverage_set`, with at most `fuel` iterations of its main loop.
      The ghost `states` and `moves` are the run of the main loop, starting
      from the identity list, the identity total, the operations as frontier,
      an empty batch and waiting cost 0; every iteration but the last let the
      loop go round again.

      When the loop is left with an empty frontier or on a full-volume
      region, the returned list is the last state's list followed by its
      trimmed batch. It starts with the identity, every later entry is the
      reduced composition of its first earlier ancestor with the region of the
      operation its gates end with, and, when operation costs are
      non-negative, the list is sorted by cost. The rho error is reported
      exactly when the last move raised it, and the budget is reported
      exhausted only after `fuel` iterations, with the frontier still
      non-empty. */
  method BuildCoverageSet(geo: Geometry, operations: seq<GatePolytope>, fuel: nat)
    returns (result: SearchResult, ghost states: seq<SearchState>, ghost moves: seq<Move>)
    ensures Trace(geo, operations, states, moves) && |moves| <= fuel
    ensures states[0] == SearchState([IdentityEntry(geo)], geo.identity, operations, [], 0.0)
    ensures ContinuedBefore(moves, |moves| - 1)
    ensures Concluded(geo, operations, fuel, result, states[|moves|], moves)
  {
    var frontier: seq<GatePolytope> := [];
    for i := 0 to |operations|
      invariant frontier == operations[..i]
    {
      frontier := frontier + [operations[i]];
    }
    assert operations[..|operations|] == operations;
    InitialFrontier(operations);
    var exit, last;
    exit, last, states, moves := MainLoop(geo, operations, fuel, SearchState([IdentityEntry(geo)], geo.identity, frontier, [], 0.0));
    result := Conclude(geo, operations, fuel, exit, last, moves);
  }

  /** The operations themselves form the first frontier: each continues by itself. */
  lemma InitialFrontier(operations: seq<GatePolytope>)
    ensures FromOperations(operations, operations)
  {
    forall f | f in operations
      ensures exists i :: 0 <= i < |operations| && ContinuesWith(f, operations[i])
    {
      var i :| 0 <= i < |operations| && operations[i] == f;
      assert f.operations[|f.operations| - |f.operations|..] == f.operations;
      assert ContinuesWith(f, operations[i]);
    }
  }
}
