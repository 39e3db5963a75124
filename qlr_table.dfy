/** The monodromy polytope for SU(4)/PU(4): a fixed table of quantum
    Littlewood–Richardson coefficients, the linear inequality each entry
    induces (inequality (*) of Theorem 23 of arXiv:1904.10541), and the Weyl
    alcove constraints. */
module QlrTable {
  import opened Polytopes

  /** Width of a raw inequality: a constant, then four alpha, four beta and
      four gamma coefficients. */
  const RawWidth: int := 13

  /** One nonzero coefficient `N_{ab}^{c,d} = 1` in the small quantum cohomology
      of k-planes in C^4: rank r, k, partitions a, b, c and quantum degree d. */
  datatype QlrEntry = QlrEntry(r: int, k: int, a: seq<int>, b: seq<int>, c: seq<int>, d: int)

  /** The stored table (only entries with a <= b in the traversal order). */
  const Table: seq<QlrEntry> := [
    QlrEntry(1, 3, [0], [0], [0], 0),
    QlrEntry(1, 3, [0], [1], [1], 0),
    QlrEntry(1, 3, [0], [2], [2], 0),
    QlrEntry(1, 3, [0], [3], [3], 0),
    QlrEntry(1, 3, [1], [1], [2], 0),
    QlrEntry(1, 3, [1], [2], [3], 0),
    QlrEntry(1, 3, [1], [3], [0], 1),
    QlrEntry(1, 3, [2], [2], [0], 1),
    QlrEntry(1, 3, [2], [3], [1], 1),
    QlrEntry(1, 3, [3], [3], [2], 1),
    QlrEntry(2, 2, [0, 0], [0, 0], [0, 0], 0),
    QlrEntry(2, 2, [0, 0], [1, 0], [1, 0], 0),
    QlrEntry(2, 2, [0, 0], [1, 1], [1, 1], 0),
    QlrEntry(2, 2, [0, 0], [2, 0], [2, 0], 0),
    QlrEntry(2, 2, [0, 0], [2, 1], [2, 1], 0),
    QlrEntry(2, 2, [0, 0], [2, 2], [2, 2], 0),
    QlrEntry(2, 2, [1, 0], [1, 0], [1, 1], 0),
    QlrEntry(2, 2, [1, 0], [1, 0], [2, 0], 0),
    QlrEntry(2, 2, [1, 0], [1, 1], [2, 1], 0),
    QlrEntry(2, 2, [1, 0], [2, 0], [2, 1], 0),
    QlrEntry(2, 2, [1, 0], [2, 1], [2, 2], 0),
    QlrEntry(2, 2, [1, 0], [2, 1], [0, 0], 1),
    QlrEntry(2, 2, [1, 0], [2, 2], [1, 0], 1),
    QlrEntry(2, 2, [1, 1], [1, 1], [2, 2], 0),
    QlrEntry(2, 2, [1, 1], [2, 0], [0, 0], 1),
    QlrEntry(2, 2, [1, 1], [2, 1], [1, 0], 1),
    QlrEntry(2, 2, [1, 1], [2, 2], [2, 0], 1),
    QlrEntry(2, 2, [2, 0], [2, 0], [2, 2], 0),
    QlrEntry(2, 2, [2, 0], [2, 1], [1, 0], 1),
    QlrEntry(2, 2, [2, 0], [2, 2], [1, 1], 1),
    QlrEntry(2, 2, [2, 1], [2, 1], [2, 0], 1),
    QlrEntry(2, 2, [2, 1], [2, 1], [1, 1], 1),
    QlrEntry(2, 2, [2, 1], [2, 2], [2, 1], 1),
    QlrEntry(2, 2, [2, 2], [2, 2], [0, 0], 2),
    QlrEntry(3, 1, [0, 0, 0], [0, 0, 0], [0, 0, 0], 0),
    QlrEntry(3, 1, [0, 0, 0], [1, 0, 0], [1, 0, 0], 0),
    QlrEntry(3, 1, [0, 0, 0], [1, 1, 0], [1, 1, 0], 0),
    QlrEntry(3, 1, [0, 0, 0], [1, 1, 1], [1, 1, 1], 0),
    QlrEntry(3, 1, [1, 0, 0], [1, 0, 0], [1, 1, 0], 0),
    QlrEntry(3, 1, [1, 0, 0], [1, 1, 0], [1, 1, 1], 0),
    QlrEntry(3, 1, [1, 0, 0], [1, 1, 1], [0, 0, 0], 1),
    QlrEntry(3, 1, [1, 1, 0], [1, 1, 0], [0, 0, 0], 1),
    QlrEntry(3, 1, [1, 1, 0], [1, 1, 1], [1, 0, 0], 1),
    QlrEntry(3, 1, [1, 1, 1], [1, 1, 1], [1, 1, 0], 1)
  ]

  // ---------------------------------------------------------------------------
  // Well-formed entries

  /** The subscript `k + (i+1) - p_i` of the Biswas inequality for part i. */
  function Subscript(k: int, p: seq<int>, i: int): int
    requires 0 <= i < |p|
  {
    k + (i + 1) - p[i]
  }

  /** `p` is a partition fitting in a box of width k: parts in 0..k, non-increasing. */
  predicate Partition(k: int, p: seq<int>)
  {
    && (forall i :: 0 <= i < |p| ==> 0 <= p[i] <= k)
    && (forall i, j :: 0 <= i < j < |p| ==> p[i] >= p[j])
  }

  /** The shape every table entry has: three partitions of length r in an
      r-by-k box, with r + k = 4. */
  predicate ValidEntry(e: QlrEntry)
  {
    && 0 < e.r && 0 < e.k && e.r + e.k == 4
    && |e.a| == e.r && |e.b| == e.r && |e.c| == e.r
    && Partition(e.k, e.a) && Partition(e.k, e.b) && Partition(e.k, e.c)
  }

  /** Every subscript of `p` names one of the four coordinates of a block. */
  predicate InBlock(k: int, p: seq<int>)
  {
    forall i :: 0 <= i < |p| ==> 1 <= Subscript(k, p, i) <= 4
  }

  predicate WellFormed(e: QlrEntry)
  {
    InBlock(e.k, e.a) && InBlock(e.k, e.b) && InBlock(e.k, e.c)
  }

  predicate StrictlyIncreasing(k: int, p: seq<int>)
  {
    forall i, j :: 0 <= i < j < |p| ==> Subscript(k, p, i) < Subscript(k, p, j)
  }

  // ---------------------------------------------------------------------------
  // Raw rows: pokes into a 13-wide list, with Python's list indexing

  /** Every poke of block `p` at `offset` is a valid Python index of a 13-entry list. */
  predicate PyIndexable(k: int, p: seq<int>, offset: int)
  {
    forall i :: 0 <= i < |p| ==> -RawWidth <= Subscript(k, p, i) + offset < RawWidth
  }

  /** What `ineq_from_qlr` needs of its arguments in order not to raise. */
  predicate Pokeable(e: QlrEntry)
  {
    PyIndexable(e.k, e.a, 0) && PyIndexable(e.k, e.b, 4) && PyIndexable(e.k, e.c, 8)
  }

  /** The position a Python index `j` denotes in a 13-entry list. */
  function PyIndex(j: int): (pos: int)
    requires -RawWidth <= j < RawWidth
    ensures 0 <= pos < RawWidth
    ensures j >= 0 ==> pos == j
  {
    if j < 0 then j + RawWidth else j
  }

  /** The row after the first n pokes of `delta` for block `p` at `offset`.
      A poke outside the list is where Python raises `IndexError`; the method
      that runs the pokes requires that none is, and here such a poke leaves
      the row as it is. */
  function PokeBlock(row: seq<real>, k: int, p: seq<int>, offset: int, delta: real, n: nat): (r: seq<real>)
    requires |row| == RawWidth && n <= |p|
    ensures |r| == RawWidth
  {
    if n == 0 then row
    else
      var prev := PokeBlock(row, k, p, offset, delta, n - 1);
      var j := Subscript(k, p, n - 1) + offset;
      if -RawWidth <= j < RawWidth then
        var pos := PyIndex(j);
        prev[pos := prev[pos] + delta]
      else prev
  }

  function InitialRow(d: int): seq<real>
  {
    [d as real] + seq(RawWidth - 1, _ => 0.0)
  }

  /** The 13-wide row before the block collapse. */
  function RawRow(e: QlrEntry): (raw: seq<real>)
    ensures |raw| == RawWidth
  {
    var alpha := PokeBlock(InitialRow(e.d), e.k, e.a, 0, -1.0, |e.a|);
    var beta := PokeBlock(alpha, e.k, e.b, 4, -1.0, |e.b|);
    PokeBlock(beta, e.k, e.c, 8, 1.0, |e.c|)
  }

  /** Eliminates the fourth coordinate of each block using `x4 = -x1 - x2 - x3`:
      each retained coefficient loses its block's fourth one. */
  function Collapse(raw: seq<real>): (out: seq<real>)
    requires |raw| == RawWidth
    ensures |out| == 10
  {
    [raw[0],
     raw[1] - raw[4], raw[2] - raw[4], raw[3] - raw[4],
     raw[5] - raw[8], raw[6] - raw[8], raw[7] - raw[8],
     raw[9] - raw[12], raw[10] - raw[12], raw[11] - raw[12]]
  }

  /** The 10-wide inequality of an entry. */
  function QlrInequality(e: QlrEntry): (ineq: Inequality)
    ensures |ineq| == 10
  {
    Collapse(RawRow(e))
  }

  function Swapped(e: QlrEntry): QlrEntry
  {
    e.(a := e.b, b := e.a)
  }

  /** One of the three poke loops of `ineq_from_qlr`: for each part `p[i]`, adds
      `delta` at Python index `k + (i+1) - p[i] + offset` of `newRow`. */
  method PokeLoop(newRow: array<real>, k: int, p: seq<int>, offset: int, delta: real)
    requires newRow.Length == RawWidth && PyIndexable(k, p, offset)
    modifies newRow
    ensures newRow[..] == PokeBlock(old(newRow[..]), k, p, offset, delta, |p|)
  {
    ghost var start := newRow[..];
    for i := 0 to |p|
      invariant newRow[..] == PokeBlock(start, k, p, offset, delta, i)
    {
      var index := k + (i + 1) - p[i];
      assert index == Subscript(k, p, i);
      var pos := PyIndex(index + offset);
      newRow[pos] := newRow[pos] + delta;
    }
  }

  /** Builds the raw row block by block, then collapses it. */
  method IneqFromQlr(e: QlrEntry) returns (row: Inequality)
    requires Pokeable(e)
    ensures row == QlrInequality(e)
    ensures |row| == 10
  {
    var newRow := new real[RawWidth](j => if j == 0 then e.d as real else 0.0);
    assert newRow[..] == InitialRow(e.d);
    PokeLoop(newRow, e.k, e.a, 0, -1.0);  // alpha's
    PokeLoop(newRow, e.k, e.b, 4, -1.0);  // beta's
    PokeLoop(newRow, e.k, e.c, 8, 1.0);   // gamma's
    row := Collapse(newRow[..]);
  }

  // ---------------------------------------------------------------------------
  // The generator

  /** What the generator needs of an entry: it and, when a != b, its swap can be poked. */
  predicate GeneratorPokeable(e: QlrEntry)
  {
    Pokeable(e) && (e.a != e.b ==> Pokeable(Swapped(e)))
  }

  /** The inequalities one table row contributes, in order, where `ineq` builds
      the inequality of an entry (the generator passes `QlrInequality`). */
  function RowInequalities(e: QlrEntry, ineq: QlrEntry -> Inequality): seq<Inequality>
  {
    [ineq(e)] + if e.a != e.b then [ineq(Swapped(e))] else []
  }

  /** The inequalities the first n rows of `table` contribute, in order. */
  function QlrInequalities(table: seq<QlrEntry>, n: nat, ineq: QlrEntry -> Inequality): seq<Inequality>
    requires n <= |table|
  {
    if n == 0 then [] else QlrInequalities(table, n - 1, ineq) + RowInequalities(table[n - 1], ineq)
  }

  /** The number of rows among the first n whose partitions a and b differ. */
  function AsymmetricRows(table: seq<QlrEntry>, n: nat): nat
    requires n <= |table|
  {
    if n == 0 then 0 else AsymmetricRows(table, n - 1) + if table[n - 1].a != table[n - 1].b then 1 else 0
  }

  /** Runs `ineq_from_qlr` over the rows of `table` in order, following each row
      whose a and b differ by its swapped copy. The module's table is the
      argument here; `QlrPolytope` applies this to `Table`. */
  method GenerateQlrInequalities(table: seq<QlrEntry>) returns (ineqs: seq<Inequality>)
    requires forall i :: 0 <= i < |table| ==> GeneratorPokeable(table[i])
    ensures ineqs == QlrInequalities(table, |table|, QlrInequality)
    ensures |ineqs| == |table| + AsymmetricRows(table, |table|)
  {
    ineqs := [];
    for i := 0 to |table|
      invariant ineqs == QlrInequalities(table, i, QlrInequality)
    {
      var e := table[i];
      var row := IneqFromQlr(e);
      ineqs := ineqs + [row];
      if e.a != e.b {
        var swapped := IneqFromQlr(Swapped(e));
        ineqs := ineqs + [swapped];
      }
    }
    GeneratedLength(table, |table|, QlrInequality);
  }

  /** The monodromy polytope, without the alcove constraints. */
  function QlrPolytope(): (p: Polytope)
    ensures |p.convexSubpolytopes| == 1
    ensures |p.convexSubpolytopes[0].inequalities| == 72
    ensures forall i :: 0 <= i < 72 ==> |p.convexSubpolytopes[0].inequalities[i]| == 10
  {
    TableInequalitiesShape();
    MakeConvexPolytope(QlrInequalities(Table, |Table|, QlrInequality))
  }

  /** The stored table generates 72 inequalities, each 10 wide. */
  lemma TableInequalitiesShape()
    ensures |QlrInequalities(Table, |Table|, QlrInequality)| == 72
    ensures forall i :: 0 <= i < 72 ==> |QlrInequalities(Table, |Table|, QlrInequality)[i]| == 10
  {
    TableGenerates();
    GeneratedLength(Table, |Table|, QlrInequality);
    GeneratedWidth(Table, |Table|, QlrInequality);
  }

  // ---------------------------------------------------------------------------
  // Alcove constants

  /** Converts a table of integers to exact rationals, keeping its shape. */
  function Fractionify(table: seq<seq<int>>): (r: seq<seq<real>>)
    ensures |r| == |table|
    ensures forall i :: 0 <= i < |r| ==> |r[i]| == |table[i]|
    ensures forall i, j :: 0 <= i < |r| && 0 <= j < |r[i]| ==> r[i][j].Floor == table[i][j] && r[i][j] == r[i][j].Floor as real
  {
    seq(|table|, i requires 0 <= i < |table| => seq(|table[i]|, j requires 0 <= j < |table[i]| => table[i][j] as real))
  }

  /** a1 - a2 >= 0, a2 - a3 >= 0, a3 - a4 >= 0, a4 - (a1 - 1) >= 0, with a4 = -a1 - a2 - a3. */
  const AlcoveTable: seq<seq<int>> := [
    [0,  1, -1,  0],
    [0,  0,  1, -1],
    [0,  1,  1,  2],
    [1, -2, -1, -1]
  ]

  /** The fundamental Weyl alcove for SU(4). */
  function Alcove(): (p: Polytope)
    ensures |p.convexSubpolytopes| == 1 && |p.convexSubpolytopes[0].inequalities| == 4
  {
    MakeConvexPolytope(Fractionify(AlcoveTable))
  }

  /** The alcove for PU(4): the SU(4) alcove plus a3 + 1/2 - a1 >= 0. */
  function AlcoveC2(): (p: Polytope)
    ensures |p.convexSubpolytopes| == 1 && |p.convexSubpolytopes[0].inequalities| == 5
  {
    MakeConvexPolytope(Alcove().convexSubpolytopes[0].inequalities + Fractionify([[1, -2, 0, 2]]))
  }

  // ---------------------------------------------------------------------------
  // Lemmas

  lemma AlcoveShape()
    ensures |Alcove().convexSubpolytopes| == 1 && |AlcoveC2().convexSubpolytopes| == 1
    ensures |Alcove().convexSubpolytopes[0].inequalities| == 4
    ensures forall i :: 0 <= i < 4 ==> |Alcove().convexSubpolytopes[0].inequalities[i]| == 4
    ensures AlcoveC2().convexSubpolytopes[0].inequalities
         == Alcove().convexSubpolytopes[0].inequalities + [[1.0, -2.0, 0.0, 2.0]]
  {
    var f := Fractionify([[1, -2, 0, 2]]);
    assert |f| == 1 && f[0] == [1.0, -2.0, 0.0, 2.0];
  }

  /** The SU(4) alcove is `a1 >= a2 >= a3 >= a4 >= a1 - 1` where `a4 = -a1 - a2 - a3`. */
  lemma AlcoveMeaning(x: seq<real>)
    requires |x| == 3
    ensures InConvex(Alcove().convexSubpolytopes[0], x) <==>
      var a4 := -x[0] - x[1] - x[2];
      x[0] >= x[1] >= x[2] >= a4 >= x[0] - 1.0
  {
    var ineqs := Alcove().convexSubpolytopes[0].inequalities;
    forall i | 0 <= i < 4 ensures Eval(ineqs[i], x) == ineqs[i][0] + ineqs[i][1] * x[0] + ineqs[i][2] * x[1] + ineqs[i][3] * x[2] {
      Dot3(ineqs[i][1..], x);
    }
    assert Eval(ineqs[0], x) == x[0] - x[1];
    assert Eval(ineqs[1], x) == x[1] - x[2];
    assert Eval(ineqs[2], x) == x[0] + x[1] + 2.0 * x[2];
    assert Eval(ineqs[3], x) == 1.0 - 2.0 * x[0] - x[1] - x[2];
  }

  /** The PU(4) alcove is the SU(4) alcove cut by `a3 + 1/2 - a1 >= 0`. */
  lemma AlcoveC2Meaning(x: seq<real>)
    requires |x| == 3
    ensures InConvex(AlcoveC2().convexSubpolytopes[0], x) <==>
      InConvex(Alcove().convexSubpolytopes[0], x) && x[2] + 0.5 - x[0] >= 0.0
  {
    var su := Alcove().convexSubpolytopes[0].inequalities;
    var pu := AlcoveC2().convexSubpolytopes[0].inequalities;
    var extra := [1.0, -2.0, 0.0, 2.0];
    AlcoveShape();
    Dot3(extra[1..], x);
    assert Eval(extra, x) == 1.0 - 2.0 * x[0] + 2.0 * x[2];
    assert Satisfies(pu[4], x) <==> x[2] + 0.5 - x[0] >= 0.0;
    assert forall i :: 0 <= i < 4 ==> pu[i] == su[i];
    if InConvex(AlcoveC2().convexSubpolytopes[0], x) {
      assert Satisfies(pu[4], x);
      forall i | 0 <= i < |su| ensures |su[i]| == |x| + 1 && Satisfies(su[i], x) {
        assert Satisfies(pu[i], x);
      }
    }
  }

  // ---------------------------------------------------------------------------
  // Pokes, counted

  /** How many of the first n parts of `p` have subscript `s`. */
  function Hits(k: int, p: seq<int>, n: nat, s: int): nat
    requires n <= |p|
  {
    if n == 0 then 0
    else Hits(k, p, n - 1, s) + if Subscript(k, p, n - 1) == s then 1 else 0
  }

  /** `s` is the subscript of one of the first n parts of `p`. */
  predicate HasSubscript(k: int, p: seq<int>, n: nat, s: int)
    requires n <= |p|
  {
    exists i :: 0 <= i < n && Subscript(k, p, i) == s
  }

  /** Slot j of a poked row has moved by `delta` once per part whose subscript lands on it. */
  lemma {:induction false} PokeBlockAt(row: seq<real>, k: int, p: seq<int>, offset: int, delta: real, n: nat, j: int)
    requires |row| == RawWidth && n <= |p| && InBlock(k, p) && 0 <= offset <= 8 && 0 <= j < RawWidth
    ensures PyIndexable(k, p, offset)
    ensures PokeBlock(row, k, p, offset, delta, n)[j] == row[j] + delta * (Hits(k, p, n, j - offset) as real)
  {
    if n > 0 {
      PokeBlockAt(row, k, p, offset, delta, n - 1, j);
      var prev := PokeBlock(row, k, p, offset, delta, n - 1);
      var pos := Subscript(k, p, n - 1) + offset;
      assert PokeBlock(row, k, p, offset, delta, n) == prev[pos := prev[pos] + delta];
      var h := Hits(k, p, n - 1, j - offset) as real;
      if j == pos {
        assert delta * (h + 1.0) == delta * h + delta;
      }
    }
  }

  /** A block never hits a coordinate outside 1..4. */
  lemma {:induction false} HitsOutside(k: int, p: seq<int>, n: nat, s: int)
    requires n <= |p| && InBlock(k, p) && (s < 1 || s > 4)
    ensures Hits(k, p, n, s) == 0
  {
    if n > 0 {
      HitsOutside(k, p, n - 1, s);
    }
  }

  /** Each part hits exactly one of the four coordinates. */
  lemma {:induction false} HitsSum(k: int, p: seq<int>, n: nat)
    requires n <= |p| && InBlock(k, p)
    ensures Hits(k, p, n, 1) + Hits(k, p, n, 2) + Hits(k, p, n, 3) + Hits(k, p, n, 4) == n
  {
    if n > 0 {
      HitsSum(k, p, n - 1);
    }
  }

  /** With strictly increasing subscripts, a coordinate is hit once or not at all. */
  lemma {:induction false} HitsDistinct(k: int, p: seq<int>, n: nat, s: int)
    requires n <= |p| && StrictlyIncreasing(k, p)
    ensures Hits(k, p, n, s) == if HasSubscript(k, p, n, s) then 1 else 0
  {
    if n > 0 {
      HitsDistinct(k, p, n - 1, s);
      if Subscript(k, p, n - 1) == s {
        assert forall i :: 0 <= i < n - 1 ==> Subscript(k, p, i) < Subscript(k, p, n - 1);
      } else if HasSubscript(k, p, n, s) {
        var i :| 0 <= i < n && Subscript(k, p, i) == s;
        assert HasSubscript(k, p, n - 1, s);
      }
    }
  }

  /** Table-shaped entries keep every subscript inside its block, and strictly increasing. */
  lemma ValidEntryWellFormed(e: QlrEntry)
    requires ValidEntry(e)
    ensures WellFormed(e) && Pokeable(e) && Pokeable(Swapped(e))
    ensures StrictlyIncreasing(e.k, e.a) && StrictlyIncreasing(e.k, e.b) && StrictlyIncreasing(e.k, e.c)
  {
  }

  lemma WellFormedPokeable(e: QlrEntry)
    requires WellFormed(e)
    ensures Pokeable(e) && Pokeable(Swapped(e))
  {
  }

  /** How often each of the four coordinates of a block is hit by `p`. */
  function HitCounts(k: int, p: seq<int>): seq<real>
  {
    [Hits(k, p, |p|, 1) as real, Hits(k, p, |p|, 2) as real, Hits(k, p, |p|, 3) as real, Hits(k, p, |p|, 4) as real]
  }

  function Negated(v: seq<real>): seq<real>
    requires |v| == 4
  {
    [-v[0], -v[1], -v[2], -v[3]]
  }

  /** The raw row of a well-formed entry: d, then minus the alpha hits, minus
      the beta hits, plus the gamma hits. No poke reaches slot 0 or crosses
      into another block. */
  lemma RawRowBlocks(e: QlrEntry)
    requires WellFormed(e)
    ensures Pokeable(e)
    ensures RawRow(e)
         == [e.d as real] + Negated(HitCounts(e.k, e.a)) + Negated(HitCounts(e.k, e.b)) + HitCounts(e.k, e.c)
  {
    WellFormedPokeable(e);
    var rhs := [e.d as real] + Negated(HitCounts(e.k, e.a)) + Negated(HitCounts(e.k, e.b)) + HitCounts(e.k, e.c);
    forall j | 0 <= j < RawWidth
      ensures RawRow(e)[j] == rhs[j]
    {
      RawRowSlot(e, j);
    }
  }

  /** Slot j of the raw row: only the block that owns slot j moves it. */
  lemma RawRowSlot(e: QlrEntry, j: int)
    requires WellFormed(e) && 0 <= j < RawWidth
    ensures Pokeable(e)
    ensures RawRow(e)[j]
         == if j == 0 then e.d as real
            else if j <= 4 then -(Hits(e.k, e.a, |e.a|, j) as real)
            else if j <= 8 then -(Hits(e.k, e.b, |e.b|, j - 4) as real)
            else Hits(e.k, e.c, |e.c|, j - 8) as real
  {
    WellFormedPokeable(e);
    var alpha := PokeBlock(InitialRow(e.d), e.k, e.a, 0, -1.0, |e.a|);
    var beta := PokeBlock(alpha, e.k, e.b, 4, -1.0, |e.b|);
    PokeBlockAt(InitialRow(e.d), e.k, e.a, 0, -1.0, |e.a|, j);
    PokeBlockAt(alpha, e.k, e.b, 4, -1.0, |e.b|, j);
    PokeBlockAt(beta, e.k, e.c, 8, 1.0, |e.c|, j);
    if j == 0 {
      HitsOutside(e.k, e.a, |e.a|, 0);
      HitsOutside(e.k, e.b, |e.b|, -4);
      HitsOutside(e.k, e.c, |e.c|, -8);
    } else if j <= 4 {
      HitsOutside(e.k, e.b, |e.b|, j - 4);
      HitsOutside(e.k, e.c, |e.c|, j - 8);
    } else if j <= 8 {
      HitsOutside(e.k, e.a, |e.a|, j);
      HitsOutside(e.k, e.c, |e.c|, j - 8);
    } else {
      HitsOutside(e.k, e.a, |e.a|, j);
      HitsOutside(e.k, e.b, |e.b|, j - 4);
    }
  }

  /** 1 at each coordinate of a block that is the subscript of a part of `p`, else 0. */
  function Indicator(k: int, p: seq<int>): seq<real>
  {
    seq(4, s requires 0 <= s < 4 => if HasSubscript(k, p, |p|, s + 1) then 1.0 else 0.0)
  }

  /** For a table-shaped entry, alpha slot s is -1 exactly when s is a subscript
      `k + i - a_i` of a, and 0 otherwise; likewise beta; gamma slot s is +1
      exactly when s is a subscript of c. The blocks sum to -r, -r and +r. */
  lemma RawRowIndicators(e: QlrEntry)
    requires ValidEntry(e)
    ensures Pokeable(e)
    ensures RawRow(e)
         == [e.d as real] + Negated(Indicator(e.k, e.a)) + Negated(Indicator(e.k, e.b)) + Indicator(e.k, e.c)
    ensures RawRow(e)[1] + RawRow(e)[2] + RawRow(e)[3] + RawRow(e)[4] == -(e.r as real)
    ensures RawRow(e)[5] + RawRow(e)[6] + RawRow(e)[7] + RawRow(e)[8] == -(e.r as real)
    ensures RawRow(e)[9] + RawRow(e)[10] + RawRow(e)[11] + RawRow(e)[12] == e.r as real
  {
    ValidEntryWellFormed(e);
    RawRowBlocks(e);
    IndicatorCounts(e.k, e.a);
    IndicatorCounts(e.k, e.b);
    IndicatorCounts(e.k, e.c);
    HitsSum(e.k, e.a, |e.a|);
    HitsSum(e.k, e.b, |e.b|);
    HitsSum(e.k, e.c, |e.c|);
  }

  lemma IndicatorCounts(k: int, p: seq<int>)
    requires StrictlyIncreasing(k, p)
    ensures HitCounts(k, p) == Indicator(k, p)
  {
    HitsDistinct(k, p, |p|, 1);
    HitsDistinct(k, p, |p|, 2);
    HitsDistinct(k, p, |p|, 3);
    HitsDistinct(k, p, |p|, 4);
  }

  // ---------------------------------------------------------------------------
  // The inequality's meaning

  /** `x[k+1-p_1 - 1] + ... + x[k+n-p_n - 1]`: the sum of the block coordinates the
      first n parts of `p` select. */
  function SubscriptSum(k: int, p: seq<int>, x: seq<real>, n: nat): real
    requires n <= |p| && InBlock(k, p) && |x| == 4
  {
    if n == 0 then 0.0
    else SubscriptSum(k, p, x, n - 1) + x[Subscript(k, p, n - 1) - 1]
  }

  lemma {:induction false} DotZero(u: seq<real>, x: seq<real>)
    requires |u| == |x| && forall j :: 0 <= j < |u| ==> u[j] == 0.0
    ensures Dot(u, x) == 0.0
  {
    if |u| > 0 {
      DotZero(u[1..], x[1..]);
    }
  }

  /** Adding `delta` to one coefficient adds `delta` times that coordinate. */
  lemma {:induction false} DotUpdate(u: seq<real>, x: seq<real>, j: int, delta: real)
    requires |u| == |x| && 0 <= j < |u|
    ensures Dot(u[j := u[j] + delta], x) == Dot(u, x) + delta * x[j]
  {
    var v := u[j := u[j] + delta];
    if j == 0 {
      assert v[1..] == u[1..];
      assert (u[0] + delta) * x[0] == u[0] * x[0] + delta * x[0];
    } else {
      assert v[1..] == u[1..][j - 1 := u[j] + delta];
      DotUpdate(u[1..], x[1..], j - 1, delta);
    }
  }

  /** Adding `delta` to the coefficient at `pos` moves the value by `delta` times that coordinate. */
  lemma PokeValue(row: seq<real>, pos: int, delta: real, x: seq<real>)
    requires |row| == |x| + 1 && 1 <= pos < |row|
    ensures Eval(row[pos := row[pos] + delta], x) == Eval(row, x) + delta * x[pos - 1]
  {
    var next := row[pos := row[pos] + delta];
    assert next[1..] == row[1..][pos - 1 := row[pos] + delta];
    DotUpdate(row[1..], x, pos - 1, delta);
  }

  /** Poking block `p` at `offset` moves the row's value at `x` by `delta` times
      the sum of the block coordinates its subscripts select. */
  lemma {:induction false} PokeBlockValue(row: seq<real>, k: int, p: seq<int>, offset: int, delta: real, n: nat, x: seq<real>)
    requires |row| == RawWidth && n <= |p| && InBlock(k, p) && 0 <= offset <= 8 && |x| == 12
    ensures PyIndexable(k, p, offset)
    ensures Eval(PokeBlock(row, k, p, offset, delta, n), x)
         == Eval(row, x) + delta * SubscriptSum(k, p, x[offset..offset + 4], n)
  {
    if n > 0 {
      PokeBlockValue(row, k, p, offset, delta, n - 1, x);
      var xb := x[offset..offset + 4];
      var prev := PokeBlock(row, k, p, offset, delta, n - 1);
      var pos := Subscript(k, p, n - 1) + offset;
      PokeValue(prev, pos, delta, x);
      var s := SubscriptSum(k, p, xb, n - 1);
      assert SubscriptSum(k, p, xb, n) == s + x[pos - 1];
      assert delta * (s + x[pos - 1]) == delta * s + delta * x[pos - 1];
    }
  }

  /** The raw row, read as a linear form over the twelve coordinates
      (alpha1..4, beta1..4, gamma1..4), is
      `d - sum_i alpha_{k+i-a_i} - sum_i beta_{k+i-b_i} + sum_i gamma_{k+i-c_i}`. */
  lemma RawRowValue(e: QlrEntry, x: seq<real>)
    requires WellFormed(e) && |x| == 12
    ensures Pokeable(e)
    ensures Eval(RawRow(e), x)
         == e.d as real
          - SubscriptSum(e.k, e.a, x[0..4], |e.a|)
          - SubscriptSum(e.k, e.b, x[4..8], |e.b|)
          + SubscriptSum(e.k, e.c, x[8..12], |e.c|)
  {
    WellFormedPokeable(e);
    var init := InitialRow(e.d);
    DotZero(init[1..], x);
    assert Eval(init, x) == e.d as real;
    var alpha := PokeBlock(init, e.k, e.a, 0, -1.0, |e.a|);
    var beta := PokeBlock(alpha, e.k, e.b, 4, -1.0, |e.b|);
    var sa := SubscriptSum(e.k, e.a, x[0..4], |e.a|);
    var sb := SubscriptSum(e.k, e.b, x[4..8], |e.b|);
    var sc := SubscriptSum(e.k, e.c, x[8..12], |e.c|);
    PokeBlockValue(init, e.k, e.a, 0, -1.0, |e.a|, x);
    assert Eval(alpha, x) == e.d as real - sa;
    PokeBlockValue(alpha, e.k, e.b, 4, -1.0, |e.b|, x);
    assert Eval(beta, x) == e.d as real - sa - sb;
    PokeBlockValue(beta, e.k, e.c, 8, 1.0, |e.c|, x);
    assert RawRow(e) == PokeBlock(beta, e.k, e.c, 8, 1.0, |e.c|);
  }

  /** Each of the three 4-coordinate blocks of `x` sums to zero. */
  predicate ZeroSumBlocks(x: seq<real>)
    requires |x| == 12
  {
    && x[0] + x[1] + x[2] + x[3] == 0.0
    && x[4] + x[5] + x[6] + x[7] == 0.0
    && x[8] + x[9] + x[10] + x[11] == 0.0
  }

  /** The nine coordinates kept once each block's fourth is dropped. */
  function Retained(x: seq<real>): seq<real>
    requires |x| == 12
  {
    x[0..3] + x[4..7] + x[8..11]
  }

  /** The collapse loses nothing: on points whose blocks sum to zero, the
      collapsed inequality takes the same value as the raw one. */
  lemma CollapseSound(raw: seq<real>, x: seq<real>)
    requires |raw| == RawWidth && |x| == 12 && ZeroSumBlocks(x)
    ensures Eval(Collapse(raw), Retained(x)) == Eval(raw, x)
  {
    var out := Collapse(raw);
    var y := Retained(x);
    assert raw[1..] == raw[1..5] + raw[5..9] + raw[9..13];
    assert x == x[0..4] + x[4..8] + x[8..12];
    DotConcat(raw[1..5], raw[5..9], x[0..4], x[4..8]);
    DotConcat(raw[1..5] + raw[5..9], raw[9..13], x[0..4] + x[4..8], x[8..12]);
    Dot4(raw[1..5], x[0..4]);
    Dot4(raw[5..9], x[4..8]);
    Dot4(raw[9..13], x[8..12]);
    assert out[1..] == out[1..4] + out[4..7] + out[7..10];
    assert y == y[0..3] + y[3..6] + y[6..9];
    DotConcat(out[1..4], out[4..7], y[0..3], y[3..6]);
    DotConcat(out[1..4] + out[4..7], out[7..10], y[0..3] + y[3..6], y[6..9]);
    Dot3(out[1..4], y[0..3]);
    Dot3(out[4..7], y[3..6]);
    Dot3(out[7..10], y[6..9]);
    BlockCollapse(raw[1], raw[2], raw[3], raw[4], x[0], x[1], x[2], x[3]);
    BlockCollapse(raw[5], raw[6], raw[7], raw[8], x[4], x[5], x[6], x[7]);
    BlockCollapse(raw[9], raw[10], raw[11], raw[12], x[8], x[9], x[10], x[11]);
  }

  lemma BlockCollapse(u1: real, u2: real, u3: real, u4: real, x1: real, x2: real, x3: real, x4: real)
    requires x1 + x2 + x3 + x4 == 0.0
    ensures (u1 - u4) * x1 + (u2 - u4) * x2 + (u3 - u4) * x3 == u1 * x1 + u2 * x2 + u3 * x3 + u4 * x4
  {
    assert u4 * x4 == -(u4 * x1) - u4 * x2 - u4 * x3 by {
      assert x4 == -x1 - x2 - x3;
    }
  }

  /** Inequality (*) of Theorem 23: on points whose blocks sum to zero, the
      10-wide inequality of a well-formed entry evaluates to
      `d - sum_i alpha_{k+i-a_i} - sum_i beta_{k+i-b_i} + sum_i gamma_{k+i-c_i}`. */
  lemma QlrInequalityMeaning(e: QlrEntry, x: seq<real>)
    requires WellFormed(e) && |x| == 12 && ZeroSumBlocks(x)
    ensures Pokeable(e)
    ensures Eval(QlrInequality(e), Retained(x))
         == e.d as real
          - SubscriptSum(e.k, e.a, x[0..4], |e.a|)
          - SubscriptSum(e.k, e.b, x[4..8], |e.b|)
          + SubscriptSum(e.k, e.c, x[8..12], |e.c|)
  {
    RawRowValue(e, x);
    CollapseSound(RawRow(e), x);
  }

  // ---------------------------------------------------------------------------
  // Shape and symmetry of one inequality

  /** A well-formed entry's inequality has ten entries and its constant is d. */
  lemma QlrInequalityShape(e: QlrEntry)
    requires WellFormed(e)
    ensures Pokeable(e)
    ensures |QlrInequality(e)| == 10 && QlrInequality(e)[0] == e.d as real
  {
    RawRowBlocks(e);
  }

  /** Swapping a and b exchanges the a-block (1..3) and the b-block (4..6) of the
      inequality and leaves the constant and the c-block alone. */
  lemma SwapExchangesBlocks(e: QlrEntry)
    requires WellFormed(e)
    ensures Pokeable(e) && Pokeable(Swapped(e))
    ensures var q, w := QlrInequality(e), QlrInequality(Swapped(e));
      && w[0] == q[0]
      && w[1..4] == q[4..7]
      && w[4..7] == q[1..4]
      && w[7..10] == q[7..10]
  {
    assert WellFormed(Swapped(e));
    RawRowBlocks(e);
    RawRowBlocks(Swapped(e));
  }

  // ---------------------------------------------------------------------------
  // The generator's output

  lemma {:induction false} GeneratedLength(table: seq<QlrEntry>, n: nat, ineq: QlrEntry -> Inequality)
    requires n <= |table|
    ensures |QlrInequalities(table, n, ineq)| == n + AsymmetricRows(table, n)
  {
    if n > 0 {
      GeneratedLength(table, n - 1, ineq);
    }
  }

  /** Every generated inequality has the width of an entry's inequality. */
  lemma {:induction false} GeneratedWidth(table: seq<QlrEntry>, n: nat, ineq: QlrEntry -> Inequality)
    requires n <= |table|
    requires forall e :: |ineq(e)| == 10
    ensures forall j :: 0 <= j < |QlrInequalities(table, n, ineq)| ==> |QlrInequalities(table, n, ineq)[j]| == 10
  {
    if n > 0 {
      GeneratedWidth(table, n - 1, ineq);
    }
  }

  /** The output for fewer rows is a prefix of the output for more. */
  lemma {:induction false} GeneratedPrefix(table: seq<QlrEntry>, m: nat, n: nat, ineq: QlrEntry -> Inequality)
    requires m <= n <= |table|
    ensures QlrInequalities(table, m, ineq) <= QlrInequalities(table, n, ineq)
  {
    if m < n {
      GeneratedPrefix(table, m, n - 1, ineq);
    }
  }

  /** Rows come out in table order: row i's inequality sits at position
      `i + (asymmetric rows before i)`, followed by its swapped copy exactly when
      its a and b differ; otherwise the next row's inequality follows. */
  lemma RowPlacement(table: seq<QlrEntry>, n: nat, i: int, ineq: QlrEntry -> Inequality)
    requires n <= |table|
    requires 0 <= i < n
    ensures var out, pos := QlrInequalities(table, n, ineq), i + AsymmetricRows(table, i);
      && pos < |out|
      && out[pos] == ineq(table[i])
      && (table[i].a != table[i].b ==> pos + 1 < |out| && out[pos + 1] == ineq(Swapped(table[i])))
      && (i + 1 + AsymmetricRows(table, i + 1) == pos + if table[i].a != table[i].b then 2 else 1)
  {
    GeneratedPrefix(table, i + 1, n, ineq);
    GeneratedLength(table, i, ineq);
  }

  /** A partition of length at most 3 (all the table holds), checked part by part. */
  predicate SmallPartition(k: int, p: seq<int>)
  {
    && |p| <= 3
    && (|p| > 0 ==> 0 <= p[0] <= k)
    && (|p| > 1 ==> 0 <= p[1] <= p[0])
    && (|p| > 2 ==> 0 <= p[2] <= p[1])
  }

  lemma SmallPartitionSound(k: int, p: seq<int>)
    requires SmallPartition(k, p)
    ensures Partition(k, p)
  {
  }

  /** `ValidEntry`, checked without quantifiers. */
  predicate SmallValidEntry(e: QlrEntry)
  {
    && 0 < e.r && 0 < e.k && e.r + e.k == 4
    && |e.a| == e.r && |e.b| == e.r && |e.c| == e.r
    && SmallPartition(e.k, e.a) && SmallPartition(e.k, e.b) && SmallPartition(e.k, e.c)
  }

  /** The rows of the table whose partitions a and b coincide. */
  predicate SymmetricRow(i: int)
  {
    i == 0 || i == 4 || i == 7 || i == 9 || i == 10 || i == 16 || i == 17 || i == 23 || i == 27 || i == 30 || i == 31 || i == 33 || i == 34 || i == 38 || i == 41 || i == 43
  }

  /** The number of symmetric rows among the first n. */
  function SymmetricRows(n: int): nat
  {
    if n <= 0 then 0 else SymmetricRows(n - 1) + if SymmetricRow(n - 1) then 1 else 0
  }

  /** Rows that are not symmetric are asymmetric. */
  lemma {:induction false} AsymmetricRowsCount(table: seq<QlrEntry>, n: nat)
    requires n <= |table|
    requires forall i :: 0 <= i < |table| ==> (table[i].a == table[i].b <==> SymmetricRow(i))
    ensures AsymmetricRows(table, n) + SymmetricRows(n) == n
  {
    if n > 0 {
      AsymmetricRowsCount(table, n - 1);
    }
  }

  // The table is checked a few rows at a time, one row per branch.

  lemma TableRows0(i: int)
    requires 0 <= i < 5
    ensures SmallValidEntry(Table[i])
    ensures Table[i].a == Table[i].b <==> SymmetricRow(i)
  {
    if i < 2 {
      if i < 1 {
        assert i == 0;
      } else {
        assert i == 1;
      }
    } else {
      if i < 3 {
        assert i == 2;
      } else {
        if i < 4 {
          assert i == 3;
        } else {
          assert i == 4;
        }
      }
    }
  }

  lemma TableRows5(i: int)
    requires 5 <= i < 10
    ensures SmallValidEntry(Table[i])
    ensures Table[i].a == Table[i].b <==> SymmetricRow(i)
  {
    if i < 7 {
      if i < 6 {
        assert i == 5;
      } else {
        assert i == 6;
      }
    } else {
      if i < 8 {
        assert i == 7;
      } else {
        if i < 9 {
          assert i == 8;
        } else {
          assert i == 9;
        }
      }
    }
  }

  lemma TableRows10(i: int)
    requires 10 <= i < 15
    ensures SmallValidEntry(Table[i])
    ensures Table[i].a == Table[i].b <==> SymmetricRow(i)
  {
    if i < 12 {
      if i < 11 {
        assert i == 10;
      } else {
        assert i == 11;
      }
    } else {
      if i < 13 {
        assert i == 12;
      } else {
        if i < 14 {
          assert i == 13;
        } else {
          assert i == 14;
        }
      }
    }
  }

  lemma TableRows15(i: int)
    requires 15 <= i < 20
    ensures SmallValidEntry(Table[i])
    ensures Table[i].a == Table[i].b <==> SymmetricRow(i)
  {
    if i < 17 {
      if i < 16 {
        assert i == 15;
      } else {
        assert i == 16;
      }
    } else {
      if i < 18 {
        assert i == 17;
      } else {
        if i < 19 {
          assert i == 18;
        } else {
          assert i == 19;
        }
      }
    }
  }

  lemma TableRows20(i: int)
    requires 20 <= i < 25
    ensures SmallValidEntry(Table[i])
    ensures Table[i].a == Table[i].b <==> SymmetricRow(i)
  {
    if i < 22 {
      if i < 21 {
        assert i == 20;
      } else {
        assert i == 21;
      }
    } else {
      if i < 23 {
        assert i == 22;
      } else {
        if i < 24 {
          assert i == 23;
        } else {
          assert i == 24;
        }
      }
    }
  }

  lemma TableRows25(i: int)
    requires 25 <= i < 30
    ensures SmallValidEntry(Table[i])
    ensures Table[i].a == Table[i].b <==> SymmetricRow(i)
  {
    if i < 27 {
      if i < 26 {
        assert i == 25;
      } else {
        assert i == 26;
      }
    } else {
      if i < 28 {
        assert i == 27;
      } else {
        if i < 29 {
          assert i == 28;
        } else {
          assert i == 29;
        }
      }
    }
  }

  lemma TableRows30(i: int)
    requires 30 <= i < 34
    ensures SmallValidEntry(Table[i])
    ensures Table[i].a == Table[i].b <==> SymmetricRow(i)
  {
    if i < 32 {
      if i < 31 {
        assert i == 30;
      } else {
        assert i == 31;
      }
    } else {
      if i < 33 {
        assert i == 32;
      } else {
        assert i == 33;
      }
    }
  }

  lemma TableRows34(i: int)
    requires 34 <= i < 38
    ensures SmallValidEntry(Table[i])
    ensures Table[i].a == Table[i].b <==> SymmetricRow(i)
  {
    if i < 36 {
      if i < 35 {
        assert i == 34;
      } else {
        assert i == 35;
      }
    } else {
      if i < 37 {
        assert i == 36;
      } else {
        assert i == 37;
      }
    }
  }

  lemma TableRows38(i: int)
    requires 38 <= i < 41
    ensures SmallValidEntry(Table[i])
    ensures Table[i].a == Table[i].b <==> SymmetricRow(i)
  {
    if i < 39 {
      assert i == 38;
    } else {
      if i < 40 {
        assert i == 39;
      } else {
        assert i == 40;
      }
    }
  }

  lemma TableRows41(i: int)
    requires 41 <= i < 44
    ensures SmallValidEntry(Table[i])
    ensures Table[i].a == Table[i].b <==> SymmetricRow(i)
  {
    if i < 42 {
      assert i == 41;
    } else {
      if i < 43 {
        assert i == 42;
      } else {
        assert i == 43;
      }
    }
  }

  /** One row of the table is table-shaped, and symmetric exactly where listed. */
  lemma TableRow(i: int)
    requires 0 <= i < |Table|
    ensures ValidEntry(Table[i]) && GeneratorPokeable(Table[i])
    ensures Table[i].a == Table[i].b <==> SymmetricRow(i)
  {
    if i < 5 {
      TableRows0(i);
    } else if i < 10 {
      TableRows5(i);
    } else if i < 15 {
      TableRows10(i);
    } else if i < 20 {
      TableRows15(i);
    } else if i < 25 {
      TableRows20(i);
    } else if i < 30 {
      TableRows25(i);
    } else if i < 34 {
      TableRows30(i);
    } else if i < 38 {
      TableRows34(i);
    } else if i < 41 {
      TableRows38(i);
    } else {
      TableRows41(i);
    }
    var e := Table[i];
    SmallPartitionSound(e.k, e.a);
    SmallPartitionSound(e.k, e.b);
    SmallPartitionSound(e.k, e.c);
    ValidEntryWellFormed(e);
  }

  /** Every row of the table is table-shaped. */
  lemma TableShape()
    ensures forall i :: 0 <= i < |Table| ==> ValidEntry(Table[i])
  {
    forall i | 0 <= i < |Table| ensures ValidEntry(Table[i]) {
      TableRow(i);
    }
  }

  /** 16 rows are symmetric. */
  lemma SymmetricRowCount()
    ensures SymmetricRows(44) == 16
  {
    assert SymmetricRows(11) == 5;
    assert SymmetricRows(22) == 7;
    assert SymmetricRows(33) == 11;
  }

  /** The generator can run over the whole table, and 28 of its 44 rows have a != b. */
  lemma TableGenerates()
    ensures |Table| == 44
    ensures forall i :: 0 <= i < |Table| ==> GeneratorPokeable(Table[i])
    ensures AsymmetricRows(Table, |Table|) == 28
  {
    forall i | 0 <= i < |Table|
      ensures GeneratorPokeable(Table[i])
      ensures Table[i].a == Table[i].b <==> SymmetricRow(i)
    {
      TableRow(i);
    }
    AsymmetricRowsCount(Table, |Table|);
    SymmetricRowCount();
  }
}
