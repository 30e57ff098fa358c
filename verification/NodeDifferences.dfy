/** Potential rows tested as node differences: the signed rows of a closed walk cancel. */
module NodeDifferences {
  import opened ComplexTerms
  import opened NodeTable
  import opened Results

  type Row = seq<Complex>

  const ONE := Complex(1.0, 0.0)

  type Matrix = seq<Row>

  function CSub(z: Complex, w: Complex): Complex { Complex(z.re - w.re, z.im - w.im) }

  ghost predicate IsMatrix(m: Matrix, rows: nat, cols: nat) {
    |m| == rows && forall i :: 0 <= i < rows ==> |m[i]| == cols
  }

  /** The node ids of the left and right ends of the segments, and the number of nodes. */
  datatype Mesh = Mesh(left: seq<nat>, right: seq<nat>, nodes: nat)

  ghost predicate IsMesh(g: Mesh) {
    |g.left| == |g.right| && forall i :: 0 <= i < |g.left| ==> g.left[i] < g.nodes && g.right[i] < g.nodes
  }

  /** One folded shape channel: tested vector potential, nodal scalar potential, basis coefficients. */
  datatype Channel = Channel(vector: Matrix, nodal: Matrix, basis: Matrix)

  ghost predicate IsChannel(c: Channel, n: nat, nodes: nat) {
    IsMatrix(c.vector, n, n) && IsMatrix(c.nodal, nodes, n) && IsMatrix(c.basis, n, n)
  }

  /** Row times matrix, one entry: the sum over the first `k` places. */
  function Dot(row: Row, m: Matrix, j: nat, k: nat): Complex
    requires k <= |row| && k <= |m| && forall i :: 0 <= i < |m| ==> j < |m[i]|
  {
    if k == 0 then ZERO else CAdd(Dot(row, m, j, k - 1), CMul(row[k - 1], m[k - 1][j]))
  }

  /** A row with a single entry other than zero picks the row of the matrix at that place, times the entry: with
      `DotMinus`, this is what a row times a matrix is. */
  lemma {:induction false} DotOfOne(row: Row, m: Matrix, i: nat, j: nat, k: nat)
    requires k <= |row| && k <= |m| && (forall a :: 0 <= a < |m| ==> j < |m[a]|) && i < |row| && i < |m|
    requires forall a :: 0 <= a < |row| && a != i ==> row[a] == ZERO
    ensures Dot(row, m, j, k) == if i < k then CMul(row[i], m[i][j]) else ZERO
  {
    hide CMul;
    if k > 0 {
      DotOfOne(row, m, i, j, k - 1);
      if k - 1 != i { ZeroTimes(m[k - 1][j]); }
    }
  }

  lemma ZeroTimes(z: Complex)
    ensures CMul(ZERO, z) == ZERO
  {
  }

  function Minus(x: Row, y: Row): (z: Row)
    requires |x| == |y|
    ensures |z| == |x| && forall i :: 0 <= i < |x| ==> z[i] == CSub(x[i], y[i])
  {
    if x == [] then [] else Minus(x[..|x| - 1], y[..|y| - 1]) + [CSub(x[|x| - 1], y[|y| - 1])]
  }

  lemma {:induction false} DotMinus(x: Row, y: Row, m: Matrix, j: nat, k: nat)
    requires |x| == |y| && k <= |x| && k <= |m| && forall i :: 0 <= i < |m| ==> j < |m[i]|
    ensures Dot(Minus(x, y), m, j, k) == CSub(Dot(x, m, j, k), Dot(y, m, j, k))
  {
    hide CMul, Minus;
    if k > 0 {
      DotMinus(x, y, m, j, k - 1);
      ProductMinus(x[k - 1], y[k - 1], m[k - 1][j]);
    }
  }

  lemma ProductMinus(x: Complex, y: Complex, w: Complex)
    ensures CMul(CSub(x, y), w) == CSub(CMul(x, w), CMul(y, w))
  {
    hide CMul;
    assert CSub(x, y) == CAdd(x, CScale(-1.0, y));
    CMulDistributesRight(x, CScale(-1.0, y), w);
    CMulCommutative(CScale(-1.0, y), w);
    CMulScale(-1.0, w, y);
    CMulCommutative(w, y);
  }

  // ---------------------------------------------------------------- the accumulation over channels

  function Plus(x: Row, y: Row): (z: Row)
    requires |x| == |y|
    ensures |z| == |x| && forall i :: 0 <= i < |x| ==> z[i] == CAdd(x[i], y[i])
  {
    if x == [] then [] else Plus(x[..|x| - 1], y[..|y| - 1]) + [CAdd(x[|x| - 1], y[|y| - 1])]
  }

  ghost predicate SameShape(x: Matrix, y: Matrix) {
    |x| == |y| && forall i :: 0 <= i < |x| ==> |x[i]| == |y[i]|
  }

  /** x + y, entry by entry. */
  function MatrixPlus(x: Matrix, y: Matrix): (z: Matrix)
    requires SameShape(x, y)
    ensures |z| == |x| && forall i {:trigger z[i]} :: 0 <= i < |x| ==> z[i] == Plus(x[i], y[i])
  {
    if x == [] then [] else MatrixPlus(x[..|x| - 1], y[..|y| - 1]) + [Plus(x[|x| - 1], y[|y| - 1])]
  }

  /** x - y, entry by entry. */
  function MatrixMinus(x: Matrix, y: Matrix): (z: Matrix)
    requires SameShape(x, y)
    ensures |z| == |x| && forall i {:trigger z[i]} :: 0 <= i < |x| ==> z[i] == Minus(x[i], y[i])
  {
    if x == [] then [] else MatrixMinus(x[..|x| - 1], y[..|y| - 1]) + [Minus(x[|x| - 1], y[|y| - 1])]
  }

  /** m[ids]: the rows with the given numbers. */
  function Rows(m: Matrix, ids: seq<nat>): (z: Matrix)
    requires forall i :: 0 <= i < |ids| ==> ids[i] < |m|
    ensures |z| == |ids| && forall i :: 0 <= i < |ids| ==> z[i] == m[ids[i]]
  {
    if ids == [] then []
    else Rows(m, ids[..|ids| - 1]) + [m[ids[|ids| - 1]]]
  }

  /** A row times a square matrix: its first `k` entries. */
  function RowTimes(row: Row, m: Matrix, k: nat): (z: Row)
    requires IsMatrix(m, |row|, |row|) && k <= |row|
    ensures |z| == k && forall j :: 0 <= j < k ==> z[j] == Dot(row, m, j, |row|)
  {
    if k == 0 then [] else RowTimes(row, m, k - 1) + [Dot(row, m, k - 1, |row|)]
  }

  /** x @ m, for a square matrix on the right. */
  function Product(x: Matrix, m: Matrix, n: nat): (z: Matrix)
    requires IsMatrix(x, |x|, n) && IsMatrix(m, n, n)
    ensures |z| == |x| && forall i {:trigger z[i]} :: 0 <= i < |x| ==> |x[i]| == n && z[i] == RowTimes(x[i], m, n)
  {
    assert x != [] ==> |x[|x| - 1]| == n;
    if x == [] then [] else Product(x[..|x| - 1], m, n) + [RowTimes(x[|x| - 1], m, n)]
  }

  function ZeroRow(n: nat): (z: Row)
    ensures |z| == n && forall j :: 0 <= j < n ==> z[j] == ZERO
  {
    if n == 0 then [] else ZeroRow(n - 1) + [ZERO]
  }

  function ZeroMatrix(rows: nat, n: nat): (z: Matrix)
    ensures IsMatrix(z, rows, n) && forall i :: 0 <= i < rows ==> z[i] == ZeroRow(n)
  {
    if rows == 0 then [] else ZeroMatrix(rows - 1, n) + [ZeroRow(n)]
  }

  /** The potential at a node per unit of basis function j, over all channels. */
  function NodePotential(channels: seq<Channel>, n: nat, nodes: nat, node: nat, j: nat): Complex
    requires forall c <- channels :: IsChannel(c, n, nodes)
    requires node < nodes && j < n
  {
    if channels == [] then ZERO
    else
      var c := channels[|channels| - 1];
      assert IsChannel(c, n, nodes);
      CAdd(NodePotential(channels[..|channels| - 1], n, nodes, node, j), Dot(c.nodal[node], c.basis, j, n))
  }

  function VectorPart(channels: seq<Channel>, n: nat, nodes: nat, m: nat, j: nat): Complex
    requires forall c <- channels :: IsChannel(c, n, nodes)
    requires m < n && j < n
  {
    if channels == [] then ZERO
    else
      var c := channels[|channels| - 1];
      assert IsChannel(c, n, nodes);
      CAdd(VectorPart(channels[..|channels| - 1], n, nodes, m, j), Dot(c.vector[m], c.basis, j, n))
  }

  ghost predicate Fits(channels: seq<Channel>, g: Mesh) {
    IsMesh(g) && forall c <- channels :: IsChannel(c, |g.left|, g.nodes)
  }

  /** A matrix entry: the vector part less the difference of the potentials at the segment's two nodes. */
  function Entry(channels: seq<Channel>, g: Mesh, m: nat, j: nat): Complex
    requires Fits(channels, g) && m < |g.left| && j < |g.left|
  {
    var n := |g.left|;
    CSub(VectorPart(channels, n, g.nodes, m, j),
      CSub(NodePotential(channels, n, g.nodes, g.right[m], j), NodePotential(channels, n, g.nodes, g.left[m], j)))
  }

  ghost predicate Accumulated(channels: seq<Channel>, g: Mesh, gp: Matrix, phi: Matrix)
    requires Fits(channels, g) && IsMatrix(gp, |g.left|, |g.left|) && IsMatrix(phi, g.nodes, |g.left|)
  {
    var n := |g.left|;
    && (forall m, j :: 0 <= m < n && 0 <= j < n ==> gp[m][j] == Entry(channels, g, m, j))
    && forall v, j :: 0 <= v < g.nodes && 0 <= j < n ==> phi[v][j] == NodePotential(channels, n, g.nodes, v, j)
  }

  /** nodal[right] - nodal[left] */
  function NodalDifference(c: Channel, g: Mesh): (z: Matrix)
    requires IsMesh(g) && IsChannel(c, |g.left|, g.nodes)
    ensures IsMatrix(z, |g.left|, |g.left|)
    ensures forall m :: 0 <= m < |g.left| ==> z[m] == Minus(c.nodal[g.right[m]], c.nodal[g.left[m]])
  {
    hide Minus, MatrixMinus, Rows;
    MatrixMinus(Rows(c.nodal, g.right), Rows(c.nodal, g.left))
  }

  /** vector - (nodal[right] - nodal[left]) */
  function Tests(c: Channel, g: Mesh): (z: Matrix)
    requires IsMesh(g) && IsChannel(c, |g.left|, g.nodes)
    ensures IsMatrix(z, |g.left|, |g.left|)
  {
    hide Minus, NodalDifference, MatrixMinus;
    MatrixMinus(c.vector, NodalDifference(c, g))
  }

  function MatrixTerm(c: Channel, g: Mesh): (z: Matrix)
    requires IsMesh(g) && IsChannel(c, |g.left|, g.nodes)
    ensures IsMatrix(z, |g.left|, |g.left|)
  {
    hide Dot, Minus, Tests, Product, RowTimes;
    Product(Tests(c, g), c.basis, |g.left|)
  }

  lemma MatrixTermEntry(c: Channel, g: Mesh, m: nat, j: nat)
    requires IsMesh(g) && IsChannel(c, |g.left|, g.nodes) && m < |g.left| && j < |g.left|
    ensures MatrixTerm(c, g)[m][j] == TermEntry(c, g, m, j)
  {
    hide Dot, Minus, NodalDifference, MatrixMinus, Product, RowTimes;
    assert MatrixTerm(c, g)[m] == RowTimes(Tests(c, g)[m], c.basis, |g.left|);
    assert Tests(c, g)[m] == Minus(c.vector[m], NodalDifference(c, g)[m]);
  }

  function TermEntry(c: Channel, g: Mesh, m: nat, j: nat): Complex
    requires IsMesh(g) && IsChannel(c, |g.left|, g.nodes) && m < |g.left| && j < |g.left|
  {
    Dot(Minus(c.vector[m], Minus(c.nodal[g.right[m]], c.nodal[g.left[m]])), c.basis, j, |g.left|)
  }

  lemma EntryStep(channels: seq<Channel>, c: Channel, g: Mesh, m: nat, j: nat)
    requires Fits(channels, g) && IsChannel(c, |g.left|, g.nodes) && m < |g.left| && j < |g.left|
    ensures Fits(channels + [c], g)
    ensures Entry(channels + [c], g, m, j) == CAdd(Entry(channels, g, m, j), TermEntry(c, g, m, j))
  {
    hide CMul, Dot, Minus;
    var n, l, r := |g.left|, g.left[m], g.right[m];
    assert (channels + [c])[..|channels|] == channels;
    DotMinus(c.vector[m], Minus(c.nodal[r], c.nodal[l]), c.basis, j, n);
    DotMinus(c.nodal[r], c.nodal[l], c.basis, j, n);
  }

  lemma PotentialStep(channels: seq<Channel>, c: Channel, g: Mesh, v: nat, j: nat)
    requires Fits(channels, g) && IsChannel(c, |g.left|, g.nodes) && v < g.nodes && j < |g.left|
    ensures Fits(channels + [c], g)
    ensures NodePotential(channels + [c], |g.left|, g.nodes, v, j)
         == CAdd(NodePotential(channels, |g.left|, g.nodes, v, j), Dot(c.nodal[v], c.basis, j, |g.left|))
  {
    hide Dot;
    assert (channels + [c])[..|channels|] == channels;
  }

  lemma MatrixStep(channels: seq<Channel>, c: Channel, g: Mesh, gp: Matrix, m: nat, j: nat)
    requires Fits(channels, g) && IsChannel(c, |g.left|, g.nodes) && m < |g.left| && j < |g.left|
    requires IsMatrix(gp, |g.left|, |g.left|) && gp[m][j] == Entry(channels, g, m, j)
    ensures Fits(channels + [c], g)
    ensures SameShape(gp, MatrixTerm(c, g)) && IsMatrix(MatrixPlus(gp, MatrixTerm(c, g)), |g.left|, |g.left|)
    ensures MatrixPlus(gp, MatrixTerm(c, g))[m][j] == Entry(channels + [c], g, m, j)
  {
    hide Entry, TermEntry, MatrixPlus, MatrixTerm, Plus, IsChannel;
    EntryStep(channels, c, g, m, j);
    MatrixTermEntry(c, g, m, j);
  }

  lemma PotentialsStep(channels: seq<Channel>, c: Channel, g: Mesh, phi: Matrix, v: nat, j: nat)
    requires Fits(channels, g) && IsChannel(c, |g.left|, g.nodes) && v < g.nodes && j < |g.left|
    requires IsMatrix(phi, g.nodes, |g.left|)
    requires phi[v][j] == NodePotential(channels, |g.left|, g.nodes, v, j)
    ensures Fits(channels + [c], g)
    ensures SameShape(phi, Product(c.nodal, c.basis, |g.left|))
    ensures IsMatrix(MatrixPlus(phi, Product(c.nodal, c.basis, |g.left|)), g.nodes, |g.left|)
    ensures MatrixPlus(phi, Product(c.nodal, c.basis, |g.left|))[v][j]
         == NodePotential(channels + [c], |g.left|, g.nodes, v, j)
  {
    hide NodePotential, Dot, MatrixPlus, Product, Plus;
    PotentialStep(channels, c, g, v, j);
  }

  lemma AccumulateStep(channels: seq<Channel>, c: Channel, g: Mesh, gp: Matrix, phi: Matrix)
    requires IsMatrix(gp, |g.left|, |g.left|) && IsMatrix(phi, g.nodes, |g.left|)
    requires Fits(channels, g) && IsChannel(c, |g.left|, g.nodes) && Accumulated(channels, g, gp, phi)
    ensures Fits(channels + [c], g)
    ensures SameShape(gp, MatrixTerm(c, g)) && SameShape(phi, Product(c.nodal, c.basis, |g.left|))
    ensures var gp', phi' := MatrixPlus(gp, MatrixTerm(c, g)), MatrixPlus(phi, Product(c.nodal, c.basis, |g.left|));
            && IsMatrix(gp', |g.left|, |g.left|) && IsMatrix(phi', g.nodes, |g.left|)
            && Accumulated(channels + [c], g, gp', phi')
  {
    hide Entry, NodePotential, MatrixPlus, MatrixTerm, Product, Plus;
    AccumulatedShapes(c, g, gp, phi);
    var n := |g.left|;
    var gp', phi' := MatrixPlus(gp, MatrixTerm(c, g)), MatrixPlus(phi, Product(c.nodal, c.basis, n));
    forall m, j | 0 <= m < n && 0 <= j < n ensures gp'[m][j] == Entry(channels + [c], g, m, j) {
      MatrixStep(channels, c, g, gp, m, j);
    }
    forall v, j | 0 <= v < g.nodes && 0 <= j < n
      ensures phi'[v][j] == NodePotential(channels + [c], n, g.nodes, v, j)
    {
      PotentialsStep(channels, c, g, phi, v, j);
    }
  }

  lemma AccumulatedShapes(c: Channel, g: Mesh, gp: Matrix, phi: Matrix)
    requires IsMatrix(gp, |g.left|, |g.left|) && IsMatrix(phi, g.nodes, |g.left|)
    requires IsMesh(g) && IsChannel(c, |g.left|, g.nodes)
    ensures SameShape(gp, MatrixTerm(c, g)) && SameShape(phi, Product(c.nodal, c.basis, |g.left|))
    ensures IsMatrix(MatrixPlus(gp, MatrixTerm(c, g)), |g.left|, |g.left|)
    ensures IsMatrix(MatrixPlus(phi, Product(c.nodal, c.basis, |g.left|)), g.nodes, |g.left|)
  {
    hide MatrixPlus, MatrixTerm, Product, Plus, RowTimes, Dot, TermEntry;
  }

  /** The matrix and the nodal potentials, accumulated channel by channel: every entry is its vector part less the
      difference of the potentials at the segment's ends. */
  method Accumulate(channels: seq<Channel>, g: Mesh) returns (gp: Matrix, phi: Matrix)
    requires Fits(channels, g)
    ensures IsMatrix(gp, |g.left|, |g.left|) && IsMatrix(phi, g.nodes, |g.left|)
    ensures Accumulated(channels, g, gp, phi)
    ensures RowsAreDifferences(channels, g, gp, phi)
  {
    hide Dot, Entry, MatrixPlus, MatrixTerm, Product, Plus, Accumulated, RowsAreDifferences;
    var n := |g.left|;
    gp, phi := ZeroMatrix(n, n), ZeroMatrix(g.nodes, n);
    assert Accumulated([], g, gp, phi) by { NothingAccumulated(g); }
    var i := 0;
    while i < |channels|
      invariant 0 <= i <= |channels|
      invariant IsMatrix(gp, n, n) && IsMatrix(phi, g.nodes, n)
      invariant Fits(channels[..i], g) && Accumulated(channels[..i], g, gp, phi)
    {
      var c := channels[i];
      AccumulateStep(channels[..i], c, g, gp, phi);
      assert channels[..i] + [c] == channels[..i + 1];
      gp := MatrixPlus(gp, MatrixTerm(c, g));
      phi := MatrixPlus(phi, Product(c.nodal, c.basis, n));
      i := i + 1;
    }
    assert channels[..i] == channels;
    EntriesAreDifferences(channels, g, gp, phi);
  }

  /** Each entry is its vector part less the potential at the segment's right node minus that at its left node. */
  ghost predicate RowsAreDifferences(channels: seq<Channel>, g: Mesh, gp: Matrix, phi: Matrix)
    requires Fits(channels, g) && IsMatrix(gp, |g.left|, |g.left|) && IsMatrix(phi, g.nodes, |g.left|)
  {
    var n := |g.left|;
    forall m, j :: 0 <= m < n && 0 <= j < n ==>
      gp[m][j] == CSub(VectorPart(channels, n, g.nodes, m, j), CSub(phi[g.right[m]][j], phi[g.left[m]][j]))
  }

  lemma EntriesAreDifferences(channels: seq<Channel>, g: Mesh, gp: Matrix, phi: Matrix)
    requires Fits(channels, g) && IsMatrix(gp, |g.left|, |g.left|) && IsMatrix(phi, g.nodes, |g.left|)
    requires Accumulated(channels, g, gp, phi)
    ensures RowsAreDifferences(channels, g, gp, phi)
  {
    hide VectorPart, NodePotential, IsChannel;
  }

  lemma NothingAccumulated(g: Mesh)
    requires IsMesh(g)
    ensures Accumulated([], g, ZeroMatrix(|g.left|, |g.left|), ZeroMatrix(g.nodes, |g.left|))
  {
  }

  ghost predicate IsIdentity(m: Matrix, n: nat) {
    IsMatrix(m, n, n) && forall i, j :: 0 <= i < n && 0 <= j < n ==> m[i][j] == if i == j then ONE else ZERO
  }

  lemma {:induction false} DotIdentity(row: Row, m: Matrix, j: nat, k: nat)
    requires IsIdentity(m, |row|) && j < |row| && k <= |row|
    ensures Dot(row, m, j, k) == if j < k then row[j] else ZERO
  {
    hide CMul;
    if k > 0 {
      DotIdentity(row, m, j, k - 1);
      TimesOneOrZero(row[k - 1]);
    }
  }

  lemma TimesOneOrZero(z: Complex)
    ensures CMul(z, ONE) == z && CMul(z, ZERO) == ZERO
  {
  }

  /** With one channel and unit currents the parts are the entries of the channel's own tables, row by row. */
  lemma UnitCurrents(c: Channel, g: Mesh, m: nat, v: nat, j: nat)
    requires Fits([c], g) && IsChannel(c, |g.left|, g.nodes) && IsIdentity(c.basis, |g.left|)
    requires m < |g.left| && v < g.nodes && j < |g.left|
    ensures VectorPart([c], |g.left|, g.nodes, m, j) == c.vector[m][j]
    ensures NodePotential([c], |g.left|, g.nodes, v, j) == c.nodal[v][j]
  {
    hide Dot, IsIdentity;
    DotIdentity(c.vector[m], c.basis, j, |g.left|);
    DotIdentity(c.nodal[v], c.basis, j, |g.left|);
    assert [c][..0] == [];
    assert VectorPart([], |g.left|, g.nodes, m, j) == ZERO && NodePotential([], |g.left|, g.nodes, v, j) == ZERO;
  }

  // ---------------------------------------------------------------- walks

  /** A segment passed from left to right (forward) or from right to left. */
  datatype Pass = Pass(seg: nat, forward: bool)

  ghost predicate IsWalk(g: Mesh, walk: seq<Pass>) {
    IsMesh(g) && forall p <- walk :: p.seg < |g.left|
  }

  function Start(g: Mesh, p: Pass): nat
    requires p.seg < |g.left| && p.seg < |g.right|
  {
    if p.forward then g.left[p.seg] else g.right[p.seg]
  }

  function Finish(g: Mesh, p: Pass): nat
    requires p.seg < |g.left| && p.seg < |g.right|
  {
    if p.forward then g.right[p.seg] else g.left[p.seg]
  }

  /** The tested potential of a segment: the difference between its right and its left node. */
  function Tested(g: Mesh, phi: Row, seg: nat): Complex
    requires IsMesh(g) && |phi| == g.nodes && seg < |g.left|
  {
    CSub(phi[g.right[seg]], phi[g.left[seg]])
  }

  /** The signed sum of the tested potentials along a walk. */
  function SignedSum(g: Mesh, phi: Row, walk: seq<Pass>): Complex
    requires IsWalk(g, walk) && |phi| == g.nodes
  {
    if walk == [] then ZERO
    else
      var p := walk[|walk| - 1];
      var t := Tested(g, phi, p.seg);
      CAdd(SignedSum(g, phi, walk[..|walk| - 1]), if p.forward then t else CScale(-1.0, t))
  }

  /** Each pass begins at the node where the one before it ended. */
  ghost predicate Connected(g: Mesh, walk: seq<Pass>)
    requires IsWalk(g, walk)
  {
    forall i :: 0 < i < |walk| ==> Start(g, walk[i]) == Finish(g, walk[i - 1])
  }

  lemma {:induction false} Telescope(g: Mesh, phi: Row, walk: seq<Pass>, k: nat)
    requires IsWalk(g, walk) && |phi| == g.nodes && Connected(g, walk) && 0 < k <= |walk|
    ensures SignedSum(g, phi, walk[..k]) == CSub(phi[Finish(g, walk[k - 1])], phi[Start(g, walk[0])])
  {
    hide Start, Finish, SignedSum;
    assert walk[..k - 1] + [walk[k - 1]] == walk[..k];
    TelescopeStep(g, phi, walk[..k - 1], walk[k - 1]);
    if k == 1 {
      assert SignedSum(g, phi, []) == ZERO by { NothingToSum(g, phi); }
    } else {
      Telescope(g, phi, walk, k - 1);
    }
  }

  lemma NothingToSum(g: Mesh, phi: Row)
    requires IsMesh(g) && |phi| == g.nodes
    ensures SignedSum(g, phi, []) == ZERO
  {
  }

  lemma TelescopeStep(g: Mesh, phi: Row, before: seq<Pass>, p: Pass)
    requires IsWalk(g, before) && p.seg < |g.left| && |phi| == g.nodes
    ensures IsWalk(g, before + [p])
    ensures SignedSum(g, phi, before + [p])
         == CAdd(SignedSum(g, phi, before), CSub(phi[Finish(g, p)], phi[Start(g, p)]))
  {
    assert (before + [p])[..|before|] == before;
  }

  /** Around a closed walk the tested potentials cancel, whatever the potentials. */
  lemma ClosedWalk(g: Mesh, phi: Row, walk: seq<Pass>)
    requires IsWalk(g, walk) && |phi| == g.nodes && Connected(g, walk)
    requires walk != [] ==> Finish(g, walk[|walk| - 1]) == Start(g, walk[0])
    ensures SignedSum(g, phi, walk) == ZERO
  {
    hide Start, Finish;
    if walk != [] {
      Telescope(g, phi, walk, |walk|);
      assert walk[..|walk|] == walk;
    }
  }

  // ---------------------------------------------------------------- exactly which walks cancel

  /** How often the passes end at a node, less how often they begin there. */
  function Net(g: Mesh, walk: seq<Pass>, node: nat): int
    requires IsWalk(g, walk)
  {
    if walk == [] then 0
    else
      var p := walk[|walk| - 1];
      Net(g, walk[..|walk| - 1], node)
      + (if Finish(g, p) == node then 1 else 0) - (if Start(g, p) == node then 1 else 0)
  }

  ghost predicate Balanced(g: Mesh, walk: seq<Pass>)
    requires IsWalk(g, walk)
  {
    forall node :: 0 <= node < g.nodes ==> Net(g, walk, node) == 0
  }

  ghost predicate Cancels(g: Mesh, walk: seq<Pass>)
    requires IsWalk(g, walk)
  {
    forall phi: Row | |phi| == g.nodes :: SignedSum(g, phi, walk) == ZERO
  }

  /** The potential summed against the net visits of the nodes below `k`. */
  function NetSum(g: Mesh, phi: Row, walk: seq<Pass>, k: nat): Complex
    requires IsWalk(g, walk) && |phi| == g.nodes && k <= g.nodes
  {
    if k == 0 then ZERO
    else CAdd(NetSum(g, phi, walk, k - 1), CScale(Net(g, walk, k - 1) as real, phi[k - 1]))
  }

  lemma {:induction false} NetSumOfNothing(g: Mesh, phi: Row, walk: seq<Pass>, k: nat)
    requires IsWalk(g, walk) && |phi| == g.nodes && k <= g.nodes
    requires forall node :: 0 <= node < k ==> Net(g, walk, node) == 0
    ensures NetSum(g, phi, walk, k) == ZERO
  {
    if k > 0 { NetSumOfNothing(g, phi, walk, k - 1); }
  }

  function Below(phi: Row, node: nat, k: nat): Complex
    requires k <= |phi|
  {
    if node < k then phi[node] else ZERO
  }

  lemma {:induction false} NetSumStep(g: Mesh, phi: Row, walk: seq<Pass>, k: nat)
    requires IsWalk(g, walk) && |phi| == g.nodes && k <= g.nodes && walk != []
    ensures var p := walk[|walk| - 1];
            NetSum(g, phi, walk, k)
            == CAdd(NetSum(g, phi, walk[..|walk| - 1], k),
                CSub(Below(phi, Finish(g, p), k), Below(phi, Start(g, p), k)))
  {
    hide CScale, Start, Finish, CAdd, CSub;
    var before, p := walk[..|walk| - 1], walk[|walk| - 1];
    var f, s := Finish(g, p), Start(g, p);
    if k == 0 {
      NothingAdded();
    } else {
      NetSumStep(g, phi, walk, k - 1);
      var n, z := Net(g, before, k - 1), phi[k - 1];
      assert Net(g, walk, k - 1) == n + (if f == k - 1 then 1 else 0) - (if s == k - 1 then 1 else 0);
      VisitTerm(n, f == k - 1, s == k - 1, z);
      hide Net;
      AddVisits(NetSum(g, phi, before, k - 1), Below(phi, f, k - 1), Below(phi, s, k - 1), CScale(n as real, z),
                if f == k - 1 then z else ZERO, if s == k - 1 then z else ZERO);
      BelowStep(phi, f, k - 1);
      BelowStep(phi, s, k - 1);
    }
  }

  lemma NothingAdded()
    ensures CAdd(ZERO, CSub(ZERO, ZERO)) == ZERO
  {
  }

  lemma BelowStep(phi: Row, node: nat, k: nat)
    requires k < |phi|
    ensures Below(phi, node, k + 1) == CAdd(Below(phi, node, k), if node == k then phi[k] else ZERO)
  {
  }

  lemma AddVisits(sum: Complex, f: Complex, s: Complex, w: Complex, df: Complex, ds: Complex)
    ensures CAdd(CAdd(sum, CSub(f, s)), CAdd(w, CSub(df, ds))) == CAdd(CAdd(sum, w), CSub(CAdd(f, df), CAdd(s, ds)))
  {
  }

  lemma VisitTerm(n: int, finishes: bool, starts: bool, z: Complex)
    ensures CScale((n + (if finishes then 1 else 0) - (if starts then 1 else 0)) as real, z)
         == CAdd(CScale(n as real, z), CSub(if finishes then z else ZERO, if starts then z else ZERO))
  {
    assert (n + 1) as real == n as real + 1.0 && (n - 1) as real == n as real - 1.0;
    CScaleSum(n as real, 1.0, z);
    CScaleSum(n as real, -1.0, z);
    CScaleOne(z);
    assert CScale(-1.0, z) == Complex(-z.re, -z.im);
  }

  lemma {:induction false} SignedSumIsNetSum(g: Mesh, phi: Row, walk: seq<Pass>)
    requires IsWalk(g, walk) && |phi| == g.nodes
    ensures SignedSum(g, phi, walk) == NetSum(g, phi, walk, g.nodes)
  {
    if walk == [] {
      NetSumOfNothing(g, phi, walk, g.nodes);
    } else {
      SignedSumIsNetSum(g, phi, walk[..|walk| - 1]);
      NetSumStep(g, phi, walk, g.nodes);
    }
  }

  /** The potential that is 1 at one node and 0 elsewhere. */
  function Unit(nodes: nat, node: nat): (phi: Row)
    ensures |phi| == nodes
    ensures forall i :: 0 <= i < nodes ==> phi[i] == if i == node then Complex(1.0, 0.0) else ZERO
  {
    if nodes == 0 then [] else Unit(nodes - 1, node) + [if nodes - 1 == node then Complex(1.0, 0.0) else ZERO]
  }

  lemma {:induction false} NetSumOfUnit(g: Mesh, walk: seq<Pass>, node: nat, k: nat)
    requires IsWalk(g, walk) && node < g.nodes && k <= g.nodes
    ensures NetSum(g, Unit(g.nodes, node), walk, k) == Complex(if node < k then Net(g, walk, node) as real else 0.0,
        0.0)
  {
    hide CScale, Net, Unit, Finish, Start;
    if k > 0 {
      NetSumOfUnit(g, walk, node, k - 1);
      ScaleUnit(Net(g, walk, k - 1) as real);
    }
  }

  lemma ScaleUnit(c: real)
    ensures CScale(c, Complex(1.0, 0.0)) == Complex(c, 0.0) && CScale(c, ZERO) == ZERO
  {
  }

  /** The tested potentials of a list of passes cancel for every potential exactly when the passes
      enter each node as often as they leave it. */
  lemma CancelsExactlyWhenBalanced(g: Mesh, walk: seq<Pass>)
    requires IsWalk(g, walk)
    ensures Cancels(g, walk) <==> Balanced(g, walk)
  {
    if Cancels(g, walk) {
      forall node | 0 <= node < g.nodes ensures Net(g, walk, node) == 0 {
        SignedSumIsNetSum(g, Unit(g.nodes, node), walk);
        NetSumOfUnit(g, walk, node, g.nodes);
      }
    }
    if Balanced(g, walk) {
      forall phi: Row | |phi| == g.nodes ensures SignedSum(g, phi, walk) == ZERO {
        SignedSumIsNetSum(g, phi, walk);
        NetSumOfNothing(g, phi, walk, g.nodes);
      }
    }
  }

  // ---------------------------------------------------------------- from geometry to cancellation

  function StartPoint(segL: seq<Point>, segR: seq<Point>, p: Pass): Point
    requires p.seg < |segL| && p.seg < |segR|
  {
    if p.forward then segL[p.seg] else segR[p.seg]
  }

  function FinishPoint(segL: seq<Point>, segR: seq<Point>, p: Pass): Point
    requires p.seg < |segL| && p.seg < |segR|
  {
    if p.forward then segR[p.seg] else segL[p.seg]
  }

  /** The ids the table gives to the ends of the segments. */
  ghost predicate Numbers(g: Mesh, nodes: seq<Point>, segL: seq<Point>, segR: seq<Point>) {
    && |g.left| == |segL| == |segR| == |g.right| && g.nodes == |nodes|
    && (forall i :: 0 <= i < |segL| ==> Find(nodes, KeyOf(segL[i])) == Some(g.left[i]))
    && (forall i :: 0 <= i < |segR| ==> Find(nodes, KeyOf(segR[i])) == Some(g.right[i]))
  }

  /** Each pass begins in the grid cell where the one before it ended, and the last ends where the first began. */
  ghost predicate ClosedInSpace(segL: seq<Point>, segR: seq<Point>, walk: seq<Pass>)
    requires forall p <- walk :: p.seg < |segL| && p.seg < |segR|
  {
    && (forall i :: 0 < i < |walk| ==>
          KeyOf(StartPoint(segL, segR, walk[i])) == KeyOf(FinishPoint(segL, segR, walk[i - 1])))
    && (walk != [] ==> KeyOf(FinishPoint(segL, segR, walk[|walk| - 1])) == KeyOf(StartPoint(segL, segR, walk[0])))
  }

  /** Any loop of segments closed in space to the rounding has no net tested potential, for every
      potential at the nodes. */
  lemma LoopHasNoPotential(g: Mesh, nodes: seq<Point>, segL: seq<Point>, segR: seq<Point>, walk: seq<Pass>, phi: Row)
    requires Numbers(g, nodes, segL, segR) && |phi| == |nodes|
    requires forall p <- walk :: p.seg < |segL|
    requires ClosedInSpace(segL, segR, walk)
    ensures IsWalk(g, walk) && SignedSum(g, phi, walk) == ZERO
  {
    hide KeyOf;
    assert IsWalk(g, walk);
    forall p <- walk
      ensures Find(nodes, KeyOf(StartPoint(segL, segR, p))) == Some(Start(g, p))
      ensures Find(nodes, KeyOf(FinishPoint(segL, segR, p))) == Some(Finish(g, p))
    {
    }
    forall i | 0 < i < |walk| ensures Start(g, walk[i]) == Finish(g, walk[i - 1]) {
      assert walk[i] in walk && walk[i - 1] in walk;
    }
    if walk != [] { assert walk[0] in walk && walk[|walk| - 1] in walk; }
    ClosedWalk(g, phi, walk);
  }

  /** The signed sum of a row's values along a walk. */
  function SignedTotal(values: Row, walk: seq<Pass>): Complex
    requires forall p <- walk :: p.seg < |values|
  {
    if walk == [] then ZERO
    else
      var p := walk[|walk| - 1];
      assert p in walk;
      CAdd(SignedTotal(values, walk[..|walk| - 1]), if p.forward then values[p.seg] else CScale(-1.0, values[p.seg]))
  }

  lemma {:induction false} SplitTotal(g: Mesh, phi: Row, entries: Row, vector: Row, walk: seq<Pass>)
    requires IsWalk(g, walk) && |phi| == g.nodes && |entries| == |vector| == |g.left|
    requires forall m :: 0 <= m < |entries| ==> entries[m] == CSub(vector[m], Tested(g, phi, m))
    ensures SignedTotal(entries, walk) == CSub(SignedTotal(vector, walk), SignedSum(g, phi, walk))
  {
    if walk != [] { SplitTotal(g, phi, entries, vector, walk[..|walk| - 1]); }
  }

  /** Column j: the first `k` entries of the matrix, and of its vector part alone. */
  function EntryColumn(channels: seq<Channel>, g: Mesh, j: nat, k: nat): (column: Row)
    requires Fits(channels, g) && j < |g.left| && k <= |g.left|
    ensures |column| == k && forall m :: 0 <= m < k ==> column[m] == Entry(channels, g, m, j)
  {
    if k == 0 then [] else EntryColumn(channels, g, j, k - 1) + [Entry(channels, g, k - 1, j)]
  }

  function VectorColumn(channels: seq<Channel>, g: Mesh, j: nat, k: nat): (column: Row)
    requires Fits(channels, g) && j < |g.left| && k <= |g.left|
    ensures |column| == k
    ensures forall m :: 0 <= m < k ==> column[m] == VectorPart(channels, |g.left|, g.nodes, m, j)
  {
    if k == 0 then []
    else VectorColumn(channels, g, j, k - 1) + [VectorPart(channels, |g.left|, g.nodes, k - 1, j)]
  }

  function PotentialColumn(channels: seq<Channel>, g: Mesh, j: nat, k: nat): (column: Row)
    requires Fits(channels, g) && j < |g.left| && k <= g.nodes
    ensures |column| == k
    ensures forall v :: 0 <= v < k ==> column[v] == NodePotential(channels, |g.left|, g.nodes, v, j)
  {
    if k == 0 then []
    else PotentialColumn(channels, g, j, k - 1) + [NodePotential(channels, |g.left|, g.nodes, k - 1, j)]
  }

  /** Passes over the segments that close in space to the rounding. */
  ghost predicate IsLoop(segL: seq<Point>, segR: seq<Point>, walk: seq<Pass>) {
    (forall p <- walk :: p.seg < |segL| && p.seg < |segR|) && ClosedInSpace(segL, segR, walk)
  }

  /** Summed around a loop closed in space, the rows of the matrix keep their vector-potential part only: for every
      table of nodes built from the segments, all channels and every column. */
  lemma {:induction false} LoopKeepsVectorPart(g: Mesh, nodes: seq<Point>, segL: seq<Point>, segR: seq<Point>,
                                               channels: seq<Channel>, walk: seq<Pass>, j: nat)
    requires Numbers(g, nodes, segL, segR) && Fits(channels, g) && IsLoop(segL, segR, walk) && j < |segL|
    ensures SignedTotal(EntryColumn(channels, g, j, |segL|), walk)
         == SignedTotal(VectorColumn(channels, g, j, |segL|), walk)
  {
    hide KeyOf, SignedTotal, SignedSum, VectorPart, NodePotential, EntryColumn, VectorColumn, PotentialColumn;
    var phi := PotentialColumn(channels, g, j, g.nodes);
    LoopHasNoPotential(g, nodes, segL, segR, walk, phi);
    SplitTotal(g, phi, EntryColumn(channels, g, j, |segL|), VectorColumn(channels, g, j, |segL|), walk);
  }

  /** Column j of a matrix. */
  function Column(m: Matrix, j: nat): (column: Row)
    requires forall i :: 0 <= i < |m| ==> j < |m[i]|
    ensures |column| == |m| && forall i :: 0 <= i < |m| ==> column[i] == m[i][j]
  {
    if m == [] then [] else Column(m[..|m| - 1], j) + [m[|m| - 1][j]]
  }

  /** The builder: number the ends, and accumulate the channels tabulated at the nodes. Around every loop of segments
      that closes in space the rows it returns sum, column by column, to their vector parts. */
  method BuildHalfRazor(segL: seq<Point>, segR: seq<Point>, channels: seq<Channel>)
    returns (gp: Matrix, phi: Matrix, g: Mesh, nodes: seq<Point>)
    requires |segL| == |segR|
    requires forall c <- channels :: IsChannel(c, |segL|, |EnterAll(EnterAll([], segL), segR)|)
    ensures nodes == EnterAll(EnterAll([], segL), segR) && Numbers(g, nodes, segL, segR)
    ensures IdsFit(segL + segR, g.left + g.right, nodes)
    ensures IsMatrix(gp, |segL|, |segL|) && IsMatrix(phi, |nodes|, |segL|)
    ensures Fits(channels, g) && Accumulated(channels, g, gp, phi) && RowsAreDifferences(channels, g, gp, phi)
    ensures forall walk, j | IsLoop(segL, segR, walk) && 0 <= j < |segL| ::
      LoopSums(segL, segR, channels, g, gp, walk, j)
  {
    hide KeyOf, EnterAll, Find, Accumulated, IsLoop, SignedTotal, IsChannel, LoopSums, Fits, IsMatrix, IdsFit,
        RowsAreDifferences;
    var left, right;
    left, right, nodes := BuildNodes(segL, segR);
    g := Mesh(left, right, |nodes|);
    NumbersFit(g, nodes, segL, segR, channels);
    gp, phi := Accumulate(channels, g);
    forall walk, j | IsLoop(segL, segR, walk) && 0 <= j < |segL|
      ensures LoopSums(segL, segR, channels, g, gp, walk, j)
    {
      BuiltLoop(g, nodes, segL, segR, channels, gp, phi, walk, j);
    }
  }

  lemma NumbersFit(g: Mesh, nodes: seq<Point>, segL: seq<Point>, segR: seq<Point>, channels: seq<Channel>)
    requires Numbers(g, nodes, segL, segR) && forall c <- channels :: IsChannel(c, |segL|, |nodes|)
    ensures Fits(channels, g)
  {
    hide KeyOf, IsChannel;
  }

  /** The rows of a matrix, signed along a loop, sum in column j to their vector parts. */
  ghost predicate LoopSums(segL: seq<Point>, segR: seq<Point>, channels: seq<Channel>, g: Mesh, gp: Matrix,
                           walk: seq<Pass>, j: nat)
    requires Fits(channels, g) && j < |segL| == |segR| == |g.left| && IsMatrix(gp, |segL|, |segL|)
    requires IsLoop(segL, segR, walk)
  {
    SignedTotal(Column(gp, j), walk) == SignedTotal(VectorColumn(channels, g, j, |segL|), walk)
  }

  lemma BuiltLoop(g: Mesh, nodes: seq<Point>, segL: seq<Point>, segR: seq<Point>, channels: seq<Channel>,
                  gp: Matrix, phi: Matrix, walk: seq<Pass>, j: nat)
    requires Numbers(g, nodes, segL, segR) && Fits(channels, g) && IsLoop(segL, segR, walk) && j < |segL|
    requires IsMatrix(gp, |segL|, |segL|) && IsMatrix(phi, |nodes|, |segL|) && Accumulated(channels, g, gp, phi)
    ensures LoopSums(segL, segR, channels, g, gp, walk, j)
  {
    hide KeyOf, Accumulated, SignedTotal, ClosedInSpace;
    LoopKeepsVectorPart(g, nodes, segL, segR, channels, walk, j);
    BuiltColumn(channels, g, gp, phi, j);
  }

  lemma BuiltColumn(channels: seq<Channel>, g: Mesh, gp: Matrix, phi: Matrix, j: nat)
    requires IsMatrix(gp, |g.left|, |g.left|) && IsMatrix(phi, g.nodes, |g.left|)
    requires Fits(channels, g) && Accumulated(channels, g, gp, phi) && j < |g.left|
    ensures Column(gp, j) == EntryColumn(channels, g, j, |g.left|)
  {
    hide Entry, Column, EntryColumn;
  }
}
