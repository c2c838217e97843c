/** The background grid: per-node momentum (`grid_v_in`) and mass
    (`grid_m_in`), with the deposit primitive the particle-to-grid transfer
    uses and the totals that the transfer conserves. */
module Grid {
  import opened Linalg
  import opened Params
  import opened Stencil

  /** One grid node: accumulated momentum and mass. */
  datatype Node = Node(mom: Vec2, mass: real)

  const ZeroNode: Node := Node(Zero, 0.0)

  function NodePlus(a: Node, b: Node): Node {
    Node(Add(a.mom, b.mom), a.mass + b.mass)
  }

  /** Both parts of a node scaled by `s`. */
  function NodeScale(s: real, a: Node): Node {
    Node(Scale(s, a.mom), s * a.mass)
  }

  /** A grid field is a sequence of rows indexed by the first cell coordinate. */
  type Field = seq<seq<Node>>

  predicate InGrid(g: Field, c: Cell) {
    0 <= c.i < |g| && 0 <= c.j < |g[c.i]|
  }

  /** The cleared grid: every node zero. */
  function EmptyGrid(): (g: Field)
    ensures Shaped(g)
    ensures forall r, s :: 0 <= r < NGrid && 0 <= s < NGrid ==> g[r][s] == ZeroNode
  {
    seq(NGrid, _ => seq(NGrid, _ => ZeroNode))
  }

  /** Sum of the nodes of one row. */
  function RowTotal(s: seq<Node>): Node
    decreases |s|
  {
    if |s| == 0 then ZeroNode else NodePlus(s[0], RowTotal(s[1..]))
  }

  /** Sum of all nodes of the grid. */
  function GridTotal(g: Field): Node
    decreases |g|
  {
    if |g| == 0 then ZeroNode else NodePlus(RowTotal(g[0]), GridTotal(g[1..]))
  }

  /** `grid[c] += d`: only cell c changes, and it grows by exactly d. */
  function Deposit(g: Field, c: Cell, d: Node): (h: Field)
    requires InGrid(g, c)
    ensures |h| == |g| && forall r :: 0 <= r < |g| ==> |h[r]| == |g[r]|
    ensures h[c.i][c.j] == NodePlus(g[c.i][c.j], d)
    ensures forall r, s :: 0 <= r < |g| && 0 <= s < |g[r]| && Cell(r, s) != c ==> h[r][s] == g[r][s]
  {
    g[c.i := g[c.i][c.j := NodePlus(g[c.i][c.j], d)]]
  }

  /** Regrouping a three-term node sum. */
  lemma PlusShuffle(a: Node, b: Node, d: Node)
    ensures NodePlus(NodePlus(a, d), b) == NodePlus(NodePlus(a, b), d)
    ensures NodePlus(a, NodePlus(b, d)) == NodePlus(NodePlus(a, b), d)
  {
  }

  /** Depositing `d` into a cell raises the row's total by exactly `d`. */
  lemma {:induction false} RowTotalUpdate(s: seq<Node>, j: int, d: Node)
    requires 0 <= j < |s|
    ensures RowTotal(s[j := NodePlus(s[j], d)]) == NodePlus(RowTotal(s), d)
    decreases |s|
  {
    var t := s[j := NodePlus(s[j], d)];
    if j == 0 {
      assert t[1..] == s[1..];
      PlusShuffle(s[0], RowTotal(s[1..]), d);
    } else {
      assert t[1..] == s[1..][j - 1 := NodePlus(s[1..][j - 1], d)];
      RowTotalUpdate(s[1..], j - 1, d);
      PlusShuffle(s[0], RowTotal(s[1..]), d);
    }
  }

  /** Replacing row i by a row whose total is `d` larger raises the grid's
      total by exactly `d`. */
  lemma {:induction false} GridTotalUpdate(g: Field, i: int, row: seq<Node>, d: Node)
    requires 0 <= i < |g| && RowTotal(row) == NodePlus(RowTotal(g[i]), d)
    ensures GridTotal(g[i := row]) == NodePlus(GridTotal(g), d)
    decreases |g|
  {
    var h := g[i := row];
    if i == 0 {
      GridTotalHead(g, h, d);
    } else {
      assert h[1..] == g[1..][i - 1 := row];
      GridTotalUpdate(g[1..], i - 1, row, d);
      GridTotalTail(g, h, d);
    }
  }

  lemma GridTotalHead(g: Field, h: Field, d: Node)
    requires |g| > 0 && |h| == |g| && h[1..] == g[1..] && RowTotal(h[0]) == NodePlus(RowTotal(g[0]), d)
    ensures GridTotal(h) == NodePlus(GridTotal(g), d)
  {
    PlusShuffle(RowTotal(g[0]), GridTotal(g[1..]), d);
  }

  lemma GridTotalTail(g: Field, h: Field, d: Node)
    requires |g| > 0 && |h| == |g| && h[0] == g[0] && GridTotal(h[1..]) == NodePlus(GridTotal(g[1..]), d)
    ensures GridTotal(h) == NodePlus(GridTotal(g), d)
  {
    PlusShuffle(RowTotal(g[0]), GridTotal(g[1..]), d);
  }

  /** A deposit adds exactly its amount to the grid's total momentum and
      mass. */
  lemma DepositTotal(g: Field, c: Cell, d: Node)
    requires InGrid(g, c)
    ensures GridTotal(Deposit(g, c, d)) == NodePlus(GridTotal(g), d)
  {
    RowTotalUpdate(g[c.i], c.j, d);
    GridTotalUpdate(g, c.i, g[c.i][c.j := NodePlus(g[c.i][c.j], d)], d);
  }

  /** A row of zero nodes sums to zero. */
  lemma {:induction false} ZeroRowTotal(s: seq<Node>)
    requires forall j :: 0 <= j < |s| ==> s[j] == ZeroNode
    ensures RowTotal(s) == ZeroNode
    decreases |s|
  {
    if |s| > 0 {
      ZeroRowTotal(s[1..]);
    }
  }

  /** The cleared grid holds no momentum and no mass. */
  lemma {:induction false} ZeroGridTotal(g: Field)
    requires forall r, s :: 0 <= r < |g| && 0 <= s < |g[r]| ==> g[r][s] == ZeroNode
    ensures GridTotal(g) == ZeroNode
    decreases |g|
  {
    if |g| > 0 {
      ZeroRowTotal(g[0]);
      ZeroGridTotal(g[1..]);
    }
  }

  lemma EmptyGridTotal()
    ensures GridTotal(EmptyGrid()) == ZeroNode
  {
    ZeroGridTotal(EmptyGrid());
  }
}
