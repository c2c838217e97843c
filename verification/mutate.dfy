/** `mutate`: one random pass over the seed matrix of actuator labels, in
    row-major order, in which a cell may take the label of one of its four
    neighbours. The child is the parent array itself (`child = parent`), so
    the pass works in place and a cell sees the new labels of the cells
    visited before it. The random draws are an oracle: one
    `random.random()` value and one `random.choice` index per cell. */
module Mutation {

  type Matrix = seq<seq<int>>

  /** Same number of rows, and row by row the same length. */
  predicate SameShape<T, U>(a: seq<seq<T>>, b: seq<seq<U>>) {
    |a| == |b| && forall r :: 0 <= r < |a| ==> |a[r]| == |b[r]|
  }

  /** A numpy 2-D array: every row has the same length. */
  predicate Rectangular(m: Matrix) {
    forall r, s :: 0 <= r < |m| && 0 <= s < |m| ==> |m[r]| == |m[s]|
  }

  /** `m[r, c]` when that cell exists, otherwise `muscles`. */
  function ReadOr(m: Matrix, r: int, c: int, muscles: int): (v: int)
    ensures (0 <= r < |m| && 0 <= c < |m[r]|) ==> v == m[r][c]
    ensures !(0 <= r < |m| && 0 <= c < |m[r]|) ==> v == muscles
  {
    if 0 <= r < |m| && 0 <= c < |m[r]| then m[r][c] else muscles
  }

  /** `mut_vals` as the pass sees it at cell (r, c) of the finished child:
      the cells below and to the right are not visited yet and still hold
      the parent's labels, the cells above and to the left were visited
      before and hold the child's. Order: row + 1, row - 1, col + 1,
      col - 1. */
  function Neighbours(parent: Matrix, child: Matrix, r: int, c: int, muscles: int): seq<int> {
    [ReadOr(parent, r + 1, c, muscles), ReadOr(child, r - 1, c, muscles),
     ReadOr(parent, r, c + 1, muscles), ReadOr(child, r, c - 1, muscles)]
  }

  /** `new_vals = [x for x in vals if x != current]`. */
  function Candidates(vals: seq<int>, current: int): (q: seq<int>)
    ensures forall v :: v in q <==> v in vals && v != current
    decreases |vals|
  {
    if |vals| == 0 then []
    else (if vals[0] != current then [vals[0]] else []) + Candidates(vals[1..], current)
  }

  /** The new label of a cell whose label is `current`: when the draw is
      below the rate and some neighbour label differs, the `pick`-th such
      label (`random.choice`), otherwise `current`. */
  function CellResult(current: int, vals: seq<int>, draw: real, rate: real, pick: nat): (v: int)
    ensures v != current <==> draw < rate && exists k :: 0 <= k < |vals| && vals[k] != current
    ensures v != current ==> v in vals
  {
    var q := Candidates(vals, current);
    if draw < rate && q != [] then
      assert q[pick % |q|] in q;
      q[pick % |q|]
    else
      assert draw < rate ==> forall k :: 0 <= k < |vals| ==> vals[k] == current by {
        if draw < rate {
          forall k | 0 <= k < |vals| ensures vals[k] == current {
            assert vals[k] in vals;
          }
        }
      }
      current
  }

  /** Cell (r, c) of the child holds what the pass computes there. */
  predicate CellRule(parent: Matrix, child: Matrix, rate: real, muscles: int, draws: seq<seq<real>>, picks: seq<seq<nat>>, r: int, c: int)
    requires SameShape(child, parent) && SameShape(draws, parent) && SameShape(picks, parent)
    requires 0 <= r < |parent| && 0 <= c < |parent[r]|
  {
    child[r][c] == CellResult(parent[r][c], Neighbours(parent, child, r, c, muscles), draws[r][c], rate, picks[r][c])
  }

  /** The rule every cell of the finished child satisfies. */
  predicate MutationRule(parent: Matrix, child: Matrix, rate: real, muscles: int, draws: seq<seq<real>>, picks: seq<seq<nat>>)
    requires SameShape(child, parent) && SameShape(draws, parent) && SameShape(picks, parent)
  {
    forall r, c :: 0 <= r < |parent| && 0 <= c < |parent[r]| ==> CellRule(parent, child, rate, muscles, draws, picks, r, c)
  }

  /** The label `v` is `muscles` or occurs somewhere in `m`. */
  predicate InOrigin(m: Matrix, muscles: int, v: int) {
    v == muscles || exists r, c :: 0 <= r < |m| && 0 <= c < |m[r]| && m[r][c] == v
  }

  /** Cell (r, c) comes before cell (row, col) in row-major order. */
  predicate Before(r: int, c: int, row: int, col: int) {
    r < row || (r == row && c < col)
  }

  /** The mutation pass, as the loops run it. */
  method Mutate(parent: Matrix, rate: real, muscles: int, draws: seq<seq<real>>, picks: seq<seq<nat>>) returns (child: Matrix)
    requires Rectangular(parent) && SameShape(draws, parent) && SameShape(picks, parent)
    ensures SameShape(child, parent)
    ensures MutationRule(parent, child, rate, muscles, draws, picks)
    ensures forall r, c :: 0 <= r < |parent| && 0 <= c < |parent[r]| ==>
      (child[r][c] != parent[r][c] <==>
         draws[r][c] < rate && exists k :: 0 <= k < 4 && Neighbours(parent, child, r, c, muscles)[k] != parent[r][c])
    ensures forall r, c :: 0 <= r < |parent| && 0 <= c < |parent[r]| && child[r][c] != parent[r][c] ==>
      child[r][c] in Neighbours(parent, child, r, c, muscles)
    ensures forall r, c :: 0 <= r < |parent| && 0 <= c < |parent[r]| ==> InOrigin(parent, muscles, child[r][c])
  {
    child := parent;
    var row := 0;
    while row < |parent|
      invariant 0 <= row <= |parent|
      invariant SameShape(child, parent)
      invariant forall r, c :: 0 <= r < |parent| && 0 <= c < |parent[r]| && Before(r, c, row, 0) ==>
        child[r][c] == CellResult(parent[r][c], Neighbours(parent, child, r, c, muscles), draws[r][c], rate, picks[r][c])
      invariant forall r, c :: 0 <= r < |parent| && 0 <= c < |parent[r]| && !Before(r, c, row, 0) ==> child[r][c] == parent[r][c]
    {
      var col := 0;
      while col < |parent[row]|
        invariant 0 <= col <= |parent[row]|
        invariant SameShape(child, parent)
        invariant forall r, c :: 0 <= r < |parent| && 0 <= c < |parent[r]| && Before(r, c, row, col) ==>
          child[r][c] == CellResult(parent[r][c], Neighbours(parent, child, r, c, muscles), draws[r][c], rate, picks[r][c])
        invariant forall r, c :: 0 <= r < |parent| && 0 <= c < |parent[r]| && !Before(r, c, row, col) ==> child[r][c] == parent[r][c]
      {
        var current := child[row][col];
        var vals := [ReadOr(child, row + 1, col, muscles), ReadOr(child, row - 1, col, muscles),
                     ReadOr(child, row, col + 1, muscles), ReadOr(child, row, col - 1, muscles)];
        var old_child := child;
        assert old_child[row][col := current] == old_child[row];
        assert old_child[row := old_child[row]] == old_child;
        if draws[row][col] < rate {
          var newVals := Candidates(vals, current);
          if newVals != [] {
            child := child[row := child[row][col := newVals[picks[row][col] % |newVals|]]];
          }
        }
        assert child == old_child[row := old_child[row][col := CellResult(current, vals, draws[row][col], rate, picks[row][col])]];
        CellStep(parent, old_child, child, row, col, muscles, draws, picks, rate);
        col := col + 1;
      }
      row := row + 1;
    }
    assert MutationRule(parent, child, rate, muscles, draws, picks) by {
      forall r, c | 0 <= r < |parent| && 0 <= c < |parent[r]|
        ensures CellRule(parent, child, rate, muscles, draws, picks, r, c)
      {
      }
    }
    forall r, c | 0 <= r < |parent| && 0 <= c < |parent[r]|
      ensures InOrigin(parent, muscles, child[r][c])
    {
      ValuesFromOrigin(parent, child, rate, muscles, draws, picks, r, c);
    }
  }

  /** Every label of the child is a label of the parent or `muscles`: a
      changed cell copies a neighbour, and a neighbour it reads is either a
      parent cell, outside the matrix, or an earlier child cell, which by
      induction in row-major order holds such a label. */
  lemma ValuesFromOrigin(parent: Matrix, child: Matrix, rate: real, muscles: int, draws: seq<seq<real>>, picks: seq<seq<nat>>, r: int, c: int)
    requires SameShape(child, parent) && SameShape(draws, parent) && SameShape(picks, parent)
    requires MutationRule(parent, child, rate, muscles, draws, picks)
    requires 0 <= r < |parent| && 0 <= c < |parent[r]|
    ensures InOrigin(parent, muscles, child[r][c])
    decreases r, c
  {
    var v := child[r][c];
    var ns := Neighbours(parent, child, r, c, muscles);
    assert CellRule(parent, child, rate, muscles, draws, picks, r, c);
    assert v == CellResult(parent[r][c], ns, draws[r][c], rate, picks[r][c]);
    if v == parent[r][c] {
      assert InOrigin(parent, muscles, v);
    } else {
      assert v in ns;
      if v == ns[0] {
        OriginRead(parent, r + 1, c, muscles);
      } else if v == ns[2] {
        OriginRead(parent, r, c + 1, muscles);
      } else if v == ns[1] {
        if 0 <= r - 1 < |child| && 0 <= c < |child[r - 1]| {
          ValuesFromOrigin(parent, child, rate, muscles, draws, picks, r - 1, c);
        }
      } else {
        assert v == ns[3];
        if 0 <= c - 1 < |child[r]| {
          ValuesFromOrigin(parent, child, rate, muscles, draws, picks, r, c - 1);
        }
      }
    }
  }

  /** A read of the parent, in range or not, yields a label of origin. */
  lemma OriginRead(parent: Matrix, r: int, c: int, muscles: int)
    ensures InOrigin(parent, muscles, ReadOr(parent, r, c, muscles))
  {
    if 0 <= r < |parent| && 0 <= c < |parent[r]| {
      assert parent[r][c] == ReadOr(parent, r, c, muscles);
    }
  }

  /** One iteration of the inner loop keeps the invariant: the visited cells
      still satisfy the cell rule (they only read earlier cells), the new
      cell satisfies it, and the unvisited cells keep the parent's label. */
  lemma CellStep(parent: Matrix, cur: Matrix, next: Matrix, row: int, col: int, muscles: int,
                 draws: seq<seq<real>>, picks: seq<seq<nat>>, rate: real)
    requires Rectangular(parent) && SameShape(draws, parent) && SameShape(picks, parent)
    requires SameShape(cur, parent) && 0 <= row < |parent| && 0 <= col < |parent[row]|
    requires forall r, c :: 0 <= r < |parent| && 0 <= c < |parent[r]| && Before(r, c, row, col) ==>
      cur[r][c] == CellResult(parent[r][c], Neighbours(parent, cur, r, c, muscles), draws[r][c], rate, picks[r][c])
    requires forall r, c :: 0 <= r < |parent| && 0 <= c < |parent[r]| && !Before(r, c, row, col) ==> cur[r][c] == parent[r][c]
    requires
      var vals := [ReadOr(cur, row + 1, col, muscles), ReadOr(cur, row - 1, col, muscles),
                   ReadOr(cur, row, col + 1, muscles), ReadOr(cur, row, col - 1, muscles)];
      next == cur[row := cur[row][col := CellResult(cur[row][col], vals, draws[row][col], rate, picks[row][col])]]
    ensures SameShape(next, parent)
    ensures forall r, c :: 0 <= r < |parent| && 0 <= c < |parent[r]| && Before(r, c, row, col + 1) ==>
      next[r][c] == CellResult(parent[r][c], Neighbours(parent, next, r, c, muscles), draws[r][c], rate, picks[r][c])
    ensures forall r, c :: 0 <= r < |parent| && 0 <= c < |parent[r]| && !Before(r, c, row, col + 1) ==> next[r][c] == parent[r][c]
  {
    KeepEarlier(parent, cur, next, row, col, next[row][col], muscles, draws, picks, rate);
    NewCell(parent, cur, next, row, col, muscles, draws, picks, rate);
  }

  /** Writing cell (row, col) leaves the cells before it, and what they
      read, untouched. */
  lemma KeepEarlier(parent: Matrix, cur: Matrix, next: Matrix, row: int, col: int, v: int, muscles: int,
                    draws: seq<seq<real>>, picks: seq<seq<nat>>, rate: real)
    requires SameShape(draws, parent) && SameShape(picks, parent)
    requires SameShape(cur, parent) && 0 <= row < |parent| && 0 <= col < |parent[row]|
    requires forall r, c :: 0 <= r < |parent| && 0 <= c < |parent[r]| && Before(r, c, row, col) ==>
      cur[r][c] == CellResult(parent[r][c], Neighbours(parent, cur, r, c, muscles), draws[r][c], rate, picks[r][c])
    requires next == cur[row := cur[row][col := v]]
    ensures forall r, c :: 0 <= r < |parent| && 0 <= c < |parent[r]| && Before(r, c, row, col) ==>
      next[r][c] == CellResult(parent[r][c], Neighbours(parent, next, r, c, muscles), draws[r][c], rate, picks[r][c])
  {
    forall r, c | 0 <= r < |parent| && 0 <= c < |parent[r]| && Before(r, c, row, col)
      ensures next[r][c] == CellResult(parent[r][c], Neighbours(parent, next, r, c, muscles), draws[r][c], rate, picks[r][c])
    {
      assert ReadOr(next, r - 1, c, muscles) == ReadOr(cur, r - 1, c, muscles);
      assert ReadOr(next, r, c - 1, muscles) == ReadOr(cur, r, c - 1, muscles);
      assert Neighbours(parent, next, r, c, muscles) == Neighbours(parent, cur, r, c, muscles);
    }
  }

  /** The cell just written satisfies the cell rule: what the loop read
      below and to the right is still the parent's label, what it read above
      and to the left is the child's. */
  lemma NewCell(parent: Matrix, cur: Matrix, next: Matrix, row: int, col: int, muscles: int,
                draws: seq<seq<real>>, picks: seq<seq<nat>>, rate: real)
    requires SameShape(draws, parent) && SameShape(picks, parent)
    requires SameShape(cur, parent) && 0 <= row < |parent| && 0 <= col < |parent[row]|
    requires forall r, c :: 0 <= r < |parent| && 0 <= c < |parent[r]| && !Before(r, c, row, col) ==> cur[r][c] == parent[r][c]
    requires
      var vals := [ReadOr(cur, row + 1, col, muscles), ReadOr(cur, row - 1, col, muscles),
                   ReadOr(cur, row, col + 1, muscles), ReadOr(cur, row, col - 1, muscles)];
      next == cur[row := cur[row][col := CellResult(cur[row][col], vals, draws[row][col], rate, picks[row][col])]]
    ensures next[row][col] == CellResult(parent[row][col], Neighbours(parent, next, row, col, muscles), draws[row][col], rate, picks[row][col])
  {
    assert ReadOr(cur, row + 1, col, muscles) == ReadOr(parent, row + 1, col, muscles);
    assert ReadOr(cur, row, col + 1, muscles) == ReadOr(parent, row, col + 1, muscles);
    assert ReadOr(cur, row - 1, col, muscles) == ReadOr(next, row - 1, col, muscles);
    assert ReadOr(cur, row, col - 1, muscles) == ReadOr(next, row, col - 1, muscles);
    assert cur[row][col] == parent[row][col];
  }
}
