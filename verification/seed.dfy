/** `random_seed`: a fresh seed matrix of actuator labels. Every cell starts
    as `muscles`; then, from shuffled start cells, clumps of one label each
    are grown breadth-first until the labels, the cell budget or the start
    cells run out. The random draws are an oracle: the shuffled start
    cells, the `random.choice` index and the `random.randint` value of each
    clump, and the shuffled `directions` list before each spread. */
module Seeding {
  import Params
  import Mutation

  /** A cell `(row, col)`; also a direction `(dx, dy)`. */
  type Pos = (int, int)

  /** `directions` as first written. */
  const Directions: seq<Pos> := [(1, 0), (-1, 0), (0, 1), (0, -1)]

  /** What `random.shuffle(directions)` can leave: the four directions in
      some order. */
  predicate IsShuffle(dirs: seq<Pos>) {
    multiset(dirs) == multiset(Directions)
  }

  predicate InBounds(rows: int, cols: int, p: Pos) {
    0 <= p.0 < rows && 0 <= p.1 < cols
  }

  /** `a` and `b` are 4-neighbours. */
  predicate Adjacent(a: Pos, b: Pos) {
    (a.0 == b.0 && (a.1 == b.1 + 1 || a.1 + 1 == b.1))
    || (a.1 == b.1 && (a.0 == b.0 + 1 || a.0 + 1 == b.0))
  }

  predicate Distinct<T(==)>(s: seq<T>) {
    forall i, j :: 0 <= i < j < |s| ==> s[i] != s[j]
  }

  /** Every cell after the first is a neighbour of an earlier one: the
      cells of `t` form one 4-connected region grown from `t[0]`. */
  predicate Chain(t: seq<Pos>) {
    forall k :: 0 < k < |t| ==> Linked(t, k)
  }

  /** Cell `k` of `t` is a neighbour of an earlier cell. */
  predicate Linked(t: seq<Pos>, k: nat)
    requires k < |t|
  {
    exists j :: 0 <= j < k && Adjacent(t[j], t[k])
  }

  /** The shape of a `rows` x `cols` array. */
  predicate Shaped(m: Mutation.Matrix, rows: nat, cols: nat) {
    |m| == rows && forall r :: 0 <= r < rows ==> |m[r]| == cols
  }

  /** `np.full((rows, cols), v)`. */
  function Full(rows: nat, cols: nat, v: int): (m: Mutation.Matrix)
    ensures Shaped(m, rows, cols)
    ensures forall r, c :: 0 <= r < rows && 0 <= c < cols ==> m[r][c] == v
  {
    seq(rows, _ => seq(cols, _ => v))
  }

  /** `list(range(lo, hi))`. */
  function Range(lo: int, hi: int): (s: seq<int>)
    ensures Distinct(s)
    ensures forall v :: v in s <==> lo <= v < hi
  {
    var s := seq(if hi > lo then hi - lo else 0, k => lo + k);
    forall v | lo <= v < hi ensures v in s {
      assert s[v - lo] == v;
    }
    s
  }

  /** `s.remove(v)`: drop the first occurrence of `v`. */
  function RemoveFirst(s: seq<int>, v: int): (r: seq<int>)
    requires v in s && Distinct(s)
    ensures Distinct(r) && |r| == |s| - 1
    ensures forall x :: x in r <==> x in s && x != v
    decreases |s|
  {
    if s[0] == v then
      assert forall x :: x in s[1..] ==> x != v by {
        forall x | x in s[1..] ensures x != v {
          var k :| 0 <= k < |s[1..]| && s[1..][k] == x;
          assert s[k + 1] == x;
        }
      }
      s[1..]
    else
      assert v in s[1..] by {
        var k :| 0 <= k < |s| && s[k] == v;
        assert s[1..][k - 1] == v;
      }
      var t := RemoveFirst(s[1..], v);
      assert forall x :: x in t ==> x != s[0] by {
        forall x | x in t ensures x != s[0] {
          var k :| 0 <= k < |s[1..]| && s[1..][k] == x;
          assert s[k + 1] == x;
        }
      }
      DistinctCons(s[0], t);
      [s[0]] + t
  }

  lemma DistinctCons<T>(a: T, t: seq<T>)
    requires Distinct(t) && a !in t
    ensures Distinct([a] + t)
  {
    var u := [a] + t;
    forall i, j | 0 <= i < j < |u| ensures u[i] != u[j] {
      assert u[j] == t[j - 1];
      if i > 0 {
        assert u[i] == t[i - 1];
      }
    }
  }

  lemma DistinctSnoc<T>(t: seq<T>, a: T)
    requires Distinct(t) && a !in t
    ensures Distinct(t + [a])
  {
    var u := t + [a];
    forall i, j | 0 <= i < j < |u| ensures u[i] != u[j] {
      assert u[i] == t[i];
      if j < |t| {
        assert u[j] == t[j];
      }
    }
  }

  /** `queue.extend((x + dx, y + dy) for dx, dy in dirs)`: the cells one step
      from `p` in each direction of `dirs`, in that order. */
  function Spread(p: Pos, dirs: seq<Pos>): (q: seq<Pos>)
    ensures |q| == |dirs|
    ensures forall k :: 0 <= k < |dirs| ==> q[k] == (p.0 + dirs[k].0, p.1 + dirs[k].1)
  {
    seq(|dirs|, k requires 0 <= k < |dirs| => (p.0 + dirs[k].0, p.1 + dirs[k].1))
  }

  /** Every neighbour of `p` inside the array is visited already or still
      waiting in the queue. */
  ghost predicate Covered(rows: nat, cols: nat, p: Pos, vis: set<Pos>, queue: seq<Pos>) {
    forall n :: Adjacent(p, n) && InBounds(rows, cols, n) ==> n in vis || n in queue
  }

  /** After a shuffle, spreading from `p` queues exactly its neighbours:
      all four, and nothing else. */
  lemma SpreadNeighbours(p: Pos, dirs: seq<Pos>)
    requires IsShuffle(dirs)
    ensures forall n :: n in Spread(p, dirs) <==> Adjacent(p, n)
  {
    var q := Spread(p, dirs);
    forall d | d in Directions ensures d in dirs {
      assert d in multiset(Directions);
    }
    forall k | 0 <= k < |dirs| ensures dirs[k] in Directions {
      assert dirs[k] in multiset(dirs);
    }
    forall n | Adjacent(p, n) ensures n in q {
      var d := (n.0 - p.0, n.1 - p.1);
      assert d in Directions;
      var k :| 0 <= k < |dirs| && dirs[k] == d;
      assert q[k] == n;
    }
    forall n | n in q ensures Adjacent(p, n) {
      var k :| 0 <= k < |q| && q[k] == n;
      assert dirs[k] in Directions;
    }
  }

  /** Popping a cell that is filled already, or lies outside the array,
      keeps every filled cell's neighbours accounted for. */
  lemma PopCovered(rows: nat, cols: nat, t: seq<Pos>, vis: set<Pos>, queue: seq<Pos>)
    requires |queue| > 0 && (queue[0] in vis || !InBounds(rows, cols, queue[0]))
    requires forall p :: p in t ==> Covered(rows, cols, p, vis, queue)
    ensures forall p :: p in t ==> Covered(rows, cols, p, vis, queue[1..])
  {
    forall p, n | p in t && Adjacent(p, n) && InBounds(rows, cols, n) && n !in vis
      ensures n in queue[1..]
    {
      assert Covered(rows, cols, p, vis, queue);
      var k :| 0 <= k < |queue| && queue[k] == n;
      assert queue[1..][k - 1] == n;
    }
  }

  /** Filling the popped cell `queue[0]` and queueing its neighbours keeps
      every filled cell's neighbours accounted for, the new one included. */
  lemma FillCovered(rows: nat, cols: nat, t: seq<Pos>, vis: set<Pos>, queue: seq<Pos>, dirs: seq<Pos>)
    requires |queue| > 0 && IsShuffle(dirs)
    requires forall p :: p in t ==> Covered(rows, cols, p, vis, queue)
    ensures forall p :: p in t + [queue[0]] ==>
      Covered(rows, cols, p, vis + {queue[0]}, queue[1..] + Spread(queue[0], dirs))
  {
    var x, q' := queue[0], queue[1..] + Spread(queue[0], dirs);
    SpreadNeighbours(x, dirs);
    forall p, n | p in t + [x] && Adjacent(p, n) && InBounds(rows, cols, n) && n !in vis + {x}
      ensures n in q'
    {
      if p == x {
        assert n in Spread(x, dirs);
      } else {
        assert p in t;
        assert Covered(rows, cols, p, vis, queue);
        var k :| 0 <= k < |queue| && queue[k] == n;
        assert q'[k - 1] == n;
      }
    }
  }

  /** Every cell of `m'` holds `value` where the trail passed and its
      label in `m` elsewhere. */
  predicate Painted(rows: nat, cols: nat, m: Mutation.Matrix, m': Mutation.Matrix, trail: seq<Pos>, value: int)
    requires Shaped(m, rows, cols)
  {
    Shaped(m', rows, cols)
    && forall r, c :: 0 <= r < rows && 0 <= c < cols ==>
      m'[r][c] == if (r, c) in trail then value else m[r][c]
  }

  /** What the queue holds: only `start` before the first fill (or nothing,
      when `start` cannot be filled), and afterwards `start` or neighbours of
      filled cells. */
  predicate Queued(rows: nat, cols: nat, visited: set<Pos>, start: Pos, trail: seq<Pos>, queue: seq<Pos>) {
    (trail == [] ==>
      queue == [start] || (queue == [] && !(InBounds(rows, cols, start) && start !in visited)))
    && (trail != [] ==> forall k :: 0 <= k < |queue| ==>
      queue[k] == start || exists j :: 0 <= j < |trail| && Adjacent(trail[j], queue[k]))
  }

  /** The loop invariant of `fill_clump`. */
  ghost predicate FillState(rows: nat, cols: nat, m: Mutation.Matrix, visited: set<Pos>, start: Pos, value: int,
                            clumpSize: int, m': Mutation.Matrix, visited': set<Pos>, trail: seq<Pos>, queue: seq<Pos>)
    requires Shaped(m, rows, cols)
  {
    Painted(rows, cols, m, m', trail, value)
    && (|trail| == 0 || |trail| <= clumpSize)
    && Distinct(trail) && Chain(trail)
    && (|trail| > 0 ==> trail[0] == start)
    && (forall k :: 0 <= k < |trail| ==> InBounds(rows, cols, trail[k]) && trail[k] !in visited)
    && (forall p :: p in visited' <==> p in visited || p in trail)
    && Queued(rows, cols, visited, start, trail, queue)
    && (forall p :: p in trail ==> Covered(rows, cols, p, visited', queue))
  }

  /** `fill_clump(r, c, value, clump_size)`: a breadth-first fill from
      `start` that gives `value` to at most `clump_size` unvisited cells.
      `turns(f)` is the order of `directions` after the shuffle made at the
      fill that finds `f` cells filled already. The cells filled, in order, are returned as `trail`. */
  method FillClump(rows: nat, cols: nat, m: Mutation.Matrix, visited: set<Pos>, start: Pos, value: int,
                   clumpSize: int, turns: nat -> seq<Pos>)
    returns (m': Mutation.Matrix, visited': set<Pos>, trail: seq<Pos>)
    requires Shaped(m, rows, cols)
    requires forall f :: IsShuffle(turns(f))
    ensures Shaped(m', rows, cols)
    ensures |trail| == 0 || |trail| <= clumpSize
    ensures Distinct(trail) && Chain(trail)
    ensures |trail| > 0 ==> trail[0] == start
    ensures forall k :: 0 <= k < |trail| ==> InBounds(rows, cols, trail[k]) && trail[k] !in visited
    ensures forall p :: p in visited' <==> p in visited || p in trail
    ensures forall r, c :: 0 <= r < rows && 0 <= c < cols ==>
      m'[r][c] == if (r, c) in trail then value else m[r][c]
    ensures 0 < clumpSize && InBounds(rows, cols, start) && start !in visited ==> |trail| > 0
    ensures |trail| < clumpSize ==>
      forall p, n :: p in trail && Adjacent(p, n) && InBounds(rows, cols, n) ==> n in visited'
  {
    m', visited', trail := m, visited, [];
    var queue := [start];
    while |queue| > 0 && |trail| < clumpSize
      invariant FillState(rows, cols, m, visited, start, value, clumpSize, m', visited', trail, queue)
      decreases clumpSize - |trail|, |queue|
    {
      var x := queue[0];
      if InBounds(rows, cols, x) && x !in visited' {
        var dirs := turns(|trail|);
        FillInvariant(rows, cols, m, visited, start, value, clumpSize, m', visited', trail, queue, dirs);
        m' := m'[x.0 := m'[x.0][x.1 := value]];
        visited' := visited' + {x};
        trail := trail + [x];
        queue := queue[1..] + Spread(x, dirs);
      } else {
        PopInvariant(rows, cols, m, visited, start, value, clumpSize, m', visited', trail, queue);
        queue := queue[1..];
      }
    }
    assert |trail| < clumpSize ==> queue == [];
  }

  /** Filling the cell at the head of the queue keeps the invariant. */
  lemma FillInvariant(rows: nat, cols: nat, m: Mutation.Matrix, visited: set<Pos>, start: Pos, value: int,
                      clumpSize: int, m': Mutation.Matrix, visited': set<Pos>, trail: seq<Pos>, queue: seq<Pos>,
                      dirs: seq<Pos>)
    requires Shaped(m, rows, cols) && IsShuffle(dirs)
    requires FillState(rows, cols, m, visited, start, value, clumpSize, m', visited', trail, queue)
    requires |queue| > 0 && |trail| < clumpSize && InBounds(rows, cols, queue[0]) && queue[0] !in visited'
    ensures FillState(rows, cols, m, visited, start, value, clumpSize,
                      m'[queue[0].0 := m'[queue[0].0][queue[0].1 := value]], visited' + {queue[0]},
                      trail + [queue[0]], queue[1..] + Spread(queue[0], dirs))
  {
    var x := queue[0];
    FillCovered(rows, cols, trail, visited', queue, dirs);
    SpreadNeighbours(x, dirs);
    FillStep(trail, start, x, queue);
    PaintStep(rows, cols, m, m', trail, value, x);
    var t, q := trail + [x], queue[1..] + Spread(x, dirs);
    forall k | 0 <= k < |t| ensures InBounds(rows, cols, t[k]) && t[k] !in visited {
      if k < |trail| {
        assert t[k] == trail[k];
      }
    }
    forall k | 0 <= k < |q| ensures q[k] == start || exists j :: 0 <= j < |t| && Adjacent(t[j], q[k]) {
      if k < |queue| - 1 {
        assert q[k] == queue[k + 1];
        if trail != [] && q[k] != start {
          var j :| 0 <= j < |trail| && Adjacent(trail[j], queue[k + 1]);
          assert t[j] == trail[j];
        }
      } else {
        assert q[k] in Spread(x, dirs);
        assert t[|trail|] == x;
      }
    }
  }

  /** Dropping a queue head that cannot be filled keeps the invariant. */
  lemma PopInvariant(rows: nat, cols: nat, m: Mutation.Matrix, visited: set<Pos>, start: Pos, value: int,
                     clumpSize: int, m': Mutation.Matrix, visited': set<Pos>, trail: seq<Pos>, queue: seq<Pos>)
    requires Shaped(m, rows, cols)
    requires FillState(rows, cols, m, visited, start, value, clumpSize, m', visited', trail, queue)
    requires |queue| > 0 && !(InBounds(rows, cols, queue[0]) && queue[0] !in visited')
    ensures FillState(rows, cols, m, visited, start, value, clumpSize, m', visited', trail, queue[1..])
  {
    PopCovered(rows, cols, trail, visited', queue);
    forall k | 0 <= k < |queue[1..]| && trail != []
      ensures queue[1..][k] == start || exists j :: 0 <= j < |trail| && Adjacent(trail[j], queue[1..][k])
    {
      assert queue[1..][k] == queue[k + 1];
    }
  }

  /** Painting cell `x` extends the painted trail by `x`. */
  lemma PaintStep(rows: nat, cols: nat, m: Mutation.Matrix, m': Mutation.Matrix, trail: seq<Pos>, value: int, x: Pos)
    requires Shaped(m, rows, cols) && Painted(rows, cols, m, m', trail, value) && InBounds(rows, cols, x)
    ensures Painted(rows, cols, m, m'[x.0 := m'[x.0][x.1 := value]], trail + [x], value)
  {
    var n := m'[x.0 := m'[x.0][x.1 := value]];
    forall r, c | 0 <= r < rows && 0 <= c < cols
      ensures n[r][c] == if (r, c) in trail + [x] then value else m[r][c]
    {
      assert (r, c) in trail + [x] <==> (r, c) in trail || (r, c) == x;
    }
  }

  /** The cell filled next keeps the trail a chain of distinct cells. */
  lemma FillStep(trail: seq<Pos>, start: Pos, x: Pos, queue: seq<Pos>)
    requires Distinct(trail) && Chain(trail) && x !in trail
    requires |trail| > 0 ==> trail[0] == start
    requires |queue| > 0 && queue[0] == x
    requires trail == [] ==> queue == [start]
    requires trail != [] ==> forall k :: 0 <= k < |queue| ==>
      queue[k] == start || exists j :: 0 <= j < |trail| && Adjacent(trail[j], queue[k])
    ensures Distinct(trail + [x]) && Chain(trail + [x])
    ensures (trail + [x])[0] == start
  {
    var t := trail + [x];
    forall k | 0 < k < |t| ensures Linked(t, k) {
      if k < |trail| {
        assert Linked(trail, k);
        var j :| 0 <= j < k && Adjacent(trail[j], trail[k]);
        assert t[j] == trail[j] && t[k] == trail[k];
        assert 0 <= j < k && Adjacent(t[j], t[k]);
      } else {
        assert trail[0] == start;
        assert x != start;
        var j :| 0 <= j < |trail| && Adjacent(trail[j], queue[0]);
        assert t[j] == trail[j] && t[k] == x;
        assert 0 <= j < k && Adjacent(t[j], t[k]);
      }
    }
    DistinctSnoc(trail, x);
  }

  /** `rows * cols / (muscles - bone)`, the mean clump size. */
  function Average(rows: nat, cols: nat, bone: int, muscles: int): real
    requires muscles != bone
  {
    (rows * cols) as real / (muscles - bone) as real
  }

  /** `minimum = int(0.8 * avg)`. */
  function MinClump(rows: nat, cols: nat, bone: int, muscles: int): int
    requires muscles != bone
  {
    Params.Trunc(0.8 * Average(rows, cols, bone, muscles))
  }

  /** `maximum = int(0.95 * avg)`. */
  function MaxClump(rows: nat, cols: nat, bone: int, muscles: int): int
    requires muscles != bone
  {
    Params.Trunc(0.95 * Average(rows, cols, bone, muscles))
  }

  /** With at least one label the bounds of `random.randint` are a
      non-empty range of sizes. */
  lemma ClumpBounds(rows: nat, cols: nat, bone: int, muscles: int)
    requires muscles > bone
    ensures 0 <= MinClump(rows, cols, bone, muscles) <= MaxClump(rows, cols, bone, muscles)
  {
    var a := Average(rows, cols, bone, muscles);
    assert a >= 0.0;
    assert 0.8 * a <= 0.95 * a;
  }

  /** `random.randint(minimum, maximum)` for the oracle value `draw`. */
  function RandInt(lo: int, hi: int, draw: nat): (v: int)
    requires lo <= hi
    ensures lo <= v <= hi
  {
    lo + draw % (hi - lo + 1)
  }

  /** What `random_seed` yields: the matrix, together with the labels drawn,
      in order, and the cells each clump filled, in order; or the
      `ZeroDivisionError` of `rows * cols / (muscles - bone)`. */
  datatype SeedOutcome =
    | Seeded(matrix: Mutation.Matrix, labels: seq<int>, clumps: seq<seq<Pos>>)
    | SeedZeroDivision

  /** The labels drawn so far and the ones still unused split
      `range(bone, muscles)`, and no label is drawn twice. */
  ghost predicate Pool(bone: int, muscles: int, labels: seq<int>, unused: seq<int>) {
    Distinct(labels) && Distinct(unused)
    && (forall k :: 0 <= k < |labels| ==> bone <= labels[k] < muscles)
    && (forall v :: v in unused <==> bone <= v < muscles && v !in labels)
  }

  /** The matrix against its clumps: the cells holding `labels[k]` are
      exactly the cells of `clumps[k]`, every other cell holds `muscles`,
      and each clump is a connected chain of distinct cells no longer than
      `maximum`. */
  predicate Clumped(rows: nat, cols: nat, muscles: int, maximum: int, m: Mutation.Matrix,
                    labels: seq<int>, clumps: seq<seq<Pos>>)
  {
    Shaped(m, rows, cols) && |labels| == |clumps|
    && (forall k :: 0 <= k < |labels| ==> labels[k] != muscles)
    && (forall r, c :: 0 <= r < rows && 0 <= c < cols ==> m[r][c] == muscles || m[r][c] in labels)
    && (forall k, r, c :: 0 <= k < |clumps| && 0 <= r < rows && 0 <= c < cols ==>
          (m[r][c] == labels[k] <==> (r, c) in clumps[k]))
    && (forall k :: 0 <= k < |clumps| ==>
          Distinct(clumps[k]) && Chain(clumps[k]) && |clumps[k]| <= maximum
          && forall i :: 0 <= i < |clumps[k]| ==> InBounds(rows, cols, clumps[k][i]))
  }

  /** The loop invariant of `random_seed`. */
  ghost predicate SeedState(rows: nat, cols: nat, bone: int, muscles: int, maximum: int, m: Mutation.Matrix,
                      visited: set<Pos>, remaining: int, labels: seq<int>, unused: seq<int>, clumps: seq<seq<Pos>>)
  {
    Pool(bone, muscles, labels, unused)
    && Clumped(rows, cols, muscles, maximum, m, labels, clumps)
    && (forall p :: p in visited ==> InBounds(rows, cols, p))
    && (forall r, c :: 0 <= r < rows && 0 <= c < cols ==> ((r, c) in visited <==> m[r][c] != muscles))
    && remaining >= 0
  }

  /** `random_seed(rows, cols, bone, muscles)`. `positions` is
      `all_positions` after its shuffle; clump number k uses `choices(k)`
      for `random.choice`, `sizes(k)` for `random.randint` and `turns(k)`
      for the shuffles of `directions`. */
  method RandomSeed(rows: nat, cols: nat, bone: int, muscles: int, positions: seq<Pos>,
                    choices: nat -> nat, sizes: nat -> nat, turns: nat -> nat -> seq<Pos>)
    returns (o: SeedOutcome)
    requires forall k :: 0 <= k < |positions| ==> InBounds(rows, cols, positions[k])
    requires forall c, f :: IsShuffle(turns(c)(f))
    ensures o.SeedZeroDivision? <==> muscles == bone
    ensures o.Seeded? ==>
      Clumped(rows, cols, muscles, MaxClump(rows, cols, bone, muscles), o.matrix, o.labels, o.clumps)
      && Distinct(o.labels) && forall k :: 0 <= k < |o.labels| ==> bone <= o.labels[k] < muscles
  {
    if muscles == bone {
      return SeedZeroDivision;
    }
    var minimum, maximum := MinClump(rows, cols, bone, muscles), MaxClump(rows, cols, bone, muscles);
    if muscles > bone {
      ClumpBounds(rows, cols, bone, muscles);
    }
    var m := Full(rows, cols, muscles);
    var visited: set<Pos> := {};
    var remaining: int := rows * cols;
    var unused := Range(bone, muscles);
    var labels: seq<int> := [];
    var clumps: seq<seq<Pos>> := [];
    var i := 0;
    while remaining > 0 && |unused| > 0 && i < |positions|
      invariant 0 <= i <= |positions|
      invariant SeedState(rows, cols, bone, muscles, maximum, m, visited, remaining, labels, unused, clumps)
      invariant muscles > bone ==> 0 <= minimum <= maximum
      decreases |positions| - i
    {
      var start := positions[i];
      i := i + 1;
      if start !in visited {
        assert unused[0] in unused;
        var v := unused[choices(|labels|) % |unused|];
        assert v in unused;
        var size := RandInt(minimum, maximum, sizes(|labels|));
        if remaining < size {
          size := remaining;
        }
        var m', visited', trail := FillClump(rows, cols, m, visited, start, v, size, turns(|labels|));
        SeedStep(rows, cols, bone, muscles, maximum, m, visited, remaining, labels, unused, clumps,
                 v, size, m', visited', trail);
        m, visited, remaining := m', visited', remaining - size;
        unused := RemoveFirst(unused, v);
        labels, clumps := labels + [v], clumps + [trail];
      }
    }
    return Seeded(m, labels, clumps);
  }

  /** One clump of a fresh label `v` keeps the invariant. */
  lemma SeedStep(rows: nat, cols: nat, bone: int, muscles: int, maximum: int, m: Mutation.Matrix,
                 visited: set<Pos>, remaining: int, labels: seq<int>, unused: seq<int>, clumps: seq<seq<Pos>>,
                 v: int, size: int, m': Mutation.Matrix, visited': set<Pos>, trail: seq<Pos>)
    requires SeedState(rows, cols, bone, muscles, maximum, m, visited, remaining, labels, unused, clumps)
    requires v in unused && 0 <= size <= remaining && size <= maximum
    requires Shaped(m', rows, cols) && (|trail| == 0 || |trail| <= size)
    requires Distinct(trail) && Chain(trail)
    requires forall k :: 0 <= k < |trail| ==> InBounds(rows, cols, trail[k]) && trail[k] !in visited
    requires forall p :: p in visited' <==> p in visited || p in trail
    requires forall r, c :: 0 <= r < rows && 0 <= c < cols ==>
      m'[r][c] == if (r, c) in trail then v else m[r][c]
    ensures SeedState(rows, cols, bone, muscles, maximum, m', visited', remaining - size,
                      labels + [v], RemoveFirst(unused, v), clumps + [trail])
  {
    var labels', clumps' := labels + [v], clumps + [trail];
    assert v !in labels && bone <= v < muscles;
    DistinctSnoc(labels, v);
    forall x ensures x in RemoveFirst(unused, v) <==> bone <= x < muscles && x !in labels' {
      assert x in labels' <==> x in labels || x == v;
    }
    forall r, c | 0 <= r < rows && 0 <= c < cols ensures m'[r][c] == muscles || m'[r][c] in labels' {
      if (r, c) !in trail {
        assert m[r][c] == muscles || m[r][c] in labels;
      }
    }
    forall k, r, c | 0 <= k < |clumps'| && 0 <= r < rows && 0 <= c < cols
      ensures m'[r][c] == labels'[k] <==> (r, c) in clumps'[k]
    {
      if k < |clumps| {
        assert labels'[k] == labels[k] && clumps'[k] == clumps[k];
        if (r, c) in trail {
          assert (r, c) !in visited;
          assert m[r][c] == muscles;
          assert m[r][c] != labels[k];
        }
      } else {
        if (r, c) !in trail {
          assert m[r][c] == muscles || m[r][c] in labels;
        }
      }
    }
    forall k | 0 <= k < |clumps'| ensures
      Distinct(clumps'[k]) && Chain(clumps'[k]) && |clumps'[k]| <= maximum
      && forall i :: 0 <= i < |clumps'[k]| ==> InBounds(rows, cols, clumps'[k][i])
    {
      if k < |clumps| {
        assert clumps'[k] == clumps[k];
      }
    }
  }
}
