/** The networks a node starts, by their shape (sys/lisp.inc:149-186), who is given which link
    of one (103-110), and the renumbering for one that is a system of its own (210-213). */
module Shapes {
  datatype Shape = Ring | Star | Tree | Mesh | Cube | Full | Other

  type Pair = (nat, nat)

  // ----- how many -----

  function Wide(shape: Shape): nat {
    match shape
    case Mesh => 2
    case Cube => 3
    case _ => 1
  }

  function Most(shape: Shape): nat {
    if shape.Full? then 32 else 64
  }

  function Power(cnt: nat, wide: nat): nat {
    if wide == 0 then 1 else cnt * Power(cnt, wide - 1)
  }

  function Total(shape: Shape, cnt: nat): nat {
    Power(cnt, Wide(shape))
  }

  /** The most that is no more than `limit`. */
  predicate Fits(shape: Shape, cnt: nat, limit: nat) {
    1 <= cnt && Total(shape, cnt) <= limit < Total(shape, cnt + 1)
  }

  lemma PowerRises(a: nat, b: nat, wide: nat)
    requires a <= b && 1 <= wide <= 3
    ensures Power(a, wide) <= Power(b, wide) && a <= Power(a, wide)
  {
    assert Power(a, 1) == a && Power(b, 1) == b;
    assert Power(a, 2) == a * a && Power(b, 2) == b * b;
    assert a * a <= a * b <= b * b && a * a * a <= b * b * b by {
      Less(a, b, a); Less(a, b, b); Less(a * a, b * b, a); Less(a, b, b * b);
    }
    assert Power(a, 3) == a * (a * a) && Power(b, 3) == b * (b * b);
    if a > 0 { Less(1, a, a); Less(1, a * a, a); }
  }

  lemma Less(a: nat, b: nat, c: nat)
    requires a <= b
    ensures a * c <= b * c
  {
  }

  lemma OneFits(shape: Shape)
    ensures Total(shape, 1) == 1
  {
    assert Power(1, 1) == 1 && Power(1, 2) == 1 && Power(1, 3) == 1;
  }

  /** A count given is kept if a network of it is not too many, and else brought down to the most
      that is not; one that is not given is the most for the processors there are. */
  method Size(shape: Shape, given: int, cpus: nat) returns (cnt: nat)
    requires 1 <= cpus
    ensures 1 <= cnt && Total(shape, cnt) <= Most(shape)
    ensures given <= 0 ==> Fits(shape, cnt, if cpus < Most(shape) then cpus else Most(shape))
    ensures given > 0 && Total(shape, given) <= Most(shape) ==> cnt == given
    ensures given > 0 && Total(shape, given) > Most(shape) ==> Fits(shape, cnt, Most(shape))
  {
    OneFits(shape);
    var wide, most := Wide(shape), Most(shape);
    if given > 0 {
      cnt := given;
    } else {
      cnt := 1;
      most := if cpus < most then cpus else most;
      while Power(cnt + 1, wide) <= most
        invariant 1 <= cnt && Power(cnt, wide) <= most
        decreases most - cnt
      {
        PowerRises(cnt + 1, cnt + 1, wide);
        cnt := cnt + 1;
      }
    }
    while Power(cnt, wide) > most
      invariant 1 <= cnt
      invariant given <= 0 ==> Fits(shape, cnt, most)
      invariant given > 0 ==> cnt <= given
      invariant given > 0 && cnt < given ==> Power(cnt + 1, wide) > most
      decreases cnt
    {
      cnt := cnt - 1;
    }
    if given > 0 && cnt < given { PowerRises(cnt + 1, given, wide); }
  }

  // ----- which links -----

  /** One on from `u`, round `n`. */
  predicate Next(u: nat, v: nat, n: nat) {
    v == if u + 1 == n then 0 else u + 1
  }

  /** Where a node is in rows of `n`. */
  function Row(a: nat, n: nat): nat
    requires 0 < n
  {
    a / n
  }

  function Col(a: nat, n: nat): (r: nat)
    requires 0 < n
    ensures r < n
  {
    a % n
  }

  /** And the node that is there. */
  function At(y: nat, x: nat, n: nat): nat {
    y * n + x
  }

  lemma RowBelow(y: nat, v: nat, n: nat)
    ensures y < v ==> y * n + n <= v * n
  {
    if y < v { Less(y + 1, v, n); }
  }

  lemma AtOn(y: nat, x: nat, n: nat)
    ensures At(y, x + 1, n) == At(y, x, n) + 1
  {
  }

  lemma AtEnd(y: nat, n: nat)
    ensures At(y, n, n) == At(y + 1, 0, n)
  {
  }

  lemma AtNone(n: nat)
    ensures At(At(0, 0, n), 0, n) == 0
  {
  }

  lemma AtWhole(n: nat)
    ensures At(At(n, 0, n), 0, n) == n * n * n
  {
  }

  lemma AtRow(y: nat, x: nat, n: nat)
    requires x < n
    ensures Row(At(y, x, n), n) == y && Col(At(y, x, n), n) == x
  {
    var a := y * n + x;
    assert a == (a / n) * n + a % n;
    RowBelow(a / n, y, n);
    RowBelow(y, a / n, n);
  }

  lemma RowAt(a: nat, n: nat)
    requires 0 < n
    ensures a == At(Row(a, n), Col(a, n), n)
  {
  }

  /** The node `a` asks to be linked to `b`. A mesh is of rows of `cnt`, and a cube of layers of
      those. */
  predicate Asks(shape: Shape, cnt: nat, a: nat, b: nat)
    requires 0 < cnt
  {
    match shape
    case Ring => Next(a, b, cnt)
    case Star => a > 0 && b == 0
    case Tree => a > 0 && b == (a - 1) / 2
    case Mesh =>
      || (Row(a, cnt) == Row(b, cnt) && Next(Col(a, cnt), Col(b, cnt), cnt))
      || (Col(a, cnt) == Col(b, cnt) && Next(Row(a, cnt), Row(b, cnt), cnt))
    case Cube =>
      var ra, rb := Row(a, cnt), Row(b, cnt);
      || (ra == rb && Next(Col(a, cnt), Col(b, cnt), cnt))
      || (Col(a, cnt) == Col(b, cnt) && Row(ra, cnt) == Row(rb, cnt) && Next(Col(ra, cnt), Col(rb, cnt), cnt))
      || (Col(a, cnt) == Col(b, cnt) && Col(ra, cnt) == Col(rb, cnt) && Next(Row(ra, cnt), Row(rb, cnt), cnt))
    case _ => a < b
  }

  /** The links there are to be: of two nodes one asks for the other. */
  predicate Linked(shape: Shape, cnt: nat, i: nat, j: nat)
    requires 0 < cnt
  {
    i < j && (Asks(shape, cnt, i, j) || Asks(shape, cnt, j, i))
  }

  /** Each link once, from the lower node to the higher, and both of them nodes. */
  ghost predicate Simple(pairs: seq<Pair>, total: nat) {
    && (forall k | 0 <= k < |pairs| :: pairs[k].0 < pairs[k].1 < total)
    && (forall k, l | 0 <= k < l < |pairs| :: pairs[k] != pairs[l])
  }

  /** The links that the nodes under `n` ask for. */
  ghost predicate Drawn(pairs: seq<Pair>, shape: Shape, cnt: nat, n: nat)
    requires 0 < cnt
  {
    forall i: nat, j: nat | i < j < Total(shape, cnt) ::
      (i, j) in pairs <==> (i < n && Asks(shape, cnt, i, j)) || (j < n && Asks(shape, cnt, j, i))
  }

  function Link(i: nat, j: nat): Pair {
    if i < j then (i, j) else (j, i)
  }

  lemma Squares(cnt: nat)
    ensures Power(cnt, 2) == cnt * cnt && Power(cnt, 3) == cnt * cnt * cnt
  {
    assert Power(cnt, 1) == cnt;
    assert cnt * (cnt * cnt) == cnt * cnt * cnt;
  }

  lemma AtLess(y: nat, x: nat, n: nat, rows: nat)
    requires y < rows && x < n
    ensures At(y, x, n) < rows * n
  {
    Less(y + 1, rows, n);
  }

  lemma NextIs(u: nat, v: nat, n: nat)
    requires u < n && v < n
    ensures Next(u, v, n) <==> v == (u + 1) % n
  {
  }

  /** How many nodes there are of each shape, and may be. */
  lemma Totals(cnt: nat)
    ensures Total(Mesh, cnt) == cnt * cnt && Total(Cube, cnt) == cnt * cnt * cnt
    ensures forall shape: Shape | shape != Mesh && shape != Cube :: Total(shape, cnt) == cnt
    ensures forall shape: Shape :: Most(shape) == if shape == Full then 32 else 64
  {
    assert Power(cnt, 1) == cnt && Power(cnt, 2) == cnt * cnt && Power(cnt, 3) == cnt * cnt * cnt;
  }

  /** The links of the shapes that are not squares: a ring goes round, a star has node 0 in the
      middle, a tree has two below each, and the rest have every node to every other. */
  lemma LineLinks(cnt: nat, i: nat, j: nat)
    requires i < j < cnt
    ensures Linked(Ring, cnt, i, j) <==> j == i + 1 || (i == 0 && j == cnt - 1)
    ensures Linked(Star, cnt, i, j) <==> i == 0
    ensures Linked(Tree, cnt, i, j) <==> j == 2 * i + 1 || j == 2 * i + 2
    ensures Linked(Full, cnt, i, j) && Linked(Other, cnt, i, j)
  {
    NextIs(i, j, cnt);
    NextIs(j, i, cnt);
  }

  /** A node of a mesh asks for the next of its row and the next of its column. */
  lemma MeshAsks(cnt: nat, y: nat, x: nat)
    requires y < cnt && x < cnt
    ensures var right, down := At(y, (x + 1) % cnt, cnt), At((y + 1) % cnt, x, cnt);
            && At(y, x, cnt) < cnt * cnt && right < cnt * cnt && down < cnt * cnt
            && forall b: nat | b < cnt * cnt :: Asks(Mesh, cnt, At(y, x, cnt), b) <==> b == right || b == down
  {
    var x1, y1 := (x + 1) % cnt, (y + 1) % cnt;
    AtLess(y, x, cnt, cnt);
    AtLess(y, x1, cnt, cnt);
    AtLess(y1, x, cnt, cnt);
    AtRow(y, x, cnt);
    AtRow(y, x1, cnt);
    AtRow(y1, x, cnt);
    forall b: nat | b < cnt * cnt
      ensures Asks(Mesh, cnt, At(y, x, cnt), b) <==> b == At(y, x1, cnt) || b == At(y1, x, cnt)
    {
      RowAt(b, cnt);
      RowLess(b, cnt, cnt);
      NextIs(x, Col(b, cnt), cnt);
      NextIs(y, Row(b, cnt), cnt);
    }
  }

  lemma RowLess(b: nat, n: nat, rows: nat)
    requires 0 < n && b < rows * n
    ensures Row(b, n) < rows
  {
    RowAt(b, n);
    if Row(b, n) >= rows { Less(rows, Row(b, n), n); }
  }

  /** A node of a cube asks for the next of its row, of its column and of its layers. */
  lemma CubeAsks(cnt: nat, z: nat, y: nat, x: nat)
    requires z < cnt && y < cnt && x < cnt
    ensures var x1, y1, z1 := (x + 1) % cnt, (y + 1) % cnt, (z + 1) % cnt;
            var node, right := At(At(z, y, cnt), x, cnt), At(At(z, y, cnt), x1, cnt);
            var down, below := At(At(z, y1, cnt), x, cnt), At(At(z1, y, cnt), x, cnt);
            && node < cnt * cnt * cnt && right < cnt * cnt * cnt && down < cnt * cnt * cnt && below < cnt * cnt * cnt
            && node == z * cnt * cnt + y * cnt + x
            && right == z * cnt * cnt + y * cnt + x1
            && down == z * cnt * cnt + y1 * cnt + x
            && below == z1 * cnt * cnt + y * cnt + x
            && forall b: nat | b < cnt * cnt * cnt ::
                 Asks(Cube, cnt, node, b) <==> b == right || b == down || b == below
  {
    var x1, y1, z1 := (x + 1) % cnt, (y + 1) % cnt, (z + 1) % cnt;
    var node := At(At(z, y, cnt), x, cnt);
    CubePlace(cnt, z, y, x);
    CubePlace(cnt, z, y, x1);
    CubePlace(cnt, z, y1, x);
    CubePlace(cnt, z1, y, x);
    forall b: nat | b < cnt * cnt * cnt
      ensures Asks(Cube, cnt, node, b) <==>
              b == At(At(z, y, cnt), x1, cnt) || b == At(At(z, y1, cnt), x, cnt) || b == At(At(z1, y, cnt), x, cnt)
    {
      CubeAsk(cnt, z, y, x, b);
    }
  }

  lemma CubePlace(cnt: nat, z: nat, y: nat, x: nat)
    requires z < cnt && y < cnt && x < cnt
    ensures var node := At(At(z, y, cnt), x, cnt);
            && node < cnt * cnt * cnt && node == z * cnt * cnt + y * cnt + x
            && Col(node, cnt) == x && Row(node, cnt) == At(z, y, cnt)
            && Col(Row(node, cnt), cnt) == y && Row(Row(node, cnt), cnt) == z
  {
    AtLess(z, y, cnt, cnt);
    AtLess(At(z, y, cnt), x, cnt, cnt * cnt);
    AtRow(At(z, y, cnt), x, cnt);
    AtRow(z, y, cnt);
    assert (z * cnt + y) * cnt == z * cnt * cnt + y * cnt;
  }

  lemma CubeAsk(cnt: nat, z: nat, y: nat, x: nat, b: nat)
    requires z < cnt && y < cnt && x < cnt && b < cnt * cnt * cnt
    ensures var x1, y1, z1 := (x + 1) % cnt, (y + 1) % cnt, (z + 1) % cnt;
            Asks(Cube, cnt, At(At(z, y, cnt), x, cnt), b) <==>
              b == At(At(z, y, cnt), x1, cnt) || b == At(At(z, y1, cnt), x, cnt) || b == At(At(z1, y, cnt), x, cnt)
  {
    var x1, y1, z1 := (x + 1) % cnt, (y + 1) % cnt, (z + 1) % cnt;
    CubePlace(cnt, z, y, x);
    CubePlace(cnt, z, y, x1);
    CubePlace(cnt, z, y1, x);
    CubePlace(cnt, z1, y, x);
    var r := Row(b, cnt);
    RowAt(b, cnt);
    RowLess(b, cnt, cnt * cnt);
    RowAt(r, cnt);
    RowLess(r, cnt, cnt);
    NextIs(x, Col(b, cnt), cnt);
    NextIs(y, Col(r, cnt), cnt);
    NextIs(z, Row(r, cnt), cnt);
    hide Row, Col, At, Next;
  }

  ghost predicate Within(pairs: seq<Pair>, total: nat) {
    forall p | p in pairs :: p.0 < p.1 < total
  }

  /** The links of `i` to each of `asked`, itself left out, are there beside what was. */
  ghost predicate Grown(was: seq<Pair>, now: seq<Pair>, i: nat, asked: set<nat>) {
    forall p :: p in now <==> p in was || (exists b | b in asked :: b != i && p == Link(i, b))
  }

  /** The one node that a node of a ring, a star or a tree asks for. */
  function Asked(shape: Shape, cnt: nat, n: nat): nat
    requires 0 < cnt
  {
    if shape.Ring? then (n + 1) % cnt else if shape.Star? || n == 0 then 0 else (n - 1) / 2
  }

  lemma LineAsks(shape: Shape, cnt: nat, n: nat, to: nat)
    requires shape.Ring? || ((shape.Star? || shape.Tree?) && 1 <= n)
    requires n < cnt && to == Asked(shape, cnt, n)
    ensures to < cnt && forall b: nat | b < cnt :: Asks(shape, cnt, n, b) <==> b == to
  {
    forall b: nat | b < cnt ensures Asks(shape, cnt, n, b) <==> b == to { NextIs(n, b, cnt); }
  }

  lemma DrawnNone(shape: Shape, cnt: nat)
    requires 0 < cnt
    ensures Within([], Total(shape, cnt)) && Drawn([], shape, cnt, 0)
    ensures shape.Star? || shape.Tree? ==> Drawn([], shape, cnt, 1)
  {
  }

  lemma GrownNone(pairs: seq<Pair>, i: nat)
    ensures Grown(pairs, pairs, i, {})
  {
  }

  function Added(pairs: seq<Pair>, i: nat, j: nat): seq<Pair> {
    if i == j || Link(i, j) in pairs then pairs else pairs + [Link(i, j)]
  }

  lemma GrownOn(was: seq<Pair>, now: seq<Pair>, i: nat, asked: set<nat>, j: nat)
    requires Grown(was, now, i, asked)
    ensures Grown(was, Added(now, i, j), i, asked + {j})
  {
    forall p
      ensures p in Added(now, i, j) <==>
              p in was || (exists b | b in asked + {j} :: b != i && p == Link(i, b))
    {
      assert p in Added(now, i, j) <==> p in now || (i != j && p == Link(i, j));
      if i != j && p == Link(i, j) { assert j in asked + {j}; }
      if b :| b in asked && b != i && p == Link(i, b) { assert b in asked + {j}; }
    }
  }

  lemma WithinOn(pairs: seq<Pair>, i: nat, j: nat, total: nat)
    requires Within(pairs, total) && i < total && j < total
    ensures Within(Added(pairs, i, j), total)
  {
  }

  lemma DrawnOn(was: seq<Pair>, now: seq<Pair>, shape: Shape, cnt: nat, n: nat, asked: set<nat>)
    requires 0 < cnt && Drawn(was, shape, cnt, n) && Grown(was, now, n, asked)
    requires n < Total(shape, cnt)
    requires forall b: nat | b < Total(shape, cnt) && b != n :: Asks(shape, cnt, n, b) <==> b in asked
    ensures Drawn(now, shape, cnt, n + 1)
  {
    hide Asks;
    forall i: nat, j: nat | i < j < Total(shape, cnt)
      ensures (i, j) in now <==> (i < n + 1 && Asks(shape, cnt, i, j)) || (j < n + 1 && Asks(shape, cnt, j, i))
    {
      assert j in asked && i == n ==> (i, j) == Link(n, j);
      assert i in asked && j == n ==> (i, j) == Link(n, i);
    }
  }

  /** The keys and pairs that `node-shape` pushes to. */
  class Links {
    var keys: seq<nat>
    var pairs: seq<Pair>

    ghost predicate Valid()
      reads this
    {
      && |keys| == |pairs|
      && (forall k | 0 <= k < |pairs| :: pairs[k].0 < pairs[k].1 < 256 && keys[k] == pairs[k].0 * 256 + pairs[k].1)
      && (forall k, l | 0 <= k < l < |keys| :: keys[k] != keys[l])
    }

    constructor ()
      ensures Valid() && pairs == []
    {
      keys, pairs := [], [];
    }

    /** There is a key just when there is its link. */
    lemma KeyOf(i: nat, j: nat)
      requires Valid() && i != j && i < 256 && j < 256
      ensures (if i < j then i * 256 + j else j * 256 + i) in keys <==> Link(i, j) in pairs
    {
      var key := if i < j then i * 256 + j else j * 256 + i;
      if key in keys {
        var k :| 0 <= k < |keys| && keys[k] == key;
        assert pairs[k] == Link(i, j);
      }
      if Link(i, j) in pairs {
        var k :| 0 <= k < |pairs| && pairs[k] == Link(i, j);
        assert keys[k] == key;
      }
    }

    /** A link, unless it is of a node to itself or is one there is. */
    method Pair(i: nat, j: nat)
      requires Valid() && i < 256 && j < 256
      modifies this
      ensures Valid()
      ensures pairs == Added(old(pairs), i, j)
    {
      var lo, hi := if i < j then i else j, if i < j then j else i;
      var key := lo * 256 + hi;
      if i == j { return; }
      KeyOf(i, j);
      if key in keys { return; }
      keys := keys + [key];
      pairs := pairs + [(lo, hi)];
    }

    /** A link that node `i` asks for, with those it has asked for since `was`. */
    method Ask(i: nat, j: nat, ghost total: nat, ghost was: seq<Pair>, ghost asked: set<nat>)
      requires Valid() && i < total && j < total <= 64 && Within(pairs, total) && Grown(was, pairs, i, asked)
      modifies this
      ensures Valid() && Within(pairs, total) && Grown(was, pairs, i, asked + {j})
    {
      hide Within, Grown;
      GrownOn(was, pairs, i, asked, j);
      WithinOn(pairs, i, j, total);
      Pair(i, j);
    }

    method DrawLine(shape: Shape, cnt: nat)
      requires shape.Ring? || shape.Star? || shape.Tree?
      requires Valid() && pairs == [] && 1 <= cnt <= 64
      modifies this
      ensures Valid() && Within(pairs, cnt) && Drawn(pairs, shape, cnt, cnt)
    {
      hide Within, Grown, Drawn, Links.Valid, Asks;
      assert Total(shape, cnt) == cnt by { assert Power(cnt, 1) == cnt; }
      DrawnNone(shape, cnt);
      var n := if shape.Ring? then 0 else 1;
      while n < cnt
        invariant n <= cnt && Valid() && Within(pairs, cnt) && Drawn(pairs, shape, cnt, n)
      {
        ghost var was := pairs;
        var to := Asked(shape, cnt, n);
        LineAsks(shape, cnt, n, to);
        GrownNone(was, n);
        Ask(n, to, cnt, was, {});
        assert {} + {to} == {to};
        DrawnOn(was, pairs, shape, cnt, n, {to});
        n := n + 1;
      }
    }

    method DrawMesh(cnt: nat)
      requires Valid() && pairs == [] && 1 <= cnt && Total(Mesh, cnt) <= 64
      modifies this
      ensures Valid() && Within(pairs, Total(Mesh, cnt)) && Drawn(pairs, Mesh, cnt, Total(Mesh, cnt))
    {
      hide Within, Grown, Drawn, Links.Valid, Asks;
      ghost var total := Power(cnt, Wide(Mesh));
      Squares(cnt);
      DrawnNone(Mesh, cnt);
      var y := 0;
      while y < cnt
        invariant 0 <= y <= cnt && Valid() && Within(pairs, total) && Drawn(pairs, Mesh, cnt, At(y, 0, cnt))
      {
        var x := 0;
        while x < cnt
          invariant 0 <= x <= cnt && Valid() && Within(pairs, total) && Drawn(pairs, Mesh, cnt, At(y, x, cnt))
        {
          ghost var was := pairs;
          var node, right, down := y * cnt + x, y * cnt + (x + 1) % cnt, (y + 1) % cnt * cnt + x;
          MeshAsks(cnt, y, x);
          GrownNone(was, node);
          Ask(node, right, total, was, {});
          Ask(node, down, total, was, {} + {right});
          assert {} + {right} + {down} == {right, down};
          DrawnOn(was, pairs, Mesh, cnt, node, {right, down});
          x := x + 1;
        }
        assert At(y, cnt, cnt) == At(y + 1, 0, cnt);
        y := y + 1;
      }
    }

    /** The links that one node of a cube asks for. */
    method DrawCubeNode(cnt: nat, z: nat, y: nat, x: nat, ghost total: nat)
      requires z < cnt && y < cnt && x < cnt && total == cnt * cnt * cnt == Total(Cube, cnt) <= 64
      requires Valid() && Within(pairs, total) && Drawn(pairs, Cube, cnt, At(At(z, y, cnt), x, cnt))
      modifies this
      ensures Valid() && Within(pairs, total) && Drawn(pairs, Cube, cnt, At(At(z, y, cnt), x, cnt) + 1)
    {
      hide Within, Grown, Drawn, Links.Valid, Asks, At, Power;
      ghost var was := pairs;
      CubeAsks(cnt, z, y, x);
      var node := z * cnt * cnt + y * cnt + x;
      var right := z * cnt * cnt + y * cnt + (x + 1) % cnt;
      var down := z * cnt * cnt + (y + 1) % cnt * cnt + x;
      var below := (z + 1) % cnt * cnt * cnt + y * cnt + x;
      GrownNone(was, node);
      Ask(node, right, total, was, {});
      Ask(node, down, total, was, {} + {right});
      Ask(node, below, total, was, {} + {right} + {down});
      assert {} + {right} + {down} + {below} == {right, down, below};
      DrawnOn(was, pairs, Cube, cnt, node, {right, down, below});
    }

    method DrawCube(cnt: nat)
      requires Valid() && pairs == [] && 1 <= cnt && Total(Cube, cnt) <= 64
      modifies this
      ensures Valid() && Within(pairs, Total(Cube, cnt)) && Drawn(pairs, Cube, cnt, Total(Cube, cnt))
    {
      hide Within, Drawn, Links.Valid, Asks, At, Power;
      ghost var total := Total(Cube, cnt);
      Squares(cnt);
      DrawnNone(Cube, cnt);
      AtNone(cnt);
      var z := 0;
      while z < cnt
        invariant 0 <= z <= cnt && Valid() && Within(pairs, total) && Drawn(pairs, Cube, cnt, At(At(z, 0, cnt), 0, cnt))
      {
        var y := 0;
        while y < cnt
          invariant 0 <= y <= cnt && Valid() && Within(pairs, total) && Drawn(pairs, Cube, cnt, At(At(z, y, cnt), 0, cnt))
        {
          var x := 0;
          while x < cnt
            invariant 0 <= x <= cnt && Valid() && Within(pairs, total) && Drawn(pairs, Cube, cnt, At(At(z, y, cnt), x, cnt))
          {
            DrawCubeNode(cnt, z, y, x, total);
            AtOn(At(z, y, cnt), x, cnt);
            x := x + 1;
          }
          AtOn(z, y, cnt);
          AtEnd(At(z, y, cnt), cnt);
          y := y + 1;
        }
        AtEnd(z, cnt);
        z := z + 1;
      }
      AtWhole(cnt);
    }

    method DrawFull(shape: Shape, cnt: nat)
      requires shape.Full? || shape.Other?
      requires Valid() && pairs == [] && 1 <= cnt <= 64
      modifies this
      ensures Valid() && Within(pairs, cnt) && Drawn(pairs, shape, cnt, cnt)
    {
      assert Total(shape, cnt) == cnt by { assert Power(cnt, 1) == cnt; }
      var i := 0;
      while i < cnt
        invariant 0 <= i <= cnt && Valid() && Within(pairs, cnt) && Drawn(pairs, shape, cnt, i)
      {
        ghost var was := pairs;
        ghost var asked: set<nat> := {};
        GrownNone(was, i);
        var j := i + 1;
        while j < cnt
          invariant i < j <= cnt && Valid() && Within(pairs, cnt) && Grown(was, pairs, i, asked)
          invariant forall b: nat :: b in asked <==> i < b < j
        {
          Ask(i, j, cnt, was, asked);
          asked := asked + {j};
          j := j + 1;
        }
        DrawnOn(was, pairs, shape, cnt, i, asked);
        i := i + 1;
      }
    }
  }

  /** `node-shape`: how many nodes, and the links of them: just those there are to be, each once. */
  method NodeShape(shape: Shape, given: int, cpus: nat) returns (cnt: nat, total: nat, pairs: seq<Pair>)
    requires 1 <= cpus
    ensures 1 <= cnt && 1 <= total == Total(shape, cnt) <= Most(shape)
    ensures given <= 0 ==> Fits(shape, cnt, if cpus < Most(shape) then cpus else Most(shape))
    ensures given > 0 && Total(shape, given) <= Most(shape) ==> cnt == given
    ensures given > 0 && Total(shape, given) > Most(shape) ==> Fits(shape, cnt, Most(shape))
    ensures Simple(pairs, total)
    ensures forall i: nat, j: nat | i < j < total :: (i, j) in pairs <==> Linked(shape, cnt, i, j)
  {
    cnt := Size(shape, given, cpus);
    OneFits(shape);
    total := Power(cnt, Wide(shape));
    var links := new Links();
    PowerRises(1, cnt, Wide(shape));
    assert Power(cnt, 1) == cnt;
    match shape {
      case Ring => links.DrawLine(shape, cnt);
      case Star => links.DrawLine(shape, cnt);
      case Tree => links.DrawLine(shape, cnt);
      case Mesh => links.DrawMesh(cnt);
      case Cube => links.DrawCube(cnt);
      case _ => links.DrawFull(shape, cnt);
    }
    pairs := links.pairs;
  }

  // ----- they are all one network -----

  predicate Joined(pairs: seq<Pair>, a: nat, b: nat) {
    a != b && Link(a, b) in pairs
  }

  ghost predicate IsWay(pairs: seq<Pair>, p: seq<nat>, a: nat, b: nat) {
    && 0 < |p| && p[0] == a && p[|p| - 1] == b
    && forall k | 0 <= k < |p| - 1 :: Joined(pairs, p[k], p[k + 1])
  }

  ghost predicate Reaches(pairs: seq<Pair>, a: nat, b: nat) {
    exists p :: IsWay(pairs, p, a, b)
  }

  /** From any node there is a way by links to any other. */
  ghost predicate Connected(pairs: seq<Pair>, total: nat) {
    forall a: nat, b: nat | a < total && b < total :: Reaches(pairs, a, b)
  }

  lemma ReachesOn(pairs: seq<Pair>, a: nat, b: nat, c: nat)
    requires Reaches(pairs, a, b) && Reaches(pairs, b, c)
    ensures Reaches(pairs, a, c)
  {
    var p :| IsWay(pairs, p, a, b);
    var q :| IsWay(pairs, q, b, c);
    var way := p + q[1..];
    assert IsWay(pairs, way, a, c) by {
      forall k | 0 <= k < |way| - 1 ensures Joined(pairs, way[k], way[k + 1]) {
        if k >= |p| - 1 { assert way[k] == q[k - |p| + 1] && way[k + 1] == q[k - |p| + 2]; }
      }
    }
  }

  lemma ReachesSelf(pairs: seq<Pair>, a: nat)
    ensures Reaches(pairs, a, a)
  {
    assert IsWay(pairs, [a], a, a);
  }

  lemma ReachesNext(pairs: seq<Pair>, a: nat, b: nat)
    requires Joined(pairs, a, b)
    ensures Reaches(pairs, a, b) && Reaches(pairs, b, a)
  {
    assert IsWay(pairs, [a, b], a, b);
    assert IsWay(pairs, [b, a], b, a);
  }

  /** Every node but the first has a link to one before it. */
  ghost predicate Rooted(pairs: seq<Pair>, total: nat) {
    forall n: nat | 0 < n < total :: HasLower(pairs, n)
  }

  ghost predicate HasLower(pairs: seq<Pair>, n: nat) {
    exists m: nat :: m < n && (m, n) in pairs
  }

  predicate OnNone(pairs: seq<Pair>, n: nat) {
    forall p | p in pairs :: p.0 != n && p.1 != n
  }

  lemma {:induction false} RootReaches(pairs: seq<Pair>, total: nat, n: nat)
    requires Rooted(pairs, total) && n < total
    ensures Reaches(pairs, 0, n) && Reaches(pairs, n, 0)
  {
    ReachesSelf(pairs, 0);
    if n == 0 {
    } else {
      assert HasLower(pairs, n);
      var m: nat :| m < n && (m, n) in pairs;
      RootReaches(pairs, total, m);
      ReachesNext(pairs, m, n);
      ReachesOn(pairs, 0, m, n);
      ReachesOn(pairs, n, m, 0);
    }
  }

  lemma RootedConnected(pairs: seq<Pair>, total: nat)
    requires Rooted(pairs, total)
    ensures Connected(pairs, total)
  {
    forall a: nat, b: nat | a < total && b < total ensures Reaches(pairs, a, b) {
      RootReaches(pairs, total, a);
      RootReaches(pairs, total, b);
      ReachesOn(pairs, a, 0, b);
    }
  }

  lemma LowerLink(shape: Shape, cnt: nat, n: nat)
    requires 0 < n < Total(shape, cnt) && 0 < cnt
    ensures exists m: nat :: m < n && Linked(shape, cnt, m, n)
  {
    Squares(cnt);
    assert Power(cnt, 1) == cnt;
    match shape
    case Mesh => MeshLower(cnt, n);
    case Cube => CubeLower(cnt, n);
    case Ring => assert Linked(shape, cnt, n - 1, n);
    case Tree => assert Linked(shape, cnt, (n - 1) / 2, n);
    case _ => assert Linked(shape, cnt, 0, n);
  }

  lemma MeshLower(cnt: nat, n: nat)
    requires 0 < n < cnt * cnt
    ensures exists m: nat :: m < n && Linked(Mesh, cnt, m, n)
  {
    var y, x := Row(n, cnt), Col(n, cnt);
    RowAt(n, cnt);
    RowLess(n, cnt, cnt);
    if x > 0 {
      AtRow(y, x - 1, cnt);
      assert Linked(Mesh, cnt, n - 1, n);
    } else {
      AtRow(y - 1, x, cnt);
      AtLower(y - 1, x, y, x, cnt);
      assert Linked(Mesh, cnt, At(y - 1, x, cnt), n);
    }
  }

  lemma AtLower(y: nat, x: nat, v: nat, u: nat, n: nat)
    requires y < v && x < n
    ensures At(y, x, n) < At(v, u, n)
  {
    Less(y + 1, v, n);
  }

  lemma CubeLower(cnt: nat, n: nat)
    requires 0 < n < cnt * cnt * cnt
    ensures exists m: nat :: m < n && Linked(Cube, cnt, m, n)
  {
    var r, x := Row(n, cnt), Col(n, cnt);
    var z, y := Row(r, cnt), Col(r, cnt);
    RowAt(n, cnt);
    RowAt(r, cnt);
    RowLess(n, cnt, cnt * cnt);
    RowLess(r, cnt, cnt);
    if x > 0 {
      AtRow(r, x - 1, cnt);
      assert Linked(Cube, cnt, n - 1, n);
    } else if y > 0 {
      AtRow(r - 1, x, cnt);
      AtRow(z, y - 1, cnt);
      AtLower(r - 1, x, r, x, cnt);
      assert Linked(Cube, cnt, At(r - 1, x, cnt), n);
    } else {
      var s := At(z - 1, y, cnt);
      AtRow(z - 1, y, cnt);
      AtLower(z - 1, y, z, y, cnt);
      AtRow(s, x, cnt);
      AtLower(s, x, r, x, cnt);
      assert Linked(Cube, cnt, At(s, x, cnt), n);
    }
  }

  /** A network of any shape is all one. */
  lemma ShapeConnected(shape: Shape, cnt: nat, pairs: seq<Pair>)
    requires 0 < cnt
    requires forall i: nat, j: nat | i < j < Total(shape, cnt) :: (i, j) in pairs <==> Linked(shape, cnt, i, j)
    ensures Connected(pairs, Total(shape, cnt))
  {
    hide Linked, Total;
    var total := Total(shape, cnt);
    forall n: nat | 0 < n < total ensures HasLower(pairs, n) {
      LowerLink(shape, cnt, n);
      var m: nat :| m < n && Linked(shape, cnt, m, n);
      assert (m, n) in pairs;
    }
    RootedConnected(pairs, total);
  }

  // ----- a system of its own -----

  /** All the nodes one on, and a link from the one that asks to the first of them. */
  function Hung(pairs: seq<Pair>): (r: seq<Pair>)
    ensures |r| == |pairs| + 1
  {
    [(0, 1)] + seq(|pairs|, k requires 0 <= k < |pairs| => (pairs[k].0 + 1, pairs[k].1 + 1))
  }

  lemma HungHas(pairs: seq<Pair>, i: nat, j: nat)
    ensures (i, j) in Hung(pairs) <==> (i == 0 && j == 1) || (i > 0 && j > 0 && (i - 1, j - 1) in pairs)
  {
    var now := Hung(pairs);
    assert now[0] == (0, 1);
    if i > 0 && j > 0 && (i - 1, j - 1) in pairs {
      var k :| 0 <= k < |pairs| && pairs[k] == (i - 1, j - 1);
      assert now[k + 1] == (i, j);
    }
    if (i, j) in now {
      var k :| 0 <= k < |now| && now[k] == (i, j);
      assert k > 0 ==> pairs[k - 1] == (i - 1, j - 1);
    }
  }

  /** The links of the network that is started: those of the shape, or for a system of its own those
      one on, and one from the node that asks to the first of them. */
  predicate NetLink(shape: Shape, cnt: nat, own: bool, i: nat, j: nat)
    requires 0 < cnt && i < j
  {
    if !own then Linked(shape, cnt, i, j)
    else (i == 0 && j == 1) || (i > 0 && Linked(shape, cnt, i - 1, j - 1))
  }

  lemma HungLinked(shape: Shape, cnt: nat, pairs: seq<Pair>, total: nat, i: nat, j: nat)
    requires 0 < cnt && i < j < total + 1
    requires forall i: nat, j: nat | i < j < total :: (i, j) in pairs <==> Linked(shape, cnt, i, j)
    ensures (i, j) in Hung(pairs) <==> NetLink(shape, cnt, true, i, j)
  {
    hide Hung, Linked;
    HungHas(pairs, i, j);
  }

  lemma HungWay(pairs: seq<Pair>, a: nat, b: nat)
    requires Reaches(pairs, a, b)
    ensures Reaches(Hung(pairs), a + 1, b + 1)
  {
    var p :| IsWay(pairs, p, a, b);
    var q: seq<nat> := seq(|p|, k requires 0 <= k < |p| => p[k] + 1);
    forall k | 0 <= k < |q| - 1 ensures Joined(Hung(pairs), q[k], q[k + 1]) {
      assert Joined(pairs, p[k], p[k + 1]);
      var l :| 0 <= l < |pairs| && pairs[l] == Link(p[k], p[k + 1]);
      assert Hung(pairs)[l + 1] == Link(q[k], q[k + 1]);
    }
    assert IsWay(Hung(pairs), q, a + 1, b + 1);
  }

  /** It is still all one network with each link once, and this node is on just one link. */
  lemma HungConnected(pairs: seq<Pair>, total: nat)
    requires 0 < total && Simple(pairs, total) && Connected(pairs, total)
    ensures Simple(Hung(pairs), total + 1) && Connected(Hung(pairs), total + 1)
    ensures forall p | p in Hung(pairs) :: (p.0 == 0 || p.1 == 0) <==> p == (0, 1)
  {
    var now := Hung(pairs);
    assert now[0] == (0, 1);
    forall k, l | 0 <= k < l < |now| ensures now[k] != now[l] {
      if k > 0 { assert pairs[k - 1] != pairs[l - 1]; }
    }
    forall a: nat, b: nat | a < total + 1 && b < total + 1 ensures Reaches(now, a, b) {
      ReachesSelf(now, 0);
      ReachesNext(now, 0, 1);
      if a > 0 {
        assert Reaches(pairs, a - 1, 0);
        HungWay(pairs, a - 1, 0);
        ReachesOn(now, a, 1, 0);
      }
      if b > 0 {
        assert Reaches(pairs, 0, b - 1);
        HungWay(pairs, 0, b - 1);
        ReachesOn(now, 0, 1, b);
      }
      ReachesOn(now, a, 0, b);
    }
  }

  /** `node-net`, the network it asks `node-start` for. */
  method NodeNet(shape: Shape, given: int, cpus: nat, own: bool)
    returns (total: nat, pairs: seq<Pair>, ghost cnt: nat)
    requires 1 <= cpus
    ensures 1 <= cnt && Total(shape, cnt) <= Most(shape)
    ensures given <= 0 ==> Fits(shape, cnt, if cpus < Most(shape) then cpus else Most(shape))
    ensures given > 0 && Total(shape, given) <= Most(shape) ==> cnt == given
    ensures given > 0 && Total(shape, given) > Most(shape) ==> Fits(shape, cnt, Most(shape))
    ensures total == Total(shape, cnt) + (if own then 1 else 0)
    ensures forall i: nat, j: nat | i < j < total :: (i, j) in pairs <==> NetLink(shape, cnt, own, i, j)
    ensures Simple(pairs, total) && Connected(pairs, total)
    ensures own ==> forall p | p in pairs :: (p.0 == 0 || p.1 == 0) <==> p == (0, 1)
  {
    hide Simple, Connected, Hung, Linked, Fits, Total, Most;
    var count: nat;
    count, total, pairs := NodeShape(shape, given, cpus);
    cnt := count;
    ShapeConnected(shape, cnt, pairs);
    if own {
      HungConnected(pairs, total);
      forall i: nat, j: nat | i < j < total + 1 ensures (i, j) in Hung(pairs) <==> NetLink(shape, cnt, true, i, j) {
        HungLinked(shape, cnt, pairs, total, i, j);
      }
      pairs := Hung(pairs);
      total := total + 1;
    }
  }

  /** `node-spawn`, the network it asks `node-start` for. Each node is to be linked to every
      other, and with more than 31 of them some are linked to none. */
  method NodeSpawn(num: nat, cpus: nat) returns (total: nat, pairs: seq<Pair>)
    requires 1 <= cpus && 1 <= num
    ensures total == num + 1
    ensures (forall i: nat, j: nat | i < j < total :: (i, j) in pairs) <==> num <= 31
    ensures forall n: nat | 32 <= n < total :: OnNone(pairs, n)
  {
    var cnt, most;
    cnt, most, pairs := NodeShape(Full, num + 1, cpus);
    total := num + 1;
    assert Power(cnt, 1) == cnt && Power(num + 1, 1) == num + 1 && Power(cnt + 1, 1) == cnt + 1;
    if num > 31 { assert (0, 32) !in pairs; }
  }

  // ----- who has which -----

  /** The names of the links a node is on. */
  function NamesOf<T>(pairs: seq<Pair>, names: seq<T>, n: nat): seq<T>
    requires |names| == |pairs|
    decreases |pairs|
  {
    if pairs == [] then []
    else
      var k := |pairs| - 1;
      NamesOf(pairs[..k], names[..k], n) + (if pairs[k].0 == n || pairs[k].1 == n then [names[k]] else [])
  }

  /** `node-start`, the links of each node: a name for each pair, handed to both of its ends. */
  method Distribute<T>(total: nat, pairs: seq<Pair>, names: seq<T>) returns (links: seq<seq<T>>)
    requires |names| == |pairs| && Simple(pairs, total)
    ensures |links| == total
    ensures forall n | 0 <= n < total :: links[n] == NamesOf(pairs, names, n)
  {
    links := seq(total, _ => []);
    var k := 0;
    while k < |pairs|
      invariant 0 <= k <= |pairs| && |links| == total
      invariant forall n | 0 <= n < total :: links[n] == NamesOf(pairs[..k], names[..k], n)
    {
      var (i, j) := pairs[k];
      var name := names[k];
      links := links[i := links[i] + [name]];
      links := links[j := links[j] + [name]];
      assert pairs[..k + 1][..k] == pairs[..k] && names[..k + 1][..k] == names[..k];
      k := k + 1;
    }
    assert pairs[..k] == pairs && names[..k] == names;
  }

  lemma {:induction false} NameAt<T>(pairs: seq<Pair>, names: seq<T>, n: nat, name: T)
    requires |names| == |pairs|
    ensures name in NamesOf(pairs, names, n) <==>
            exists k :: 0 <= k < |pairs| && names[k] == name && (pairs[k].0 == n || pairs[k].1 == n)
    decreases |pairs|
  {
    if pairs == [] {
    } else {
      var k := |pairs| - 1;
      NameAt(pairs[..k], names[..k], n, name);
      if l :| 0 <= l < |pairs| && names[l] == name && (pairs[l].0 == n || pairs[l].1 == n) {
        if l < k { assert names[..k][l] == name && (pairs[..k][l].0 == n || pairs[..k][l].1 == n); }
      }
    }
  }

  /** If no name is used twice, two nodes have a name between them just when they are to be
      linked, and no third node has it. */
  lemma SharedName<T>(pairs: seq<Pair>, names: seq<T>, total: nat, i: nat, j: nat)
    requires |names| == |pairs| && Simple(pairs, total) && i < j < total
    requires forall k, l | 0 <= k < l < |names| :: names[k] != names[l]
    ensures (exists name :: name in NamesOf(pairs, names, i) && name in NamesOf(pairs, names, j)) <==> (i, j) in pairs
    ensures forall name, n: nat |
              name in NamesOf(pairs, names, i) && name in NamesOf(pairs, names, j) && name in NamesOf(pairs, names, n) ::
              n == i || n == j
  {
    if (i, j) in pairs {
      var k :| 0 <= k < |pairs| && pairs[k] == (i, j);
      NameAt(pairs, names, i, names[k]);
      NameAt(pairs, names, j, names[k]);
    }
    forall name, n: nat | name in NamesOf(pairs, names, i) && name in NamesOf(pairs, names, j)
      ensures (i, j) in pairs
      ensures name in NamesOf(pairs, names, n) ==> n == i || n == j
    {
      NameAt(pairs, names, i, name);
      NameAt(pairs, names, j, name);
      NameAt(pairs, names, n, name);
      var k :| 0 <= k < |pairs| && names[k] == name && (pairs[k].0 == i || pairs[k].1 == i);
      var l :| 0 <= l < |pairs| && names[l] == name && (pairs[l].0 == j || pairs[l].1 == j);
      assert k == l;
      assert pairs[k] == (i, j);
    }
  }
}
