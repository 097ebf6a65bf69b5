/** The networks that go when one is stopped by name: it, those hung from its nodes, those hung
    from theirs, and so on (sys/lisp.inc:328-353, 387). */
module Nets {
  import opened Options

  /** A network that was added by name: the processes of its nodes, and that of the node that
      added it, which its note is named for. */
  datatype Net = Net(id: string, pids: seq<int>, adder: int)

  /** The one there is of a name, the first if there are more. */
  function First(nets: seq<Net>, name: string): (r: Option<Net>)
    ensures r.Some? ==> r.value in nets && r.value.id == name
    ensures r.None? ==> forall net | net in nets :: net.id != name
  {
    if nets == [] then None
    else if nets[0].id == name then Some(nets[0])
    else First(nets[1..], name)
  }

  /** A network called `b` was added by a node of the network `a`. */
  ghost predicate Hangs(nets: seq<Net>, a: string, b: string) {
    var net := First(nets, a);
    net.Some? && exists k :: 0 <= k < |nets| && nets[k].id == b && nets[k].adder in net.value.pids
  }

  ghost predicate IsChain(nets: seq<Net>, p: seq<string>, a: string, b: string) {
    && 0 < |p| && p[0] == a && p[|p| - 1] == b
    && forall k | 0 <= k < |p| - 1 :: Hangs(nets, p[k], p[k + 1])
  }

  ghost predicate Reaches(nets: seq<Net>, a: string, b: string) {
    exists p :: IsChain(nets, p, a, b)
  }

  lemma ReachesOn(nets: seq<Net>, a: string, b: string, c: string)
    requires Reaches(nets, a, b) && Hangs(nets, b, c)
    ensures Reaches(nets, a, c)
  {
    hide Hangs;
    var p :| IsChain(nets, p, a, b);
    assert IsChain(nets, p + [c], a, c);
  }

  lemma {:induction false} ClosedHas(nets: seq<Net>, found: seq<string>, p: seq<string>, a: string, b: string)
    requires IsChain(nets, p, a, b) && a in found
    requires forall x, y | x in found && Hangs(nets, x, y) :: y in found
    ensures b in found
    decreases |p|
  {
    hide Hangs;
    if |p| <= 1 {
    } else {
      assert Hangs(nets, p[0], p[1]);
      assert IsChain(nets, p[1..], p[1], b);
      ClosedHas(nets, found, p[1..], p[1], b);
    }
  }

  ghost predicate Distinct(found: seq<string>) {
    forall j, k | 0 <= j < k < |found| :: found[j] != found[k]
  }

  /** Each but the first hangs from one found before it. */
  ghost predicate HungInOrder(nets: seq<Net>, found: seq<string>) {
    forall k | 0 < k < |found| :: HungBefore(nets, found, k, found[k])
  }

  ghost predicate HungBefore(nets: seq<Net>, found: seq<string>, k: int, name: string) {
    exists j :: 0 <= j < k && j < |found| && Hangs(nets, found[j], name)
  }

  ghost function Names(nets: seq<Net>): set<string> {
    set net | net in nets :: net.id
  }

  lemma InNames(nets: seq<Net>, found: seq<string>)
    requires Distinct(found) && forall name | name in found :: First(nets, name).Some?
    ensures |found| <= |Names(nets)|
    decreases |found|
  {
    var all := set name | name in found;
    assert all <= Names(nets) by {
      forall name | name in found ensures name in Names(nets) { assert First(nets, name).value in nets; }
    }
    DistinctSize(found);
    Smaller(all, Names(nets));
  }

  lemma {:induction false} DistinctSize(found: seq<string>)
    requires Distinct(found)
    ensures |set name | name in found| == |found|
  {
    var all := set name | name in found;
    if found == [] {
      assert all == {};
    } else {
      var n := |found| - 1;
      var init := set name | name in found[..n];
      DistinctSize(found[..n]);
      assert found == found[..n] + [found[n]];
      assert all == init + {found[n]};
      assert found[n] !in init;
    }
  }

  lemma Smaller(a: set<string>, b: set<string>)
    requires a <= b
    ensures |a| <= |b|
  {
    assert b == a + (b - a);
  }

  /** The networks of the ones still to look at: `node-stop`, up to where it has found them. Just
      those that hang from the named one, near or far, each once, and each after the one it was
      come to from, so that they go, the last found first, from the far end. */
  method ToStop(nets: seq<Net>, id: string) returns (found: seq<string>)
    requires First(nets, id).Some?
    ensures forall name :: name in found <==> Reaches(nets, id, name)
    ensures Distinct(found) && |found| > 0 && found[0] == id && HungInOrder(nets, found)
  {
    hide Hangs;
    found := [];
    var todo := [id];
    assert IsChain(nets, [id], id, id);
    while todo != []
      invariant Distinct(found) && HungInOrder(nets, found)
      invariant forall name | name in found :: First(nets, name).Some? && Reaches(nets, id, name)
      invariant forall name | name in todo :: First(nets, name).Some? && Reaches(nets, id, name)
      invariant if found == [] then todo == [id] else
                  found[0] == id && forall name | name in todo :: HungBefore(nets, found, |found|, name)
      invariant forall x, y | x in found && Hangs(nets, x, y) :: y in found || y in todo
      decreases |Names(nets)| - |found|, |todo|
    {
      var name := todo[|todo| - 1];
      ghost var was := todo;
      todo := todo[..|todo| - 1];
      assert was == todo + [name];
      if name !in found {
        ghost var before := found;
        var net := First(nets, name).value;
        found := found + [name];
        InNames(nets, found);
        assert HungInOrder(nets, found) by { InOrderOn(nets, before, name); }
        var more := HungFrom(nets, name, net);
        ghost var rest := todo;
        todo := todo + more;
        forall y | y in more ensures First(nets, y).Some? && Reaches(nets, id, y) && HungBefore(nets, found, |found|, y) {
          ReachesOn(nets, id, name, y);
          assert found[|before|] == name;
        }
        forall y | y in rest ensures HungBefore(nets, found, |found|, y) {
          if before != [] { HungStill(nets, before, name, y); }
        }
      } else {
        forall x, y | x in found && Hangs(nets, x, y) ensures y in found || y in todo {}
      }
    }
    forall name ensures name in found <==> Reaches(nets, id, name) {
      if Reaches(nets, id, name) {
        var p :| IsChain(nets, p, id, name);
        ClosedHas(nets, found, p, id, name);
      }
    }
  }

  lemma InOrderOn(nets: seq<Net>, found: seq<string>, name: string)
    requires HungInOrder(nets, found) && (found == [] || HungBefore(nets, found, |found|, name))
    ensures HungInOrder(nets, found + [name])
  {
    hide Hangs;
    var now := found + [name];
    forall k | 0 < k < |now| ensures HungBefore(nets, now, k, now[k]) {
      if k < |found| {
        assert HungBefore(nets, found, k, found[k]);
        var j :| 0 <= j < k && j < |found| && Hangs(nets, found[j], found[k]);
        assert Hangs(nets, now[j], now[k]);
      } else {
        var j :| 0 <= j < |found| && Hangs(nets, found[j], name);
        assert Hangs(nets, now[j], now[k]);
      }
    }
  }

  lemma HungStill(nets: seq<Net>, found: seq<string>, name: string, y: string)
    requires HungBefore(nets, found, |found|, y)
    ensures HungBefore(nets, found + [name], |found| + 1, y)
  {
    hide Hangs;
    var j :| 0 <= j < |found| && Hangs(nets, found[j], y);
    assert Hangs(nets, (found + [name])[j], y);
  }

  method HungFrom(nets: seq<Net>, name: string, net: Net) returns (more: seq<string>)
    requires First(nets, name) == Some(net)
    ensures forall y :: y in more <==> Hangs(nets, name, y)
    ensures forall y | y in more :: First(nets, y).Some?
  {
    more := [];
    var k := 0;
    while k < |nets|
      invariant 0 <= k <= |nets|
      invariant forall y :: y in more <==> exists l :: 0 <= l < k && nets[l].id == y && nets[l].adder in net.pids
      invariant forall y | y in more :: First(nets, y).Some?
    {
      var other := nets[k];
      if other.adder in net.pids { more := more + [other.id]; }
      k := k + 1;
    }
  }

  /** So a network goes before the only one it hangs from. */
  lemma FarGoesFirst(nets: seq<Net>, found: seq<string>, j: int, k: int)
    requires Distinct(found) && HungInOrder(nets, found)
    requires 0 <= j < |found| && 0 < k < |found|
    requires forall name :: Hangs(nets, name, found[k]) ==> name == found[j]
    ensures j < k
  {
    assert HungBefore(nets, found, k, found[k]);
  }
}
