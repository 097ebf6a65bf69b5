/** Which registers are still wanted, as `relies-of` works it out: backwards over
    a function, round and round till nothing changes (cmd/relies.lisp:207-291).
    A mask of registers is the set of the registers whose bits are on.

    The loops here are proved equal to statements about control paths. What a
    path means for a running machine is in module RelySound. */
module Liveness {
  type Regs = set<nat>

  /** What one instruction reads and writes. */
  datatype Flow = Flow(read: Regs, written: Regs)

  /** A function as the analysis sees it. `leaves` marks what does not come back
      here, `inner` what is part of a local subroutine or a callback, and `gives`
      is what the function is declared to give. */
  datatype Code = Code(
    flows: seq<Flow>, next: seq<seq<nat>>, leaves: seq<bool>, inner: seq<bool>, gives: Regs)
  {
    ghost predicate Valid() {
      && |flows| == |next| == |leaves| == |inner|
      && (forall at | 0 <= at < |next| :: InRange(next[at], |flows|))
      && (forall at | 0 <= at < |next| :: leaves[at] ==> next[at] == [])
    }
  }

  predicate InRange(on: seq<nat>, count: nat) {
    forall i | 0 <= i < |on| :: on[i] < count
  }

  // ----- control paths -----

  /** A non-empty walk along `next`. */
  ghost predicate IsPath(next: seq<seq<nat>>, p: seq<nat>) {
    && |p| > 0
    && (forall i | 0 <= i < |p| :: p[i] < |next|)
    && (forall i | 0 <= i < |p| - 1 :: p[i + 1] in next[p[i]])
  }

  /** Nothing on the path before its last instruction writes `r`. */
  ghost predicate Unwritten(c: Code, p: seq<nat>, r: nat)
    requires c.Valid() && IsPath(c.next, p)
  {
    forall i | 0 <= i < |p| - 1 :: r !in c.flows[p[i]].written
  }

  /** `r` is used at `at`: read there, or given as control leaves there. */
  ghost predicate UsedAt(c: Code, at: nat, r: nat)
    requires c.Valid() && at < |c.flows|
  {
    || r in c.flows[at].read
    || (c.leaves[at] && !c.inner[at] && r in c.gives && r !in c.flows[at].written)
  }

  ghost predicate WantedBy(c: Code, p: seq<nat>, at: nat, r: nat)
    requires c.Valid()
  {
    IsPath(c.next, p) && p[0] == at && Unwritten(c, p, r) && UsedAt(c, p[|p| - 1], r)
  }

  /** Some control path from `at` reads `r`, or leaves giving it, before it is written. */
  ghost predicate Wanted(c: Code, at: nat, r: nat)
    requires c.Valid()
  {
    exists p :: WantedBy(c, p, at, r)
  }

  ghost predicate WantedAfter(c: Code, at: nat, r: nat)
    requires c.Valid() && at < |c.flows|
  {
    if c.leaves[at] then !c.inner[at] && r in c.gives
    else exists to :: to in c.next[at] && Wanted(c, to, r)
  }

  /** The two ways to say what is wanted agree: by whole paths, and one step at a time. */
  lemma WantedStep(c: Code, at: nat, r: nat)
    requires c.Valid() && at < |c.flows|
    ensures Wanted(c, at, r) <==>
            r in c.flows[at].read || (r !in c.flows[at].written && WantedAfter(c, at, r))
  {
    if Wanted(c, at, r) {
      var p :| WantedBy(c, p, at, r);
      if |p| > 1 {
        var q := p[1..];
        assert forall i | 0 <= i < |q| :: q[i] == p[i + 1];
        assert p[1] in c.next[p[0]];
        assert r !in c.flows[p[0]].written;
        assert WantedBy(c, q, p[1], r);
      }
    }
    if r in c.flows[at].read || (c.leaves[at] && r !in c.flows[at].written && WantedAfter(c, at, r)) {
      assert WantedBy(c, [at], at, r);
    } else if r !in c.flows[at].written && WantedAfter(c, at, r) {
      var to :| to in c.next[at] && Wanted(c, to, r);
      var q :| WantedBy(c, q, to, r);
      var p := [at] + q;
      assert forall i | 0 < i < |p| :: p[i] == q[i - 1];
      assert WantedBy(c, p, at, r);
    }
  }

  // ----- the loop -----

  /** The reduce of `logior` over the places control goes to. */
  function Joined(live: seq<Regs>, on: seq<nat>): (out: Regs)
    requires InRange(on, |live|)
    ensures forall r :: r in out <==> exists to :: to in on && r in live[to]
  {
    if on == [] then {} else
      assert forall to :: to in on <==> to == on[0] || to in on[1..];
      live[on[0]] + Joined(live, on[1..])
  }

  /** What is wanted after an instruction, `after-of`. */
  function After(c: Code, live: seq<Regs>, at: nat): Regs
    requires c.Valid() && at < |c.flows| == |live|
  {
    if c.leaves[at] then if c.inner[at] then {} else c.gives
    else Joined(live, c.next[at])
  }

  function Before(c: Code, live: seq<Regs>, at: nat): Regs
    requires c.Valid() && at < |c.flows| == |live|
  {
    c.flows[at].read + (After(c, live, at) - c.flows[at].written)
  }

  ghost predicate SolvedFrom(c: Code, live: seq<Regs>, from: nat)
    requires c.Valid()
  {
    |live| == |c.flows| && forall at | from <= at < |live| :: live[at] == Before(c, live, at)
  }

  ghost predicate Solved(c: Code, live: seq<Regs>)
    requires c.Valid()
  {
    SolvedFrom(c, live, 0)
  }

  /** Nothing in `live` that is not wanted. */
  ghost predicate Sound(c: Code, live: seq<Regs>)
    requires c.Valid()
  {
    |live| == |c.flows| && forall at, r | 0 <= at < |live| && r in live[at] :: Wanted(c, at, r)
  }

  /** Every solution has in it all that is wanted. */
  lemma {:induction false} SolvedHasPath(c: Code, live: seq<Regs>, p: seq<nat>, r: nat)
    requires c.Valid() && Solved(c, live)
    requires IsPath(c.next, p) && Unwritten(c, p, r) && UsedAt(c, p[|p| - 1], r)
    ensures r in live[p[0]]
    decreases |p|
  {
    if |p| > 1 {
      var q := p[1..];
      assert forall i | 0 <= i < |q| :: q[i] == p[i + 1];
      SolvedHasPath(c, live, q, r);
      assert p[1] in c.next[p[0]] && r !in c.flows[p[0]].written;
    }
    assert live[p[0]] == Before(c, live, p[0]);
  }

  /** One assignment of the sweep keeps `live` below what is wanted. */
  lemma StepSound(c: Code, live: seq<Regs>, at: nat)
    requires c.Valid() && Sound(c, live) && at < |live|
    ensures Sound(c, live[at := Before(c, live, at)])
  {
    forall r | r in Before(c, live, at) ensures Wanted(c, at, r) {
      WantedStep(c, at, r);
    }
  }

  /** `live` only grows: it stays below its own next value. */
  ghost predicate Rising(c: Code, live: seq<Regs>)
    requires c.Valid()
  {
    |live| == |c.flows| && forall at | 0 <= at < |live| :: live[at] <= Before(c, live, at)
  }

  lemma StepRising(c: Code, live: seq<Regs>, at: nat)
    requires c.Valid() && Rising(c, live) && at < |live|
    ensures Rising(c, live[at := Before(c, live, at)])
  {
    var now := live[at := Before(c, live, at)];
    forall i | 0 <= i < |now| ensures now[i] <= Before(c, now, i) {
      assert After(c, live, i) <= After(c, now, i);
    }
  }

  /** How many registers could still be added, the measure of the loop. */
  ghost function Missing(c: Code, live: seq<Regs>): nat {
    if live == [] then 0 else |Universe(c) - live[0]| + Missing(c, live[1..])
  }

  ghost function Universe(c: Code): Regs {
    c.gives + set at, r | 0 <= at < |c.flows| && r in c.flows[at].read :: r
  }

  lemma {:induction false} MissingFalls(c: Code, live: seq<Regs>, at: nat, more: Regs)
    requires at < |live| && live[at] < more <= Universe(c)
    ensures Missing(c, live[at := more]) < Missing(c, live)
    decreases at
  {
    var now := live[at := more];
    if at == 0 {
      assert now[1..] == live[1..];
      var r :| r in more && r !in live[0];
      assert Universe(c) - more <= Universe(c) - live[0] - {r};
      Smaller(Universe(c) - more, Universe(c) - live[0] - {r});
    } else {
      assert now[1..] == live[1..][at - 1 := more];
      MissingFalls(c, live[1..], at - 1, more);
    }
  }

  lemma {:induction false} Smaller(a: Regs, b: Regs)
    requires a <= b
    ensures |a| <= |b|
    decreases |a|
  {
    if a != {} {
      var x :| x in a;
      Smaller(a - {x}, b - {x});
    }
  }

  lemma UniverseBounds(c: Code, live: seq<Regs>, at: nat)
    requires c.Valid() && Sound(c, live) && at < |live|
    ensures Before(c, live, at) <= Universe(c)
  {
    forall r | r in Before(c, live, at) ensures r in Universe(c) {
      assert Wanted(c, at, r) by { WantedStep(c, at, r); }
      var p :| WantedBy(c, p, at, r);
      assert UsedAt(c, p[|p| - 1], r);
    }
  }

  /** What every assignment of the sweep keeps. */
  ghost predicate Between(c: Code, live: seq<Regs>)
    requires c.Valid()
  {
    Sound(c, live) && Rising(c, live)
  }

  lemma SweepStep(c: Code, live: seq<Regs>, at: nat, before: Regs)
    requires c.Valid() && Between(c, live) && at < |live|
    requires before == Before(c, live, at) && before != live[at]
    ensures Between(c, live[at := before])
    ensures Missing(c, live[at := before]) < Missing(c, live)
  {
    StepSound(c, live, at);
    StepRising(c, live, at);
    UniverseBounds(c, live, at);
    MissingFalls(c, live, at, before);
  }

  lemma SolvedIsWanted(c: Code, live: seq<Regs>)
    requires c.Valid() && Between(c, live) && Solved(c, live)
    ensures forall at, r | 0 <= at < |live| :: r in live[at] <==> Wanted(c, at, r)
  {
    forall at, r | 0 <= at < |live| && Wanted(c, at, r) ensures r in live[at] {
      var p :| WantedBy(c, p, at, r);
      SolvedHasPath(c, live, p, r);
    }
  }

  /** One sweep, backwards over the instructions. */
  method Sweep(c: Code, live: array<Regs>) returns (changed: bool)
    requires c.Valid() && Between(c, live[..])
    modifies live
    ensures Between(c, live[..])
    ensures !changed ==> live[..] == old(live[..]) && Solved(c, live[..])
    ensures changed ==> Missing(c, live[..]) < Missing(c, old(live[..]))
  {
    changed := false;
    var at := live.Length;
    while at > 0
      invariant 0 <= at <= live.Length == |c.flows|
      invariant Between(c, live[..])
      invariant !changed ==> live[..] == old(live[..]) && SolvedFrom(c, live[..], at)
      invariant changed ==> Missing(c, live[..]) < Missing(c, old(live[..]))
    {
      at := at - 1;
      ghost var now := live[..];
      var before := Before(c, live[..], at);
      if before != live[at] {
        SweepStep(c, now, at, before);
        live[at] := before;
        assert live[..] == now[at := before];
        changed := true;
      }
    }
  }

  /** The while-changed loop of `relies-of`. What it ends with is exactly what is wanted. */
  method Live(c: Code) returns (result: seq<Regs>)
    requires c.Valid()
    ensures |result| == |c.flows|
    ensures forall at, r | 0 <= at < |result| :: r in result[at] <==> Wanted(c, at, r)
    ensures Solved(c, result)
  {
    var live := new Regs[|c.flows|](_ => {});
    var changed := true;
    while changed
      invariant Between(c, live[..])
      invariant !changed ==> Solved(c, live[..])
      decreases Missing(c, live[..]), changed
    {
      changed := Sweep(c, live);
    }
    result := live[..];
    SolvedIsWanted(c, result);
  }
}
