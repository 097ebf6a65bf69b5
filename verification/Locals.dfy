/** Of the locals of a function: which are wanted, which are `had` in a register, and which
    are `dirty`, by where control goes (cmd/locals.lisp:178-240). A mask of locals is the
    set of those whose bits are on. `had` begins as -1, every bit of 64. */
module Locals {
  import opened Liveness
  import opened Relies

  /** What an instruction does to a local. */
  datatype Event = Quiet | Load(slot: nat) | Store(slot: nat) | Addr(slot: nat)

  /** What `look-at` makes of a function. One that loads, stores or takes an address goes on to the
      instruction after it, and is one that control comes to: of any other it has no frames, and
      finds no local (cmd/locals.lisp:88-97, 123-177). */
  datatype Body = Body(next: seq<seq<nat>>, events: seq<Event>, calls: seq<bool>) {
    ghost predicate Valid() {
      && |events| == |calls| == |next|
      && (forall at | 0 <= at < |next| :: InRange(next[at], |next|))
      && (forall at | 0 <= at < |next| && !events[at].Quiet? :: EventOk(at))
    }

    ghost predicate EventOk(at: nat)
      requires at < |next| <= |events| && !events[at].Quiet?
    {
      events[at].slot < 62 && next[at] == (if at + 1 < |next| then [at + 1] else []) && Reached(this, at)
    }

    /** Read from or written to the stack, so it is in its register after. */
    predicate Touches(at: nat, x: nat)
      requires at < |events|
    {
      events[at] == Load(x) || events[at] == Store(x)
    }
  }

  // ----- live: the loop of lines 184-199 is that of Liveness -----

  function FlowOf(e: Event): Flow {
    match e
    case Quiet => Flow({}, {})
    case Store(x) => Flow({}, {x})
    case Load(x) => Flow({x}, {})
    case Addr(x) => Flow({x}, {})
  }

  function CodeOf(b: Body): (c: Code)
    requires b.Valid()
    ensures c.Valid()
  {
    Code(seq(|b.next|, at requires 0 <= at < |b.next| => FlowOf(b.events[at])), b.next,
         seq(|b.next|, _ => false), seq(|b.next|, _ => false), {})
  }

  /** A way from `at` to where `x` is read, or its address taken, that does not write it first. */
  ghost predicate ReadBy(b: Body, p: seq<nat>, at: nat, x: nat) {
    && |b.events| == |b.next| && IsPath(b.next, p) && p[0] == at
    && (b.events[p[|p| - 1]] == Load(x) || b.events[p[|p| - 1]] == Addr(x))
    && forall i | 0 <= i < |p| - 1 :: b.events[p[i]] != Store(x)
  }

  lemma ReadIsWanted(b: Body, at: nat, x: nat)
    requires b.Valid()
    ensures Wanted(CodeOf(b), at, x) <==> exists p :: ReadBy(b, p, at, x)
  {
    var c := CodeOf(b);
    if Wanted(c, at, x) {
      var p :| WantedBy(c, p, at, x);
      forall i | 0 <= i < |p| - 1 ensures b.events[p[i]] != Store(x) { assert x !in c.flows[p[i]].written; }
      assert ReadBy(b, p, at, x);
    }
    if p :| ReadBy(b, p, at, x) {
      forall i | 0 <= i < |p| - 1 ensures x !in c.flows[p[i]].written { assert b.events[p[i]] != Store(x); }
      assert WantedBy(c, p, at, x);
    }
  }

  /** `live` of `look-at`: a local is in it at an instruction just when some way from there reads it
      before it is written. */
  method LiveLocals(b: Body) returns (live: seq<Regs>)
    requires b.Valid()
    ensures |live| == |b.next|
    ensures forall at, x: nat | 0 <= at < |live| :: x in live[at] <==> exists p :: ReadBy(b, p, at, x)
  {
    live := Live(CodeOf(b));
    forall at, x: nat | 0 <= at < |live| ensures x in live[at] <==> exists p :: ReadBy(b, p, at, x) {
      ReadIsWanted(b, at, x);
    }
  }

  // ----- where control comes from -----

  /** `prev`, the links of `next` the other way about. */
  method PrevOf(next: seq<seq<nat>>) returns (result: seq<seq<nat>>)
    requires forall at | 0 <= at < |next| :: InRange(next[at], |next|)
    ensures |result| == |next|
    ensures forall to, from: nat | 0 <= to < |result| :: from in result[to] <==> from < |next| && to in next[from]
    ensures forall to | 0 <= to < |result| :: InRange(result[to], |next|)
  {
    var prev := new seq<nat>[|next|](_ => []);
    for from := 0 to |next|
      invariant forall to, f: nat | 0 <= to < |next| :: f in prev[to] <==> f < from && to in next[f]
    {
      for k := 0 to |next[from]|
        invariant forall to, f: nat | 0 <= to < |next| ::
                    f in prev[to] <==> (f < from && to in next[f]) || (f == from && to in next[from][..k])
      {
        assert InRange(next[from], |next|);
        var to := next[from][k];
        prev[to] := prev[to] + [from];
        assert next[from][..k + 1] == next[from][..k] + [to];
      }
      assert next[from][..|next[from]|] == next[from];
    }
    result := prev[..];
    LinksInRange(next, result);
  }

  lemma LinksInRange(next: seq<seq<nat>>, prev: seq<seq<nat>>)
    requires |prev| == |next|
    requires forall to, from: nat | 0 <= to < |prev| :: from in prev[to] <==> from < |next| && to in next[from]
    ensures forall to | 0 <= to < |prev| :: InRange(prev[to], |next|)
  {
    forall to: nat | to < |prev| ensures InRange(prev[to], |next|) {
      var list := prev[to];
      forall i | 0 <= i < |list| ensures list[i] < |next| {
        var from: nat := list[i];
        assert from in list;
        assert from in prev[to] <==> from < |next| && to in next[from];
      }
    }
  }

  ghost predicate IsPrev(b: Body, prev: seq<seq<nat>>)
    requires b.Valid()
  {
    && |prev| == |b.next|
    && (forall to | 0 <= to < |prev| :: InRange(prev[to], |b.next|))
    && (forall to, from | 0 <= to < |prev| && 0 <= from < |b.next| :: from in prev[to] <==> to in b.next[from])
  }

  // ----- one step -----

  function All(): (all: Regs)
    ensures forall x: nat :: x in all <==> x < 64
  {
    Below(64)
  }

  /** `out-of`: what is had, or dirty if `may`, after an instruction. */
  function OutOf(b: Body, at: nat, on: Regs, may: bool): Regs
    requires b.Valid() && at < |b.next|
  {
    if b.calls[at] then {}
    else match b.events[at]
      case Store(x) => on + {x}
      case Load(x) => if may then on else on + {x}
      case _ => on
  }

  function Meet(b: Body, had: seq<Regs>, from: seq<nat>): Regs
    requires b.Valid() && |had| == |b.next| && InRange(from, |had|)
  {
    if from == [] then All() else Meet(b, had, from[1..]) * OutOf(b, from[0], had[from[0]], false)
  }

  lemma {:induction false} InMeet(b: Body, had: seq<Regs>, from: seq<nat>, x: nat)
    requires b.Valid() && |had| == |b.next| && InRange(from, |had|)
    ensures x in Meet(b, had, from) <==> x < 64 && forall q | q in from :: x in OutOf(b, q, had[q], false)
    decreases |from|
  {
    if from == [] {
    } else {
      assert forall q :: q in from <==> q == from[0] || q in from[1..];
      InMeet(b, had, from[1..], x);
    }
  }

  function Join(b: Body, dirty: seq<Regs>, from: seq<nat>): Regs
    requires b.Valid() && |dirty| == |b.next| && InRange(from, |dirty|)
  {
    if from == [] then {} else Join(b, dirty, from[1..]) + OutOf(b, from[0], dirty[from[0]], true)
  }

  lemma {:induction false} InJoin(b: Body, dirty: seq<Regs>, from: seq<nat>, x: nat)
    requires b.Valid() && |dirty| == |b.next| && InRange(from, |dirty|)
    ensures x in Join(b, dirty, from) <==> exists q :: q in from && x in OutOf(b, q, dirty[q], true)
    decreases |from|
  {
    if from == [] {
    } else {
      assert forall q :: q in from <==> q == from[0] || q in from[1..];
      InJoin(b, dirty, from[1..], x);
    }
  }

  function InHad(b: Body, prev: seq<seq<nat>>, had: seq<Regs>, at: nat): Regs
    requires b.Valid() && IsPrev(b, prev) && at < |had| == |b.next|
  {
    if at == 0 then {} else Meet(b, had, prev[at])
  }

  // ----- what `had` and `dirty` should be, by paths -----

  /** `x` was read or written on the path, and there has been no call since. */
  ghost predicate Fresh(b: Body, p: seq<nat>, x: nat)
    requires b.Valid() && IsPath(b.next, p)
  {
    exists i :: FreshAt(b, p, x, i)
  }

  ghost predicate FreshAt(b: Body, p: seq<nat>, x: nat, i: int)
    requires b.Valid() && IsPath(b.next, p)
  {
    && 0 <= i < |p| - 1 && b.Touches(p[i], x)
    && forall j | i <= j < |p| - 1 :: !b.calls[p[j]]
  }

  ghost predicate FromEntry(b: Body, p: seq<nat>, at: nat) {
    IsPath(b.next, p) && p[0] == 0 && p[|p| - 1] == at
  }

  ghost predicate Reached(b: Body, at: nat) {
    exists p :: FromEntry(b, p, at)
  }

  /** What `had` is for: on every way from the entry, touched since the last call. */
  ghost predicate HadOnEvery(b: Body, at: nat, x: nat)
    requires b.Valid()
  {
    forall p | FromEntry(b, p, at) :: Fresh(b, p, x)
  }

  /** A way here along which nothing puts `x` in its register, from the entry or from a call. */
  ghost predicate Lacks(b: Body, p: seq<nat>, at: nat, x: nat)
    requires b.Valid()
  {
    && IsPath(b.next, p) && p[|p| - 1] == at
    && (p[0] == 0 || (|p| > 1 && b.calls[p[0]]))
    && forall i | 0 <= i < |p| - 1 :: b.calls[p[i]] || !b.Touches(p[i], x)
  }

  ghost predicate Lacking(b: Body, at: nat, x: nat)
    requires b.Valid()
  {
    exists p :: Lacks(b, p, at, x)
  }

  /** A way here from a call that control never comes to. */
  ghost predicate Stray(b: Body, at: nat, x: nat)
    requires b.Valid()
  {
    exists p :: Lacks(b, p, at, x) && p[0] != 0 && !Reached(b, p[0])
  }

  /** A way here from where `x` is written, with no call. */
  ghost predicate WrittenBy(b: Body, p: seq<nat>, at: nat, x: nat)
    requires b.Valid()
  {
    && IsPath(b.next, p) && p[|p| - 1] == at && |p| > 1
    && b.events[p[0]] == Store(x)
    && forall i | 0 <= i < |p| - 1 :: !b.calls[p[i]]
  }

  ghost predicate Dirty(b: Body, at: nat, x: nat)
    requires b.Valid()
  {
    exists p :: WrittenBy(b, p, at, x)
  }

  // ----- what the loop keeps -----

  ghost predicate HadOk(b: Body, prev: seq<seq<nat>>, had: seq<Regs>)
    requires b.Valid() && IsPrev(b, prev)
  {
    && |had| == |b.next|
    && (forall at | 0 <= at < |had| :: InHad(b, prev, had, at) <= had[at] <= All())
    && (forall at, x | 0 <= at < |had| && x < 64 && x !in had[at] :: Lacking(b, at, x))
  }

  ghost predicate DirtyOk(b: Body, prev: seq<seq<nat>>, dirty: seq<Regs>)
    requires b.Valid() && IsPrev(b, prev)
  {
    && |dirty| == |b.next|
    && (forall at | 0 <= at < |dirty| :: dirty[at] <= Join(b, dirty, prev[at]) && dirty[at] <= All())
    && (forall at, x | 0 <= at < |dirty| && x in dirty[at] :: Dirty(b, at, x))
  }

  lemma LackOn(b: Body, q: nat, at: nat, x: nat)
    requires b.Valid() && q < |b.next| && at in b.next[q]
    requires b.calls[q] || (Lacking(b, q, x) && !b.Touches(q, x))
    ensures Lacking(b, at, x)
  {
    assert InRange(b.next[q], |b.next|);
    if b.calls[q] {
      assert Lacks(b, [q, at], at, x);
    } else {
      var p :| Lacks(b, p, q, x);
      var p' := p + [at];
      assert forall i | 0 <= i < |p| :: p'[i] == p[i];
      assert Lacks(b, p', at, x);
    }
  }

  lemma DirtyOn(b: Body, q: nat, at: nat, x: nat)
    requires b.Valid() && q < |b.next| && at in b.next[q] && !b.calls[q]
    requires b.events[q] == Store(x) || Dirty(b, q, x)
    ensures Dirty(b, at, x)
  {
    assert InRange(b.next[q], |b.next|);
    if b.events[q] == Store(x) {
      assert WrittenBy(b, [q, at], at, x);
    } else {
      var p :| WrittenBy(b, p, q, x);
      var p' := p + [at];
      assert forall i | 0 <= i < |p| :: p'[i] == p[i];
      assert WrittenBy(b, p', at, x);
    }
  }

  lemma {:induction false} MeetFalls(b: Body, now: seq<Regs>, was: seq<Regs>, from: seq<nat>)
    requires b.Valid() && |now| == |was| == |b.next| && InRange(from, |was|)
    requires forall q | 0 <= q < |was| :: now[q] <= was[q]
    ensures Meet(b, now, from) <= Meet(b, was, from) <= All()
    decreases |from|
  {
    if from == [] {
    } else {
      MeetFalls(b, now, was, from[1..]);
    }
  }

  lemma {:induction false} JoinRises(b: Body, was: seq<Regs>, now: seq<Regs>, from: seq<nat>)
    requires b.Valid() && |now| == |was| == |b.next| && InRange(from, |was|)
    requires forall q | 0 <= q < |was| :: was[q] <= now[q]
    ensures Join(b, was, from) <= Join(b, now, from)
    decreases |from|
  {
    if from == [] {
    } else {
      JoinRises(b, was, now, from[1..]);
    }
  }

  lemma HadLacks(b: Body, prev: seq<seq<nat>>, had: seq<Regs>, at: nat, x: nat)
    requires b.Valid() && IsPrev(b, prev) && HadOk(b, prev, had) && at < |had|
    requires x < 64 && x !in InHad(b, prev, had, at)
    ensures Lacking(b, at, x)
  {
    if at == 0 {
      assert Lacks(b, [0], 0, x);
    } else {
      assert InRange(prev[at], |b.next|);
      InMeet(b, had, prev[at], x);
      var q :| q in prev[at] && x !in OutOf(b, q, had[q], false);
      LackOn(b, q, at, x);
    }
  }

  lemma HadStep(b: Body, prev: seq<seq<nat>>, had: seq<Regs>, at: nat)
    requires b.Valid() && IsPrev(b, prev) && HadOk(b, prev, had) && at < |had|
    ensures HadOk(b, prev, had[at := InHad(b, prev, had, at)])
  {
    var now := had[at := InHad(b, prev, had, at)];
    assert InRange(prev[at], |b.next|);
    MeetFalls(b, had, had, prev[at]);
    forall i | 0 <= i < |now| ensures InHad(b, prev, now, i) <= now[i] {
      assert InRange(prev[i], |b.next|);
      MeetFalls(b, now, had, prev[i]);
    }
    forall i, x | 0 <= i < |now| && x < 64 && x !in now[i] ensures Lacking(b, i, x) {
      if i == at { HadLacks(b, prev, had, at, x); }
    }
  }

  lemma DirtyWritten(b: Body, prev: seq<seq<nat>>, dirty: seq<Regs>, at: nat, x: nat)
    requires b.Valid() && IsPrev(b, prev) && DirtyOk(b, prev, dirty) && at < |dirty|
    requires x in Join(b, dirty, prev[at])
    ensures Dirty(b, at, x) && x < 64
  {
    assert InRange(prev[at], |b.next|);
    InJoin(b, dirty, prev[at], x);
    var q :| q in prev[at] && x in OutOf(b, q, dirty[q], true);
    assert x in dirty[q] ==> x in All();
    DirtyOn(b, q, at, x);
  }

  lemma DirtyStep(b: Body, prev: seq<seq<nat>>, dirty: seq<Regs>, at: nat)
    requires b.Valid() && IsPrev(b, prev) && DirtyOk(b, prev, dirty) && at < |dirty|
    ensures DirtyOk(b, prev, dirty[at := Join(b, dirty, prev[at])])
  {
    var more := Join(b, dirty, prev[at]);
    var now := dirty[at := more];
    hide Dirty, Join;
    forall x | x in more ensures Dirty(b, at, x) && x in All() { DirtyWritten(b, prev, dirty, at, x); }
    assert dirty[at] <= more;
    forall i | 0 <= i < |now| ensures now[i] <= Join(b, now, prev[i]) {
      assert InRange(prev[i], |b.next|);
      JoinRises(b, dirty, now, prev[i]);
    }
  }

  // ----- the measure -----

  ghost function Size(sets: seq<Regs>): nat {
    if sets == [] then 0 else |sets[0]| + Size(sets[1..])
  }

  ghost function Room(sets: seq<Regs>): nat {
    if sets == [] then 0 else |All() - sets[0]| + Room(sets[1..])
  }

  lemma {:induction false} SizeFalls(sets: seq<Regs>, at: nat, less: Regs)
    requires at < |sets| && less <= sets[at]
    ensures Size(sets[at := less]) <= Size(sets)
    ensures less != sets[at] ==> Size(sets[at := less]) < Size(sets)
    decreases at
  {
    var now := sets[at := less];
    if at == 0 {
      assert now[1..] == sets[1..];
      Smaller(less, sets[0]);
      if less != sets[0] { Proper(less, sets[0]); }
    } else {
      assert now[1..] == sets[1..][at - 1 := less];
      SizeFalls(sets[1..], at - 1, less);
    }
  }

  lemma Proper(a: Regs, b: Regs)
    requires a < b
    ensures |a| < |b|
  {
    var x :| x in b && x !in a;
    Smaller(a, b - {x});
  }

  lemma {:induction false} RoomFalls(sets: seq<Regs>, at: nat, more: Regs)
    requires at < |sets| && sets[at] <= more <= All()
    ensures Room(sets[at := more]) <= Room(sets)
    ensures more != sets[at] ==> Room(sets[at := more]) < Room(sets)
    decreases at
  {
    var now := sets[at := more];
    if at == 0 {
      assert now[1..] == sets[1..];
      Smaller(All() - more, All() - sets[0]);
      if more != sets[0] {
        var x :| x in more && x !in sets[0];
        assert x in All() - sets[0];
        Proper(All() - more, All() - sets[0]);
      }
    } else {
      assert now[1..] == sets[1..][at - 1 := more];
      RoomFalls(sets[1..], at - 1, more);
    }
  }

  // ----- the loop -----

  ghost predicate Settled(b: Body, prev: seq<seq<nat>>, had: seq<Regs>, dirty: seq<Regs>, to: nat)
    requires b.Valid() && IsPrev(b, prev) && |had| == |dirty| == |b.next|
  {
    forall at | 0 <= at < to && at < |had| :: had[at] == InHad(b, prev, had, at) && dirty[at] == Join(b, dirty, prev[at])
  }

  /** One assignment of the sweep. */
  lemma StepKeeps(b: Body, prev: seq<seq<nat>>, had: seq<Regs>, dirty: seq<Regs>, at: nat)
    requires b.Valid() && IsPrev(b, prev) && HadOk(b, prev, had) && DirtyOk(b, prev, dirty) && at < |had|
    requires had[at] != InHad(b, prev, had, at) || dirty[at] != Join(b, dirty, prev[at])
    ensures var h := had[at := InHad(b, prev, had, at)];
            var d := dirty[at := Join(b, dirty, prev[at])];
            HadOk(b, prev, h) && DirtyOk(b, prev, d) && Size(h) + Room(d) < Size(had) + Room(dirty)
  {
    HadStep(b, prev, had, at);
    DirtyStep(b, prev, dirty, at);
    SizeFalls(had, at, InHad(b, prev, had, at));
    RoomFalls(dirty, at, Join(b, dirty, prev[at]));
  }

  lemma SettledOn(b: Body, prev: seq<seq<nat>>, had: seq<Regs>, dirty: seq<Regs>, at: nat)
    requires b.Valid() && IsPrev(b, prev) && |had| == |dirty| == |b.next| && at < |had|
    requires Settled(b, prev, had, dirty, at)
    requires had[at] == InHad(b, prev, had, at) && dirty[at] == Join(b, dirty, prev[at])
    ensures Settled(b, prev, had, dirty, at + 1)
  {
    hide InHad, Join;
  }

  /** What the sweep does at one instruction. */
  method Visit(b: Body, prev: seq<seq<nat>>, had: array<Regs>, dirty: array<Regs>, at: nat) returns (changed: bool)
    requires b.Valid() && IsPrev(b, prev) && had != dirty && at < had.Length
    requires HadOk(b, prev, had[..]) && DirtyOk(b, prev, dirty[..]) && had[0] == {}
    modifies had, dirty
    ensures HadOk(b, prev, had[..]) && DirtyOk(b, prev, dirty[..]) && had[0] == {}
    ensures !changed ==> had[..] == old(had[..]) && dirty[..] == old(dirty[..])
    ensures !changed ==> had[at] == InHad(b, prev, had[..], at) && dirty[at] == Join(b, dirty[..], prev[at])
    ensures changed ==> Size(had[..]) + Room(dirty[..]) < old(Size(had[..]) + Room(dirty[..]))
  {
    changed := false;
    ghost var h, d := had[..], dirty[..];
    if at > 0 || prev[at] != [] {
      var inHad := InHad(b, prev, had[..], at);
      var inDirty := Join(b, dirty[..], prev[at]);
      if !(inHad == had[at] && inDirty == dirty[at]) {
        StepKeeps(b, prev, h, d, at);
        had[at] := inHad;
        dirty[at] := inDirty;
        assert had[..] == h[at := inHad] && dirty[..] == d[at := inDirty];
        changed := true;
      }
    } else {
      assert d[0] <= Join(b, d, prev[0]);
    }
  }

  method Sweep(b: Body, prev: seq<seq<nat>>, had: array<Regs>, dirty: array<Regs>) returns (changed: bool)
    requires b.Valid() && IsPrev(b, prev) && had != dirty
    requires HadOk(b, prev, had[..]) && DirtyOk(b, prev, dirty[..])
    requires had.Length > 0 ==> had[0] == {}
    modifies had, dirty
    ensures HadOk(b, prev, had[..]) && DirtyOk(b, prev, dirty[..])
    ensures had.Length > 0 ==> had[0] == {}
    ensures !changed ==> had[..] == old(had[..]) && dirty[..] == old(dirty[..])
    ensures !changed ==> Settled(b, prev, had[..], dirty[..], |b.next|)
    ensures changed ==> Size(had[..]) + Room(dirty[..]) < old(Size(had[..]) + Room(dirty[..]))
  {
    changed := false;
    var at := 0;
    while at < had.Length
      invariant 0 <= at <= had.Length == dirty.Length == |b.next|
      invariant HadOk(b, prev, had[..]) && DirtyOk(b, prev, dirty[..])
      invariant had.Length > 0 ==> had[0] == {}
      invariant !changed ==> had[..] == old(had[..]) && dirty[..] == old(dirty[..])
      invariant !changed ==> Settled(b, prev, had[..], dirty[..], at)
      invariant changed ==> Size(had[..]) + Room(dirty[..]) < old(Size(had[..]) + Room(dirty[..]))
    {
      var here := Visit(b, prev, had, dirty, at);
      if here {
        changed := true;
      } else if !changed {
        SettledOn(b, prev, had[..], dirty[..], at);
      }
      at := at + 1;
    }
  }

  /** The while-changed loop, over both at once: `had` comes down and `dirty` goes up. */
  method HadAndDirty(b: Body) returns (prev: seq<seq<nat>>, hads: seq<Regs>, dirties: seq<Regs>)
    requires b.Valid()
    ensures IsPrev(b, prev) && HadOk(b, prev, hads) && DirtyOk(b, prev, dirties)
    ensures Settled(b, prev, hads, dirties, |b.next|)
    ensures |hads| > 0 ==> hads[0] == {}
  {
    prev := PrevOf(b.next);
    var had := new Regs[|b.next|](_ => All());
    var dirty := new Regs[|b.next|](_ => {});
    if had.Length > 0 { had[0] := {}; }
    BeginOk(b, prev, had[..], dirty[..]);
    var changed := true;
    while changed
      invariant HadOk(b, prev, had[..]) && DirtyOk(b, prev, dirty[..])
      invariant had.Length > 0 ==> had[0] == {}
      invariant !changed ==> Settled(b, prev, had[..], dirty[..], |b.next|)
      decreases Size(had[..]) + Room(dirty[..]), changed
    {
      changed := Sweep(b, prev, had, dirty);
    }
    hads, dirties := had[..], dirty[..];
  }

  lemma BeginOk(b: Body, prev: seq<seq<nat>>, had: seq<Regs>, dirty: seq<Regs>)
    requires b.Valid() && IsPrev(b, prev) && |had| == |dirty| == |b.next|
    requires forall at | 0 <= at < |had| :: had[at] == if at == 0 then {} else All()
    requires forall at | 0 <= at < |dirty| :: dirty[at] == {}
    ensures HadOk(b, prev, had) && DirtyOk(b, prev, dirty)
  {
    forall at | 0 <= at < |had| ensures InHad(b, prev, had, at) <= All() {
      assert InRange(prev[at], |b.next|);
      MeetFalls(b, had, had, prev[at]);
    }
    forall x: nat | x < 64 && |had| > 0 ensures Lacking(b, 0, x) {
      assert Lacks(b, [0], 0, x);
    }
  }

  // ----- what it ends with -----

  /** A settled `had` has no local that some way lacks. */
  lemma {:induction false} SettledLacks(b: Body, prev: seq<seq<nat>>, had: seq<Regs>, dirty: seq<Regs>, p: seq<nat>, x: nat)
    requires b.Valid() && IsPrev(b, prev) && |had| == |dirty| == |b.next|
    requires Settled(b, prev, had, dirty, |b.next|) && x < 64
    requires |p| > 0 && Lacks(b, p, p[|p| - 1], x)
    ensures x !in had[p[|p| - 1]]
    decreases |p|
  {
    var at := p[|p| - 1];
    if |p| > 1 && at != 0 {
      var q := p[|p| - 2];
      assert at in b.next[q] && q in prev[at];
      assert InRange(prev[at], |b.next|);
      InMeet(b, had, prev[at], x);
      if !b.calls[q] {
        var less := p[..|p| - 1];
        assert less[|less| - 1] == q;
        assert |less| > 1 || p[0] == 0;
        SettledLacks(b, prev, had, dirty, less, x);
        assert x !in OutOf(b, q, had[q], false);
      }
    }
  }

  lemma {:induction false} SettledDirty(b: Body, prev: seq<seq<nat>>, had: seq<Regs>, dirty: seq<Regs>, p: seq<nat>, x: nat)
    requires b.Valid() && IsPrev(b, prev) && |had| == |dirty| == |b.next|
    requires Settled(b, prev, had, dirty, |b.next|)
    requires |p| > 0 && WrittenBy(b, p, p[|p| - 1], x)
    ensures x in dirty[p[|p| - 1]]
    decreases |p|
  {
    var at := p[|p| - 1];
    var q := p[|p| - 2];
    assert at in b.next[q] && q in prev[at];
    assert InRange(prev[at], |b.next|);
    InJoin(b, dirty, prev[at], x);
    if |p| > 2 {
      var less := p[..|p| - 1];
      assert less[|less| - 1] == q;
      SettledDirty(b, prev, had, dirty, less, x);
    }
    assert x in OutOf(b, q, dirty[q], true);
  }

  // ----- against what they are for -----

  /** What `HadAndDirty` ends with. */
  ghost predicate Fixpoint(b: Body, prev: seq<seq<nat>>, had: seq<Regs>, dirty: seq<Regs>)
    requires b.Valid()
  {
    && IsPrev(b, prev) && HadOk(b, prev, had) && DirtyOk(b, prev, dirty)
    && Settled(b, prev, had, dirty, |b.next|)
  }

  /** A way from the entry, and on along a way that lacks `x`, is a way that lacks it. */
  lemma StaleWay(b: Body, q: seq<nat>, p: seq<nat>, at: nat, x: nat)
    requires b.Valid() && Lacks(b, p, at, x) && FromEntry(b, q, p[0])
    requires p[0] != 0 || |q| == 1
    ensures FromEntry(b, q + p[1..], at) && !Fresh(b, q + p[1..], x)
  {
    var r := q + p[1..];
    var k := |q| - 1;
    assert forall i | 0 <= i < |p| :: r[k + i] == p[i];
    assert forall i | 0 <= i < |q| :: r[i] == q[i];
    forall i | 0 <= i < |r| - 1 ensures r[i + 1] in b.next[r[i]] {
      if i >= k { assert p[i - k + 1] in b.next[p[i - k]]; }
    }
    assert r[|r| - 1] == p[|p| - 1];
    forall i ensures !FreshAt(b, r, x, i) {
      if 0 <= i < k {
        assert b.calls[r[k]];
      } else if k <= i < |r| - 1 {
        assert b.calls[p[i - k]] || !b.Touches(p[i - k], x);
      }
    }
  }

  lemma SinceCall(b: Body, p: seq<nat>, x: nat, from: nat)
    requires b.Valid() && |p| > 0 && FromEntry(b, p, p[|p| - 1]) && !Fresh(b, p, x) && from < |p|
    requires forall i | from < i < |p| - 1 :: !b.calls[p[i]]
    requires from == 0 || (from < |p| - 1 && b.calls[p[from]])
    ensures Lacks(b, p[from..], p[|p| - 1], x) && Reached(b, p[from])
  {
    var q := p[from..];
    assert forall i | 0 <= i < |q| :: q[i] == p[from + i];
    forall i | 0 <= i < |q| - 1 ensures b.calls[q[i]] || !b.Touches(q[i], x) {
      if !b.calls[q[i]] && b.Touches(q[i], x) { assert FreshAt(b, p, x, from + i); }
    }
    assert FromEntry(b, p[..from + 1], p[from]);
  }

  /** On a way from the entry that is not fresh, `x` is lacked since the last call, or since the entry. */
  lemma {:induction false} LastCall(b: Body, p: seq<nat>, x: nat, k: nat)
    requires b.Valid() && |p| > 0 && FromEntry(b, p, p[|p| - 1]) && !Fresh(b, p, x) && k < |p|
    requires forall i | k <= i < |p| - 1 :: !b.calls[p[i]]
    ensures Lacking(b, p[|p| - 1], x)
    decreases k
  {
    if k == 0 {
      SinceCall(b, p, x, 0);
    } else if b.calls[p[k - 1]] {
      SinceCall(b, p, x, k - 1);
    } else {
      LastCall(b, p, x, k - 1);
    }
  }

  /** `had` is exactly what it is for, less what is lacked by some way from a call that control
      never comes to: `out-of` has nothing after a call whether it can be reached or not. */
  lemma HadIs(b: Body, prev: seq<seq<nat>>, had: seq<Regs>, dirty: seq<Regs>, at: nat, x: nat)
    requires b.Valid() && Fixpoint(b, prev, had, dirty) && at < |had| && x < 64
    ensures x in had[at] <==> HadOnEvery(b, at, x) && !Stray(b, at, x)
  {
    if x !in had[at] {
      var p :| Lacks(b, p, at, x);
      if p[0] == 0 {
        assert FromEntry(b, [0], 0);
        StaleWay(b, [0], p, at, x);
      } else if Reached(b, p[0]) {
        var q :| FromEntry(b, q, p[0]);
        StaleWay(b, q, p, at, x);
      }
    } else {
      if !HadOnEvery(b, at, x) {
        var p :| FromEntry(b, p, at) && !Fresh(b, p, x);
        LastCall(b, p, x, |p| - 1);
        var q :| Lacks(b, q, p[|p| - 1], x);
        SettledLacks(b, prev, had, dirty, q, x);
      }
      if Stray(b, at, x) {
        var q :| Lacks(b, q, at, x);
        SettledLacks(b, prev, had, dirty, q, x);
      }
    }
  }

  /** So it is exact of a function with no call that control never comes to. The code does not
      look if there is one. */
  lemma HadExact(b: Body, prev: seq<seq<nat>>, had: seq<Regs>, dirty: seq<Regs>, at: nat, x: nat)
    requires b.Valid() && Fixpoint(b, prev, had, dirty) && at < |had| && x < 64
    requires forall k | 0 <= k < |b.calls| && b.calls[k] :: Reached(b, k)
    ensures x in had[at] <==> HadOnEvery(b, at, x)
  {
    HadIs(b, prev, had, dirty, at, x);
  }

  /** `dirty` is exactly what some way writes with no call after. */
  lemma DirtyIs(b: Body, prev: seq<seq<nat>>, had: seq<Regs>, dirty: seq<Regs>, at: nat, x: nat)
    requires b.Valid() && Fixpoint(b, prev, had, dirty) && at < |dirty|
    ensures x in dirty[at] <==> Dirty(b, at, x)
  {
    if Dirty(b, at, x) {
      var p :| WrittenBy(b, p, at, x);
      SettledDirty(b, prev, had, dirty, p, x);
    }
  }

  /** On some way from the entry `x` was written since the last call. */
  ghost predicate DirtyOnSome(b: Body, at: nat, x: nat)
    requires b.Valid()
  {
    exists p, i :: FromEntry(b, p, at) && FreshAt(b, p, x, i) && b.events[p[i]] == Store(x)
  }

  lemma DirtyFromEntry(b: Body, q: seq<nat>, p: seq<nat>, at: nat, x: nat)
    requires b.Valid() && WrittenBy(b, p, at, x) && FromEntry(b, q, p[0])
    ensures DirtyOnSome(b, at, x)
  {
    var r, k := q + p[1..], |q| - 1;
    assert forall i | 0 <= i < |p| :: r[k + i] == p[i];
    assert forall i | 0 <= i < |q| :: r[i] == q[i];
    forall i | 0 <= i < |r| - 1 ensures r[i + 1] in b.next[r[i]] {
      if i >= k { assert p[i - k + 1] in b.next[p[i - k]]; }
    }
    forall j | k <= j < |r| - 1 ensures !b.calls[r[j]] { assert r[j] == p[j - k]; }
    assert FromEntry(b, r, at) && FreshAt(b, r, x, k);
  }

  lemma EntryWrites(b: Body, p: seq<nat>, i: nat, at: nat, x: nat)
    requires b.Valid() && FromEntry(b, p, at) && FreshAt(b, p, x, i) && b.events[p[i]] == Store(x)
    ensures Dirty(b, at, x)
  {
    var q := p[i..];
    assert forall j | 0 <= j < |q| :: q[j] == p[i + j];
    assert WrittenBy(b, q, at, x);
  }

  /** And those ways are on from the entry. */
  lemma DirtyExact(b: Body, prev: seq<seq<nat>>, had: seq<Regs>, dirty: seq<Regs>, at: nat, x: nat)
    requires b.Valid() && Fixpoint(b, prev, had, dirty) && at < |dirty|
    ensures x in dirty[at] <==> DirtyOnSome(b, at, x)
  {
    DirtyIs(b, prev, had, dirty, at, x);
    hide Fixpoint, FreshAt;
    if DirtyOnSome(b, at, x) {
      var p, i :| FromEntry(b, p, at) && FreshAt(b, p, x, i) && b.events[p[i]] == Store(x);
      EntryWrites(b, p, i, at, x);
    }
    if Dirty(b, at, x) {
      var p :| WrittenBy(b, p, at, x);
      assert b.EventOk(p[0]) && Reached(b, p[0]);
      var q :| FromEntry(b, q, p[0]);
      DirtyFromEntry(b, q, p, at, x);
    }
  }

  lemma OneWay(next: seq<seq<nat>>, p: seq<nat>)
    requires next == [[1], [3], [3], []] && IsPath(next, p) && p[0] == 0 && p[|p| - 1] == 3
    ensures p == [0, 1, 3]
  {
    assert p[1] in next[0] && p[2] in next[1];
    forall i | 0 <= i < |p| - 1 ensures next[p[i]] != [] { assert p[i + 1] in next[p[i]]; }
  }

  function OverCall(): Body {
    Body([[1], [3], [3], []], [Load(0), Quiet, Quiet, Quiet], [false, false, true, false])
  }

  lemma OverCallOk()
    ensures OverCall().Valid()
  {
    assert FromEntry(OverCall(), [0], 0);
    assert OverCall().EventOk(0);
  }

  /** A function where the two are not the same: a jump goes over a call that nothing comes to,
      and what is read before the jump is still in its register after it. */
  lemma StrayCall(prev: seq<seq<nat>>, had: seq<Regs>, dirty: seq<Regs>)
    requires OverCall().Valid() && Fixpoint(OverCall(), prev, had, dirty)
    ensures HadOnEvery(OverCall(), 3, 0) && 0 !in had[3]
  {
    var b := OverCall();
    assert Lacks(b, [2, 3], 3, 0);
    SettledLacks(b, prev, had, dirty, [2, 3], 0);
    forall p | FromEntry(b, p, 3) ensures Fresh(b, p, 0) {
      OneWay(b.next, p);
      assert FreshAt(b, p, 0, 0);
    }
  }
}
