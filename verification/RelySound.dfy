/** What the liveness of `relies-of` means for a running function: registers that are
    not wanted do not matter, and the lines of the report are exactly the places where
    they can come to (cmd/relies.lisp:98-131, 241-291 against src/host/vp64.cpp:93-222). */
module RelySound {
  import opened Liveness
  import opened Options
  import opened Relies
  import opened Vp64

  // ----- a function -----

  datatype Func = Func(insts: seq<Inst>, inner: seq<bool>, gives: Regs) {
    ghost predicate Valid() {
      && |inner| == |insts| && General(gives)
      && (forall at | 0 <= at < |insts| :: WellFormed(insts[at]))
      && (forall at | 0 <= at < |insts| :: InRange(NextOf(insts, at), |insts|))
    }
  }

  function Falls(insts: seq<Inst>, at: nat): seq<nat> {
    if at + 1 < |insts| then [at + 1] else []
  }

  /** `next-of`, lib/asm/assembled.inc:57-69. */
  function NextOf(insts: seq<Inst>, at: nat): seq<nat>
    requires at < |insts|
  {
    match insts[at]
    case Jmp(to) => if to.Some? then [to.value] else []
    case BranchC(_, _, _, to) => Falls(insts, at) + if to.Some? then [to.value] else []
    case BranchR(_, _, _, to) => Falls(insts, at) + if to.Some? then [to.value] else []
    case i => if i.Leaves() then [] else Falls(insts, at)
  }

  function CodeOf(f: Func): (c: Code)
    requires f.Valid()
    ensures c.Valid()
  {
    Code(seq(|f.insts|, at requires 0 <= at < |f.insts| => FlowOf(f.insts[at])),
         seq(|f.insts|, at requires 0 <= at < |f.insts| => NextOf(f.insts, at)),
         seq(|f.insts|, at requires 0 <= at < |f.insts| => f.insts[at].Leaves()),
         f.inner, f.gives)
  }

  // ----- a machine running it -----

  datatype State = State(at: nat, regs: seq<int>, mem: Mem)

  /** What comes of a step: on in the function, left it for somewhere else, gone past what
      is seen of it, or not come back. */
  datatype Outcome =
    | On(state: State)
    | Left(goto: int, regs: seq<int>, mem: Mem)
    | Past(regs: seq<int>, mem: Mem)
    | Gone

  /** What a method may go by: memory, the stack pointer, and the registers it takes. */
  datatype View = View(mem: Mem, rsp: int, taken: map<nat, int>)

  /** The world a function runs in. What a method called does to memory, and what it gives,
      may be anything at all, other each time, but goes by what it may see. */
  datatype World = World(mem: (nat, nat, View) -> Mem, give: (nat, nat, View, nat) -> int)

  function Taken(regs: seq<int>, on: Regs): map<nat, int>
    requires |regs| == 16
  {
    map r | r in on && r < 15 :: regs[r]
  }

  /** What a call hands over: what the method takes, and the register its table is found by. */
  function Handed(i: Inst, called: Called): Regs
    requires i.Call? || i.JmpOut?
  {
    BitsOf(i.base) + called.takes
  }

  /** A call that does as its method is declared to. What it trashes and does not give may be
      left as anything. */
  ghost predicate Behaves(w: World, time: nat, at: nat, i: Inst, called: Called,
                          regs: seq<int>, mem: Mem, after: seq<int>, mem': Mem)
    requires |regs| == 16 && (i.Call? || i.JmpOut?)
  {
    var view := View(mem, regs[RSP], Taken(regs, Handed(i, called)));
    && mem' == w.mem(time, at, view)
    && |after| == 16 && after[RSP] == regs[RSP]
    && (forall r | 0 <= r < 15 && r in called.gives :: after[r] == w.give(time, at, view, r))
    && (forall r | 0 <= r < 15 && r !in called.gives && r !in called.trashes :: after[r] == regs[r])
  }

  function Arrive(f: Func, to: Option<nat>, regs: seq<int>, mem: Mem): Outcome {
    if to.Some? && to.value < |f.insts| then On(State(to.value, regs, mem)) else Past(regs, mem)
  }

  predicate Comes(f: Func, s: State) {
    s.at < |f.insts| && |s.regs| == 16
  }

  /** What comes of an instruction that is not a call. */
  function Own(f: Func, i: Inst, s: State): Outcome
    requires WellFormed(i) && |s.regs| == 16
  {
    var (regs, mem) := Exec(i, s.regs, s.mem);
    match i
    case Ret => Left(Peek(s.mem, s.regs[RSP], 8), regs, mem)
    case JmpR(d) => Left(s.regs[d], regs, mem)
    case _ => Arrive(f, Goes(i, s.at, s.regs), regs, mem)
  }

  /** A method that is jumped to comes back for the function: its return takes the address off. */
  function Returned(regs: seq<int>): seq<int>
    requires |regs| == 16
  {
    regs[RSP := Wrap(regs[RSP] + 8)]
  }

  /** One step of the machine. */
  ghost predicate Step(f: Func, w: World, time: nat, s: State, o: Outcome)
    requires f.Valid() && Comes(f, s)
  {
    var i := f.insts[s.at];
    match i
    case Call(_, _, Some(called)) =>
      if called.name == "sys/pii/exit" then o == Gone else
      exists after, mem' :: Behaves(w, time, s.at, i, called, s.regs, s.mem, after, mem')
                            && o == Arrive(f, Some(s.at + 1), after, mem')
    case JmpOut(_, _, Some(called)) =>
      if called.name == "sys/pii/exit" then o == Gone else
      exists after, mem' :: Behaves(w, time, s.at, i, called, s.regs, s.mem, after, mem') && |after| == 16
                            && o == Left(Peek(mem', s.regs[RSP], 8), Returned(after), mem')
    case _ => o == Own(f, i, s)
  }

  // ----- agreeing -----

  /** Two sets of registers with the same stack pointer and the same in each of `on`. */
  ghost predicate Agree(on: Regs, a: seq<int>, b: seq<int>) {
    && |a| == |b| == 16 && a[RSP] == b[RSP]
    && forall r: nat | r < 15 && r in on :: a[r] == b[r]
  }

  ghost predicate Alike(live: seq<Regs>, s: State, t: State)
    requires s.at < |live|
  {
    s.at == t.at && s.mem == t.mem && Agree(live[s.at], s.regs, t.regs)
  }

  /** The same came of two steps, as far as anything after can tell. */
  ghost predicate Same(f: Func, live: seq<Regs>, at: nat, o: Outcome, p: Outcome)
    requires at < |f.insts| == |live| == |f.inner|
  {
    match (o, p)
    case (On(s), On(t)) => s.at < |live| && Alike(live, s, t)
    case (Left(a, r, m), Left(b, q, n)) => a == b && m == n && (!f.inner[at] ==> Agree(f.gives, r, q))
    case (Past(_, m), Past(_, n)) => m == n
    case (Gone, Gone) => true
    case _ => false
  }

  /** What it is wrong to go by over the instruction at `at`: the registers wanted after it
      that are left as they may be. */
  function Loose(f: Func, live: seq<Regs>, at: nat): Regs
    requires f.Valid() && at < |f.insts| == |live|
  {
    var after := After(CodeOf(f), live, at);
    match f.insts[at]
    case Call(_, _, Some(called)) => if called.name == "sys/pii/exit" then {} else after * called.trashes - called.gives
    case JmpOut(_, _, Some(called)) => if called.name == "sys/pii/exit" then {} else after * called.trashes - called.gives
    case Trash(rs) => after * BitsOf(rs)
    case _ => {}
  }

  /** An instruction that can be followed: not a call of what is not declared, and not one of
      a part of the function itself. */
  predicate Followed(i: Inst) {
    match i
    case Call(_, _, called) => called.Some?
    case JmpOut(_, _, called) => called.Some?
    case CallR(_) => false
    case CallLocal(_) => false
    case _ => true
  }

  // ----- `flow-of` against the machine -----

  lemma {:induction false} BitwiseSelf(x: int, n: nat)
    ensures Bitwise(Xor, x, x, n) == 0
    decreases n
  {
    if n == 0 {
    } else {
      BitwiseSelf(x / 2, n - 1);
    }
  }

  /** A register taken from itself, or xor with itself, is made 0 whatever it was. */
  lemma SelfIsZero(op: Op, x: int)
    requires op.Xor? || op.Sub?
    ensures Alu(op, x, x) == 0
  {
    BitwiseSelf(x, 64);
  }

  lemma {:induction false} PushedAgrees(rs: seq<nat>, n: nat, a: seq<int>, b: seq<int>, mem: Mem)
    requires n <= |rs| && AreRegs(rs) && Agree(BitsOf(rs), a, b)
    ensures Pushed(rs, n, a, mem) == Pushed(rs, n, b, mem)
    decreases n
  {
    hide Poke, Wrap, AddressOf, BitsOf;
    if n == 0 {
    } else {
      assert rs[n - 1] in rs;
      assert a[rs[n - 1]] == b[rs[n - 1]];
      PushedAgrees(rs, n - 1, a, b, Poke(mem, AddressOf(a[RSP] + 8 * (|rs| - n)), 8, a[rs[n - 1]]));
    }
  }

  lemma {:induction false} PoppedAgrees(rs: seq<nat>, n: nat, a: seq<int>, b: seq<int>, mem: Mem,
                                        same: Regs, after: Regs)
    requires n <= |rs| && AreRegs(rs) && Agree(same, a, b)
    requires forall r | r in after && r < 15 :: r in same || r in rs[..n]
    ensures Agree(after, Popped(rs, n, a, mem), Popped(rs, n, b, mem))
    decreases n
  {
    hide Fetch, Wrap, AddressOf;
    if n == 0 {
    } else {
      var r := rs[n - 1];
      var v := Fetch(mem, AddressOf(a[RSP] + 8 * (|rs| - n)), Width(8, true));
      assert rs[..n] == rs[..n - 1] + [r];
      PoppedAgrees(rs, n - 1, a[r := v], b[r := v], mem, same + BitOf(r), after);
    }
  }

  predicate Plain(i: Inst) {
    !i.Call? && !i.JmpOut? && !i.CallLocal? && !i.CallR? && !i.Trash?
  }

  predicate Arithmetic(i: Inst) {
    i.AluCR? || i.Swp? || i.Lnot? || i.Land? || i.Cpy? || i.Ext? || i.Abs? || i.CpyC? || i.Div?
  }

  ghost predicate ComesOutTheSame(i: Inst, a: seq<int>, b: seq<int>, mem: Mem, after: Regs)
    requires WellFormed(i) && |a| == |b| == 16
  {
    Exec(i, a, mem).1 == Exec(i, b, mem).1 && Agree(after, Exec(i, a, mem).0, Exec(i, b, mem).0)
  }

  lemma AluAgrees(i: Inst, a: seq<int>, b: seq<int>, mem: Mem, after: Regs)
    requires WellFormed(i) && i.AluRR?
    requires Agree(FlowOf(i).read + (after - FlowOf(i).written), a, b)
    ensures ComesOutTheSame(i, a, b, mem, after)
  {
    var (op, s, d) := (i.op, i.s, i.d);
    if (op.Xor? || op.Sub?) && BitOf(s) == BitOf(d) {
      assert s == d by { if s < 15 { assert s in BitOf(d); } }
      SelfIsZero(op, a[d]);
      SelfIsZero(op, b[d]);
    }
  }

  lemma CopyAgrees(i: Inst, a: seq<int>, b: seq<int>, mem: Mem, after: Regs)
    requires WellFormed(i) && (i.AluCR? || i.Cpy? || i.CpyC? || i.Ext? || i.Abs?)
    requires Agree(FlowOf(i).read + (after - FlowOf(i).written), a, b)
    ensures ComesOutTheSame(i, a, b, mem, after)
  {
    hide Alu, Divide, Wrap, Fetch, Poke;
  }

  lemma LogicAgrees(i: Inst, a: seq<int>, b: seq<int>, mem: Mem, after: Regs)
    requires WellFormed(i) && (i.Lnot? || i.Land? || i.Swp?)
    requires Agree(FlowOf(i).read + (after - FlowOf(i).written), a, b)
    ensures ComesOutTheSame(i, a, b, mem, after)
  {
    hide Alu, Divide, Wrap, Fetch, Poke;
  }

  lemma DivAgrees(i: Inst, a: seq<int>, b: seq<int>, mem: Mem, after: Regs)
    requires WellFormed(i) && (i.Div?)
    requires Agree(FlowOf(i).read + (after - FlowOf(i).written), a, b)
    ensures ComesOutTheSame(i, a, b, mem, after)
  {
    hide Alu, Divide, Wrap, Fetch, Poke;
  }

  lemma ArithmeticAgrees(i: Inst, a: seq<int>, b: seq<int>, mem: Mem, after: Regs)
    requires WellFormed(i) && (Arithmetic(i))
    requires Agree(FlowOf(i).read + (after - FlowOf(i).written), a, b)
    ensures ComesOutTheSame(i, a, b, mem, after)
  {
    hide Exec, FlowOf, Agree, ComesOutTheSame;
    if i.Div? { DivAgrees(i, a, b, mem, after); }
    else if i.Lnot? || i.Land? || i.Swp? { LogicAgrees(i, a, b, mem, after); }
    else { CopyAgrees(i, a, b, mem, after); }
  }

  lemma PushAgrees(i: Inst, a: seq<int>, b: seq<int>, mem: Mem, after: Regs)
    requires WellFormed(i) && i.Push?
    requires Agree(FlowOf(i).read + (after - FlowOf(i).written), a, b)
    ensures ComesOutTheSame(i, a, b, mem, after)
  {
    hide Wrap, Pushed, BitsOf;
    PushedAgrees(i.rs, |i.rs|, a[RSP := Wrap(a[RSP] - 8 * |i.rs|)], b[RSP := Wrap(b[RSP] - 8 * |i.rs|)], mem);
  }

  lemma PopAgrees(i: Inst, a: seq<int>, b: seq<int>, mem: Mem, after: Regs)
    requires WellFormed(i) && i.Pop?
    requires Agree(FlowOf(i).read + (after - FlowOf(i).written), a, b)
    ensures ComesOutTheSame(i, a, b, mem, after)
  {
    hide Wrap, Popped, BitsOf;
    assert i.rs[..|i.rs|] == i.rs;
    PoppedAgrees(i.rs, |i.rs|, a, b, mem, after - FlowOf(i).written, after);
  }

  lemma StackInitAgrees(i: Inst, a: seq<int>, b: seq<int>, mem: Mem, after: Regs)
    requires WellFormed(i) && i.StackInit?
    requires Agree(FlowOf(i).read + after, a, b)
    ensures ComesOutTheSame(i, a, b, mem, after)
  {
    hide Wrap, Poke, AddressOf;
    assert i.s in [i.s, i.f, i.x] && i.f in [i.s, i.f, i.x] && i.x in [i.s, i.f, i.x];
    assert a[i.s] == b[i.s] && a[i.f] == b[i.f] && a[i.x] == b[i.x];
  }

  lemma LoadAgrees(i: Inst, a: seq<int>, b: seq<int>, mem: Mem, after: Regs)
    requires WellFormed(i) && (i.Load? || i.LoadD? || i.LoadP?)
    requires Agree(FlowOf(i).read + (after - FlowOf(i).written), a, b)
    ensures ComesOutTheSame(i, a, b, mem, after)
  {
    hide Alu, Divide, Wrap, Fetch, Poke;
  }

  lemma LeaAgrees(i: Inst, a: seq<int>, b: seq<int>, mem: Mem, after: Regs)
    requires WellFormed(i) && (i.LeaI? || i.LeaD? || i.LeaP?)
    requires Agree(FlowOf(i).read + (after - FlowOf(i).written), a, b)
    ensures ComesOutTheSame(i, a, b, mem, after)
  {
    hide Alu, Divide, Wrap, Fetch, Poke;
  }

  lemma StoreAgrees(i: Inst, a: seq<int>, b: seq<int>, mem: Mem, after: Regs)
    requires WellFormed(i) && (i.Store? || i.StoreD?)
    requires Agree(FlowOf(i).read + (after - FlowOf(i).written), a, b)
    ensures ComesOutTheSame(i, a, b, mem, after)
  {
    hide Alu, Divide, Wrap, Fetch, Poke;
  }

  lemma RestAgrees(i: Inst, a: seq<int>, b: seq<int>, mem: Mem, after: Regs)
    requires WellFormed(i) && (i.Nothing? || i.BranchC? || i.BranchR? || i.Alloc? || i.Free? || i.Jmp? || i.Ret? || i.JmpR?)
    requires Agree(FlowOf(i).read + (after - FlowOf(i).written), a, b)
    ensures ComesOutTheSame(i, a, b, mem, after)
  {
    hide Alu, Divide, Wrap, Fetch, Poke;
  }

  lemma MemoryAgrees(i: Inst, a: seq<int>, b: seq<int>, mem: Mem, after: Regs)
    requires WellFormed(i) && Plain(i) && !i.AluRR? && !Arithmetic(i) && !i.Push? && !i.Pop? && !i.StackInit?
    requires Agree(FlowOf(i).read + (after - FlowOf(i).written), a, b)
    ensures ComesOutTheSame(i, a, b, mem, after)
  {
    hide Exec, FlowOf, Agree, ComesOutTheSame;
    if i.Load? || i.LoadD? || i.LoadP? { LoadAgrees(i, a, b, mem, after); }
    else if i.LeaI? || i.LeaD? || i.LeaP? { LeaAgrees(i, a, b, mem, after); }
    else if i.Store? || i.StoreD? { StoreAgrees(i, a, b, mem, after); }
    else { RestAgrees(i, a, b, mem, after); }
  }

  /** The machine goes by no register `flow-of` does not say is read, and those it says are
      written come out the same whatever they were. */
  lemma ExecAgrees(i: Inst, at: nat, a: seq<int>, b: seq<int>, mem: Mem, after: Regs)
    requires WellFormed(i) && Plain(i)
    requires Agree(FlowOf(i).read + (after - FlowOf(i).written), a, b)
    ensures ComesOutTheSame(i, a, b, mem, after)
    ensures Goes(i, at, a) == Goes(i, at, b)
  {
    if i.AluRR? { AluAgrees(i, a, b, mem, after); }
    else if Arithmetic(i) { ArithmeticAgrees(i, a, b, mem, after); }
    else if i.Push? { PushAgrees(i, a, b, mem, after); }
    else if i.Pop? { PopAgrees(i, a, b, mem, after); }
    else if i.StackInit? { StackInitAgrees(i, a, b, mem, after); }
    else { MemoryAgrees(i, a, b, mem, after); }
  }

  // ----- a step, and a run -----

  lemma LiveBefore(f: Func, live: seq<Regs>, at: nat)
    requires f.Valid() && Solved(CodeOf(f), live) && at < |f.insts|
    ensures |live| == |f.insts|
    ensures live[at] == FlowOf(f.insts[at]).read + (After(CodeOf(f), live, at) - FlowOf(f.insts[at]).written)
  {
  }

  /** Coming to the same place with registers that agree on what is wanted. */
  lemma ArrivesTheSame(f: Func, live: seq<Regs>, at: nat, to: Option<nat>,
                       a: seq<int>, b: seq<int>, mem: Mem)
    requires f.Valid() && at < |f.insts| == |live|
    requires Agree(After(CodeOf(f), live, at), a, b)
    requires to.Some? && to.value < |live| ==> to.value in NextOf(f.insts, at)
    ensures Same(f, live, at, Arrive(f, to, a, mem), Arrive(f, to, b, mem))
  {
  }

  lemma PlainStepAgrees(f: Func, live: seq<Regs>, s: State, t: State, after: Regs)
    requires f.Valid() && Comes(f, s) && Comes(f, t) && |live| == |f.insts|
    requires Plain(f.insts[s.at]) && !f.insts[s.at].Leaves()
    requires s.at == t.at && s.mem == t.mem && after == After(CodeOf(f), live, s.at)
    requires Agree(FlowOf(f.insts[s.at]).read + (after - FlowOf(f.insts[s.at]).written), s.regs, t.regs)
    ensures var (a, m) := Exec(f.insts[s.at], s.regs, s.mem);
            var (b, n) := Exec(f.insts[t.at], t.regs, t.mem);
            Same(f, live, s.at, Arrive(f, Goes(f.insts[s.at], s.at, s.regs), a, m),
                                Arrive(f, Goes(f.insts[t.at], t.at, t.regs), b, n))
  {
    var i := f.insts[s.at];
    ExecAgrees(i, s.at, s.regs, t.regs, s.mem, after);
    var to := Goes(i, s.at, s.regs);
    assert InRange(NextOf(f.insts, s.at), |f.insts|);
    ArrivesTheSame(f, live, s.at, to, Exec(i, s.regs, s.mem).0, Exec(i, t.regs, t.mem).0, Exec(i, s.regs, s.mem).1);
  }

  /** Two calls from states a method can not tell apart give the same, and leave alone the same. */
  lemma CallAgrees(w: World, time: nat, at: nat, i: Inst, called: Called, a: seq<int>, b: seq<int>, mem: Mem,
                   a': seq<int>, m: Mem, b': seq<int>, n: Mem, after: Regs)
    requires WellFormed(i) && (i.Call? || i.JmpOut?) && i.called == Some(called)
    requires Agree(FlowOf(i).read + (after - FlowOf(i).written), a, b)
    requires Behaves(w, time, at, i, called, a, mem, a', m) && Behaves(w, time, at, i, called, b, mem, b', n)
    requires after * called.trashes - called.gives == {}
    ensures m == n && Agree(after, a', b')
  {
    assert Taken(a, Handed(i, called)) == Taken(b, Handed(i, called));
    forall r: nat | r < 15 && r in after ensures a'[r] == b'[r] {
      if r !in called.gives {
        assert r in after * called.trashes - called.gives <==> r in called.trashes;
      }
    }
  }

  /** What every lemma of a step is given. */
  ghost predicate Paired(f: Func, live: seq<Regs>, s: State, t: State) {
    && f.Valid() && Solved(CodeOf(f), live) && Comes(f, s) && Comes(f, t) && Alike(live, s, t)
    && Followed(f.insts[s.at])
  }

  lemma GoneSame(f: Func, live: seq<Regs>, at: nat)
    requires at < |f.insts| == |live| == |f.inner|
    ensures Same(f, live, at, Gone, Gone)
  {
  }

  lemma CallStepAgrees(f: Func, live: seq<Regs>, w: World, time: nat, s: State, t: State, o: Outcome, p: Outcome)
    requires Paired(f, live, s, t) && Loose(f, live, s.at) == {} && f.insts[s.at].Call?
    requires Step(f, w, time, s, o) && Step(f, w, time, t, p)
    ensures Same(f, live, s.at, o, p)
  {
    hide Behaves, After, Solved, FlowOf, Agree, Arrive, Same, Own;
    var i := f.insts[s.at];
    var called := i.called.value;
    LiveBefore(f, live, s.at);
    if called.name != "sys/pii/exit" {
      var a, m :| Behaves(w, time, s.at, i, called, s.regs, s.mem, a, m) && o == Arrive(f, Some(s.at + 1), a, m);
      var b, n :| Behaves(w, time, t.at, i, called, t.regs, t.mem, b, n) && p == Arrive(f, Some(t.at + 1), b, n);
      CallAgrees(w, time, s.at, i, called, s.regs, t.regs, s.mem, a, m, b, n, After(CodeOf(f), live, s.at));
      ArrivesTheSame(f, live, s.at, Some(s.at + 1), a, b, m);
    } else {
      GoneSame(f, live, s.at);
    }
  }

  lemma SamePointer(live: seq<Regs>, s: State, t: State)
    requires s.at < |live| && Alike(live, s, t)
    ensures |s.regs| == |t.regs| == 16 && s.regs[RSP] == t.regs[RSP]
  {
  }

  lemma LeftSame(f: Func, live: seq<Regs>, at: nat, goto: int, a: seq<int>, b: seq<int>, mem: Mem)
    requires f.Valid() && at < |f.insts| == |live| && f.insts[at].JmpOut?
    requires Agree(After(CodeOf(f), live, at), a, b)
    ensures |a| == |b| == 16
    ensures Same(f, live, at, Left(goto, Returned(a), mem), Left(goto, Returned(b), mem))
  {
    assert CodeOf(f).leaves[at];
  }

  lemma JmpOutStepAgrees(f: Func, live: seq<Regs>, w: World, time: nat, s: State, t: State, o: Outcome, p: Outcome)
    requires Paired(f, live, s, t) && Loose(f, live, s.at) == {} && f.insts[s.at].JmpOut?
    requires Step(f, w, time, s, o) && Step(f, w, time, t, p)
    ensures Same(f, live, s.at, o, p)
  {
    hide Behaves, After, Solved, FlowOf, Agree, Same, Own, Returned, Peek;
    var i := f.insts[s.at];
    var called := i.called.value;
    LiveBefore(f, live, s.at);
    if called.name != "sys/pii/exit" {
      var a, m :| Behaves(w, time, s.at, i, called, s.regs, s.mem, a, m) && |a| == 16
                  && o == Left(Peek(m, s.regs[RSP], 8), Returned(a), m);
      var b, n :| Behaves(w, time, t.at, i, called, t.regs, t.mem, b, n) && |b| == 16
                  && p == Left(Peek(n, t.regs[RSP], 8), Returned(b), n);
      CallAgrees(w, time, s.at, i, called, s.regs, t.regs, s.mem, a, m, b, n, After(CodeOf(f), live, s.at));
      SamePointer(live, s, t);
      LeftSame(f, live, s.at, Peek(m, s.regs[RSP], 8), a, b, m);
    } else {
      GoneSame(f, live, s.at);
    }
  }

  lemma OwnCame(f: Func, w: World, time: nat, s: State, o: Outcome)
    requires f.Valid() && Comes(f, s) && !f.insts[s.at].Call? && !f.insts[s.at].JmpOut? && Step(f, w, time, s, o)
    ensures o == Own(f, f.insts[s.at], s)
  {
    hide Own;
  }

  lemma TrashStepAgrees(f: Func, live: seq<Regs>, s: State, t: State)
    requires Paired(f, live, s, t) && Loose(f, live, s.at) == {} && f.insts[s.at].Trash?
    ensures Same(f, live, s.at, Arrive(f, Some(s.at + 1), s.regs, s.mem), Arrive(f, Some(t.at + 1), t.regs, t.mem))
  {
    var i, after := f.insts[s.at], After(CodeOf(f), live, s.at);
    LiveBefore(f, live, s.at);
    hide Solved, CodeOf, After, Same, Arrive;
    assert FlowOf(i) == Flow({}, BitsOf(i.rs));
    assert after * BitsOf(i.rs) == {};
    assert Agree(after, s.regs, t.regs);
    ArrivesTheSame(f, live, s.at, Some(s.at + 1), s.regs, t.regs, s.mem);
  }

  lemma OwnStepAgrees(f: Func, live: seq<Regs>, w: World, time: nat, s: State, t: State, o: Outcome, p: Outcome)
    requires Paired(f, live, s, t) && Loose(f, live, s.at) == {} && !f.insts[s.at].Call? && !f.insts[s.at].JmpOut?
    requires !f.insts[s.at].Leaves()
    requires Step(f, w, time, s, o) && Step(f, w, time, t, p)
    ensures Same(f, live, s.at, o, p)
  {
    var i := f.insts[s.at];
    assert WellFormed(i);
    OwnCame(f, w, time, s, o);
    OwnCame(f, w, time, t, p);
    LiveBefore(f, live, s.at);
    hide Step, Exec, FlowOf, Solved, CodeOf, After, Same, Arrive, Own, Loose, Goes;
    if i.Trash? {
      TrashStepAgrees(f, live, s, t);
    } else {
      PlainStepAgrees(f, live, s, t, After(CodeOf(f), live, s.at));
    }
  }

  /** One step keeps two machines alike, if nothing loose is wanted after it. */
  lemma StepAgrees(f: Func, live: seq<Regs>, w: World, time: nat, s: State, t: State, o: Outcome, p: Outcome)
    requires Paired(f, live, s, t) && Loose(f, live, s.at) == {}
    requires Step(f, w, time, s, o) && Step(f, w, time, t, p)
    ensures Same(f, live, s.at, o, p)
  {
    var i := f.insts[s.at];
    if i.Call? { CallStepAgrees(f, live, w, time, s, t, o, p); }
    else if i.JmpOut? { JmpOutStepAgrees(f, live, w, time, s, t, o, p); }
    else if !i.Leaves() { OwnStepAgrees(f, live, w, time, s, t, o, p); }
  }

  /** Any two steps from states that agree on what is wanted come to the same. */
  ghost predicate Keeps(f: Func, live: seq<Regs>, at: nat)
    requires f.Valid() && Solved(CodeOf(f), live)
  {
    forall w: World, time: nat, s: State, t: State, o: Outcome, p: Outcome
      | Paired(f, live, s, t) && s.at == at && Step(f, w, time, s, o) && Step(f, w, time, t, p)
      :: Same(f, live, at, o, p)
  }

  function Zeros(): seq<int> {
    seq(16, _ => 0)
  }

  function Still(): World {
    World((_, _, _) => map[], (_, _, _, _) => 0)
  }

  /** What is wanted after an instruction that goes on to the next is live there. */
  lemma WantedOn(f: Func, live: seq<Regs>, at: nat, r: nat)
    requires f.Valid() && Solved(CodeOf(f), live) && at < |f.insts|
    requires CodeOf(f).next[at] == [at + 1] && !f.insts[at].Leaves() && r in After(CodeOf(f), live, at)
    ensures at + 1 < |live| == |f.insts| && r in live[at + 1]
  {
  }

  lemma NotKept(f: Func, live: seq<Regs>, w: World, time: nat, s: State, t: State, o: Outcome, p: Outcome)
    requires Paired(f, live, s, t) && Step(f, w, time, s, o) && Step(f, w, time, t, p) && !Same(f, live, s.at, o, p)
    ensures !Keeps(f, live, s.at)
  {
    hide Paired, Step, Same, Solved;
  }

  /** A call of what gives nothing may leave what it trashes as it was, or not. */
  lemma CallEither(f: Func, at: nat, r: nat)
    requires f.Valid() && at + 1 < |f.insts| && f.insts[at].Call? && f.insts[at].called.Some? && r < 15
    requires var called := f.insts[at].called.value;
             called.name != "sys/pii/exit" && r in called.trashes && r !in called.gives
    ensures var s := State(at, Zeros(), map[]);
            && Step(f, Still(), 0, s, On(State(at + 1, Zeros(), map[])))
            && Step(f, Still(), 0, s, On(State(at + 1, Zeros()[r := 1], map[])))
  {
    var i, s := f.insts[at], State(at, Zeros(), map[]);
    var called := i.called.value;
    assert Behaves(Still(), 0, at, i, called, s.regs, s.mem, Zeros(), map[]);
    assert Behaves(Still(), 0, at, i, called, s.regs, s.mem, Zeros()[r := 1], map[]);
    hide Behaves, FlowOf, Zeros;
    assert On(State(at + 1, Zeros(), map[])) == Arrive(f, Some(at + 1), Zeros(), map[]);
    assert On(State(at + 1, Zeros()[r := 1], map[])) == Arrive(f, Some(at + 1), Zeros()[r := 1], map[]);
  }

  lemma CallIsLoose(f: Func, live: seq<Regs>, at: nat, r: nat)
    requires f.Valid() && Solved(CodeOf(f), live) && at < |f.insts| && f.insts[at].Call?
    requires Followed(f.insts[at]) && r in Loose(f, live, at)
    ensures var called := f.insts[at].called.value;
            called.name != "sys/pii/exit" && r in called.trashes && r !in called.gives && r < 15
    ensures at + 1 < |live| == |f.insts| && r in live[at + 1]
  {
    var called := f.insts[at].called.value;
    assert CodeOf(f).next[at] == [at + 1];
    assert WellFormed(f.insts[at]) && Declared(called) && r in called.trashes;
    WantedOn(f, live, at, r);
  }

  lemma LooseCall(f: Func, live: seq<Regs>, at: nat, r: nat)
    requires f.Valid() && Solved(CodeOf(f), live) && at < |f.insts| && f.insts[at].Call?
    requires Followed(f.insts[at]) && r in Loose(f, live, at)
    ensures !Keeps(f, live, at)
  {
    hide Solved, CodeOf, After, FlowOf, Step, Keeps, Loose, NextOf;
    CallIsLoose(f, live, at, r);
    CallEither(f, at, r);
    var s := State(at, Zeros(), map[]);
    var o, p := On(State(at + 1, Zeros(), map[])), On(State(at + 1, Zeros()[r := 1], map[]));
    assert Paired(f, live, s, s);
    assert !Same(f, live, at, o, p) by { assert o.state.regs[r] != p.state.regs[r] && r in live[at + 1]; }
    NotKept(f, live, Still(), 0, s, s, o, p);
  }

  /** So may a jump to it. */
  lemma JmpOutEither(f: Func, at: nat, r: nat)
    requires f.Valid() && at < |f.insts| && f.insts[at].JmpOut? && f.insts[at].called.Some? && r < 15
    requires var called := f.insts[at].called.value;
             called.name != "sys/pii/exit" && r in called.trashes && r !in called.gives
    ensures var s, goto := State(at, Zeros(), map[]), Peek(map[], 0, 8);
            && Step(f, Still(), 0, s, Left(goto, Returned(Zeros()), map[]))
            && Step(f, Still(), 0, s, Left(goto, Returned(Zeros()[r := 1]), map[]))
  {
    var i, s := f.insts[at], State(at, Zeros(), map[]);
    var called := i.called.value;
    assert Behaves(Still(), 0, at, i, called, s.regs, s.mem, Zeros(), map[]);
    assert Behaves(Still(), 0, at, i, called, s.regs, s.mem, Zeros()[r := 1], map[]);
    hide Behaves, FlowOf, Peek, Returned;
  }

  lemma JmpOutIsLoose(f: Func, live: seq<Regs>, at: nat, r: nat)
    requires f.Valid() && Solved(CodeOf(f), live) && at < |f.insts| && f.insts[at].JmpOut?
    requires Followed(f.insts[at]) && r in Loose(f, live, at)
    ensures var called := f.insts[at].called.value;
            called.name != "sys/pii/exit" && r in called.trashes && r !in called.gives && r < 15
    ensures |live| == |f.insts| == |f.inner| && !f.inner[at] && r in f.gives
  {
    var called := f.insts[at].called.value;
    assert CodeOf(f).leaves[at];
    assert WellFormed(f.insts[at]) && Declared(called) && r in called.trashes;
  }

  lemma LooseJmpOut(f: Func, live: seq<Regs>, at: nat, r: nat)
    requires f.Valid() && Solved(CodeOf(f), live) && at < |f.insts| && f.insts[at].JmpOut?
    requires Followed(f.insts[at]) && r in Loose(f, live, at)
    ensures !Keeps(f, live, at)
  {
    hide Solved, CodeOf, After, FlowOf, Step, Keeps, Loose, NextOf, Peek;
    JmpOutIsLoose(f, live, at, r);
    JmpOutEither(f, at, r);
    var s, goto := State(at, Zeros(), map[]), Peek(map[], 0, 8);
    var o, p := Left(goto, Returned(Zeros()), map[]), Left(goto, Returned(Zeros()[r := 1]), map[]);
    assert Paired(f, live, s, s);
    assert !Same(f, live, at, o, p) by { assert o.regs[r] != p.regs[r] && r in f.gives; }
    NotKept(f, live, Still(), 0, s, s, o, p);
  }

  lemma LooseTrash(f: Func, live: seq<Regs>, at: nat, r: nat)
    requires f.Valid() && Solved(CodeOf(f), live) && at < |f.insts| && f.insts[at].Trash?
    requires r in Loose(f, live, at)
    ensures !Keeps(f, live, at)
  {
    LiveBefore(f, live, at);
    assert CodeOf(f).next[at] == [at + 1];
    assert FlowOf(f.insts[at]) == Flow({}, BitsOf(f.insts[at].rs));
    WantedOn(f, live, at, r);
    hide Solved, CodeOf, After, Exec;
    var s, t := State(at, Zeros(), map[]), State(at, Zeros()[r := 1], map[]);
    var o, p := On(s.(at := at + 1)), On(t.(at := at + 1));
    assert Paired(f, live, s, t) && Step(f, Still(), 0, s, o) && Step(f, Still(), 0, t, p);
    assert !Same(f, live, at, o, p) by { assert o.state.regs[r] != p.state.regs[r] && r in live[at + 1]; }
  }

  /** Dead registers do not matter over an instruction exactly when nothing it leaves loose
      is wanted after it. */
  lemma KeepsIff(f: Func, live: seq<Regs>, at: nat)
    requires f.Valid() && Solved(CodeOf(f), live) && at < |f.insts| && Followed(f.insts[at])
    ensures Keeps(f, live, at) <==> Loose(f, live, at) == {}
  {
    if Loose(f, live, at) != {} {
      var r :| r in Loose(f, live, at);
      if f.insts[at].Call? { LooseCall(f, live, at, r); }
      else if f.insts[at].JmpOut? { LooseJmpOut(f, live, at, r); }
      else { LooseTrash(f, live, at, r); }
    } else {
      forall w: World, time: nat, s: State, t: State, o: Outcome, p: Outcome
        | Paired(f, live, s, t) && s.at == at && Step(f, w, time, s, o) && Step(f, w, time, t, p)
        ensures Same(f, live, at, o, p)
      {
        StepAgrees(f, live, w, time, s, t, o, p);
      }
    }
  }

  // ----- whole runs -----

  ghost predicate StepOn(f: Func, w: World, run: seq<State>, i: nat)
    requires f.Valid() && i + 1 < |run| && Comes(f, run[i])
  {
    Step(f, w, i, run[i], On(run[i + 1]))
  }

  ghost predicate IsRun(f: Func, w: World, run: seq<State>)
    requires f.Valid()
  {
    && |run| > 0 && (forall i | 0 <= i < |run| :: Comes(f, run[i]))
    && forall i | 0 <= i < |run| - 1 :: StepOn(f, w, run, i)
  }

  ghost predicate Tight(f: Func, live: seq<Regs>)
    requires f.Valid() && Solved(CodeOf(f), live)
  {
    forall at | 0 <= at < |f.insts| :: Followed(f.insts[at]) && Loose(f, live, at) == {}
  }

  /** Two runs of a function, in the same world, from states that agree on memory, the stack
      pointer and the registers wanted there, take the same way. */
  lemma {:induction false} SameWay(f: Func, live: seq<Regs>, w: World, a: seq<State>, b: seq<State>, n: nat)
    requires f.Valid() && Solved(CodeOf(f), live) && Tight(f, live)
    requires IsRun(f, w, a) && IsRun(f, w, b) && Alike(live, a[0], b[0])
    requires n < |a| && n < |b|
    ensures a[n].at < |live| && Alike(live, a[n], b[n])
    decreases n
  {
    hide Step, Solved, CodeOf, Loose, Behaves;
    if n > 0 {
      SameWay(f, live, w, a, b, n - 1);
      assert StepOn(f, w, a, n - 1) && StepOn(f, w, b, n - 1);
      StepAgrees(f, live, w, n - 1, a[n - 1], b[n - 1], On(a[n]), On(b[n]));
    } else {
      LiveBefore(f, live, a[0].at);
    }
  }

  /** And end the same: what one comes to the other does, and when they leave they agree on
      memory, on where to, and on every register the function gives. */
  lemma SameEnd(f: Func, live: seq<Regs>, w: World, a: seq<State>, b: seq<State>, o: Outcome, p: Outcome)
    requires f.Valid() && Solved(CodeOf(f), live) && Tight(f, live)
    requires IsRun(f, w, a) && IsRun(f, w, b) && Alike(live, a[0], b[0]) && |a| <= |b|
    requires Step(f, w, |a| - 1, a[|a| - 1], o) && Step(f, w, |b| - 1, b[|b| - 1], p) && !o.On?
    ensures |a| == |b| && Same(f, live, a[|a| - 1].at, o, p)
  {
    hide Step, Solved, CodeOf, Loose, Behaves;
    var n := |a| - 1;
    SameWay(f, live, w, a, b, n);
    if |a| < |b| {
      assert StepOn(f, w, b, n);
      StepAgrees(f, live, w, n, a[n], b[n], o, On(b[n + 1]));
      assert false;
    }
    StepAgrees(f, live, w, n, a[n], b[n], o, p);
  }

  // ----- what the report says of it -----

  function CallsOf(f: Func): (calls: seq<Option<Called>>)
    ensures |calls| == |f.insts|
  {
    seq(|f.insts|, at requires 0 <= at < |f.insts| =>
      if f.insts[at].Call? || f.insts[at].JmpOut? then f.insts[at].called else None)
  }

  ghost predicate ExactlyWanted(f: Func, live: seq<Regs>)
    requires f.Valid()
  {
    && Solved(CodeOf(f), live)
    && forall at, r | 0 <= at < |live| :: r in live[at] <==> Wanted(CodeOf(f), at, r)
  }

  /** A known call, not exempt, is in the report exactly when dead registers can come to matter
      over it. */
  lemma ReportedIff(f: Func, live: seq<Regs>, at: nat)
    requires f.Valid() && ExactlyWanted(f, live) && at < |f.insts|
    requires CallsOf(f)[at].Some? && !Exempt(CallsOf(f)[at].value.name)
    ensures Counted(CodeOf(f), CallsOf(f), at) != {} <==> !Keeps(f, live, at)
  {
    KeepsIff(f, live, at);
    AfterIsWanted(CodeOf(f), live, at);
    assert Counted(CodeOf(f), CallsOf(f), at) == Loose(f, live, at);
  }

  /** So with nothing reported, every call known, no walk that calls back, no part of itself
      called and nothing trashed that is wanted, `SameWay` and `SameEnd` hold of the function. */
  lemma NothingReported(f: Func, live: seq<Regs>)
    requires f.Valid() && ExactlyWanted(f, live)
    requires forall at | 0 <= at < |f.insts| :: Followed(f.insts[at])
    requires forall at | 0 <= at < |f.insts| :: Counted(CodeOf(f), CallsOf(f), at) == {}
    requires forall at | 0 <= at < |f.insts| && CallsOf(f)[at].Some? :: CallsOf(f)[at].value.name != "gui/view/forward_tree"
    requires forall at, r | 0 <= at < |f.insts| && f.insts[at].Trash? && r in BitsOf(f.insts[at].rs) ::
               !WantedAfter(CodeOf(f), at, r)
    ensures Tight(f, live)
  {
    forall at | 0 <= at < |f.insts| ensures Loose(f, live, at) == {} {
      AfterIsWanted(CodeOf(f), live, at);
      if CallsOf(f)[at].Some? && !Exempt(CallsOf(f)[at].value.name) {
        ReportedIff(f, live, at);
        KeepsIff(f, live, at);
      }
    }
  }

  /** `flow-of` has it that `emit-trash` writes its registers, and the assembler makes nothing
      of it: a register it names can be given without being wanted before. */
  lemma TrashWritesNothing()
    ensures var f := Func([Trash([0]), Ret], [false, false], {0});
            f.Valid() && Solved(CodeOf(f), [{}, {0}]) && !Keeps(f, [{}, {0}], 0)
  {
    var f := Func([Trash([0]), Ret], [false, false], {0});
    var live: seq<Regs> := [{}, {0}];
    assert AreRegs([0]);
    assert BitsOf([0]) == {0} by { assert 0 in [0]; }
    TrashSolved(f, live);
    hide Solved, FlowOf, Exec;
    assert NextOf(f.insts, 0) == [1];
    assert CodeOf(f).next[0] == [1] && !CodeOf(f).leaves[0];
    LooseTrash(f, live, 0, 0);
  }

  lemma TrashSolved(f: Func, live: seq<Regs>)
    requires f == Func([Trash([0]), Ret], [false, false], {0}) && live == [{}, {0}] && BitsOf([0]) == {0}
    ensures f.Valid() && Solved(CodeOf(f), live)
  {
    hide Exec;
    assert NextOf(f.insts, 0) == [1] && NextOf(f.insts, 1) == [];
    var c := CodeOf(f);
    assert c.next[0] == [1] && c.leaves[1] && !c.leaves[0];
    assert Before(c, live, 0) == {} && Before(c, live, 1) == {0};
  }

  // ----- the whole of `relies-of` -----

  /** Where an instruction calls a part of the function itself, or has the address of one. */
  function RootOf(i: Inst): Option<nat> {
    match i
    case CallLocal(to) => to
    case LeaP(_, _, to) => to
    case _ => None
  }

  function Nexts(insts: seq<Inst>): (next: seq<seq<nat>>)
    ensures |next| == |insts|
  {
    seq(|insts|, at requires 0 <= at < |insts| => NextOf(insts, at))
  }

  /** Got to, by some control path, from where such an instruction goes. */
  ghost predicate IsInner(insts: seq<Inst>, at: nat) {
    exists p, k :: InnerBy(insts, p, k, at)
  }

  ghost predicate InnerBy(insts: seq<Inst>, p: seq<nat>, k: nat, at: nat) {
    && IsPath(Nexts(insts), p) && p[|p| - 1] == at
    && k < |insts| && Names(insts[k], p[0])
  }

  /** A call of the part of the function that begins there, or an address of it taken. */
  predicate Names(i: Inst, at: nat) {
    i == CallLocal(Some(at)) || (i.LeaP? && i.to == Some(at))
  }

  /** The reduce that gathers them. */
  method RootsOf(insts: seq<Inst>) returns (roots: seq<nat>)
    ensures InRange(roots, |insts|)
    ensures forall r: nat :: r in roots <==> r < |insts| && exists k :: 0 <= k < |insts| && Names(insts[k], r)
  {
    roots := [];
    for at := 0 to |insts|
      invariant InRange(roots, |insts|)
      invariant forall r: nat :: r in roots <==> r < |insts| && exists k :: 0 <= k < at && Names(insts[k], r)
    {
      var to := RootOf(insts[at]);
      if to.Some? && to.value < |insts| { roots := roots + [to.value]; }
    }
  }

  /** A function, with what is part of a local subroutine or a callback marked. */
  method MarkInner(insts: seq<Inst>, gives: Regs) returns (f: Func)
    requires General(gives) && forall at | 0 <= at < |insts| :: WellFormed(insts[at])
    requires forall at | 0 <= at < |insts| :: InRange(NextOf(insts, at), |insts|)
    ensures f.Valid() && f.insts == insts && f.gives == gives
    ensures forall at: nat | at < |insts| :: f.inner[at] <==> IsInner(insts, at)
  {
    var next := Nexts(insts);
    var roots := RootsOf(insts);
    forall at | 0 <= at < |next| ensures InRange(next[at], |next|) { assert next[at] == NextOf(insts, at); }
    var inner := InnerOf(next, roots);
    forall at: nat | at < |insts| ensures inner[at] <==> IsInner(insts, at) { InnerIff(insts, roots, at); }
    f := Func(insts, inner, gives);
  }

  lemma InnerIff(insts: seq<Inst>, roots: seq<nat>, at: nat)
    requires forall r: nat :: r in roots <==> r < |insts| && exists k :: 0 <= k < |insts| && Names(insts[k], r)
    ensures Reachable(Nexts(insts), roots, at) <==> IsInner(insts, at)
  {
    hide NextOf, Names;
    if Reachable(Nexts(insts), roots, at) {
      var p :| ReachedBy(Nexts(insts), roots, p, at);
      var k :| 0 <= k < |insts| && Names(insts[k], p[0]);
      assert InnerBy(insts, p, k, at);
    }
    if IsInner(insts, at) {
      var p, k :| InnerBy(insts, p, k, at);
      assert ReachedBy(Nexts(insts), roots, p, at);
    }
  }

  /** `relies-of` of a function whose instructions are known: a call that is known and not exempt has
      a line in the report just when dead registers can come to matter over it. */
  method Report(insts: seq<Inst>, gives: Regs) returns (f: Func, found: seq<Place>, ghost live: seq<Regs>)
    requires General(gives) && forall at | 0 <= at < |insts| :: WellFormed(insts[at])
    requires forall at | 0 <= at < |insts| :: InRange(NextOf(insts, at), |insts|)
    ensures f.Valid() && f.insts == insts && f.gives == gives
    ensures forall at: nat | at < |insts| :: f.inner[at] <==> IsInner(insts, at)
    ensures ExactlyWanted(f, live) && forall i | 0 <= i < |found| :: Tells(CodeOf(f), CallsOf(f), found[i])
    ensures forall at: nat | at < |insts| && CallsOf(f)[at].Some? &&
              CallsOf(f)[at].value.name != "sys/pii/exit" && CallsOf(f)[at].value.name != "gui/view/forward_tree" ::
              Listed(found, at) <==> !Keeps(f, live, at)
    ensures forall i | 0 <= i < |found| ::
              && found[i].at < |insts| && CallsOf(f)[found[i].at].Some?
              && found[i].name == CallsOf(f)[found[i].at].value.name != "sys/pii/exit" && found[i].name != "gui/view/forward_tree"
  {
    hide Tells, Keeps, Solved, Wanted, CodeOf, CallsOf, Counted, IsInner;
    f := MarkInner(insts, gives);
    CodeSize(f);
    found, live := ReliesOf(CodeOf(f), CallsOf(f));
    forall at: nat | at < |insts| && CallsOf(f)[at].Some? && !Exempt(CallsOf(f)[at].value.name)
      ensures Listed(found, at) <==> !Keeps(f, live, at)
    {
      ReportedIff(f, live, at);
      ListedIff(f, found, at);
    }
    forall i | 0 <= i < |found| ensures found[i].at < |insts| && CallsOf(f)[found[i].at].Some? {
      LineKnown(f, found[i]);
    }
    forall i | 0 <= i < |found| ensures found[i].name == CallsOf(f)[found[i].at].value.name && !Exempt(found[i].name) {
      LineKnown(f, found[i]);
    }
  }

  lemma LineKnown(f: Func, line: Place)
    requires f.Valid() && Tells(CodeOf(f), CallsOf(f), line)
    ensures line.at < |f.insts| && CallsOf(f)[line.at].Some?
    ensures line.name == CallsOf(f)[line.at].value.name && !Exempt(line.name)
  {
    hide CodeOf;
  }

  lemma CodeSize(f: Func)
    requires f.Valid()
    ensures |CodeOf(f).flows| == |f.insts|
  {
  }

  lemma ListedIff(f: Func, found: seq<Place>, at: nat)
    requires f.Valid() && at < |f.insts| && forall i | 0 <= i < |found| :: Tells(CodeOf(f), CallsOf(f), found[i])
    requires Counted(CodeOf(f), CallsOf(f), at) != {} ==> Listed(found, at)
    ensures Listed(found, at) <==> Counted(CodeOf(f), CallsOf(f), at) != {}
  {
    CodeSize(f);
    hide CodeOf, CallsOf, Counted;
    if Listed(found, at) {
      var i :| 0 <= i < |found| && found[i].at == at;
      assert Tells(CodeOf(f), CallsOf(f), found[i]);
    }
  }
}
