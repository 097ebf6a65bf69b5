/** `flow-of` against the machine, the other way about: what it says is read can make a difference,
    what it says is written can be changed, and where it does say too much is said exactly
    (cmd/relies.lisp:91-131, 218-240, lib/asm/assembled.inc:57-69 against src/host/vp64.cpp:93-222). */
module FlowExact {
  import opened Liveness
  import opened Options
  import opened Relies
  import opened RelySound
  import opened Vp64
  import opened Vp64Laws

  // ----- a difference in one register -----

  ghost predicate ButFor(r: nat, a: seq<int>, b: seq<int>) {
    && r < 15 && Numbers(a) && Numbers(b)
    && forall q | 0 <= q < 16 && q != r :: a[q] == b[q]
  }

  /** Something that can be seen after the instruction is not the same of the two: memory, where
      control goes, or a register, the one they differ in as well if it is written. */
  ghost predicate Shows(i: Inst, r: nat, at: nat, a: seq<int>, b: seq<int>, mem: Mem)
    requires WellFormed(i)
  {
    && ButFor(r, a, b)
    && (|| Exec(i, a, mem).1 != Exec(i, b, mem).1 || Goes(i, at, a) != Goes(i, at, b)
        || (i.JmpR? && a[i.d] != b[i.d])
        || exists q :: 0 <= q < 16 && (q != r || r in FlowOf(i).written) && Exec(i, a, mem).0[q] != Exec(i, b, mem).0[q])
  }

  ghost predicate Matters(i: Inst, r: nat)
    requires WellFormed(i)
  {
    exists at, a, b, mem :: Shows(i, r, at, a, b, mem)
  }

  /** An operation with this constant comes to one thing whatever the register was. */
  predicate OneAnswer(op: Op, k: int) {
    match op
    case Mul => k == 0
    case And => k == 0
    case Or => k == -1
    case Min => k == -HALF
    case Slt => k == -HALF
    case Sge => k == -HALF
    case Max => k == HALF - 1
    case Sgt => k == HALF - 1
    case Sle => k == HALF - 1
    case _ => false
  }

  /** And with this one it leaves the register as it is. */
  predicate NoChange(op: Op, k: int) {
    match op
    case Add => k == 0
    case Sub => k == 0
    case Or => k == 0
    case Xor => k == 0
    case Mul => k == 1
    case And => k == -1
    case Shl => k % 64 == 0
    case Shr => k % 64 == 0
    case Asr => k % 64 == 0
    case Min => k == HALF - 1
    case Max => k == -HALF
    case _ => false
  }

  predicate Compares(op: Op) {
    op.Seq? || op.Sne? || op.Slt? || op.Sgt? || op.Sle? || op.Sge?
  }

  /** Said to be read, and of no matter: where a divide puts what is left over, a register compared
      with itself, and one that goes with a constant that settles it. */
  predicate Idle(i: Inst, r: nat) {
    match i
    case AluRR(op, s, d) => s == d == r && Compares(op)
    case AluCR(op, k, d) => d == r && OneAnswer(op, k)
    case Div(_, q, left, d) => r == left && ((left != q && left != d) || left == q == d)
    case BranchC(cond, k, d, _) => d == r && OneAnswer(SetOf(cond), k)
    case BranchR(_, s, d, _) => s == d == r
    case _ => false
  }

  /** Said to be written, and left as it is: the first of a not or an and, and what a register or a
      constant makes no change to. */
  predicate Kept(i: Inst, r: nat) {
    match i
    case AluRR(op, s, d) => s == d == r && (op.And? || op.Or? || op.Min? || op.Max?)
    case AluCR(op, k, d) => d == r && NoChange(op, k)
    case Swp(s, d) => s == d == r
    case Cpy(s, d) => s == d == r
    case Lnot(s, d) => r == s && s != d
    case Land(s, d) => r == s && s != d
    case LeaI(s, o, d) => s == d == r && o % WORD == 0
    case _ => false
  }

  // ----- numbers -----

  lemma WrapDiffers(x: int, y: int)
    requires 0 < x - y < WORD
    ensures Wrap(x) != Wrap(y)
  {
    WrapIs(x, 0);
    WrapIs(y, 0);
    var j :| Wrap(x) - x == WORD * j;
    var k :| Wrap(y) - y == WORD * k;
    hide Wrap;
    assert Wrap(x) == Wrap(y) ==> x - y == WORD * (k - j);
  }

  lemma Pow2Small(j: nat)
    requires j < 64
    ensures 1 <= Pow2(j) <= HALF && (j > 0 ==> 2 <= Pow2(j))
  {
    Pow2Word();
    Pow2Add(j, 63 - j);
    hide Pow2;
    TimesLess(1, Pow2(63 - j), Pow2(j));
    assert Pow2(63 - j) * Pow2(j) == Pow2(j) * Pow2(63 - j);
    if j > 0 { Pow2Twice(j); }
  }

  lemma Pow2Twice(j: nat)
    requires j > 0
    ensures 2 <= Pow2(j)
  {
  }

  lemma {:induction false} OneBit(x: int, k: nat)
    ensures BitAt(x, k) == 0 || BitAt(x, k) == 1
    ensures BitAt(0, k) == 0 && BitAt(-1, k) == 1
    decreases k
  {
    if k == 0 {
    } else {
      OneBit(x / 2, k - 1);
      assert -1 / 2 == -1 && 0 / 2 == 0;
    }
  }

  /** Two numbers with the same bits are one. */
  lemma SameNumber(x: int, y: int)
    requires Number(x) && Number(y) && forall k: nat | k < 64 :: BitAt(x, k) == BitAt(y, k)
    ensures x == y
  {
    BitsTell(x, y, 64);
    Pow2Word();
  }

  lemma BitsGive(op: Op, s: int, d: int, z: int)
    requires op.And? || op.Or? || op.Xor?
    requires Number(z) && forall k: nat | k < 64 :: BitOp(op, BitAt(d, k), BitAt(s, k)) == BitAt(z, k)
    ensures Alu(op, s, d) == z
  {
    hide BitAt, BitOp, Bitwise;
    forall k: nat | k < 64 ensures BitAt(Alu(op, s, d), k) == BitAt(z, k) { BitsAre(op, s, d, k); }
    SameNumber(Alu(op, s, d), z);
  }

  lemma EveryBit(x: int)
    ensures forall k: nat :: BitAt(x, k) == 0 || BitAt(x, k) == 1
    ensures forall k: nat :: BitAt(0, k) == 0 && BitAt(-1, k) == 1
  {
    forall k: nat ensures (BitAt(x, k) == 0 || BitAt(x, k) == 1) && BitAt(0, k) == 0 && BitAt(-1, k) == 1 { OneBit(x, k); }
  }

  /** What 0, -1 and a number itself do to a number bit by bit. */
  lemma BitsWith(x: int)
    requires Number(x)
    ensures Alu(And, 0, x) == 0 && Alu(And, x, 0) == 0 && Alu(And, -1, x) == x && Alu(And, x, -1) == x && Alu(And, x, x) == x
    ensures Alu(Or, 0, x) == x && Alu(Or, x, 0) == x && Alu(Or, -1, x) == -1 && Alu(Or, x, -1) == -1 && Alu(Or, x, x) == x
    ensures Alu(Xor, 0, x) == x && Alu(Xor, x, 0) == x
  {
    EveryBit(x);
    hide Alu, BitAt;
    BitsGive(And, 0, x, 0);
    BitsGive(And, x, 0, 0);
    BitsGive(And, -1, x, x);
    BitsGive(And, x, -1, x);
    BitsGive(And, x, x, x);
    BitsGive(Or, 0, x, x);
    BitsGive(Or, x, 0, x);
    BitsGive(Or, -1, x, -1);
    BitsGive(Or, x, -1, -1);
    BitsGive(Or, x, x, x);
    BitsGive(Xor, 0, x, x);
    BitsGive(Xor, x, 0, x);
  }

  // ----- an operation with a constant -----

  /** Two numbers that come out different. */
  function Two(op: Op, k: int): (int, int) {
    match op
    case And => (0, -1)
    case Or => (0, -1)
    case Shr => (0, -1)
    case Asr => (0, -1)
    case Min => (k, k - 1)
    case Slt => (k, k - 1)
    case Sge => (k, k - 1)
    case Max => (k, k + 1)
    case Sgt => (k, k + 1)
    case Sle => (k, k + 1)
    case Seq => (k, if k == 0 then 1 else 0)
    case Sne => (k, if k == 0 then 1 else 0)
    case _ => (0, 1)
  }

  lemma ShiftsDiffer(k: int)
    ensures Alu(Shl, k, 0) != Alu(Shl, k, 1) && Alu(Shr, k, 0) != Alu(Shr, k, -1) && Alu(Asr, k, 0) != Alu(Asr, k, -1)
    ensures Alu(Shl, k, 0) == Alu(Shr, k, 0) == Alu(Asr, k, 0) == 0
    ensures k % 64 != 0 ==> Alu(Shl, k, 1) != 1 && Alu(Shr, k, 1) == 0 && Alu(Asr, k, 1) == 0
  {
    var p := Pow2(k % 64);
    Pow2Small(k % 64);
    assert Unsigned(0) == 0 && Unsigned(1) == 1 && Unsigned(-1) == WORD - 1 && Wrap(0) == 0;
    hide Pow2, Wrap, Unsigned;
    assert 0 / p == 0 && 0 * p == 0 && 1 * p == p;
    WrapDiffers(p, 0);
    AllOnes(p);
    WrapDiffers((WORD - 1) / p, 0);
    if k % 64 != 0 {
      WrapDiffers(p, 1);
      Floored(1, p);
      if 1 / p >= 1 { TimesLess(1, 1 / p, p); }
    }
  }

  lemma AllOnes(p: int)
    requires 1 <= p <= HALF
    ensures 0 < (WORD - 1) / p < WORD && -1 / p == -1 && 0 <= 1 / p
  {
    Floored(WORD - 1, p);
    SmallQuotient(WORD - 1, p);
    SmallQuotient(1, p);
    assert (0 + 1) * p == p;
    ModIs(-1, p, -1, p - 1);
  }

  lemma ConstantDiffers(op: Op, k: int)
    requires Number(k) && !OneAnswer(op, k)
    ensures var (x, y) := Two(op, k); Number(x) && Number(y) && x != y && Alu(op, k, x) != Alu(op, k, y)
  {
    match op {
      case Add => WrapDiffers(1 + k, 0 + k);
      case Sub => WrapDiffers(1 - k, 0 - k);
      case And => BitsWith(k);
      case Or => BitsWith(k);
      case Xor =>
        BitsAre(Xor, k, 0, 0);
        BitsAre(Xor, k, 1, 0);
      case Shl => ShiftsDiffer(k);
      case Shr => ShiftsDiffer(k);
      case Asr => ShiftsDiffer(k);
      case _ =>
    }
  }

  lemma ConstantSettles(op: Op, k: int, x: int, y: int)
    requires Number(k) && OneAnswer(op, k) && Number(x) && Number(y)
    ensures Alu(op, k, x) == Alu(op, k, y)
  {
    if op.And? || op.Or? {
      BitsWith(x);
      BitsWith(y);
    }
  }

  /** A number that is changed. */
  function Moved(op: Op): int {
    match op
    case Add => 0
    case Sub => 0
    case Or => 0
    case Xor => 0
    case And => -1
    case Min => HALF - 1
    case Max => -HALF
    case Mul => 1
    case Shl => 1
    case Shr => 1
    case Asr => 1
    case _ => 5
  }

  lemma ConstantChanges(op: Op, k: int)
    requires Number(k) && !NoChange(op, k)
    ensures Number(Moved(op)) && Alu(op, k, Moved(op)) != Moved(op)
  {
    match op {
      case Sub => if k > 0 { WrapDiffers(0, -k); } else { WrapDiffers(-k, 0); }
      case And => BitsWith(k);
      case Or => BitsWith(k);
      case Xor => BitsWith(k);
      case Shl => ShiftsDiffer(k);
      case Shr => ShiftsDiffer(k);
      case Asr => ShiftsDiffer(k);
      case _ =>
    }
  }

  lemma ConstantKeeps(op: Op, k: int, x: int)
    requires Number(k) && NoChange(op, k) && Number(x)
    ensures Alu(op, k, x) == x
  {
    match op {
      case And => BitsWith(x);
      case Or => BitsWith(x);
      case Xor => BitsWith(x);
      case Shl => ShiftsNone(x);
      case Shr => ShiftsNone(x);
      case _ =>
    }
  }

  lemma ShiftsNone(x: int)
    requires Number(x)
    ensures Wrap(Unsigned(x)) == x && Pow2(0) == 1
  {
    UnsignedIs(x);
    WrapIs(Unsigned(x), x);
    assert x - Unsigned(x) == WORD * (x / WORD);
  }

  // ----- what is read -----

  lemma ShowsIn(i: Inst, r: nat, a: seq<int>, b: seq<int>, mem: Mem, q: nat)
    requires WellFormed(i) && ButFor(r, a, b) && q < 16 && (q != r || r in FlowOf(i).written)
    requires Exec(i, a, mem).0[q] != Exec(i, b, mem).0[q]
    ensures Matters(i, r)
  {
    hide Exec, FlowOf;
    assert Shows(i, r, 0, a, b, mem);
  }

  lemma ShowsInMemory(i: Inst, r: nat, a: seq<int>, b: seq<int>)
    requires WellFormed(i) && ButFor(r, a, b) && Exec(i, a, map[]).1 != Exec(i, b, map[]).1
    ensures Matters(i, r)
  {
    hide Exec, FlowOf;
    assert Shows(i, r, 0, a, b, map[]);
  }

  /** All 0 but for one. */
  function One(r: nat, x: int): (regs: seq<int>)
    requires r < 16 && Number(x)
    ensures Numbers(regs)
  {
    Zeros()[r := x]
  }

  /** The other number, for a difference in one of an operation of two to be seen. */
  function OtherD(op: Op): int {
    if op.Shr? || op.Asr? then 2
    else if op.Mul? || op.And? || op.Shl? || op.Min? || op.Sgt? || op.Sle? then 1 else 0
  }

  function OtherS(op: Op): int {
    if op.Mul? || op.And? || op.Min? || op.Slt? || op.Sge? then 1 else 0
  }

  predicate Shifts(op: Op) {
    op.Shl? || op.Shr? || op.Asr?
  }

  predicate OnBits(op: Op) {
    op.And? || op.Or? || op.Xor?
  }

  lemma ShiftAt(s: int, d: int, p: int)
    requires p == Pow2(s % 64)
    ensures Alu(Shl, s, d) == Wrap(Unsigned(d) * p) && Alu(Shr, s, d) == Wrap(Unsigned(d) / p) && Alu(Asr, s, d) == d / p
  {
  }

  lemma SmallPowers()
    ensures Pow2(0) == 1 && Pow2(1) == 2 && Pow2(63) == HALF
  {
    Pow2Word();
  }

  lemma SmallShifts()
    ensures forall d | d == 0 || d == 1 || d == 2 :: Alu(Shl, 0, d) == d && Alu(Shr, 0, d) == d && Alu(Asr, 0, d) == d
    ensures Alu(Shl, 1, 1) == 2 && Alu(Shr, 1, 2) == 1 && Alu(Asr, 1, 2) == 1
    ensures Alu(Shr, -1, -1) == 1 && Alu(Asr, -1, -1) == -1
  {
    hide Alu, Pow2;
    SmallPowers();
    forall d | d == 0 || d == 1 || d == 2 ensures Alu(Shl, 0, d) == d && Alu(Shr, 0, d) == d && Alu(Asr, 0, d) == d {
      ShiftAt(0, d, 1);
    }
    ShiftAt(1, 1, 2);
    ShiftAt(1, 2, 2);
    ShiftAt(-1, -1, HALF);
    assert Unsigned(-1) == WORD - 1 && (WORD - 1) / HALF == 1;
  }

  lemma OperandsDiffer(op: Op)
    ensures Alu(op, 0, OtherD(op)) != Alu(op, 1, OtherD(op))
    ensures Alu(op, OtherS(op), 0) != Alu(op, OtherS(op), 1)
  {
    hide Alu;
    if Shifts(op) {
      SmallShifts();
    } else if OnBits(op) {
      BitsWith(0);
      BitsWith(1);
    } else {
      PlainDiffer(op);
    }
  }

  lemma PlainDiffer(op: Op)
    requires !Shifts(op) && !OnBits(op)
    ensures Alu(op, 0, OtherD(op)) != Alu(op, 1, OtherD(op))
    ensures Alu(op, OtherS(op), 0) != Alu(op, OtherS(op), 1)
  {
    hide Pow2, Bitwise, Wrap;
  }

  function Itself(op: Op): int {
    if op.Shr? || op.Asr? then -1 else 1
  }

  lemma ItselfDiffers(op: Op)
    requires !Compares(op) && !op.Sub? && !op.Xor?
    ensures Alu(op, 0, 0) != Alu(op, Itself(op), Itself(op))
  {
    if Shifts(op) {
      SmallShifts();
      hide Alu;
    } else if OnBits(op) {
      BitsWith(0);
      BitsWith(1);
      hide Alu;
    } else {
      hide Pow2, Bitwise;
    }
  }

  lemma AluRead(i: Inst, r: nat)
    requires WellFormed(i) && i.AluRR? && r in FlowOf(i).read && !Idle(i, r)
    ensures Matters(i, r)
  {
    var (op, s, d) := (i.op, i.s, i.d);
    OperandsDiffer(op);
    if s == d {
      ItselfDiffers(op);
      hide Alu;
      ShowsIn(i, r, Zeros(), One(r, Itself(op)), map[], d);
    } else if r == s {
      hide Alu;
      ShowsIn(i, r, One(d, OtherD(op)), One(d, OtherD(op))[s := 1], map[], d);
    } else {
      hide Alu;
      ShowsIn(i, r, One(s, OtherS(op)), One(s, OtherS(op))[d := 1], map[], d);
    }
  }

  lemma ConstantRead(i: Inst, r: nat)
    requires WellFormed(i) && i.AluCR? && r in FlowOf(i).read && !Idle(i, r)
    ensures Matters(i, r)
  {
    ConstantDiffers(i.op, i.k);
    var (x, y) := Two(i.op, i.k);
    hide Alu, Two;
    ShowsIn(i, r, One(r, x), One(r, y), map[], r);
  }

  lemma CopyRead(i: Inst, r: nat)
    requires WellFormed(i) && (i.Swp? || i.Lnot? || i.Land? || i.Cpy? || i.Ext? || i.Abs?) && r in FlowOf(i).read && !Idle(i, r)
    ensures Matters(i, r)
  {
    hide Alu, Divide, Fetch, Poke, Wrap;
    var a, b := Zeros(), One(r, if i.Ext? then -1 else 1);
    if i.Land? && i.s != i.d {
      var other := if r == i.s then i.d else i.s;
      ShowsIn(i, r, a[other := 1], b[other := 1], map[], i.d);
    } else {
      ShowsIn(i, r, a, b, map[], if i.Swp? && r == i.d then i.s else if i.Lnot? && r == i.s then i.s else i.d);
    }
  }

  lemma LeaRead(i: Inst, r: nat)
    requires WellFormed(i) && (i.LeaI? || i.LeaD?) && r in FlowOf(i).read
    ensures Matters(i, r)
  {
    var a, b := Zeros(), One(r, 1);
    if i.LeaI? { WrapDiffers(1 + i.o, i.o); }
    hide Alu, Divide, Fetch, Poke;
    ShowsIn(i, r, a, b, map[], i.d);
  }

  /** Small divides. */
  lemma SmallDivides(signed: bool)
    ensures Divide(signed, 2, 1) == (0, 2) && Divide(signed, 2, 3) == (2, 0)
    ensures Divide(signed, 0, 3) == (0, 0) && Divide(signed, 4, 3) == (1, 1)
    ensures Divide(signed, 0, 0) == (0, 0) && Divide(signed, 5, 5) == (0, 1) && Divide(signed, 5, 2) == (1, 2)
  {
  }

  lemma DivRead(i: Inst, r: nat)
    requires WellFormed(i) && i.Div? && r in FlowOf(i).read && !Idle(i, r)
    ensures Matters(i, r)
  {
    SmallDivides(i.signed);
    var (q, left, d) := (i.q, i.left, i.d);
    assert Unsigned(0) == 0 && Unsigned(1) == 1 && Unsigned(3) == 3 && Unsigned(5) == 5;
    hide Divide, Unsigned, Wrap;
    if q == d {
      ShowsIn(i, r, Zeros(), One(r, 5), map[], d);
    } else if r == q {
      ShowsIn(i, r, One(d, 2)[q := 1], One(d, 2)[q := 3], map[], d);
    } else {
      ShowsIn(i, r, One(q, 3), One(q, 3)[d := 4], map[], d);
    }
  }

  lemma {:induction false} PeekNone(at: int, x: int, n: nat)
    requires at < x || x + n <= at
    ensures Peek(map[at := 1], x, n) == 0
    decreases n
  {
    if n == 0 {
    } else {
      PeekNone(at, x + 1, n - 1);
    }
  }

  /** A 1 in memory is read where it is, and not where it is not. */
  lemma FetchOne(at: int, x: int, width: Width)
    requires Sized(width.bytes) && (at < x || x + width.bytes <= at)
    ensures Fetch(map[at := 1], at, width) == 1 && Fetch(map[at := 1], x, width) == 0
  {
    PeekNone(at, at + 1, width.bytes - 1);
    PeekNone(at, x, width.bytes);
    Pow2Byte(width.bytes);
  }

  lemma NextSlot(o: int)
    ensures Wrap(8 + o) == Wrap(o) + 8 || Wrap(8 + o) == Wrap(o) + 8 - WORD
  {
  }

  /** Where a load or a store is of. */
  function PlaceOf(i: Inst, regs: seq<int>): int
    requires WellFormed(i) && (i.Load? || i.LoadD? || i.Store? || i.StoreD?) && |regs| == 16
  {
    match i
    case Load(_, s, o, _) => Wrap(regs[s] + o)
    case LoadD(_, b, s, _) => Wrap(regs[b] + regs[s])
    case Store(_, _, d, o) => Wrap(regs[d] + o)
    case StoreD(_, _, b, d) => Wrap(regs[b] + regs[d])
  }

  lemma LoadIs(i: Inst, r: nat, regs: seq<int>, mem: Mem)
    requires WellFormed(i) && (i.Load? || i.LoadD?) && |regs| == 16
    ensures i.d < 16 && Sized(i.width.bytes) && Exec(i, regs, mem).0[i.d] == Fetch(mem, PlaceOf(i, regs), i.width)
    ensures r == i.d && r < 15 ==> r in FlowOf(i).written
  {
    hide Wrap, Fetch;
  }

  /** From 0 in each register to 8 in one it goes by, a place in memory is another, and apart. */
  lemma PlacesApart(i: Inst, r: nat, bytes: nat)
    requires WellFormed(i) && (i.Load? || i.LoadD? || i.Store? || i.StoreD?) && r < 15 && Sized(bytes)
    requires match i { case Load(_, s, _, _) => r == s case LoadD(_, b, s, _) => r == b || r == s
                       case Store(_, _, d, _) => r == d case StoreD(_, _, b, d) => r == b || r == d }
    ensures var at, x := PlaceOf(i, Zeros()), PlaceOf(i, One(r, 8)); at < x || x + bytes <= at
  {
    if i.Load? || i.Store? {
      NextSlot(i.o);
      hide Wrap;
    } else {
      assert Wrap(0) == 0 && Wrap(8) == 8 && Wrap(16) == 16;
    }
  }

  lemma LoadRead(i: Inst, r: nat)
    requires WellFormed(i) && (i.Load? || i.LoadD?) && r in FlowOf(i).read
    ensures Matters(i, r)
  {
    hide Exec, Fetch, PlaceOf, Wrap;
    var a, b := Zeros(), One(r, 8);
    LoadIs(i, r, a, map[PlaceOf(i, a) := 1]);
    LoadIs(i, r, b, map[PlaceOf(i, a) := 1]);
    PlacesApart(i, r, i.width.bytes);
    FetchOne(PlaceOf(i, a), PlaceOf(i, b), i.width);
    ShowsIn(i, r, a, b, map[PlaceOf(i, a) := 1], i.d);
  }

  /** Stores that put something at different places, or different numbers at one, are not the same. */
  lemma StoresDiffer(at: int, x: int, bytes: nat, v: int, w: int)
    requires Sized(bytes)
    ensures at < x || x + bytes <= at ==> Poke(map[], at, bytes, v) != Poke(map[], x, bytes, w)
    ensures Poke(map[], at, bytes, 0) != Poke(map[], at, bytes, 1)
  {
    PokePuts(map[], at, bytes, v, at);
    if at < x || x + bytes <= at { PokeFrame(map[], x, bytes, w, at); }
    PeekPoke(map[], at, bytes, 0);
    PeekPoke(map[], at, bytes, 1);
    Pow2Byte(bytes);
    ModIs(1, Pow2(8 * bytes), 0, 1);
    ModIs(0, Pow2(8 * bytes), 0, 0);
  }

  lemma StoreIs(i: Inst, regs: seq<int>)
    requires WellFormed(i) && (i.Store? || i.StoreD?) && |regs| == 16
    ensures i.s < 16 && Sized(i.bytes) && Exec(i, regs, map[]).1 == Poke(map[], PlaceOf(i, regs), i.bytes, regs[i.s])
  {
    hide Wrap, Poke;
  }

  lemma StoreRead(i: Inst, r: nat)
    requires WellFormed(i) && (i.Store? || i.StoreD?) && r in FlowOf(i).read
    ensures Matters(i, r)
  {
    var elsewhere := r == i.d || (i.StoreD? && r == i.b);
    assert !elsewhere ==> r == i.s && PlaceOf(i, One(r, 1)) == PlaceOf(i, Zeros());
    var a, b := Zeros(), One(r, if elsewhere then 8 else 1);
    StoreIs(i, a);
    StoreIs(i, b);
    if elsewhere { PlacesApart(i, r, i.bytes); }
    hide Exec, Poke, PlaceOf, FlowOf;
    StoresDiffer(PlaceOf(i, a), PlaceOf(i, b), i.bytes, a[i.s], b[i.s]);
    ShowsInMemory(i, r, a, b);
  }

  lemma PushRead(i: Inst, r: nat)
    requires WellFormed(i) && i.Push? && r in FlowOf(i).read && 8 * |i.rs| <= HALF
    ensures Matters(i, r)
  {
    hide Exec;
    var k := FirstOf(i.rs, r);
    var a, b := Zeros(), One(r, 1);
    PushIs(i.rs, a, map[], k, 0);
    PushIs(i.rs, b, map[], k, 0);
    ShowsInMemory(i, r, a, b);
  }

  /** Two words, one after the other, in memory that had nothing in it. */
  function SetUp(at: int, f: int, x: int): Mem {
    Poke(Poke(map[], at, 8, f), at + 8, 8, x)
  }

  lemma SetUpElsewhere(at: int, f: int, x: int, at': int, f': int, x': int)
    requires at + 16 <= at'
    ensures SetUp(at, f, x) != SetUp(at', f', x')
  {
    var first := Poke(map[], at, 8, f);
    PokePuts(map[], at, 8, f, at);
    PokeFrame(first, at + 8, 8, x, at);
    PokeFrame(map[], at', 8, f', at);
    PokeFrame(Poke(map[], at', 8, f'), at' + 8, 8, x', at);
    hide Poke;
  }

  lemma SetUpHolds(at: int, f: int, x: int)
    requires Number(f) && Number(x)
    ensures Fetch(SetUp(at, f, x), at, LONG) == f && Fetch(SetUp(at, f, x), at + 8, LONG) == x
  {
    Pow2Word();
    var first := Poke(map[], at, 8, f);
    FetchPoke(map[], at, LONG, f);
    FetchFrame(first, at + 8, 8, x, at, LONG);
    FetchPoke(first, at + 8, LONG, x);
  }

  lemma StackInitIs(i: Inst, regs: seq<int>, low: int)
    requires WellFormed(i) && i.StackInit? && |regs| == 16 && regs[i.s] - 16 == low && Number(low) && Number(low + 8)
    ensures var made := regs[i.s := low]; Exec(i, regs, map[]).1 == SetUp(low, made[i.f], made[i.x])
  {
    assert Wrap(low) == low && Wrap(low + 8) == low + 8;
    hide Wrap, Poke;
  }

  lemma StackInitNames(i: Inst, r: nat)
    requires i.StackInit? && r in FlowOf(i).read
    ensures r < 15 && (r == i.s || r == i.f || r == i.x)
  {
    assert r in [i.s, i.f, i.x];
  }

  lemma OneBut(r: nat, x: int)
    requires r < 15 && Number(x)
    ensures ButFor(r, Zeros(), One(r, x))
  {
  }

  lemma StackInitPlace(i: Inst)
    requires WellFormed(i) && i.StackInit? && i.s < 15
    ensures Exec(i, Zeros(), map[]).1 != Exec(i, One(i.s, 64), map[]).1
  {
    hide Exec, SetUp;
    var p, q := Zeros()[i.s := -16], One(i.s, 64)[i.s := 48];
    StackInitIs(i, Zeros(), -16);
    StackInitIs(i, One(i.s, 64), 48);
    SetUpElsewhere(-16, p[i.f], p[i.x], 48, q[i.f], q[i.x]);
  }

  lemma StackInitValue(i: Inst, r: nat)
    requires WellFormed(i) && i.StackInit? && r < 15 && r != i.s && (r == i.f || r == i.x)
    ensures Exec(i, Zeros(), map[]).1 != Exec(i, One(r, 1), map[]).1
  {
    hide Exec, SetUp, Fetch;
    var p, q := Zeros()[i.s := -16], One(r, 1)[i.s := -16];
    assert p[r] == 0 && q[r] == 1;
    StackInitIs(i, Zeros(), -16);
    StackInitIs(i, One(r, 1), -16);
    SetUpHolds(-16, p[i.f], p[i.x]);
    SetUpHolds(-16, q[i.f], q[i.x]);
  }

  lemma StackInitRead(i: Inst, r: nat)
    requires WellFormed(i) && i.StackInit? && r in FlowOf(i).read
    ensures Matters(i, r)
  {
    StackInitNames(i, r);
    hide Exec, FlowOf, ButFor, Matters, One;
    var v := if r == i.s then 64 else 1;
    OneBut(r, v);
    if r == i.s { StackInitPlace(i); } else { StackInitValue(i, r); }
    ShowsInMemory(i, r, Zeros(), One(r, v));
  }

  function Elsewhere(to: Option<nat>): nat {
    match to
    case Some(n) => n
    case None => 0
  }

  lemma BranchRead(i: Inst, r: nat)
    requires WellFormed(i) && (i.BranchC? || i.BranchR? || i.JmpR?) && r in FlowOf(i).read && !Idle(i, r)
    ensures Matters(i, r)
  {
    hide Exec, Alu, Two, Test;
    if i.BranchC? {
      var (x, y) := Two(SetOf(i.cond), i.k);
      ConstantDiffers(SetOf(i.cond), i.k);
      TestIs(i.cond, i.k, x);
      TestIs(i.cond, i.k, y);
      assert Shows(i, r, Elsewhere(i.to), One(r, x), One(r, y), map[]);
    } else if i.BranchR? {
      var op := SetOf(i.cond);
      OperandsDiffer(op);
      forall s, d | s == 0 || s == 1 || d == 0 || d == 1 ensures Test(i.cond, d, s) <==> Alu(op, s, d) == 1 { TestIs(i.cond, s, d); }
      forall s, d | s == 0 || s == 1 || d == 0 || d == 1 ensures !Test(i.cond, d, s) <==> Alu(op, s, d) == 0 { TestIs(i.cond, s, d); }
      if r == i.s {
        assert Shows(i, r, Elsewhere(i.to), One(i.d, OtherD(op)), One(i.d, OtherD(op))[i.s := 1], map[]);
      } else {
        assert Shows(i, r, Elsewhere(i.to), One(i.s, OtherS(op)), One(i.s, OtherS(op))[i.d := 1], map[]);
      }
    } else {
      assert Shows(i, r, 0, Zeros(), One(r, 1), map[]);
    }
  }

  lemma NoneRead(i: Inst, r: nat)
    requires WellFormed(i) && Plain(i) && r in FlowOf(i).read
    ensures !i.Nothing? && !i.CpyC? && !i.LoadP? && !i.LeaP? && !i.Alloc? && !i.Free? && !i.Pop? && !i.Jmp? && !i.Ret?
  {
    hide BitOf, BitsOf;
  }

  /** What is said to be read can make a difference, but for what is idle. */
  lemma ReadMatters(i: Inst, r: nat)
    requires WellFormed(i) && Plain(i) && r in FlowOf(i).read && !Idle(i, r) && (i.Push? ==> 8 * |i.rs| <= HALF)
    ensures Matters(i, r)
  {
    NoneRead(i, r);
    hide FlowOf, Idle, Matters;
    if i.AluRR? { AluRead(i, r); }
    else if i.AluCR? { ConstantRead(i, r); }
    else if i.Swp? || i.Lnot? || i.Land? || i.Cpy? || i.Ext? || i.Abs? { CopyRead(i, r); }
    else if i.LeaI? || i.LeaD? { LeaRead(i, r); }
    else if i.Div? { DivRead(i, r); }
    else if i.Load? || i.LoadD? { LoadRead(i, r); }
    else if i.Store? || i.StoreD? { StoreRead(i, r); }
    else if i.Push? { PushRead(i, r); }
    else if i.StackInit? { StackInitRead(i, r); }
    else { BranchRead(i, r); }
  }

  function AllBut(i: Inst, r: nat): Regs {
    Below(15) - if r in FlowOf(i).written then {} else {r}
  }

  lemma AgreeBut(i: Inst, r: nat, a: seq<int>, b: seq<int>)
    requires ButFor(r, a, b) && r !in FlowOf(i).read
    ensures Agree(FlowOf(i).read + (AllBut(i, r) - FlowOf(i).written), a, b)
  {
    hide FlowOf;
  }

  lemma NotShown(i: Inst, r: nat, at: nat, a: seq<int>, b: seq<int>, mem: Mem)
    requires WellFormed(i) && ButFor(r, a, b) && (i.JmpR? ==> r != i.d)
    requires ComesOutTheSame(i, a, b, mem, AllBut(i, r)) && Goes(i, at, a) == Goes(i, at, b)
    ensures !Shows(i, r, at, a, b, mem)
  {
    hide Exec, FlowOf, Goes;
    forall q: nat | q < 16 && (q != r || r in FlowOf(i).written) ensures Exec(i, a, mem).0[q] == Exec(i, b, mem).0[q] {
      assert q < 15 ==> q in AllBut(i, r);
    }
  }

  /** What is not said to be read can make none. */
  lemma UnreadIsNone(i: Inst, r: nat)
    requires WellFormed(i) && Plain(i) && r < 15 && r !in FlowOf(i).read
    ensures !Matters(i, r)
  {
    assert i.JmpR? ==> r != i.d;
    hide Exec, FlowOf, Goes, ButFor, ComesOutTheSame, Agree, AllBut;
    if Matters(i, r) {
      var at, a, b, mem :| Shows(i, r, at, a, b, mem);
      AgreeBut(i, r, a, b);
      ExecAgrees(i, at, a, b, mem, AllBut(i, r));
      NotShown(i, r, at, a, b, mem);
    }
  }

  lemma CompareItself(op: Op, x: int, y: int)
    requires Compares(op)
    ensures Alu(op, x, x) == Alu(op, y, y)
  {
    hide Wrap, Pow2, Bitwise;
  }

  lemma IdleAlu(i: Inst, r: nat, a: seq<int>, b: seq<int>, mem: Mem)
    requires WellFormed(i) && (i.AluRR? || i.AluCR?) && Idle(i, r) && ButFor(r, a, b)
    ensures Exec(i, a, mem) == Exec(i, b, mem)
  {
    if i.AluRR? { CompareItself(i.op, a[r], b[r]); } else { ConstantSettles(i.op, i.k, a[r], b[r]); }
    hide Alu;
    assert a[r := Exec(i, a, mem).0[r]] == b[r := Exec(i, a, mem).0[r]];
  }

  lemma IdleDiv(i: Inst, r: nat, a: seq<int>, b: seq<int>, mem: Mem, q: nat)
    requires WellFormed(i) && i.Div? && Idle(i, r) && ButFor(r, a, b) && q < 16
    ensures Exec(i, a, mem).0[q] == Exec(i, b, mem).0[q] && Exec(i, a, mem).1 == Exec(i, b, mem).1
  {
    if i.left == i.d { ByItself(i.signed, a[r]); ByItself(i.signed, b[r]); }
    hide Divide;
  }

  lemma ByItself(signed: bool, x: int)
    requires Number(x)
    ensures Unsigned(x) != 0 ==> Divide(signed, x, x).0 == 0
  {
    UnsignedIs(x);
    assert x > 0 ==> x % x == 0 && x / x == 1;
    assert x < 0 ==> -x / -x == 1;
    assert Unsigned(x) > 0 ==> Unsigned(x) % Unsigned(x) == 0;
  }

  /** What is idle does not matter. */
  lemma IdleIsNone(i: Inst, r: nat)
    requires WellFormed(i) && Plain(i) && r < 15 && Idle(i, r)
    ensures !Matters(i, r)
  {
    if Matters(i, r) {
      var at, a, b, mem :| Shows(i, r, at, a, b, mem);
      if i.AluRR? || i.AluCR? {
        IdleAlu(i, r, a, b, mem);
      } else if i.Div? {
        hide Exec, FlowOf;
        forall q: nat | q < 16 ensures Exec(i, a, mem).0[q] == Exec(i, b, mem).0[q] {
          IdleDiv(i, r, a, b, mem, q);
        }
      } else {
        hide FlowOf, Alu;
        if i.BranchC? {
          ConstantSettles(SetOf(i.cond), i.k, a[r], b[r]);
          TestIs(i.cond, i.k, a[r]);
          TestIs(i.cond, i.k, b[r]);
        }
      }
    }
  }

  /** What is said to be read is what can make a difference, and what is idle besides: not one
      register more, and not one less. */
  lemma ReadIff(i: Inst, r: nat)
    requires WellFormed(i) && Plain(i) && r < 15 && (i.Push? ==> 8 * |i.rs| <= HALF)
    ensures Matters(i, r) ==> r in FlowOf(i).read && !Idle(i, r)
    ensures r in FlowOf(i).read ==> Matters(i, r) || Idle(i, r)
  {
    hide Matters, Idle, FlowOf;
    if r in FlowOf(i).read { if !Idle(i, r) { ReadMatters(i, r); } } else { UnreadIsNone(i, r); }
    if Idle(i, r) { IdleIsNone(i, r); }
  }

  // ----- what is written -----

  ghost predicate ChangedBy(i: Inst, r: nat, regs: seq<int>, mem: Mem)
    requires WellFormed(i) && r < 15
  {
    Numbers(regs) && Exec(i, regs, mem).0[r] != regs[r]
  }

  ghost predicate Changes(i: Inst, r: nat)
    requires WellFormed(i) && r < 15
  {
    exists regs, mem :: ChangedBy(i, r, regs, mem)
  }

  lemma Changed(i: Inst, r: nat, regs: seq<int>)
    requires WellFormed(i) && r < 15 && Numbers(regs) && Exec(i, regs, map[]).0[r] != regs[r]
    ensures Changes(i, r)
  {
    hide Exec;
    assert ChangedBy(i, r, regs, map[]);
  }

  /** What another register, or the same, has for a change to be made. */
  function Changer(op: Op): int {
    if op.Mul? || op.And? || op.Min? || op.Max? then 0 else 1
  }

  function Itself2(op: Op): int {
    if op.Mul? then 2 else if Compares(op) then 5 else 1
  }

  lemma ItselfChanges(op: Op)
    requires !op.And? && !op.Or? && !op.Min? && !op.Max?
    ensures Alu(op, Itself2(op), Itself2(op)) != Itself2(op)
  {
    if Shifts(op) {
      ShiftsDiffer(1);
      hide Alu;
    } else if op.Xor? {
      SelfIsZero(op, 1);
      hide Alu;
    } else {
      hide Bitwise, Pow2;
    }
  }

  lemma AluChanges(i: Inst, r: nat)
    requires WellFormed(i) && (i.AluRR? || i.AluCR?) && r in FlowOf(i).written && r < 15 && !Kept(i, r)
    ensures Changes(i, r)
  {
    if i.AluCR? {
      ConstantChanges(i.op, i.k);
      hide Alu, Moved, FlowOf;
      Changed(i, r, One(i.d, Moved(i.op)));
    } else if i.s == i.d {
      ItselfChanges(i.op);
      hide Alu;
      Changed(i, r, One(r, Itself2(i.op)));
    } else {
      ConstantChanges(i.op, Changer(i.op));
      hide Alu, Moved;
      Changed(i, r, One(i.d, Moved(i.op))[i.s := Changer(i.op)]);
    }
  }

  lemma CopyChanges(i: Inst, r: nat)
    requires WellFormed(i) && (i.Swp? || i.Lnot? || i.Land? || i.Cpy? || i.Ext? || i.Abs? || i.CpyC?)
    requires r in FlowOf(i).written && r < 15 && !Kept(i, r)
    ensures Changes(i, r)
  {
    hide Wrap;
    var x := match i { case CpyC(k, _) => if k == 5 then 6 else 5 case Abs(_, _) => -5 case _ => 5 };
    assert Wrap(5) == 5;
    Changed(i, r, One(r, x));
  }

  lemma DivChanges(i: Inst, r: nat)
    requires WellFormed(i) && i.Div? && r in FlowOf(i).written && r < 15
    ensures Changes(i, r)
  {
    SmallDivides(i.signed);
    assert Unsigned(3) == 3 && Unsigned(5) == 5 && Unsigned(0) == 0;
    hide Divide, Unsigned;
    var (q, left, d) := (i.q, i.left, i.d);
    if q == d {
      Changed(i, r, if r == left && left != d then One(r, 7)[q := 5] else One(q, 5));
    } else {
      Changed(i, r, if r == left && left != d && left != q then One(r, 7)[q := 3][d := 4] else One(q, 3)[d := 4]);
    }
  }

  lemma {:induction false} PeekEmpty(x: int, n: nat)
    ensures Peek(map[], x, n) == 0
    decreases n
  {
    if n == 0 {
    } else {
      PeekEmpty(x + 1, n - 1);
    }
  }

  lemma FetchEmpty(x: int, width: Width)
    requires Sized(width.bytes)
    ensures Fetch(map[], x, width) == 0
  {
    PeekEmpty(x, width.bytes);
    Pow2Byte(width.bytes);
  }

  lemma LoadChanges(i: Inst, r: nat)
    requires WellFormed(i) && (i.Load? || i.LoadD? || i.LoadP?) && r in FlowOf(i).written && r < 15
    ensures Changes(i, r)
  {
    var regs := One(r, 1);
    if i.LoadP? {
      FetchEmpty(i.address, LONG);
    } else {
      LoadIs(i, r, regs, map[]);
      FetchEmpty(PlaceOf(i, regs), i.width);
    }
    hide Fetch, PlaceOf;
    Changed(i, r, regs);
  }

  lemma LeaChanges(i: Inst, r: nat)
    requires WellFormed(i) && (i.LeaI? || i.LeaD? || i.LeaP?) && r in FlowOf(i).written && r < 15 && !Kept(i, r)
    ensures Changes(i, r)
  {
    match i {
      case LeaI(s, o, d) =>
        if s == d { WrapZero(o); Changed(i, r, Zeros()); }
        else { Changed(i, r, One(r, if Wrap(o) == 0 then 1 else 0)); }
      case LeaD(b, s, d) =>
        assert Wrap(0) == 0 && Wrap(1) == 1 && Wrap(2) == 2;
        hide Wrap;
        if b == s == d { Changed(i, r, One(r, 1)); }
        else if b == d { Changed(i, r, One(s, 1)); }
        else if s == d { Changed(i, r, One(b, 1)); }
        else { Changed(i, r, One(r, 1)); }
      case LeaP(address, d, _) => Changed(i, r, One(r, if address == 1 then 0 else 1));
    }
  }

  lemma WrapZero(o: int)
    ensures Wrap(o) == 0 <==> o % WORD == 0
  {
    UnsignedWrap(o);
  }

  lemma PopChanges(i: Inst, r: nat)
    requires WellFormed(i) && i.Pop? && r in FlowOf(i).written && r < 15
    ensures Changes(i, r)
  {
    hide Wrap, Fetch;
    assert i.rs[..|i.rs|] == i.rs;
    PoppedEmpty(i.rs, |i.rs|, One(r, 1), r);
    Changed(i, r, One(r, 1));
  }

  lemma {:induction false} PoppedEmpty(rs: seq<nat>, n: nat, regs: seq<int>, r: nat)
    requires n <= |rs| && AreRegs(rs) && |regs| == 16 && r < 16 && (r in rs[..n] || regs[r] == 0)
    ensures Popped(rs, n, regs, map[])[r] == 0
    decreases n
  {
    hide Fetch, AddressOf;
    if n == 0 {
    } else {
      var at := AddressOf(regs[RSP] + 8 * (|rs| - n));
      FetchEmpty(at, LONG);
      assert rs[..n] == rs[..n - 1] + [rs[n - 1]];
      PoppedEmpty(rs, n - 1, regs[rs[n - 1] := Fetch(map[], at, LONG)], r);
    }
  }

  lemma WrittenOf(i: Inst, r: nat)
    requires WellFormed(i) && Plain(i) && r in FlowOf(i).written
    ensures r < 15
    ensures OfAlu(i) || OfCopy(i) || i.Div? || OfLoads(i) || OfLea(i) || i.Pop?
  {
    hide BitsOf;
    if i.Pop? { BitsGeneral(i.rs); }
  }

  lemma BitsGeneral(rs: seq<nat>)
    ensures General(BitsOf(rs))
  {
    hide BitsOf;
  }

  predicate OfAlu(i: Inst) { i.AluRR? || i.AluCR? }
  predicate OfCopy(i: Inst) { i.Swp? || i.Lnot? || i.Land? || i.Cpy? || i.Ext? || i.Abs? || i.CpyC? }
  predicate OfLoads(i: Inst) { i.Load? || i.LoadD? || i.LoadP? }
  predicate OfLea(i: Inst) { i.LeaI? || i.LeaD? || i.LeaP? }

  lemma WrittenChanges(i: Inst, r: nat)
    requires WellFormed(i) && Plain(i) && r in FlowOf(i).written && !Kept(i, r)
    ensures r < 15 && Changes(i, r)
  {
    WrittenOf(i, r);
    hide FlowOf, Kept, Changes;
    if OfAlu(i) { AluChanges(i, r); }
    else if OfCopy(i) { CopyChanges(i, r); }
    else if i.Div? { DivChanges(i, r); }
    else if OfLoads(i) { LoadChanges(i, r); }
    else if OfLea(i) { LeaChanges(i, r); }
    else { PopChanges(i, r); }
  }

  /** A register that is not said to be written is left as it is, but for the stack that is set up. */
  lemma UnwrittenIsLeft(i: Inst, r: nat, regs: seq<int>, mem: Mem)
    requires WellFormed(i) && Plain(i) && r < 15 && r !in FlowOf(i).written && |regs| == 16
    ensures (i.StackInit? && r == i.s) || Exec(i, regs, mem).0[r] == regs[r]
  {
    hide Alu, Divide, Fetch, Poke, Pushed, Popped, Wrap, BitsOf;
    if i.Pop? {
      assert i.rs[..|i.rs|] == i.rs;
      PoppedOthers(i.rs, |i.rs|, regs, mem, r);
    }
  }

  lemma SameOperands(op: Op, x: int)
    requires Number(x) && (op.And? || op.Or? || op.Min? || op.Max?)
    ensures Alu(op, x, x) == x
  {
    BitsWith(x);
  }

  lemma LeaNone(x: int, o: int)
    requires Number(x) && o % WORD == 0
    ensures Wrap(x + o) == x
  {
    assert x - (x + o) == WORD * -(o / WORD);
    WrapIs(x + o, x);
  }

  lemma KeptAlu(i: Inst, r: nat, regs: seq<int>, mem: Mem)
    requires WellFormed(i) && OfAlu(i) && r < 15 && Kept(i, r) && Numbers(regs)
    ensures r in FlowOf(i).written && Exec(i, regs, mem).0[r] == regs[r]
  {
    hide Alu;
    var x := regs[r];
    if i.AluRR? { SameOperands(i.op, x); } else { ConstantKeeps(i.op, i.k, x); }
  }

  lemma KeptRest(i: Inst, r: nat, regs: seq<int>, mem: Mem)
    requires WellFormed(i) && !OfAlu(i) && r < 15 && Kept(i, r) && Numbers(regs)
    ensures r in FlowOf(i).written && Exec(i, regs, mem).0[r] == regs[r]
  {
    hide Wrap;
    var x := regs[r];
    if i.LeaI? { LeaNone(x, i.o); }
  }

  lemma KeptIsNone(i: Inst, r: nat)
    requires WellFormed(i) && r < 15 && Kept(i, r)
    ensures r in FlowOf(i).written && !Changes(i, r)
  {
    hide Exec, FlowOf, Kept;
    forall regs, mem | Numbers(regs) ensures r in FlowOf(i).written && Exec(i, regs, mem).0[r] == regs[r] {
      if OfAlu(i) { KeptAlu(i, r, regs, mem); } else { KeptRest(i, r, regs, mem); }
    }
    assert Numbers(Zeros());
    assert Exec(i, Zeros(), map[]).0[r] == Zeros()[r];
  }

  /** What is said to be written is what can be changed, and what is kept besides, all but the stack
      that is set up. */
  lemma WrittenIff(i: Inst, r: nat)
    requires WellFormed(i) && Plain(i) && r < 15
    ensures r in FlowOf(i).written <==> (Changes(i, r) && !(i.StackInit? && r == i.s)) || Kept(i, r)
    ensures Kept(i, r) ==> !Changes(i, r)
  {
    if i.StackInit? { assert r !in FlowOf(i).written; }
    hide Kept, FlowOf;
    if Kept(i, r) { KeptIsNone(i, r); }
    else if r in FlowOf(i).written { WrittenChanges(i, r); }
    else if Changes(i, r) {
      var regs, mem :| ChangedBy(i, r, regs, mem);
      UnwrittenIsLeft(i, r, regs, mem);
    }
  }

  // ----- calls -----

  /** What a call can go by, in some world. */
  ghost predicate CallTells(i: Inst, called: Called, r: nat, w: World, a: seq<int>, b: seq<int>, mem: Mem,
                            a': seq<int>, m: Mem, b': seq<int>, n: Mem)
    requires i.Call? || i.JmpOut?
  {
    ButFor(r, a, b) && Behaves(w, 0, 0, i, called, a, mem, a', m) && Behaves(w, 0, 0, i, called, b, mem, b', n) && m != n
  }

  /** A world where what one register holds is put in memory, and what is given is 1. */
  function Telling(r: nat): World {
    World((_, _, view: View) => if r in view.taken then map[0 := view.taken[r]] else map[], (_, _, _, _) => 1)
  }

  function Given(regs: seq<int>, gives: Regs): (r: seq<int>)
    requires |regs| == 16
    ensures |r| == 16
  {
    seq(16, q requires 0 <= q < 16 => if q in gives then 1 else regs[q])
  }

  lemma GivenBehaves(i: Inst, called: Called, w: World, regs: seq<int>, gone: seq<int>, mem: Mem)
    requires WellFormed(i) && (i.Call? || i.JmpOut?) && i.called == Some(called) && |regs| == |gone| == 16
    requires forall q: nat | q < 16 && q !in called.trashes :: gone[q] == regs[q]
    requires forall time, at, view, r: nat :: w.give(time, at, view, r) == 1
    ensures Behaves(w, 0, 0, i, called, regs, mem, Given(gone, called.gives),
                    w.mem(0, 0, View(mem, regs[RSP], Taken(regs, Handed(i, called)))))
  {
    hide Handed;
    assert RSP !in called.gives && RSP !in called.trashes;
  }

  lemma TellingIs(r: nat, regs: seq<int>, on: Regs)
    requires |regs| == 16 && r < 15 && r in on
    ensures Telling(r).mem(0, 0, View(map[], regs[RSP], Taken(regs, on))) == map[0 := regs[r]]
  {
  }

  /** A call that is known reads just what the method can go by. */
  lemma CallReadIff(i: Inst, called: Called, r: nat)
    requires WellFormed(i) && (i.Call? || i.JmpOut?) && i.called == Some(called) && r < 15
    ensures r in FlowOf(i).read <==>
            exists w, a, b, mem, a', m, b', n :: CallTells(i, called, r, w, a, b, mem, a', m, b', n)
  {
    assert FlowOf(i).read == Handed(i, called);
    hide Handed, FlowOf, Behaves;
    if r in FlowOf(i).read {
      var w, a, b := Telling(r), Zeros(), One(r, 1);
      GivenBehaves(i, called, w, a, a, map[]);
      GivenBehaves(i, called, w, b, b, map[]);
      TellingIs(r, a, Handed(i, called));
      TellingIs(r, b, Handed(i, called));
      hide Telling;
      var m: Mem, n: Mem := map[0 := 0], map[0 := 1];
      assert m[0] != n[0];
      assert CallTells(i, called, r, w, a, b, map[], Given(a, called.gives), m, Given(b, called.gives), n);
    } else {
      forall w, a, b, mem, a', m, b', n ensures !CallTells(i, called, r, w, a, b, mem, a', m, b', n) {
        UnhandedIsNone(i, called, r, w, a, b, mem, a', m, b', n);
      }
    }
  }

  lemma UnhandedIsNone(i: Inst, called: Called, r: nat, w: World, a: seq<int>, b: seq<int>, mem: Mem,
                       a': seq<int>, m: Mem, b': seq<int>, n: Mem)
    requires (i.Call? || i.JmpOut?) && r !in Handed(i, called)
    ensures !CallTells(i, called, r, w, a, b, mem, a', m, b', n)
  {
    hide Handed;
    assert ButFor(r, a, b) ==> Taken(a, Handed(i, called)) == Taken(b, Handed(i, called));
  }

  ghost predicate CallChanges(i: Inst, called: Called, r: nat, w: World, regs: seq<int>, mem: Mem, after: seq<int>, mem': Mem)
    requires (i.Call? || i.JmpOut?) && r < 15
  {
    Numbers(regs) && Behaves(w, 0, 0, i, called, regs, mem, after, mem') && after[r] != regs[r]
  }

  /** And writes just what the method may change. */
  lemma CallWrittenIff(i: Inst, called: Called, r: nat)
    requires WellFormed(i) && (i.Call? || i.JmpOut?) && i.called == Some(called) && r < 15
    ensures r in FlowOf(i).written <==> exists w, regs, mem, after, mem' :: CallChanges(i, called, r, w, regs, mem, after, mem')
  {
    assert FlowOf(i).written == called.trashes + called.gives;
    hide FlowOf;
    if r in FlowOf(i).written {
      var w, a := Telling(r), Zeros();
      var gone := if r in called.gives then a else a[r := 1];
      GivenBehaves(i, called, w, a, gone, map[]);
      hide Behaves;
      var mem' := w.mem(0, 0, View(map[], a[RSP], Taken(a, Handed(i, called))));
      assert CallChanges(i, called, r, w, a, map[], Given(gone, called.gives), mem');
    }
  }

  /** What can not be followed: a part of itself that is called has nothing wanted before it, and a
      call of what is not known has all that was wanted after it, and each register it has in it. */
  lemma NotFollowed(f: Func, live: seq<Regs>, at: nat, r: nat)
    requires f.Valid() && Solved(CodeOf(f), live) && at < |f.insts| && r < 15
    ensures |live| == |f.insts|
    ensures f.insts[at].CallLocal? ==> r !in live[at]
    ensures f.insts[at].CallR? ==> (r in live[at] <==> r == f.insts[at].d || r in After(CodeOf(f), live, at))
    ensures (f.insts[at].Call? || f.insts[at].JmpOut?) && f.insts[at].called.None? ==>
              (r in live[at] <==> r in f.insts[at].base || r in f.insts[at].named || r in After(CodeOf(f), live, at))
  {
    hide Solved, CodeOf, After, FlowOf;
    LiveBefore(f, live, at);
    UnknownFlow(f.insts[at], r);
  }

  lemma UnknownFlow(i: Inst, r: nat)
    requires r < 15
    ensures i.CallLocal? ==> r !in FlowOf(i).read && r in FlowOf(i).written
    ensures i.CallR? ==> (r in FlowOf(i).read <==> r == i.d) && r !in FlowOf(i).written
    ensures (i.Call? || i.JmpOut?) && i.called.None? ==>
              (r in FlowOf(i).read <==> r in i.base || r in i.named) && r !in FlowOf(i).written
  {
    hide BitsOf;
  }

  // ----- what is next -----

  ghost predicate CanGo(i: Inst, at: nat, n: nat)
    requires WellFormed(i)
  {
    exists regs :: Numbers(regs) && Goes(i, at, regs) == Some(n)
  }

  /** A branch that goes one way whatever the registers are. */
  predicate OneWay(i: Inst) {
    (i.BranchC? && OneAnswer(SetOf(i.cond), i.k)) || (i.BranchR? && i.s == i.d)
  }

  /** `next-of` has just the places in the function that control can go on to, and of a branch that goes
      one way the other as well. */
  lemma NextIff(insts: seq<Inst>, at: nat, n: nat)
    requires at < |insts| && WellFormed(insts[at]) && InRange(NextOf(insts, at), |insts|)
    ensures CanGo(insts[at], at, n) && n < |insts| && !insts[at].Leaves() ==> n in NextOf(insts, at)
    ensures n in NextOf(insts, at) ==> n < |insts| && !insts[at].Leaves() && (CanGo(insts[at], at, n) || OneWay(insts[at]))
  {
    hide Alu, Two, Test, OneAnswer;
    var i := insts[at];
    if n in NextOf(insts, at) && !OneWay(i) {
      if i.BranchC? {
        var (x, y) := Two(SetOf(i.cond), i.k);
        ConstantDiffers(SetOf(i.cond), i.k);
        TestIs(i.cond, i.k, x);
        TestIs(i.cond, i.k, y);
        Ways(i, at, n, One(i.d, x), One(i.d, y));
      } else if i.BranchR? {
        var op := SetOf(i.cond);
        OperandsDiffer(op);
        TestIs(i.cond, 0, OtherD(op));
        TestIs(i.cond, 1, OtherD(op));
        Ways(i, at, n, One(i.d, OtherD(op)), One(i.d, OtherD(op))[i.s := 1]);
      } else {
        Ways(i, at, n, Zeros(), Zeros());
      }
    }
  }

  lemma Ways(i: Inst, at: nat, n: nat, a: seq<int>, b: seq<int>)
    requires WellFormed(i) && Numbers(a) && Numbers(b) && (Goes(i, at, a) == Some(n) || Goes(i, at, b) == Some(n))
    ensures CanGo(i, at, n)
  {
    hide Goes;
  }
}
