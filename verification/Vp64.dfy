/** The integer part of the VP64 machine (src/host/vp64.cpp:93-222), an instruction
    at a time as the assembler writes them (lib/trans/vp64.inc:36-297): a branch is a
    compare and a branch, a push is stores below the stack pointer. Registers hold
    64-bit two's complement numbers and memory is bytes, the low one first. */
module Vp64 {
  import opened Liveness
  import opened Options
  import opened Relies

  const WORD: int := 0x1_0000_0000_0000_0000
  const HALF: int := 0x8000_0000_0000_0000

  /** The stack pointer, which is not one of the general registers. */
  const RSP: nat := 15

  type Mem = map<int, int>

  // ----- numbers -----

  function Wrap(x: int): (w: int)
    ensures -HALF <= w < HALF
    ensures -HALF <= x < HALF ==> w == x
  {
    (x + HALF) % WORD - HALF
  }

  function Unsigned(x: int): int {
    x % WORD
  }

  /** What a register can hold. */
  predicate Number(x: int) {
    -HALF <= x < HALF
  }

  predicate Numbers(regs: seq<int>) {
    |regs| == 16 && forall r | 0 <= r < 16 :: Number(regs[r])
  }

  function Pow2(n: nat): (p: int)
    ensures p > 0
  {
    if n == 0 then 1 else 2 * Pow2(n - 1)
  }

  datatype Op =
    | Add | Sub | Mul | And | Or | Xor | Shl | Shr | Asr | Min | Max
    | Seq | Sne | Slt | Sgt | Sle | Sge

  /** The low `n` bits of an `and`, an `or` or an `xor`. */
  function Bitwise(op: Op, a: int, b: int, n: nat): int
    decreases n
  {
    if n == 0 then 0 else
      var x, y := a % 2, b % 2;
      var bit := match op
        case And => x * y
        case Or => if x + y > 0 then 1 else 0
        case _ => (x + y) % 2;
      bit + 2 * Bitwise(op, a / 2, b / 2, n - 1)
  }

  function Truth(b: bool): int {
    if b then 1 else 0
  }

  /** What `d` becomes, of what it was and the other operand. A shift is by the low 6 bits. */
  function Alu(op: Op, s: int, d: int): int {
    match op
    case Add => Wrap(d + s)
    case Sub => Wrap(d - s)
    case Mul => Wrap(d * s)
    case And => Wrap(Bitwise(op, d, s, 64))
    case Or => Wrap(Bitwise(op, d, s, 64))
    case Xor => Wrap(Bitwise(op, d, s, 64))
    case Shl => Wrap(Unsigned(d) * Pow2(s % 64))
    case Shr => Wrap(Unsigned(d) / Pow2(s % 64))
    case Asr => d / Pow2(s % 64)
    case Min => if s < d then s else d
    case Max => if s > d then s else d
    case Seq => Truth(d == s)
    case Sne => Truth(d != s)
    case Slt => Truth(d < s)
    case Sgt => Truth(d > s)
    case Sle => Truth(d <= s)
    case Sge => Truth(d >= s)
  }

  /** A divide, toward 0: what is left over, and the answer. By 0 the answer is 0. */
  function Divide(signed: bool, n: int, d: int): (int, int) {
    if Unsigned(d) == 0 then (n, 0)
    else if !signed then (Wrap(Unsigned(n) % Unsigned(d)), Wrap(Unsigned(n) / Unsigned(d)))
    else if d == -1 then (0, Wrap(-n))
    else
      var an, ad := if n < 0 then -n else n, if d < 0 then -d else d;
      var answer := if (n < 0) == (d < 0) then an / ad else -(an / ad);
      (n - answer * d, answer)
  }

  datatype Cond = Eq | Ne | Lt | Gt | Le | Ge

  predicate Test(cond: Cond, compare1: int, compare2: int) {
    match cond
    case Eq => compare1 == compare2
    case Ne => compare1 != compare2
    case Lt => compare1 < compare2
    case Gt => compare1 > compare2
    case Le => compare1 <= compare2
    case Ge => compare1 >= compare2
  }

  // ----- memory -----

  function Peek(mem: Mem, a: int, n: nat): int
    decreases n
  {
    if n == 0 then 0 else (if a in mem then mem[a] else 0) + 256 * Peek(mem, a + 1, n - 1)
  }

  function Poke(mem: Mem, a: int, n: nat, v: int): Mem
    decreases n
  {
    if n == 0 then mem else Poke(mem[a := v % 256], a + 1, n - 1, v / 256)
  }

  /** How wide a place is, in bytes, and if it is read as a signed number. */
  datatype Width = Width(bytes: nat, signed: bool)

  function Fetch(mem: Mem, a: int, width: Width): int {
    var v := Peek(mem, a, width.bytes);
    if width.signed && v >= Pow2(8 * width.bytes) / 2 then v - Pow2(8 * width.bytes) else Wrap(v)
  }

  // ----- instructions -----

  datatype Inst =
    | Nothing
    | AluRR(op: Op, s: nat, d: nat)
    | AluCR(op: Op, k: int, d: nat)
    | Swp(s: nat, d: nat)
    | Lnot(s: nat, d: nat)
    | Land(s: nat, d: nat)
    | Cpy(s: nat, d: nat)
    | Ext(s: nat, d: nat)
    | Abs(s: nat, d: nat)
    | CpyC(k: int, d: nat)
    | Div(signed: bool, q: nat, left: nat, d: nat)
    | BranchC(cond: Cond, k: int, d: nat, to: Option<nat>)
    | BranchR(cond: Cond, s: nat, d: nat, to: Option<nat>)
    | Load(width: Width, s: nat, o: int, d: nat)
    | LeaI(s: nat, o: int, d: nat)
    | Store(bytes: nat, s: nat, d: nat, o: int)
    | LoadD(width: Width, b: nat, s: nat, d: nat)
    | LeaD(b: nat, s: nat, d: nat)
    | StoreD(bytes: nat, s: nat, b: nat, d: nat)
    | LoadP(address: int, d: nat)
    | LeaP(address: int, d: nat, to: Option<nat>)
    | Alloc(bytes: nat)
    | Free(bytes: nat)
    | Push(rs: seq<nat>)
    | Pop(rs: seq<nat>)
    | Trash(rs: seq<nat>)
    | StackInit(s: nat, f: nat, x: nat)
    | Jmp(to: Option<nat>)
    | Ret
    | JmpR(d: nat)
    | CallR(d: nat)
    | CallLocal(to: Option<nat>)
    | Call(base: seq<nat>, named: seq<nat>, called: Option<Called>)
    | JmpOut(base: seq<nat>, named: seq<nat>, called: Option<Called>)
  {
    predicate Leaves() {
      Ret? || JmpR? || JmpOut?
    }
  }

  predicate AreRegs(rs: seq<nat>) {
    forall i | 0 <= i < |rs| :: rs[i] < 16
  }

  predicate General(rs: Regs) {
    forall r | r in rs :: r < 15
  }

  /** A method is declared of general registers. */
  predicate Declared(called: Called) {
    General(called.trashes) && General(called.takes) && General(called.gives)
  }

  predicate Sized(bytes: nat) {
    bytes == 1 || bytes == 2 || bytes == 4 || bytes == 8
  }

  /** Every register an instruction names is one there is, its constant or its address is one that can
      be written, and its place in memory is of a size there is. */
  predicate WellFormed(i: Inst) {
    match i
    case AluRR(_, s, d) => s < 16 && d < 16
    case AluCR(_, k, d) => Number(k) && d < 16
    case Swp(s, d) => s < 16 && d < 16
    case Lnot(s, d) => s < 16 && d < 16
    case Land(s, d) => s < 16 && d < 16
    case Cpy(s, d) => s < 16 && d < 16
    case Ext(s, d) => s < 16 && d < 16
    case Abs(s, d) => s < 16 && d < 16
    case CpyC(k, d) => Number(k) && d < 16
    case Div(_, q, left, d) => q < 16 && left < 16 && d < 16
    case BranchC(_, k, d, _) => Number(k) && d < 16
    case BranchR(_, s, d, _) => s < 16 && d < 16
    case Load(width, s, _, d) => Sized(width.bytes) && s < 16 && d < 16
    case LeaI(s, _, d) => s < 16 && d < 16
    case Store(bytes, s, d, _) => Sized(bytes) && s < 16 && d < 16
    case LoadD(width, b, s, d) => Sized(width.bytes) && b < 16 && s < 16 && d < 16
    case LeaD(b, s, d) => b < 16 && s < 16 && d < 16
    case StoreD(bytes, s, b, d) => Sized(bytes) && s < 16 && b < 16 && d < 16
    case LoadP(address, d) => Number(address) && d < 16
    case LeaP(address, d, _) => Number(address) && d < 16
    case Push(rs) => AreRegs(rs)
    case Pop(rs) => AreRegs(rs)
    case Trash(rs) => AreRegs(rs)
    case StackInit(s, f, x) => s < 16 && f < 16 && x < 16
    case JmpR(d) => d < 16
    case CallR(d) => d < 16
    case Call(base, named, called) => AreRegs(base) && AreRegs(named) && (called.Some? ==> Declared(called.value))
    case JmpOut(base, named, called) => AreRegs(base) && AreRegs(named) && (called.Some? ==> Declared(called.value))
    case _ => true
  }

  // ----- what an instruction reads and writes, as `flow-of` says -----

  /** `bit-of`: the stack pointer is not a general register and has no bit. */
  function BitOf(r: nat): Regs {
    if r < 15 then {r} else {}
  }

  function BitsOf(rs: seq<nat>): (bits: Regs)
    ensures forall r :: r in bits <==> r in rs && r < 15
  {
    if rs == [] then {} else BitsOf(rs[..|rs| - 1]) + BitOf(rs[|rs| - 1])
  }

  /** cmd/relies.lisp:98-131, and for calls and jumps out the map of lines 218-240. */
  function FlowOf(i: Inst): Flow {
    match i
    case Nothing => Flow({}, {})
    case AluRR(op, s, d) =>
      if (op.Xor? || op.Sub?) && BitOf(s) == BitOf(d) then Flow({}, BitOf(d))
      else Flow(BitOf(s) + BitOf(d), BitOf(d))
    case AluCR(_, _, d) => Flow(BitOf(d), BitOf(d))
    case Swp(s, d) => Flow(BitOf(s) + BitOf(d), BitOf(s) + BitOf(d))
    case Lnot(s, d) => Flow(BitOf(s) + BitOf(d), BitOf(s) + BitOf(d))
    case Land(s, d) => Flow(BitOf(s) + BitOf(d), BitOf(s) + BitOf(d))
    case Cpy(s, d) => Flow(BitOf(s), BitOf(d))
    case Ext(s, d) => Flow(BitOf(s), BitOf(d))
    case Abs(s, d) => Flow(BitOf(s), BitOf(d))
    case CpyC(_, d) => Flow({}, BitOf(d))
    case Div(_, q, left, d) => Flow(BitOf(q) + BitOf(left) + BitOf(d), BitOf(left) + BitOf(d))
    case BranchC(_, _, d, _) => Flow(BitOf(d), {})
    case BranchR(_, s, d, _) => Flow(BitOf(s) + BitOf(d), {})
    case Load(_, s, _, d) => Flow(BitOf(s), BitOf(d))
    case LeaI(s, _, d) => Flow(BitOf(s), BitOf(d))
    case Store(_, s, d, _) => Flow(BitOf(s) + BitOf(d), {})
    case LoadD(_, b, s, d) => Flow(BitOf(b) + BitOf(s), BitOf(d))
    case LeaD(b, s, d) => Flow(BitOf(b) + BitOf(s), BitOf(d))
    case StoreD(_, s, b, d) => Flow(BitOf(s) + BitOf(b) + BitOf(d), {})
    case LoadP(_, d) => Flow({}, BitOf(d))
    case LeaP(_, d, _) => Flow({}, BitOf(d))
    case Alloc(_) => Flow({}, {})
    case Free(_) => Flow({}, {})
    case Push(rs) => Flow(BitsOf(rs), {})
    case Pop(rs) => Flow({}, BitsOf(rs))
    case Trash(rs) => Flow({}, BitsOf(rs))
    case StackInit(s, f, x) => Flow(BitsOf([s, f, x]), {})
    case Jmp(_) => Flow({}, {})
    case Ret => Flow({}, {})
    case JmpR(d) => Flow(BitOf(d), {})
    case CallR(d) => Flow(BitOf(d), {})
    case CallLocal(_) => Flow({}, {0, 1, 2, 3, 4, 5, 6, 7, 8, 9, 10, 11, 12, 13, 14})
    case Call(base, named, called) => CallFlow(base, named, called)
    case JmpOut(base, named, called) => CallFlow(base, named, called)
  }

  function CallFlow(base: seq<nat>, named: seq<nat>, called: Option<Called>): Flow {
    match called
    case Some(c) => Flow(BitsOf(base) + c.takes, c.trashes + c.gives)
    case None => Flow(BitsOf(base) + BitsOf(named), {})
  }

  // ----- what an instruction does -----

  function AddressOf(x: int): int {
    Wrap(x)
  }

  /** The stores of a push, from the last register named, which is lowest, to the first. */
  function Pushed(rs: seq<nat>, n: nat, regs: seq<int>, mem: Mem): Mem
    requires n <= |rs| && AreRegs(rs) && |regs| == 16
    decreases n
  {
    if n == 0 then mem
    else Pushed(rs, n - 1, regs, Poke(mem, AddressOf(regs[RSP] + 8 * (|rs| - n)), 8, regs[rs[n - 1]]))
  }

  /** The loads of a pop, from the last register named to the first. */
  function Popped(rs: seq<nat>, n: nat, regs: seq<int>, mem: Mem): (r: seq<int>)
    requires n <= |rs| && AreRegs(rs) && |regs| == 16
    ensures |r| == 16
    decreases n
  {
    if n == 0 then regs
    else
      var v := Fetch(mem, AddressOf(regs[RSP] + 8 * (|rs| - n)), Width(8, true));
      Popped(rs, n - 1, regs[rs[n - 1] := v], mem)
  }

  /** The registers and memory after an instruction that is not a call. */
  function Exec(i: Inst, regs: seq<int>, mem: Mem): (after: (seq<int>, Mem))
    requires WellFormed(i) && |regs| == 16
    ensures |after.0| == 16
  {
    match i
    case AluRR(op, s, d) => (regs[d := Alu(op, regs[s], regs[d])], mem)
    case AluCR(op, k, d) => (regs[d := Alu(op, k, regs[d])], mem)
    case Swp(s, d) => (regs[d := regs[s]][s := regs[d]], mem)
    case Lnot(s, d) => (regs[d := Truth(regs[d] == 0)], mem)
    case Land(s, d) => (regs[d := Truth(regs[d] != 0 && regs[s] != 0)], mem)
    case Cpy(s, d) => (regs[d := regs[s]], mem)
    case Ext(s, d) => (regs[d := if regs[s] < 0 then -1 else 0], mem)
    case Abs(s, d) => (regs[d := if regs[s] < 0 then Wrap(-regs[s]) else regs[s]], mem)
    case CpyC(k, d) => (regs[d := k], mem)
    case Div(signed, q, left, d) =>
      var (over, answer) := Divide(signed, regs[d], regs[q]);
      // by 0 what is left over is written first, and else the answer is
      (if Unsigned(regs[q]) == 0 then regs[left := over][d := answer] else regs[d := answer][left := over], mem)
    case Load(width, s, o, d) => (regs[d := Fetch(mem, AddressOf(regs[s] + o), width)], mem)
    case LeaI(s, o, d) => (regs[d := Wrap(regs[s] + o)], mem)
    case Store(bytes, s, d, o) => (regs, Poke(mem, AddressOf(regs[d] + o), bytes, regs[s]))
    case LoadD(width, b, s, d) => (regs[d := Fetch(mem, AddressOf(regs[b] + regs[s]), width)], mem)
    case LeaD(b, s, d) => (regs[d := Wrap(regs[b] + regs[s])], mem)
    case StoreD(bytes, s, b, d) => (regs, Poke(mem, AddressOf(regs[b] + regs[d]), bytes, regs[s]))
    case LoadP(address, d) => (regs[d := Fetch(mem, address, Width(8, true))], mem)
    case LeaP(address, d, _) => (regs[d := address], mem)
    case Alloc(bytes) => (regs[RSP := Wrap(regs[RSP] - (bytes + 7) / 8 * 8)], mem)
    case Free(bytes) => (regs[RSP := Wrap(regs[RSP] + (bytes + 7) / 8 * 8)], mem)
    case Push(rs) =>
      var below := regs[RSP := Wrap(regs[RSP] - 8 * |rs|)];
      (below, Pushed(rs, |rs|, below, mem))
    case Pop(rs) =>
      var loaded := Popped(rs, |rs|, regs, mem);
      (loaded[RSP := Wrap(loaded[RSP] + 8 * |rs|)], mem)
    case StackInit(s, f, x) =>
      var made := regs[s := Wrap(regs[s] - 16)];
      var first := Poke(mem, AddressOf(made[s]), 8, made[f]);
      (made, Poke(first, AddressOf(made[s] + 8), 8, made[x]))
    case Ret => (regs[RSP := Wrap(regs[RSP] + 8)], mem)
    case _ => (regs, mem)
  }

  /** Where control goes, in the function, if it goes on in it. */
  function Goes(i: Inst, at: nat, regs: seq<int>): Option<nat>
    requires WellFormed(i) && |regs| == 16
  {
    match i
    case BranchC(cond, k, d, to) => if Test(cond, regs[d], k) then to else Some(at + 1)
    case BranchR(cond, s, d, to) => if Test(cond, regs[d], regs[s]) then to else Some(at + 1)
    case Jmp(to) => to
    case _ => Some(at + 1)
  }
}
