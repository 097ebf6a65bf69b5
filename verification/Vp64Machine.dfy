/** The machine as the code has it (src/host/vp64.cpp:93-222, 284-299, 470-501): registers, memory
    and the two numbers compared are assigned to one after another, and the words of an
    instruction are read one after another as the program counter goes by.

    `Vp64.Exec` says what an instruction comes to. Here is what is done, and what the assembler
    writes of a constant (lib/trans/vp64.inc:24-36) and the machine reads back. */
module Vp64Machine {
  import opened Liveness
  import opened Options
  import opened Relies
  import opened Vp64

  // ----- words -----

  const SHORT: nat := 0x1_0000

  predicate AreWords(code: seq<nat>) {
    forall k | 0 <= k < |code| :: code[k] < SHORT
  }

  /** A word read as `int16_t`. */
  function Signed16(w: nat): int {
    if w < 0x8000 then w else w - SHORT
  }

  /** The low 16 bits of a number, as `emitm-short` writes it. */
  function Short(x: int): (w: nat)
    ensures w < SHORT
  {
    x % SHORT
  }

  predicate Within(c: int, limit: int) {
    -limit <= c < limit
  }

  /** Which of the four forms a constant needs: of 4 bits, 20, 36 or 64. */
  function FormOf(c: int): nat {
    if Within(c, 0x8) then 0 else if Within(c, 0x8_0000) then 1 else if Within(c, 0x8_0000_0000) then 2 else 3
  }

  /** `vp64-cr`: an instruction with a constant and a register. */
  function EmitCr(o: nat, c: int, r: nat): (words: seq<nat>)
    ensures AreWords(words)
  {
    match FormOf(c)
    case 0 => [Short(o + r * 0x100 + c * 0x1000)]
    case 1 => [Short(o + 1 + r * 0x100 + c * 0x1000), Short(c / 0x10)]
    case 2 => [Short(o + 2 + r * 0x100 + c * 0x1000), Short(c / 0x10), Short(c / 0x10_0000)]
    case _ => [Short(o + 3 + r * 0x100), Short(c), Short(c / 0x1_0000), Short(c / 0x1_0000_0000), Short(c / 0x1_0000_0000_0000)]
  }

  function Opcode(ir: int): nat {
    ir % 0x100
  }

  function Dr(ir: int): nat {
    ir / 0x100 % 0x10
  }

  function Sr(ir: int): nat {
    ir / 0x1000 % 0x10
  }

  /** The sign of a word makes a difference to its top four bits and to no others. */
  lemma SignedParts(w: nat)
    requires w < SHORT
    ensures var ir := Signed16(w);
            && Opcode(ir) == w % 0x100 && Dr(ir) == w / 0x100 % 0x10
            && ir / 0x1000 == w / 0x1000 - (if w < 0x8000 then 0 else 0x10)
  {
    assert w >= 0x8000 ==> (w - SHORT) / 0x100 == w / 0x100 - 0x100;
  }

  lemma WordParts(x: nat, q: nat)
    requires x < 0x1000 && q < 0x10
    ensures var w := x + q * 0x1000;
            w < SHORT && w % 0x100 == x % 0x100 && w / 0x100 % 0x10 == x / 0x100 && w / 0x1000 == q
  {
    assert (x + q * 0x1000) / 0x100 == x / 0x100 + q * 0x10;
  }

  lemma LowWord(x: nat, c: int)
    requires x < 0x1000
    ensures Short(x + c * 0x1000) == x + c % 0x10 * 0x1000
  {
    assert c == c / 0x10 * 0x10 + c % 0x10;
  }

  lemma FirstWord(x: nat, c: int)
    requires x < 0x1000
    ensures var ir := Signed16(Short(x + c * 0x1000));
            && Opcode(ir) == x % 0x100 && Dr(ir) == x / 0x100 && Sr(ir) == c % 0x10
            && (Within(c, 8) ==> ir / 0x1000 == c)
  {
    var q := c % 0x10;
    LowWord(x, c);
    WordParts(x, q);
    SignedParts(x + q * 0x1000);
    hide Signed16, Short, Opcode, Dr;
  }

  lemma Parts1(c: int)
    requires Within(c, 0x8_0000)
    ensures c % 0x10 + Signed16(Short(c / 0x10)) * 0x10 == c
  {
  }

  lemma Parts2(c: int)
    requires Within(c, 0x8_0000_0000)
    ensures c % 0x10 + Short(c / 0x10) * 0x10 + Signed16(Short(c / 0x10_0000)) * 0x10_0000 == c
  {
    assert c / 0x10_0000 == c / 0x10 / 0x1_0000;
  }

  lemma Parts3(c: int)
    requires -HALF <= c < HALF
    ensures Short(c) + Short(c / 0x1_0000) * 0x1_0000 + Short(c / 0x1_0000_0000) * 0x1_0000_0000
            + Signed16(Short(c / 0x1_0000_0000_0000)) * 0x1_0000_0000_0000 == c
  {
    var a := c / 0x1_0000;
    var b := a / 0x1_0000;
    assert c / 0x1_0000_0000 == b;
    assert c / 0x1_0000_0000_0000 == b / 0x1_0000;
  }

  // ----- the machine -----

  class Machine {
    const code: seq<nat>
    const regs: array<int>
    var pc: nat
    var mem: Mem
    var compare1: int
    var compare2: int

    ghost predicate Valid()
      reads this
    {
      regs.Length == 16 && AreWords(code) && pc <= |code|
    }

    constructor (code: seq<nat>)
      requires AreWords(code)
      ensures Valid() && pc == 0 && fresh(regs) && this.code == code
    {
      this.code := code;
      regs := new int[16];
      pc, mem, compare1, compare2 := 0, map[], 0, 0;
    }

    /** `vd_sc` */
    method Unsigned() returns (w: nat)
      requires Valid() && pc < |code|
      modifies this`pc
      ensures Valid() && pc == old(pc) + 1 && w == code[old(pc)] < SHORT
    {
      w := code[pc];
      pc := pc + 1;
    }

    /** `vd_i` */
    method Next() returns (w: int)
      requires Valid() && pc < |code|
      modifies this`pc
      ensures Valid() && pc == old(pc) + 1 && w == Signed16(code[old(pc)])
    {
      w := Signed16(code[pc]);
      pc := pc + 1;
    }

    /** `vd_c0` to `vd_c3`, by the form of the opcode. */
    method Constant(ir: int, form: nat) returns (c: int)
      requires Valid() && form < 4 && pc + (if form == 3 then 4 else form) <= |code|
      modifies this`pc
      ensures Valid() && pc == old(pc) + (if form == 3 then 4 else form)
      ensures form == 0 ==> c == ir / 0x1000
      ensures form == 1 ==> c == Sr(ir) + Signed16(code[old(pc)]) * 0x10
      ensures form == 2 ==> c == Sr(ir) + code[old(pc)] * 0x10 + Signed16(code[old(pc) + 1]) * 0x10_0000
      ensures form == 3 ==> c == code[old(pc)] + code[old(pc) + 1] * 0x1_0000 + code[old(pc) + 2] * 0x1_0000_0000
                                 + Signed16(code[old(pc) + 3]) * 0x1_0000_0000_0000
    {
      if form == 0 {
        c := ir / 0x1000;
      } else if form == 1 {
        var o1 := Next();
        c := Sr(ir) + o1 * 0x10;
      } else if form == 2 {
        var o1 := Unsigned();
        var o2 := Next();
        c := Sr(ir) + o1 * 0x10 + o2 * 0x10_0000;
      } else {
        var o0 := Unsigned();
        var o1 := Unsigned();
        var o2 := Unsigned();
        var o3 := Next();
        c := o0 + o1 * 0x1_0000 + o2 * 0x1_0000_0000 + o3 * 0x1_0000_0000_0000;
      }
    }

    // ----- what is done -----

    method SetTo(d: nat, v: int)
      requires Valid() && d < 16
      modifies regs
      ensures regs[..] == old(regs[..])[d := v]
    {
      regs[d] := v;
    }

    /** The operations on a register and a number: a `min` or a `max` assigns only if it has to. */
    method Operate(op: Op, s: int, d: nat)
      requires Valid() && d < 16
      modifies regs
      ensures regs[..] == old(regs[..])[d := Alu(op, s, old(regs[d]))]
    {
      match op {
        case Min => if s < regs[d] { regs[d] := s; }
        case Max => if s > regs[d] { regs[d] := s; }
        case _ => regs[d] := Alu(op, s, regs[d]);
      }
      assert regs[..] == old(regs[..])[d := regs[d]];
    }

    method Swap(s: nat, d: nat)
      requires Valid() && s < 16 && d < 16
      modifies regs
      ensures regs[..] == old(regs[..])[d := old(regs[s])][s := old(regs[d])]
    {
      var t := regs[d];
      regs[d] := regs[s];
      regs[s] := t;
    }

    /** `vp_div_rrr` and `vp_div_rrr_u`: both numbers are read before either answer is put. */
    method Quotient(signed: bool, q: nat, left: nat, d: nat)
      requires Valid() && q < 16 && left < 16 && d < 16
      modifies regs
      ensures regs[..] == Exec(Div(signed, q, left, d), old(regs[..]), mem).0
    {
      hide Wrap, Pow2;
      var n, m := regs[d], regs[q];
      if Vp64.Unsigned(m) == 0 {
        regs[left] := n;
        regs[d] := 0;
      } else if signed && m == -1 {
        regs[d] := Wrap(-n);
        regs[left] := 0;
      } else {
        regs[d] := Divide(signed, n, m).1;
        regs[left] := Divide(signed, n, m).0;
      }
    }

    /** `emit-push`: the room first, and then a store for each, from the last. */
    method PushAll(rs: seq<nat>)
      requires Valid() && AreRegs(rs)
      modifies regs, this`mem
      ensures (regs[..], mem) == Exec(Push(rs), old(regs[..]), old(mem))
    {
      hide Poke, Wrap;
      ghost var was := mem;
      regs[RSP] := Wrap(regs[RSP] - 8 * |rs|);
      ghost var below := regs[..];
      assert below == old(regs[..])[RSP := Wrap(old(regs[RSP]) - 8 * |rs|)];
      var n := |rs|;
      while n > 0
        invariant 0 <= n <= |rs| && regs[..] == below
        invariant Pushed(rs, n, below, mem) == Pushed(rs, |rs|, below, was)
      {
        mem := Poke(mem, AddressOf(regs[RSP] + 8 * (|rs| - n)), 8, regs[rs[n - 1]]);
        n := n - 1;
      }
    }

    /** `emit-pop`: a load for each, from the last, and then the room is given back. */
    method PopAll(rs: seq<nat>)
      requires Valid() && AreRegs(rs)
      modifies regs
      ensures (regs[..], mem) == Exec(Pop(rs), old(regs[..]), mem)
    {
      hide Fetch, Wrap;
      ghost var was := regs[..];
      var n := |rs|;
      while n > 0
        invariant 0 <= n <= |rs|
        invariant Popped(rs, n, regs[..], mem) == Popped(rs, |rs|, was, mem)
      {
        ghost var before := regs[..];
        regs[rs[n - 1]] := Fetch(mem, AddressOf(regs[RSP] + 8 * (|rs| - n)), Width(8, true));
        assert regs[..] == before[rs[n - 1] := regs[rs[n - 1]]];
        n := n - 1;
      }
      ghost var loaded := regs[..];
      regs[RSP] := Wrap(regs[RSP] + 8 * |rs|);
      assert regs[..] == loaded[RSP := regs[RSP]];
    }

    method InitStack(s: nat, f: nat, x: nat)
      requires Valid() && s < 16 && f < 16 && x < 16
      modifies regs, this`mem
      ensures (regs[..], mem) == Exec(StackInit(s, f, x), old(regs[..]), old(mem))
    {
      hide Poke, Wrap;
      regs[s] := Wrap(regs[s] - 16);
      assert regs[..] == old(regs[..])[s := regs[s]];
      mem := Poke(mem, AddressOf(regs[s]), 8, regs[f]);
      mem := Poke(mem, AddressOf(regs[s] + 8), 8, regs[x]);
    }

    /** A compare puts down its two numbers, and the branch after it goes by those. */
    method Branch(cond: Cond, c1: int, c2: int, at: nat, to: Option<nat>) returns (next: Option<nat>)
      modifies this`compare1, this`compare2
      ensures compare1 == c1 && compare2 == c2
      ensures next == if Test(cond, c1, c2) then to else Some(at + 1)
    {
      compare1 := c1;
      compare2 := c2;
      next := if Test(cond, compare1, compare2) then to else Some(at + 1);
    }

    /** What the assembler wrote of a constant and a register is what the machine reads: the
        form that is the smallest the constant fits, of the opcode at `o` and the three after it,
        the register, and the constant, and it has gone by just those words. */
    method ReadCr(o: nat, ghost c: int, ghost r: nat) returns (form: nat, value: int, dr: nat)
      requires Valid() && o <= 0xfc && r < 16 && -HALF <= c < HALF
      requires pc + |EmitCr(o, c, r)| <= |code| && code[pc..pc + |EmitCr(o, c, r)|] == EmitCr(o, c, r)
      modifies this`pc
      ensures Valid() && pc == old(pc) + |EmitCr(o, c, r)|
      ensures form == FormOf(c) && value == c && dr == r
    {
      ghost var words := EmitCr(o, c, r);
      assert forall k | 0 <= k < |words| :: code[pc + k] == words[k];
      CrForms(o, c, r);
      var ir := Next();
      form, dr := Opcode(ir) - o, Dr(ir);
      value := Constant(ir, form);
    }

    /** What is written of an operation with a constant, run: the words are read, and it is done. */
    method RunCr(o: nat, op: Op, ghost c: int, ghost r: nat)
      requires Valid() && o <= 0xfc && r < 16 && -HALF <= c < HALF
      requires pc + |EmitCr(o, c, r)| <= |code| && code[pc..pc + |EmitCr(o, c, r)|] == EmitCr(o, c, r)
      modifies this`pc, regs
      ensures Valid() && pc == old(pc) + |EmitCr(o, c, r)|
      ensures (regs[..], mem) == Exec(AluCR(op, c, r), old(regs[..]), mem)
    {
      hide EmitCr, Alu;
      var form, value, dr := ReadCr(o, c, r);
      Operate(op, value, dr);
    }

    method DoRegisters(i: Inst)
      requires Valid() && WellFormed(i) && OfRegisters(i)
      modifies regs
      ensures (regs[..], mem) == Exec(i, old(regs[..]), mem)
    {
      hide Alu, Divide, Wrap;
      match i {
        case AluRR(op, s, d) => Operate(op, regs[s], d);
        case AluCR(op, k, d) => Operate(op, k, d);
        case Swp(s, d) => Swap(s, d);
        case Lnot(s, d) => SetTo(d, if regs[d] == 0 then 1 else 0);
        case Land(s, d) => SetTo(d, if regs[d] != 0 && regs[s] != 0 then 1 else 0);
        case Cpy(s, d) => SetTo(d, regs[s]);
        case Ext(s, d) => SetTo(d, if regs[s] < 0 then -1 else 0);
        case Abs(s, d) =>
          var t := regs[s];
          SetTo(d, if t < 0 then Wrap(-t) else t);
        case CpyC(k, d) => SetTo(d, k);
        case Div(signed, q, left, d) => Quotient(signed, q, left, d);
      }
    }

    method DoLoad(i: Inst)
      requires Valid() && WellFormed(i) && OfLoad(i)
      modifies regs
      ensures (regs[..], mem) == Exec(i, old(regs[..]), mem)
    {
      hide Wrap, Fetch, AddressOf;
      match i {
        case Load(width, s, o, d) => SetTo(d, Fetch(mem, AddressOf(regs[s] + o), width));
        case LeaI(s, o, d) => SetTo(d, Wrap(regs[s] + o));
        case LoadD(width, b, s, d) => SetTo(d, Fetch(mem, AddressOf(regs[b] + regs[s]), width));
        case LeaD(b, s, d) => SetTo(d, Wrap(regs[b] + regs[s]));
        case LoadP(address, d) => SetTo(d, Fetch(mem, address, Width(8, true)));
        case LeaP(address, d, _) => SetTo(d, address);
      }
    }

    method DoStack(i: Inst)
      requires Valid() && WellFormed(i) && OfStack(i)
      modifies regs, this`mem
      ensures (regs[..], mem) == Exec(i, old(regs[..]), old(mem))
    {
      hide Wrap, Pushed, Popped, Poke, AddressOf;
      match i {
        case Store(bytes, s, d, o) => mem := Poke(mem, AddressOf(regs[d] + o), bytes, regs[s]);
        case StoreD(bytes, s, b, d) => mem := Poke(mem, AddressOf(regs[b] + regs[d]), bytes, regs[s]);
        case Alloc(bytes) => SetTo(RSP, Wrap(regs[RSP] - (bytes + 7) / 8 * 8));
        case Free(bytes) => SetTo(RSP, Wrap(regs[RSP] + (bytes + 7) / 8 * 8));
        case Push(rs) => PushAll(rs);
        case Pop(rs) => PopAll(rs);
        case StackInit(s, f, x) => InitStack(s, f, x);
      }
    }

    /** An instruction of a function that is not a call: what it assigns, in its order, comes to
        what `Exec` says, and control goes on where `Goes` says. */
    method Do(i: Inst, at: nat) returns (next: Option<nat>)
      requires Valid() && WellFormed(i) && !i.Call? && !i.JmpOut? && !i.CallR? && !i.CallLocal?
      modifies regs, this`mem, this`compare1, this`compare2
      ensures (regs[..], mem) == Exec(i, old(regs[..]), old(mem))
      ensures next == Goes(i, at, old(regs[..]))
    {
      hide Wrap, Test;
      next := Some(at + 1);
      if OfRegisters(i) {
        hide Exec;
        DoRegisters(i);
      } else if OfLoad(i) {
        hide Exec;
        DoLoad(i);
      } else if OfStack(i) {
        hide Exec;
        DoStack(i);
      } else {
        match i {
          case BranchC(cond, k, d, to) => next := Branch(cond, regs[d], k, at, to);
          case BranchR(cond, s, d, to) => next := Branch(cond, regs[d], regs[s], at, to);
          case Jmp(to) => next := to;
          case Ret => SetTo(RSP, Wrap(regs[RSP] + 8));
          case _ =>
        }
      }
    }
  }

  predicate OfRegisters(i: Inst) {
    i.AluRR? || i.AluCR? || i.Swp? || i.Lnot? || i.Land? || i.Cpy? || i.Ext? || i.Abs? || i.CpyC? || i.Div?
  }

  predicate OfLoad(i: Inst) {
    i.Load? || i.LeaI? || i.LoadD? || i.LeaD? || i.LoadP? || i.LeaP?
  }

  predicate OfStack(i: Inst) {
    i.Store? || i.StoreD? || i.Alloc? || i.Free? || i.Push? || i.Pop? || i.StackInit?
  }

  lemma CrForms(o: nat, c: int, r: nat)
    requires o <= 0xfc && r < 16 && -HALF <= c < HALF
    ensures var words, form := EmitCr(o, c, r), FormOf(c);
            var ir := Signed16(words[0]);
            && |words| == 1 + (if form == 3 then 4 else form)
            && Opcode(ir) == o + form && Dr(ir) == r
            && (form == 0 ==> ir / 0x1000 == c)
            && (form == 1 ==> Sr(ir) + Signed16(words[1]) * 0x10 == c)
            && (form == 2 ==> Sr(ir) + words[1] * 0x10 + Signed16(words[2]) * 0x10_0000 == c)
            && (form == 3 ==> words[1] + words[2] * 0x1_0000 + words[3] * 0x1_0000_0000
                              + Signed16(words[4]) * 0x1_0000_0000_0000 == c)
  {
    var form := FormOf(c);
    var x := o + form + r * 0x100;
    FirstWord(x, if form == 3 then 0 else c);
    if form == 1 { Parts1(c); }
    if form == 2 { Parts2(c); }
    if form == 3 { Parts3(c); }
  }
}
