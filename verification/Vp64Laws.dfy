/** Laws of the machine that are not read off `Exec`: what is stored comes back, a push and a pop
    are opposite, and what the arithmetic comes to (src/host/vp64.cpp:93-222,
    lib/trans/vp64.inc:278-297). */
module Vp64Laws {
  import opened Options
  import opened Vp64

  // ----- division -----

  lemma ModIs(x: int, m: int, t: int, u: int)
    requires 0 < m && 0 <= u < m && x == m * t + u
    ensures x % m == u && x / m == t
  {
    var q, r := x / m, x % m;
    assert x == m * q + r;
    assert m * (t - q) == r - u by { assert m * (t - q) == m * t - m * q; }
    assert m * (q - t) == -(m * (t - q));
    if t - q >= 1 { TimesAtLeast(m, t - q); }
    if q - t >= 1 { TimesAtLeast(m, q - t); }
  }

  lemma TimesAtLeast(m: int, k: int)
    requires 0 < m && 1 <= k
    ensures m <= m * k
  {
  }

  /** The low byte, and what is over it. */
  lemma ModSplit(v: int, p: int)
    requires 0 < p
    ensures v % (256 * p) == v % 256 + 256 * (v / 256 % p)
  {
    var q := v / 256;
    var t, u := q / p, q % p;
    assert q == p * t + u;
    assert v == (256 * p) * t + (256 * u + v % 256) by { assert (256 * p) * t == 256 * (p * t); }
    ModIs(v, 256 * p, t, 256 * u + v % 256);
  }

  lemma {:induction false} Pow2Add(m: nat, n: nat)
    ensures Pow2(m + n) == Pow2(m) * Pow2(n)
  {
    if m == 0 {
    } else {
      Pow2Add(m - 1, n);
      assert Pow2(m + n) == 2 * Pow2(m - 1 + n);
      assert Pow2(m) * Pow2(n) == 2 * (Pow2(m - 1) * Pow2(n));
    }
  }

  lemma Pow2Byte(n: nat)
    requires n > 0
    ensures Pow2(8) == 256 && Pow2(8 * n) == 256 * Pow2(8 * (n - 1))
  {
    Pow2Add(8, 8 * (n - 1));
    assert 8 + 8 * (n - 1) == 8 * n;
  }

  lemma Pow2Word()
    ensures Pow2(63) == HALF && Pow2(64) == WORD
  {
    Pow2Add(32, 32);
    Pow2Add(16, 16);
    Pow2Add(8, 8);
    assert Pow2(8) == 256;
    assert Pow2(64) == 2 * Pow2(63);
  }

  // ----- memory -----

  /** What a byte holds, 0 if nothing has been put there. */
  function ByteAt(mem: Mem, x: int): int {
    if x in mem then mem[x] else 0
  }

  ghost predicate SameBytes(a: Mem, b: Mem, low: int, high: int) {
    forall x | low <= x < high :: ByteAt(a, x) == ByteAt(b, x)
  }

  lemma {:induction false} PeekSame(a: Mem, b: Mem, at: int, n: nat)
    requires SameBytes(a, b, at, at + n)
    ensures Peek(a, at, n) == Peek(b, at, n)
    decreases n
  {
    if n == 0 {
    } else {
      assert ByteAt(a, at) == ByteAt(b, at);
      PeekSame(a, b, at + 1, n - 1);
    }
  }

  /** A store leaves every byte it is not of as it was. */
  lemma {:induction false} PokeFrame(mem: Mem, at: int, n: nat, v: int, x: int)
    requires x < at || at + n <= x
    ensures (x in Poke(mem, at, n, v) <==> x in mem) && ByteAt(Poke(mem, at, n, v), x) == ByteAt(mem, x)
    decreases n
  {
    if n == 0 {
    } else {
      PokeFrame(mem[at := v % 256], at + 1, n - 1, v / 256, x);
    }
  }

  /** And puts something in every byte it is of. */
  lemma {:induction false} PokePuts(mem: Mem, at: int, n: nat, v: int, x: int)
    requires at <= x < at + n
    ensures x in Poke(mem, at, n, v)
    decreases n
  {
    if x == at {
      PokeFrame(mem[at := v % 256], at + 1, n - 1, v / 256, x);
    } else {
      PokePuts(mem[at := v % 256], at + 1, n - 1, v / 256, x);
    }
  }

  /** What is read where something was put is what of it there was room for. */
  lemma {:induction false} PeekPoke(mem: Mem, at: int, n: nat, v: int)
    ensures Peek(Poke(mem, at, n, v), at, n) == v % Pow2(8 * n)
    decreases n
  {
    if n == 0 {
    } else {
      PeekPoke(mem[at := v % 256], at + 1, n - 1, v / 256);
      PokeFrame(mem[at := v % 256], at + 1, n - 1, v / 256, at);
      Pow2Byte(n);
      ModSplit(v, Pow2(8 * (n - 1)));
    }
  }

  /** Which numbers a place of so many bytes can hold. */
  predicate Holds(width: Width, v: int) {
    if width.signed then -(Pow2(8 * width.bytes) / 2) <= v < Pow2(8 * width.bytes) / 2
    else 0 <= v < Pow2(8 * width.bytes)
  }

  /** A store and then a load of a number that fits comes back, of 1 to 8 bytes, read with a sign or
      without. */
  lemma FetchPoke(mem: Mem, at: int, width: Width, v: int)
    requires 0 < width.bytes <= 8 && Holds(width, v) && -HALF <= v < HALF
    ensures Fetch(Poke(mem, at, width.bytes, v), at, width) == v
  {
    PeekPoke(mem, at, width.bytes, v);
    Pow2Byte(width.bytes);
    var p := Pow2(8 * width.bytes);
    ModIs(v, p, if v < 0 then -1 else 0, if v < 0 then v + p else v);
  }

  /** A store and a load that are apart have nothing to do with one another. */
  lemma FetchFrame(mem: Mem, at: int, n: nat, v: int, a: int, width: Width)
    requires a + width.bytes <= at || at + n <= a
    ensures Fetch(Poke(mem, at, n, v), a, width) == Fetch(mem, a, width)
  {
    forall x | a <= x < a + width.bytes ensures ByteAt(Poke(mem, at, n, v), x) == ByteAt(mem, x) {
      PokeFrame(mem, at, n, v, x);
    }
    PeekSame(Poke(mem, at, n, v), mem, a, width.bytes);
  }

  const LONG: Width := Width(8, true)

  lemma FetchWord(mem: Mem, at: int, v: int)
    requires -HALF <= v < HALF && Peek(mem, at, 8) == v % Pow2(64)
    ensures Fetch(mem, at, LONG) == v
  {
    Pow2Word();
    ModIs(v, WORD, if v < 0 then -1 else 0, if v < 0 then v + WORD else v);
  }

  // ----- push and pop -----

  /** The stores of a push are to its own slots alone. */
  lemma {:induction false} PushedFrame(rs: seq<nat>, n: nat, regs: seq<int>, mem: Mem, x: int)
    requires n <= |rs| && AreRegs(rs) && |regs| == 16
    requires -HALF <= regs[RSP] && regs[RSP] + 8 * |rs| < HALF
    requires x < regs[RSP] + 8 * (|rs| - n) || regs[RSP] + 8 * |rs| <= x
    ensures ByteAt(Pushed(rs, n, regs, mem), x) == ByteAt(mem, x)
    decreases n
  {
    hide Poke;
    if n == 0 {
    } else {
      var at := regs[RSP] + 8 * (|rs| - n);
      PokeFrame(mem, at, 8, regs[rs[n - 1]], x);
      PushedFrame(rs, n - 1, regs, Poke(mem, at, 8, regs[rs[n - 1]]), x);
    }
  }

  /** The first register named is in the highest slot. */
  lemma {:induction false} PushedSlot(rs: seq<nat>, n: nat, k: nat, regs: seq<int>, mem: Mem)
    requires k < n <= |rs| && AreRegs(rs) && |regs| == 16
    requires -HALF <= regs[RSP] && regs[RSP] + 8 * |rs| < HALF
    ensures Peek(Pushed(rs, n, regs, mem), regs[RSP] + 8 * (|rs| - 1 - k), 8) == regs[rs[k]] % Pow2(64)
    decreases n
  {
    hide Poke, Peek, Pow2;
    var at := regs[RSP] + 8 * (|rs| - n);
    var on := Poke(mem, at, 8, regs[rs[n - 1]]);
    assert Pushed(rs, n, regs, mem) == Pushed(rs, n - 1, regs, on);
    if k == n - 1 {
      PeekPoke(mem, at, 8, regs[rs[k]]);
      forall x | at <= x < at + 8 ensures ByteAt(Pushed(rs, n - 1, regs, on), x) == ByteAt(on, x) {
        PushedFrame(rs, n - 1, regs, on, x);
      }
      PeekSame(Pushed(rs, n - 1, regs, on), on, at, 8);
    } else {
      PushedSlot(rs, n - 1, k, regs, on);
    }
  }

  lemma {:induction false} PoppedOthers(rs: seq<nat>, n: nat, regs: seq<int>, mem: Mem, q: nat)
    requires n <= |rs| && AreRegs(rs) && |regs| == 16 && q < 16 && q !in rs[..n]
    ensures Popped(rs, n, regs, mem)[q] == regs[q]
    decreases n
  {
    hide Fetch;
    if n == 0 {
    } else {
      var v := Fetch(mem, AddressOf(regs[RSP] + 8 * (|rs| - n)), LONG);
      assert rs[n - 1] in rs[..n];
      assert forall r | r in rs[..n - 1] :: r in rs[..n];
      PoppedOthers(rs, n - 1, regs[rs[n - 1] := v], mem, q);
    }
  }

  /** A register popped has what is in its slot, the highest if it is named twice. */
  lemma {:induction false} PoppedSlot(rs: seq<nat>, n: nat, k: nat, regs: seq<int>, mem: Mem)
    requires k < n <= |rs| && AreRegs(rs) && |regs| == 16 && RSP !in rs && rs[k] !in rs[..k]
    ensures Popped(rs, n, regs, mem)[rs[k]] == Fetch(mem, AddressOf(regs[RSP] + 8 * (|rs| - 1 - k)), LONG)
    decreases n
  {
    hide Fetch, AddressOf;
    var v := Fetch(mem, AddressOf(regs[RSP] + 8 * (|rs| - n)), LONG);
    assert rs[n - 1] in rs;
    if k == n - 1 {
      PoppedOthers(rs, n - 1, regs[rs[n - 1] := v], mem, rs[k]);
    } else {
      PoppedSlot(rs, n - 1, k, regs[rs[n - 1] := v], mem);
    }
  }

  lemma {:induction false} FirstOf(rs: seq<nat>, r: nat) returns (k: nat)
    requires r in rs
    ensures k < |rs| && rs[k] == r && r !in rs[..k]
  {
    if rs[0] == r {
      k := 0;
    } else {
      assert rs == [rs[0]] + rs[1..];
      k := FirstOf(rs[1..], r);
      k := k + 1;
      assert rs[..k] == [rs[0]] + rs[1..][..k - 1];
    }
  }

  /** What a push does to memory: the stack pointer goes down by a slot for each register, the first
      named is in the highest, and no byte that is not in a slot is touched. */
  lemma PushIs(rs: seq<nat>, a: seq<int>, mem: Mem, k: nat, x: int)
    requires AreRegs(rs) && Numbers(a) && -HALF <= a[RSP] - 8 * |rs|
    ensures Exec(Push(rs), a, mem).0 == a[RSP := a[RSP] - 8 * |rs|]
    ensures k < |rs| && rs[k] != RSP ==> Fetch(Exec(Push(rs), a, mem).1, a[RSP] - 8 * (k + 1), LONG) == a[rs[k]]
    ensures x < a[RSP] - 8 * |rs| || a[RSP] <= x ==> ByteAt(Exec(Push(rs), a, mem).1, x) == ByteAt(mem, x)
  {
    hide Poke, Peek, Fetch, Pow2;
    var below := a[RSP := Wrap(a[RSP] - 8 * |rs|)];
    assert below[RSP] == a[RSP] - 8 * |rs|;
    if k < |rs| && rs[k] != RSP {
      PushedSlot(rs, |rs|, k, below, mem);
      FetchWord(Exec(Push(rs), a, mem).1, a[RSP] - 8 * (k + 1), a[rs[k]]);
    }
    if x < a[RSP] - 8 * |rs| || a[RSP] <= x { PushedFrame(rs, |rs|, below, mem, x); }
  }

  /** A pop takes the slots in the order a push fills them: if the stack pointer is where the push left
      it and the slots hold what it put there, then whatever else has become of the registers and of
      memory, each register named has what it had, the stack pointer is where it was, and no other
      register is touched. */
  lemma PopAfterPush(rs: seq<nat>, a: seq<int>, mem: Mem, b: seq<int>, mem': Mem, r: nat)
    requires AreRegs(rs) && RSP !in rs && Numbers(a) && Numbers(b) && -HALF <= a[RSP] - 8 * |rs|
    requires b[RSP] == Exec(Push(rs), a, mem).0[RSP]
    requires SameBytes(mem', Exec(Push(rs), a, mem).1, b[RSP], a[RSP]) && r < 16
    ensures Exec(Pop(rs), b, mem').0[r] == if r == RSP || r in rs then a[r] else b[r]
    ensures Exec(Pop(rs), b, mem').1 == mem'
  {
    hide Poke, Peek, Fetch, Pushed, Popped, Pow2;
    PushIs(rs, a, mem, 0, a[RSP]);
    assert rs[..|rs|] == rs;
    PoppedOthers(rs, |rs|, b, mem', RSP);
    if r in rs {
      var k := FirstOf(rs, r);
      var at := a[RSP] - 8 * (k + 1);
      PoppedSlot(rs, |rs|, k, b, mem');
      PushIs(rs, a, mem, k, a[RSP]);
      SlotSame(mem', Exec(Push(rs), a, mem).1, b[RSP], a[RSP], at);
    } else if r != RSP {
      PoppedOthers(rs, |rs|, b, mem', r);
    }
  }

  lemma SlotSame(a: Mem, b: Mem, low: int, high: int, at: int)
    requires SameBytes(a, b, low, high) && low <= at && at + 8 <= high
    ensures Fetch(a, at, LONG) == Fetch(b, at, LONG)
  {
    assert SameBytes(a, b, at, at + 8);
    PeekSame(a, b, at, 8);
  }

  /** A return goes to what was pushed last, and takes just that off. */
  lemma RetAfterPush(r: nat, a: seq<int>, mem: Mem, b: seq<int>)
    requires r < 16 && r != RSP && Numbers(a) && Numbers(b) && -HALF <= a[RSP] - 8
    requires b[RSP] == Exec(Push([r]), a, mem).0[RSP]
    ensures var mem' := Exec(Push([r]), a, mem).1;
            && Peek(mem', b[RSP], 8) == Unsigned(a[r])
            && Exec(Ret, b, mem') == (b[RSP := a[RSP]], mem')
  {
    hide Poke, Peek, Pow2, Pushed;
    var rs := [r];
    assert AreRegs(rs) && rs[0] == r;
    var below := a[RSP := Wrap(a[RSP] - 8)];
    assert below[RSP] == a[RSP] - 8;
    PushedSlot(rs, 1, 0, below, mem);
    Pow2Word();
  }

  /** A stack that is set up has the first of its two registers lowest, where its pointer is left. */
  lemma StackInitHolds(s: nat, f: nat, x: nat, regs: seq<int>, mem: Mem)
    requires s < 16 && f < 16 && x < 16 && s != f && s != x && Numbers(regs) && -HALF <= regs[s] - 16
    ensures var (after, mem') := Exec(StackInit(s, f, x), regs, mem);
            && after == regs[s := regs[s] - 16]
            && Fetch(mem', after[s], LONG) == regs[f] && Fetch(mem', after[s] + 8, LONG) == regs[x]
  {
    hide Poke, Fetch, Peek, Pow2;
    var at := regs[s] - 16;
    assert Wrap(at) == at && Wrap(at + 8) == at + 8;
    hide Wrap;
    var first := Poke(mem, at, 8, regs[f]);
    HoldsAll(regs[f]);
    HoldsAll(regs[x]);
    FetchPoke(mem, at, LONG, regs[f]);
    FetchFrame(first, at + 8, 8, regs[x], at, LONG);
    FetchPoke(first, at + 8, LONG, regs[x]);
  }

  lemma HoldsAll(v: int)
    requires Number(v)
    ensures Holds(LONG, v)
  {
    Pow2Word();
  }

  // ----- arithmetic -----

  /** Two numbers that are the same in 64 bits. */
  ghost predicate Same64(x: int, y: int) {
    exists k: int :: x - y == WORD * k
  }

  /** A number of 64 bits is the one of its like that is in range. */
  lemma WrapIs(x: int, y: int)
    ensures Same64(Wrap(x), x) && Number(Wrap(x))
    ensures Number(y) && Same64(y, x) ==> y == Wrap(x)
  {
    assert Wrap(x) - x == WORD * (-((x + HALF) / WORD));
    if Number(y) && Same64(y, x) {
      var k :| y - x == WORD * k;
      ModIs(x + HALF, WORD, -k, y + HALF);
    }
  }

  /** Add, subtract and multiply are those of whole numbers, in 64 bits. */
  lemma SumIs(s: int, d: int)
    ensures Same64(Alu(Add, s, d), d + s) && Same64(Alu(Sub, s, d), d - s) && Same64(Alu(Mul, s, d), d * s)
    ensures Number(Alu(Add, s, d)) && Number(Alu(Sub, s, d)) && Number(Alu(Mul, s, d))
  {
    WrapIs(d + s, 0);
    WrapIs(d - s, 0);
    WrapIs(d * s, 0);
    hide Wrap, Same64;
  }

  /** A compare is the sign of a subtract, where that is in range, and each is the other of one. */
  lemma CompareIs(s: int, d: int)
    ensures Number(d - s) ==> (Alu(Slt, s, d) == 1 <==> Alu(Sub, s, d) < 0) && (Alu(Seq, s, d) == 1 <==> Alu(Sub, s, d) == 0)
    ensures Alu(Slt, s, d) + Alu(Seq, s, d) + Alu(Sgt, s, d) == 1
    ensures Alu(Sgt, s, d) == Alu(Slt, d, s)
    ensures Alu(Sle, s, d) == 1 - Alu(Sgt, s, d) && Alu(Sge, s, d) == 1 - Alu(Slt, s, d) && Alu(Sne, s, d) == 1 - Alu(Seq, s, d)
    ensures Alu(Min, s, d) == (if Alu(Slt, s, d) == 1 then d else s) && Alu(Max, s, d) == (if Alu(Slt, s, d) == 1 then s else d)
  {
    WrapIs(d - s, d - s);
  }

  function SetOf(cond: Cond): Op {
    match cond
    case Eq => Seq
    case Ne => Sne
    case Lt => Slt
    case Gt => Sgt
    case Le => Sle
    case Ge => Sge
  }

  /** A branch goes by what the set of the same name would give. */
  lemma TestIs(cond: Cond, s: int, d: int)
    ensures Test(cond, d, s) <==> Alu(SetOf(cond), s, d) == 1
    ensures !Test(cond, d, s) <==> Alu(SetOf(cond), s, d) == 0
  {
    hide Wrap;
  }

  /** A shift up multiplies, in 64 bits. A shift down divides and goes down, of the number with a sign
      or of the one with none. */
  lemma ShiftIs(s: int, d: int)
    ensures var p := Pow2(s % 64);
            && Same64(Alu(Shl, s, d), d * p)
            && Alu(Asr, s, d) * p <= d < (Alu(Asr, s, d) + 1) * p
            && Unsigned(Alu(Shr, s, d)) * p <= Unsigned(d) < (Unsigned(Alu(Shr, s, d)) + 1) * p
  {
    hide Wrap, Unsigned, Same64, Pow2;
    var p := Pow2(s % 64);
    Scaled64(d, p);
    Floored(d, p);
    Floored(Unsigned(d), p);
    UnsignedIs(d);
    SmallQuotient(Unsigned(d), p);
    UnsignedWrap(Unsigned(d) / p);
    UnsignedSmall(Unsigned(d) / p);
  }

  lemma Floored(x: int, p: int)
    requires 0 < p
    ensures x / p * p <= x < (x / p + 1) * p
  {
    assert x == p * (x / p) + x % p;
  }

  lemma UnsignedIs(x: int)
    ensures 0 <= Unsigned(x) < WORD && x - Unsigned(x) == WORD * (x / WORD)
  {
  }

  lemma UnsignedSmall(x: int)
    requires 0 <= x < WORD
    ensures Unsigned(x) == x
  {
  }

  lemma Scaled64(d: int, p: int)
    ensures Same64(Wrap(Unsigned(d) * p), d * p)
  {
    var u := Unsigned(d);
    UnsignedIs(d);
    WrapIs(u * p, 0);
    hide Wrap, Unsigned;
    var k :| Wrap(u * p) - u * p == WORD * k;
    assert (d - u) * p == d * p - u * p;
    assert (d - u) * p == WORD * (d / WORD * p);
    assert Wrap(u * p) - d * p == WORD * (k - d / WORD * p);
  }

  lemma SmallQuotient(u: int, p: int)
    requires 0 <= u && 0 < p
    ensures 0 <= u / p <= u
  {
    var q := u / p;
    assert u == p * q + u % p && p * -q == -(p * q);
    if -q >= 1 { TimesAtLeast(p, -q); }
    if q > u { TimesAtLeast(q, p); }
  }

  lemma UnsignedWrap(x: int)
    ensures Unsigned(Wrap(x)) == Unsigned(x)
  {
    WrapIs(x, 0);
    var k :| Wrap(x) - x == WORD * k;
    ModIs(Wrap(x), WORD, x / WORD + k, x % WORD);
  }

  lemma SameSelf(x: int)
    ensures Same64(x, x)
  {
    assert x - x == WORD * 0;
  }

  /** The number divided is the answer by what it was divided by, and what is left over, which is less
      than that and of the number's own sign. By 0, the answer is 0 and the number is left. */
  lemma DivideIs(n: int, d: int)
    requires Number(n) && Number(d)
    ensures var (left, answer) := Divide(true, n, d);
            && Number(left) && Number(answer)
            && Same64(n, answer * d + left) && (d == 0 ==> left == n && answer == 0)
            && (d != 0 && !(n == -HALF && d == -1) ==> n == answer * d + left)
            && (d > 0 ==> -d < left < d) && (d < 0 ==> d < left < -d)
            && (n >= 0 ==> left >= 0) && (n <= 0 ==> left <= 0)
  {
    SameSelf(n);
    if d == 0 {
      hide Same64;
    } else if d == -1 {
      WrapIs(-n, -n);
      var k :| Wrap(-n) - -n == WORD * k;
      assert n - (Wrap(-n) * -1 + 0) == WORD * k;
    } else {
      hide Same64, Wrap;
      DivideFar(n, d);
    }
  }

  lemma DivideFar(n: int, d: int)
    requires Number(n) && Number(d) && d != 0 && d != -1
    ensures var (left, answer) := Divide(true, n, d);
            && n == answer * d + left && Number(left) && Number(answer)
            && (d > 0 ==> -d < left < d) && (d < 0 ==> d < left < -d)
            && (n >= 0 ==> left >= 0) && (n <= 0 ==> left <= 0)
  {
    var an, ad := if n < 0 then -n else n, if d < 0 then -d else d;
    DivideParts(n, d);
    hide Wrap, Divide;
    HalfQuotient(an, ad);
    SmallQuotient(an, ad);
    Remainder(an, ad);
    TowardZero(n, d, an / ad, an % ad);
  }

  lemma DivideParts(n: int, d: int)
    requires Number(d) && d != 0 && d != -1
    ensures var an, ad := if n < 0 then -n else n, if d < 0 then -d else d;
            var answer := if (n < 0) == (d < 0) then an / ad else -(an / ad);
            Divide(true, n, d) == (n - answer * d, answer)
  {
    assert Unsigned(d) != 0;
  }

  lemma Remainder(an: int, ad: int)
    requires 0 <= an && 0 < ad
    ensures an == ad * (an / ad) + an % ad && 0 <= an % ad < ad && an % ad <= an
  {
    SmallQuotient(an, ad);
    if an / ad >= 1 { TimesAtLeast(ad, an / ad); }
  }

  lemma TowardZero(n: int, d: int, q: int, r: int)
    requires (if n < 0 then -n else n) == (if d < 0 then -d else d) * q + r
    ensures var answer := if (n < 0) == (d < 0) then q else -q; n - answer * d == if n < 0 then -r else r
  {
    assert -q * d == -(q * d) && -d * q == -(q * d);
  }

  lemma HalfQuotient(an: int, ad: int)
    requires 0 <= an <= HALF && ad > 0
    ensures ad > 1 ==> an / ad < HALF
    ensures an < HALF ==> an / ad < HALF
  {
    SmallQuotient(an, ad);
    assert an == ad * (an / ad) + an % ad;
    if ad > 1 && an / ad >= HALF { TimesLess(2, ad, an / ad); }
  }

  lemma TimesLess(a: int, b: int, c: int)
    requires a <= b && 0 <= c
    ensures a * c <= b * c
  {
  }

  /** So it is of numbers with no sign. */
  lemma DivideUnsigned(n: int, d: int)
    requires Number(n) && Number(d)
    ensures var (left, answer) := Divide(false, n, d);
            && (d == 0 ==> left == n && answer == 0)
            && (d != 0 ==> Unsigned(n) == Unsigned(answer) * Unsigned(d) + Unsigned(left) && Unsigned(left) < Unsigned(d))
  {
    var u, v := Unsigned(n), Unsigned(d);
    assert d != 0 ==> v > 0;
    hide Wrap, Unsigned;
    UnsignedIs(n);
    UnsignedIs(d);
    if d != 0 {
      SmallQuotient(u, v);
      assert u == u / v * v + u % v;
      UnsignedWrap(u % v);
      UnsignedWrap(u / v);
      UnsignedSmall(u % v);
      UnsignedSmall(u / v);
    }
  }

  // ----- bits -----

  function BitAt(x: int, k: nat): int
    decreases k
  {
    if k == 0 then x % 2 else BitAt(x / 2, k - 1)
  }

  function BitOp(op: Op, x: int, y: int): int {
    match op
    case And => if x == 1 && y == 1 then 1 else 0
    case Or => if x == 1 || y == 1 then 1 else 0
    case _ => if x != y then 1 else 0
  }

  lemma {:induction false} BitwiseBits(op: Op, a: int, b: int, n: nat, k: nat)
    requires (op.And? || op.Or? || op.Xor?) && k < n
    ensures BitAt(Bitwise(op, a, b, n), k) == BitOp(op, BitAt(a, k), BitAt(b, k))
    decreases n
  {
    var r := Bitwise(op, a, b, n);
    assert r / 2 == Bitwise(op, a / 2, b / 2, n - 1);
    if k > 0 { BitwiseBits(op, a / 2, b / 2, n - 1, k - 1); }
  }

  /** The bits of a number are those of any like it. */
  lemma {:induction false} BitsLike(x: int, m: int, n: nat, k: nat)
    requires k < n
    ensures BitAt(x + Pow2(n) * m, k) == BitAt(x, k)
    decreases n
  {
    var half := Pow2(n - 1) * m;
    assert Pow2(n) * m == 2 * half;
    assert (x + 2 * half) / 2 == x / 2 + half && (x + 2 * half) % 2 == x % 2;
    if k > 0 { BitsLike(x / 2, m, n - 1, k - 1); }
  }

  /** Each bit of an `and`, an `or` or an `xor` goes by the two that are there. */
  lemma BitsAre(op: Op, s: int, d: int, k: nat)
    requires (op.And? || op.Or? || op.Xor?) && k < 64
    ensures BitAt(Alu(op, s, d), k) == BitOp(op, BitAt(d, k), BitAt(s, k))
  {
    var x := Bitwise(op, d, s, 64);
    BitwiseBits(op, d, s, 64, k);
    WrapIs(x, 0);
    var m :| Wrap(x) - x == WORD * m;
    Pow2Word();
    hide Bitwise, BitAt, Pow2, Wrap;
    assert Alu(op, s, d) == x + Pow2(64) * m;
    BitsLike(x, m, 64, k);
  }

  /** And a number is its 64 bits. */
  lemma {:induction false} BitsTell(x: int, y: int, n: nat)
    requires forall k: nat | k < n :: BitAt(x, k) == BitAt(y, k)
    ensures x % Pow2(n) == y % Pow2(n)
    decreases n
  {
    if n == 0 {
    } else {
      forall k: nat | k < n - 1 ensures BitAt(x / 2, k) == BitAt(y / 2, k) {
        assert BitAt(x, k + 1) == BitAt(y, k + 1);
      }
      BitsTell(x / 2, y / 2, n - 1);
      assert BitAt(x, 0) == BitAt(y, 0);
      HalfMod(x, Pow2(n - 1));
      HalfMod(y, Pow2(n - 1));
    }
  }

  lemma HalfMod(v: int, p: int)
    requires 0 < p
    ensures v % (2 * p) == v % 2 + 2 * (v / 2 % p)
  {
    var q := v / 2;
    assert q == p * (q / p) + q % p;
    assert v == (2 * p) * (q / p) + (2 * (q % p) + v % 2) by { assert (2 * p) * (q / p) == 2 * (p * (q / p)); }
    ModIs(v, 2 * p, q / p, 2 * (q % p) + v % 2);
  }

  // ----- what one instruction undoes -----

  /** A swap is its own opposite. */
  lemma SwapUndone(s: nat, d: nat, regs: seq<int>, mem: Mem)
    requires s < 16 && d < 16 && Numbers(regs)
    ensures var (a, m) := Exec(Swp(s, d), regs, mem); Exec(Swp(s, d), a, m) == (regs, mem)
    ensures Exec(Swp(s, d), regs, mem).0[d] == regs[s] && Exec(Swp(s, d), regs, mem).0[s] == regs[d]
  {
    var a := Exec(Swp(s, d), regs, mem).0;
    assert Exec(Swp(s, d), a, mem).0 == regs;
  }

  /** Room taken and given back leaves all as it was. What is taken is a whole number of slots, and no
      more than it need be. */
  lemma AllocUndone(bytes: nat, regs: seq<int>, mem: Mem)
    requires Numbers(regs)
    ensures var (a, m) := Exec(Alloc(bytes), regs, mem); Exec(Free(bytes), a, m) == (regs, mem)
    ensures exists room: nat :: Room(bytes, room) && Same64(Exec(Alloc(bytes), regs, mem).0[RSP], regs[RSP] - room)
  {
    var room := (bytes + 7) / 8 * 8;
    assert Room(bytes, room);
    WrapIs(regs[RSP] - room, 0);
    var k :| Wrap(regs[RSP] - room) - (regs[RSP] - room) == WORD * k;
    assert regs[RSP] - (Wrap(regs[RSP] - room) + room) == WORD * (-k);
    WrapIs(Wrap(regs[RSP] - room) + room, regs[RSP]);
    hide Wrap;
    assert Exec(Free(bytes), Exec(Alloc(bytes), regs, mem).0, mem).0 == regs;
  }

  predicate Room(bytes: nat, room: nat) {
    room % 8 == 0 && bytes <= room < bytes + 8
  }

  // ----- what one instruction is of others -----

  /** The sign spread over a number is a shift down of it. */
  lemma ExtIs(s: nat, d: nat, regs: seq<int>, mem: Mem)
    requires s < 16 && d < 16 && Numbers(regs)
    ensures Exec(Ext(s, d), regs, mem).0 == regs[d := Alu(Asr, 63, regs[s])]
  {
    SignShift(regs[s]);
    hide Alu;
  }

  lemma SignShift(x: int)
    requires Number(x)
    ensures Alu(Asr, 63, x) == if x < 0 then -1 else 0
  {
    Pow2Word();
    hide Pow2;
  }

  /** The size of a number is the greater of it and of what is left of it taken from 0. */
  lemma AbsIs(s: nat, d: nat, regs: seq<int>, mem: Mem)
    requires s < 16 && d < 16 && Numbers(regs)
    ensures Exec(Abs(s, d), regs, mem).0 == regs[d := Alu(Max, Alu(Sub, regs[s], 0), regs[s])]
  {
    SizeIs(regs[s]);
    hide Alu, Wrap;
  }

  lemma SizeIs(x: int)
    requires Number(x)
    ensures Alu(Max, Alu(Sub, x, 0), x) == if x < 0 then Wrap(-x) else x
  {
    assert Wrap(HALF) == -HALF;
    hide Pow2, Bitwise;
  }

  /** A not is a compare with 0, and an and of two truths is the `and` of what is not 0. */
  lemma TruthIs(s: nat, d: nat, regs: seq<int>, mem: Mem)
    requires s < 16 && d < 16 && Numbers(regs)
    ensures Exec(Lnot(s, d), regs, mem).0 == regs[d := Alu(Seq, 0, regs[d])]
    ensures Exec(Land(s, d), regs, mem).0 == regs[d := Alu(And, Alu(Sne, 0, regs[s]), Alu(Sne, 0, regs[d]))]
  {
    hide Bitwise, Wrap;
    SmallAnd(Alu(Sne, 0, regs[s]), Alu(Sne, 0, regs[d]));
  }

  lemma SmallAnd(x: int, y: int)
    requires (x == 0 || x == 1) && (y == 0 || y == 1)
    ensures Alu(And, x, y) == if x == 1 && y == 1 then 1 else 0
  {
    var bits := Bitwise(And, y, x, 64);
    assert Alu(And, x, y) == Wrap(bits);
    hide Alu, Bitwise;
    ZeroAnd(63);
    BitwiseOne(And, y, x, 64);
    SmallBits(x, y);
  }

  lemma SmallBits(x: int, y: int)
    requires (x == 0 || x == 1) && (y == 0 || y == 1)
    ensures y / 2 == 0 && x / 2 == 0 && y % 2 * (x % 2) == if x == 1 && y == 1 then 1 else 0
  {
  }

  lemma BitwiseOne(op: Op, a: int, b: int, n: nat)
    requires n > 0 && op.And?
    ensures Bitwise(op, a, b, n) == a % 2 * (b % 2) + 2 * Bitwise(op, a / 2, b / 2, n - 1)
  {
  }

  lemma {:induction false} ZeroAnd(n: nat)
    ensures Bitwise(And, 0, 0, n) == 0
  {
    if n == 0 {
    } else {
      ZeroAnd(n - 1);
    }
  }

  /** An address is what an add makes of its two parts, and a load is of the place it is. */
  lemma PlaceIs(width: Width, b: nat, s: nat, o: int, d: nat, regs: seq<int>, mem: Mem)
    requires Sized(width.bytes) && b < 16 && s < 16 && d < 16 && Numbers(regs)
    ensures Exec(LeaI(s, o, d), regs, mem).0 == regs[d := Alu(Add, o, regs[s])]
    ensures Exec(LeaD(b, s, d), regs, mem).0 == regs[d := Alu(Add, regs[s], regs[b])]
    ensures Exec(Load(width, s, o, d), regs, mem).0 == regs[d := Fetch(mem, Exec(LeaI(s, o, d), regs, mem).0[d], width)]
    ensures Exec(LoadD(width, b, s, d), regs, mem).0 == regs[d := Fetch(mem, Exec(LeaD(b, s, d), regs, mem).0[d], width)]
  {
    hide Fetch, Wrap;
  }

  /** What is stored at a place is what is loaded from it after, and nothing that is apart is touched. */
  lemma LoadAfterStore(i: Inst, j: Inst, regs: seq<int>, mem: Mem)
    requires WellFormed(i) && WellFormed(j) && Numbers(regs)
    requires (i.Store? && j.Load? && i.d == j.s && i.o == j.o) || (i.StoreD? && j.LoadD? && i.b == j.b && i.d == j.s)
    requires i.bytes == j.width.bytes && Holds(j.width, regs[i.s])
    ensures Exec(j, regs, Exec(i, regs, mem).1).0 == regs[j.d := regs[i.s]]
  {
    hide Poke, Fetch, Wrap, Holds;
    var at := AddressOf(if i.Store? then regs[i.d] + i.o else regs[i.b] + regs[i.d]);
    FetchPoke(mem, at, j.width, regs[i.s]);
  }

  // ----- registers stay in 64 bits, and memory in bytes -----

  predicate Bytes(mem: Mem) {
    forall x | x in mem :: 0 <= mem[x] < 256
  }

  lemma AluNumber(op: Op, s: int, d: int)
    requires Number(s) && Number(d)
    ensures Number(Alu(op, s, d))
  {
    hide Bitwise, Wrap;
    if op.Asr? {
      var p := Pow2(s % 64);
      hide Pow2;
      Floored(d, p);
      if d >= 0 { SmallQuotient(d, p); } else { SmallDown(d, p); }
    }
  }

  lemma SmallDown(d: int, p: int)
    requires d < 0 && 0 < p
    ensures d <= d / p < 0
  {
    Floored(d, p);
    var q := d / p;
    assert p * -d == -(d * p);
    if q >= 0 { TimesLess(0, q, p); }
    if q < d { TimesLess(q + 1, d, p); TimesLess(1, p, -d); }
  }

  lemma {:induction false} PeekBounds(mem: Mem, a: int, n: nat)
    requires Bytes(mem)
    ensures 0 <= Peek(mem, a, n) < Pow2(8 * n)
    decreases n
  {
    if n == 0 {
    } else {
      PeekBounds(mem, a + 1, n - 1);
      Pow2Byte(n);
    }
  }

  lemma FetchNumber(mem: Mem, a: int, width: Width)
    requires Bytes(mem) && Sized(width.bytes)
    ensures Number(Fetch(mem, a, width))
  {
    PeekBounds(mem, a, width.bytes);
    Pow2Word();
    Pow2Add(8 * width.bytes, 64 - 8 * width.bytes);
    hide Pow2, Peek;
    TimesLess(1, Pow2(64 - 8 * width.bytes), Pow2(8 * width.bytes));
    assert Pow2(8 * width.bytes) * Pow2(64 - 8 * width.bytes) == Pow2(64 - 8 * width.bytes) * Pow2(8 * width.bytes);
  }

  lemma {:induction false} PokeBytes(mem: Mem, a: int, n: nat, v: int)
    requires Bytes(mem)
    ensures Bytes(Poke(mem, a, n, v))
    decreases n
  {
    if n == 0 {
    } else {
      PokeBytes(mem[a := v % 256], a + 1, n - 1, v / 256);
    }
  }

  lemma {:induction false} PushedBytes(rs: seq<nat>, n: nat, regs: seq<int>, mem: Mem)
    requires n <= |rs| && AreRegs(rs) && |regs| == 16 && Bytes(mem)
    ensures Bytes(Pushed(rs, n, regs, mem))
    decreases n
  {
    hide Poke, Bytes, AddressOf;
    if n == 0 {
    } else {
      var at := AddressOf(regs[RSP] + 8 * (|rs| - n));
      PokeBytes(mem, at, 8, regs[rs[n - 1]]);
      PushedBytes(rs, n - 1, regs, Poke(mem, at, 8, regs[rs[n - 1]]));
    }
  }

  lemma {:induction false} PoppedNumbers(rs: seq<nat>, n: nat, regs: seq<int>, mem: Mem)
    requires n <= |rs| && AreRegs(rs) && Numbers(regs) && Bytes(mem)
    ensures Numbers(Popped(rs, n, regs, mem))
    decreases n
  {
    hide Fetch, Bytes, AddressOf, Number;
    if n == 0 {
    } else {
      var at := AddressOf(regs[RSP] + 8 * (|rs| - n));
      FetchNumber(mem, at, LONG);
      PoppedNumbers(rs, n - 1, regs[rs[n - 1] := Fetch(mem, at, LONG)], mem);
    }
  }

  lemma DivideNumber(signed: bool, n: int, d: int)
    requires Number(n) && Number(d)
    ensures Number(Divide(signed, n, d).0) && Number(Divide(signed, n, d).1)
  {
    if signed { DivideIs(n, d); } else { hide Wrap, Unsigned; }
  }

  predicate ToMemory(i: Inst) {
    i.Store? || i.StoreD? || i.Push? || i.StackInit?
  }

  lemma StoresBytes(i: Inst, regs: seq<int>, mem: Mem)
    requires WellFormed(i) && ToMemory(i) && Numbers(regs) && Bytes(mem)
    ensures Numbers(Exec(i, regs, mem).0) && Bytes(Exec(i, regs, mem).1)
  {
    hide Poke, Wrap, Bytes, Pushed;
    match i {
      case Store(bytes, s, d, o) => PokeBytes(mem, AddressOf(regs[d] + o), bytes, regs[s]);
      case StoreD(bytes, s, b, d) => PokeBytes(mem, AddressOf(regs[b] + regs[d]), bytes, regs[s]);
      case Push(rs) => PushedBytes(rs, |rs|, regs[RSP := Wrap(regs[RSP] - 8 * |rs|)], mem);
      case StackInit(s, f, x) =>
        var made := regs[s := Wrap(regs[s] - 16)];
        PokeBytes(mem, AddressOf(made[s]), 8, made[f]);
        PokeBytes(Poke(mem, AddressOf(made[s]), 8, made[f]), AddressOf(made[s] + 8), 8, made[x]);
    }
  }

  lemma LoadsNumbers(i: Inst, regs: seq<int>, mem: Mem)
    requires WellFormed(i) && (i.Load? || i.LoadD? || i.LoadP? || i.Pop?) && Numbers(regs) && Bytes(mem)
    ensures Numbers(Exec(i, regs, mem).0) && Exec(i, regs, mem).1 == mem
  {
    hide Fetch, Bytes, Popped, AddressOf, Wrap;
    match i {
      case Load(width, s, o, d) => FetchNumber(mem, AddressOf(regs[s] + o), width);
      case LoadD(width, b, s, d) => FetchNumber(mem, AddressOf(regs[b] + regs[s]), width);
      case LoadP(address, d) => FetchNumber(mem, address, LONG);
      case Pop(rs) => PoppedNumbers(rs, |rs|, regs, mem);
    }
  }

  lemma RestNumbers(i: Inst, regs: seq<int>, mem: Mem)
    requires WellFormed(i) && !ToMemory(i) && !i.Load? && !i.LoadD? && !i.LoadP? && !i.Pop? && Numbers(regs)
    ensures Numbers(Exec(i, regs, mem).0) && Exec(i, regs, mem).1 == mem
  {
    hide Alu, Divide, Wrap;
    match i {
      case AluRR(op, s, d) => AluNumber(op, regs[s], regs[d]);
      case AluCR(op, k, d) => AluNumber(op, k, regs[d]);
      case Div(signed, q, _, d) => DivideNumber(signed, regs[d], regs[q]);
      case _ =>
    }
  }

  /** From registers of 64 bits and memory of bytes every instruction comes to registers of 64 bits and
      memory of bytes. */
  lemma ExecKeeps(i: Inst, regs: seq<int>, mem: Mem)
    requires WellFormed(i) && Numbers(regs) && Bytes(mem)
    ensures Numbers(Exec(i, regs, mem).0) && Bytes(Exec(i, regs, mem).1)
  {
    hide Exec;
    if ToMemory(i) { StoresBytes(i, regs, mem); }
    else if i.Load? || i.LoadD? || i.LoadP? || i.Pop? { LoadsNumbers(i, regs, mem); }
    else { RestNumbers(i, regs, mem); }
  }
}
