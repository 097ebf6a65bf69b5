/** The array class (class/array/class.vp): elements of 64 bits in a block that is made
    bigger when it is full. Pointers to elements are indices here, and what was asked of
    the allocator may come back bigger. */
module ArrayClass {

  // ----- what the operations mean -----

  function Reversed(s: seq<int>): (r: seq<int>)
    ensures |r| == |s|
    ensures forall i | 0 <= i < |s| :: r[i] == s[|s| - 1 - i]
  {
    seq(|s|, i requires 0 <= i < |s| => s[|s| - 1 - i])
  }

  /** `seq-elem-index`: a negative index is from the end, and -1 is the end itself. */
  function Index(i: int, len: nat): int {
    if i < 0 then i + len + 1 else i
  }

  /** From one index up to another, or back down to it. */
  function Cut(s: seq<int>, si: nat, ei: nat): seq<int>
    requires si <= |s| && ei <= |s|
  {
    if si <= ei then s[si..ei] else Reversed(s[ei..si])
  }

  /** What the Lisp `splice` checks before it calls: pairs, each in range of the source it is of. */
  predicate ValidCuts(a: seq<int>, b: seq<int>, idxs: seq<int>)
    decreases |idxs|
  {
    |idxs| == 0 ||
    (|idxs| >= 2
     && 0 <= Index(idxs[0], |a|) <= |a| && 0 <= Index(idxs[1], |a|) <= |a|
     && ValidCuts(b, a, idxs[2..]))
  }

  /** The cuts taken in turn from the two sources, joined. */
  function Spliced(a: seq<int>, b: seq<int>, idxs: seq<int>): seq<int>
    requires ValidCuts(a, b, idxs)
    decreases |idxs|
  {
    if idxs == [] then []
    else Cut(a, Index(idxs[0], |a|), Index(idxs[1], |a|)) + Spliced(b, a, idxs[2..])
  }

  predicate Even(n: nat) {
    n == 0 || (n >= 2 && Even(n - 2))
  }

  lemma EvenOn(n: nat)
    requires Even(n)
    ensures Even(n + 2)
  {
  }

  lemma {:induction false} EvenGap(i: nat, n: nat)
    requires Even(i) && Even(n) && i < n
    ensures i + 2 <= n
    decreases i
  {
    if i == 0 {
    } else {
      EvenGap(i - 2, n - 2);
    }
  }

  predicate Second(count: nat) {
    count >= 2 && !Second(count - 2)
  }

  /** Which source is next after so many indices. */
  function Turn<T>(a: T, b: T, count: nat): T {
    if Second(count) then b else a
  }

  lemma Associative(a: seq<int>, b: seq<int>, c: seq<int>)
    ensures a + (b + c) == (a + b) + c
  {
  }

  /** Splicing goes on from where it was, with the sources in step. */
  lemma {:induction false} SpliceOn(a: seq<int>, b: seq<int>, low: seq<int>, i: int, j: int)
    requires ValidCuts(a, b, low + [i, j])
    ensures Even(|low|) && ValidCuts(a, b, low)
    ensures var s := Turn(a, b, |low|);
            && 0 <= Index(i, |s|) <= |s| && 0 <= Index(j, |s|) <= |s|
            && Spliced(a, b, low + [i, j]) == Spliced(a, b, low) + Cut(s, Index(i, |s|), Index(j, |s|))
    decreases |low|
  {
    var high := low + [i, j];
    if low == [] {
      assert high[2..] == [];
    } else {
      assert |high[2..]| == |low|;
      assert |low| >= 2;
      var rest := low[2..];
      assert high[2..] == rest + [i, j];
      SpliceOn(b, a, rest, i, j);
      var s := Turn(a, b, |low|);
      assert s == Turn(b, a, |rest|);
      assert high[0] == low[0] && high[1] == low[1];
      Associative(Cut(a, Index(low[0], |a|), Index(low[1], |a|)), Spliced(b, a, rest), Cut(s, Index(i, |s|), Index(j, |s|)));
    }
  }

  // ----- the swap by exclusive or -----

  function Xor(a: nat, b: nat): nat
    decreases a + b
  {
    if a == 0 then b else if b == 0 then a
    else (a % 2 + b % 2) % 2 + 2 * Xor(a / 2, b / 2)
  }

  lemma {:induction false} XorSym(a: nat, b: nat)
    ensures Xor(a, b) == Xor(b, a)
    decreases a + b
  {
    if a == 0 || b == 0 {
    } else {
      XorSym(a / 2, b / 2);
    }
  }

  /** The difference of two takes the one to the other. */
  lemma {:induction false} XorBack(a: nat, b: nat)
    ensures Xor(Xor(a, b), a) == b
    decreases a + b
  {
    if b == 0 {
      XorSelf(a);
    } else if a > 0 {
      if Xor(a, b) == 0 {
        XorZero(a, b);
      } else {
        XorBack(a / 2, b / 2);
        XorHalves(a, b);
        XorHalves(Xor(a, b), a);
        hide Xor;
        SameBits(Xor(Xor(a, b), a), b, a % 2);
      }
    }
  }

  lemma SameBits(x: nat, y: nat, p: nat)
    requires p < 2 && x / 2 == y / 2 && x % 2 == ((p + y % 2) % 2 + p) % 2
    ensures x == y
  {
    assert y % 2 == 0 || y % 2 == 1;
    assert x % 2 == y % 2;
  }

  lemma XorHalves(a: nat, b: nat)
    requires a > 0 && b > 0
    ensures Xor(a, b) % 2 == (a % 2 + b % 2) % 2
    ensures Xor(a, b) / 2 == Xor(a / 2, b / 2)
  {
  }

  lemma {:induction false} XorSelf(a: nat)
    ensures Xor(a, a) == 0
    decreases a
  {
    if a == 0 {
    } else {
      XorSelf(a / 2);
    }
  }

  lemma {:induction false} XorZero(a: nat, b: nat)
    requires Xor(a, b) == 0
    ensures a == b
    decreases a + b
  {
    if a > 0 && b > 0 { XorZero(a / 2, b / 2); }
  }

  // ----- the class -----

  class Array {
    var elems: array<int>
    var length: nat

    ghost predicate Valid()
      reads this
    {
      0 < elems.Length && length <= elems.Length
    }

    ghost function Contents(): seq<int>
      reads this, elems
      requires Valid()
    {
      elems[..length]
    }

    /** An empty array, with the room there is in the object itself. */
    constructor (room: nat)
      requires room > 0
      ensures Valid() && Contents() == [] && fresh(elems) && elems.Length == room
    {
      elems := new int[room];
      length := 0;
    }

    /** `:set_cap`. Nothing if there is room, or else a new block of twice what was asked, or
        more, with all the old block had. The length is not looked at and not changed. */
    method SetCap(newCap: nat, more: nat)
      modifies this`elems
      ensures newCap <= old(elems.Length) ==> elems == old(elems)
      ensures newCap > old(elems.Length) ==> fresh(elems) && elems.Length == 2 * newCap + more
      ensures newCap > old(elems.Length) ==> elems[..old(elems.Length)] == old(elems[..])
    {
      if newCap > elems.Length {
        var block := new int[2 * newCap + more];
        forall i | 0 <= i < elems.Length { block[i] := elems[i]; }
        elems := block;
      }
    }

    /** `:push_back`. The length is put up first, and then the capacity if it is past it. */
    method PushBack(elm: int, more: nat)
      requires Valid()
      modifies this, elems
      ensures Valid() && Contents() == old(Contents()) + [elm]
      ensures elems == old(elems) || fresh(elems)
    {
      ghost var was := Contents();
      length := length + 1;
      if length > elems.Length {
        SetCap(elems.Length + elems.Length, more);
      }
      elems[length - 1] := elm;
      assert elems[..length] == was + [elm];
    }

    /** `:pop_back`. */
    method PopBack() returns (elm: int)
      requires Valid() && length > 0
      modifies this`length
      ensures Valid() && old(Contents()) == Contents() + [elm]
    {
      length := length - 1;
      elm := elems[length];
    }

    /** `:append`, of part of an array, which may be this one. */
    method Append(that: Array, si: nat, ei: nat, more: nat)
      requires Valid() && that.Valid() && si <= ei <= that.length
      requires that != this ==> that.elems != elems
      modifies this, elems
      ensures Valid() && Contents() == old(Contents()) + old(that.Contents())[si..ei]
      ensures elems == old(elems) || fresh(elems)
    {
      if si != ei {
        ghost var was, part, whole, from := Contents(), that.Contents()[si..ei], elems[..], that.elems[..];
        var di := length;
        length := di + (ei - si);
        SetCap(length, more);
        assert elems[..|whole|] == whole && that.elems[..|from|] == from;
        SamePart(elems[..], whole, di, 0, di);
        SamePart(that.elems[..], from, if that == this then di else that.length, si, ei);
        CopyUp(that.elems, si, ei, elems, di);
        Joined(elems[..], di, length);
      }
    }

    /** `:slice`, backwards if the start is past the end. */
    method Slice(si: nat, ei: nat, room: nat, more: nat) returns (this': Array)
      requires Valid() && si <= length && ei <= length && room > 0
      ensures this'.Valid() && fresh(this') && fresh(this'.elems)
      ensures this'.Contents() == Cut(Contents(), si, ei)
      ensures si <= ei ==> this'.Contents() == Contents()[si..ei]
      ensures ei < si ==> this'.length == si - ei
      ensures forall k | 0 <= k < si - ei :: this'.Contents()[k] == Contents()[si - 1 - k]
    {
      hide Cut;
      CutIs(Contents(), si, ei);
      this' := new Array(room);
      CutLength(Contents(), si, ei);
      if si != ei {
        var total := if ei < si then si - ei else ei - si;
        this'.length := total;
        this'.SetCap(total, more);
        CutWithin(elems[..], length, si, ei);
        var end := CopyCut(elems, si, ei, this'.elems, 0);
        assert this'.elems[..0] == [];
      } else {
        assert Cut(Contents(), si, ei) == [];
      }
    }
  }

  lemma SamePart(now: seq<int>, whole: seq<int>, len: nat, si: nat, ei: nat)
    requires si <= ei <= len <= |whole| <= |now| && now[..|whole|] == whole
    ensures now[..len] == whole[..len] && now[si..ei] == whole[..len][si..ei]
  {
    forall i | 0 <= i < |whole| ensures now[i] == whole[i] { assert now[..|whole|][i] == now[i]; }
  }

  lemma Joined(s: seq<int>, i: nat, j: nat)
    requires i <= j <= |s|
    ensures s[..j] == s[..i] + s[i..j]
  {
  }

  lemma CutWithin(s: seq<int>, length: nat, si: nat, ei: nat)
    requires si <= length <= |s| && ei <= length
    ensures Cut(s[..length], si, ei) == Cut(s, si, ei)
  {
    if si <= ei {
      assert s[..length][si..ei] == s[si..ei];
    } else {
      assert s[..length][ei..si] == s[ei..si];
    }
  }

  lemma CutAll(s: seq<int>)
    ensures Cut(s, 0, |s|) == s
  {
  }

  /** The copying loop up from the start, of `:append`, `:cat`, `:slice` and `:splice`. */
  method CopyUp(src: array<int>, si: nat, ei: nat, dst: array<int>, di: nat)
    requires si < ei <= src.Length && di + (ei - si) <= dst.Length
    requires src == dst ==> ei <= di
    modifies dst
    ensures dst[..di] == old(dst[..di]) && dst[di..di + (ei - si)] == old(src[si..ei])
  {
    var from, to := si, di;
    while from != ei
      invariant si <= from <= ei && to == di + (from - si)
      invariant dst[..di] == old(dst[..di])
      invariant src[si..ei] == old(src[si..ei])
      invariant dst[di..to] == old(src[si..ei])[..from - si]
    {
      assert src[from] == src[si..ei][from - si];
      dst[to] := src[from];
      from, to := from + 1, to + 1;
      assert dst[di..to] == dst[di..to - 1] + [dst[to - 1]];
    }
  }

  /** The copying loop down from the start, of `:slice` and `:splice`. */
  method CopyDown(src: array<int>, si: nat, ei: nat, dst: array<int>, di: nat)
    requires ei < si <= src.Length && di + (si - ei) <= dst.Length && src != dst
    modifies dst
    ensures dst[..di] == old(dst[..di]) && dst[di..di + (si - ei)] == Reversed(src[ei..si])
  {
    var from, to := si, di;
    ghost var back := Reversed(src[ei..si]);
    while from != ei
      invariant ei <= from <= si && to == di + (si - from)
      invariant dst[..di] == old(dst[..di])
      invariant dst[di..to] == back[..si - from]
    {
      assert back[si - from] == src[from - 1];
      dst[to] := src[from - 1];
      from, to := from - 1, to + 1;
      assert dst[di..to] == dst[di..to - 1] + [dst[to - 1]];
    }
  }

  /** One or the other, by which way the indices are. */
  method CopyCut(src: array<int>, si: nat, ei: nat, dst: array<int>, di: nat) returns (end: nat)
    requires si <= src.Length && ei <= src.Length && si != ei && src != dst
    requires di + |Cut(src[..], si, ei)| <= dst.Length
    modifies dst
    ensures end == di + |Cut(src[..], si, ei)|
    ensures dst[..end] == old(dst[..di]) + Cut(src[..], si, ei)
  {
    if si < ei {
      assert src[..][si..ei] == src[si..ei];
      CopyUp(src, si, ei, dst, di);
      end := di + (ei - si);
    } else {
      assert src[..][ei..si] == src[ei..si];
      CopyDown(src, si, ei, dst, di);
      end := di + (si - ei);
    }
    assert dst[..end] == dst[..di] + dst[di..end];
  }

  // ----- cat -----

  ghost predicate AllValid(seqs: seq<Array>)
    reads seqs
  {
    forall i | 0 <= i < |seqs| :: seqs[i].Valid()
  }

  /** What is in them all, one after the other. */
  ghost function Catted(seqs: seq<Array>): seq<int>
    requires AllValid(seqs)
    reads seqs, set a | a in seqs :: a.elems
  {
    if seqs == [] then [] else Catted(seqs[..|seqs| - 1]) + seqs[|seqs| - 1].Contents()
  }

  /** The lengths of them all, added up. */
  method TotalOf(seqs: seq<Array>) returns (total: nat)
    requires AllValid(seqs)
    ensures total == |Catted(seqs)|
  {
    total := 0;
    for i := 0 to |seqs|
      invariant total == |Catted(seqs[..i])|
    {
      total := total + seqs[i].length;
      assert seqs[..i + 1][..i] == seqs[..i];
    }
    assert seqs[..|seqs|] == seqs;
  }

  /** And each copied after the one before. */
  method CopyAll(seqs: seq<Array>, dst: array<int>)
    requires AllValid(seqs) && |Catted(seqs)| <= dst.Length
    requires forall i | 0 <= i < |seqs| :: seqs[i].elems != dst
    modifies dst
    ensures dst[..|Catted(seqs)|] == old(Catted(seqs)) == Catted(seqs)
  {
    var di := 0;
    for i := 0 to |seqs|
      invariant di == |Catted(seqs[..i])| <= dst.Length
      invariant dst[..di] == Catted(seqs[..i])
      invariant Catted(seqs) == old(Catted(seqs))
    {
      CattedGrows(seqs, i);
      assert seqs[..i + 1][..i] == seqs[..i];
      var src := seqs[i];
      if src.length != 0 {
        CutWithin(src.elems[..], src.length, 0, src.length);
        CutAll(src.Contents());
        hide Cut;
        di := CopyCut(src.elems, 0, src.length, dst, di);
      }
    }
    assert seqs[..|seqs|] == seqs;
  }

  /** `:cat`: the lengths are added up, the room is made, and then each is copied. */
  method Cat(seqs: seq<Array>, room: nat, more: nat) returns (this': Array)
    requires AllValid(seqs) && room > 0
    ensures this'.Valid() && fresh(this') && fresh(this'.elems)
    ensures this'.Contents() == Catted(seqs)
  {
    this' := new Array(room);
    var total := TotalOf(seqs);
    this'.length := total;
    this'.SetCap(total, more);
    CopyAll(seqs, this'.elems);
  }

  /** Where an element of them all comes from. */
  lemma {:induction false} CattedAt(seqs: seq<Array>, i: nat, k: nat)
    requires AllValid(seqs) && i < |seqs| && k < seqs[i].length
    ensures |Catted(seqs[..i])| + k < |Catted(seqs)|
    ensures Catted(seqs)[|Catted(seqs[..i])| + k] == seqs[i].elems[k]
    decreases |seqs|
  {
    var less := seqs[..|seqs| - 1];
    if i + 1 == |seqs| {
      assert less == seqs[..i];
    } else {
      CattedAt(less, i, k);
      assert less[..i] == seqs[..i];
    }
  }

  lemma {:induction false} CattedGrows(seqs: seq<Array>, i: nat)
    requires AllValid(seqs) && i < |seqs|
    ensures |Catted(seqs[..i])| + seqs[i].length <= |Catted(seqs)|
    decreases |seqs|
  {
    if i + 1 < |seqs| {
      var less := seqs[..|seqs| - 1];
      CattedGrows(less, i);
      assert less[..i] == seqs[..i];
    }
  }

  // ----- splice -----

  /** The exclusive or of the two, put to either, makes it the other. */
  lemma XorTurns(a: nat, b: nat, count: nat)
    ensures Xor(Turn(a, b, count), Xor(a, b)) == Turn(a, b, count + 2)
  {
    XorBack(a, b);
    XorBack(b, a);
    XorSym(a, b);
    XorSym(a, Xor(a, b));
    XorSym(b, Xor(a, b));
  }

  lemma {:induction false} ValidPrefix(a: seq<int>, b: seq<int>, idxs: seq<int>, n: nat)
    requires ValidCuts(a, b, idxs) && n <= |idxs| && Even(n)
    ensures ValidCuts(a, b, idxs[..n])
    decreases n
  {
    if n == 0 {
    } else {
      ValidPrefix(b, a, idxs[2..], n - 2);
      assert idxs[..n][2..] == idxs[2..][..n - 2];
    }
  }

  lemma {:induction false} ValidEven(a: seq<int>, b: seq<int>, idxs: seq<int>)
    requires ValidCuts(a, b, idxs)
    ensures Even(|idxs|)
    decreases |idxs|
  {
    if idxs == [] {
    } else {
      ValidEven(b, a, idxs[2..]);
    }
  }

  /** What the pair at `i` adds. */
  lemma SplicePair(a: seq<int>, b: seq<int>, idxs: seq<int>, i: nat)
    requires ValidCuts(a, b, idxs) && i < |idxs| && Even(i)
    ensures i + 2 <= |idxs| && ValidCuts(a, b, idxs[..i]) && ValidCuts(a, b, idxs[..i + 2])
    ensures var s := Turn(a, b, i);
            && 0 <= Index(idxs[i], |s|) <= |s| && 0 <= Index(idxs[i + 1], |s|) <= |s|
            && Spliced(a, b, idxs[..i + 2]) == Spliced(a, b, idxs[..i]) + Cut(s, Index(idxs[i], |s|), Index(idxs[i + 1], |s|))
  {
    ValidEven(a, b, idxs);
    EvenGap(i, |idxs|);
    ValidPrefix(a, b, idxs, i);
    ValidPrefix(a, b, idxs, i + 2);
    assert idxs[..i + 2] == idxs[..i] + [idxs[i], idxs[i + 1]];
    SpliceOn(a, b, idxs[..i], idxs[i], idxs[i + 1]);
  }

  lemma {:induction false} SpliceRoom(a: seq<int>, b: seq<int>, idxs: seq<int>, n: nat)
    requires ValidCuts(a, b, idxs) && n <= |idxs| && Even(n)
    ensures ValidCuts(a, b, idxs[..n]) && |Spliced(a, b, idxs[..n])| <= |Spliced(a, b, idxs)|
    decreases |idxs| - n
  {
    hide ValidCuts, Spliced, Cut, Index, Turn, Even;
    ValidPrefix(a, b, idxs, n);
    if n == |idxs| {
      assert idxs[..n] == idxs;
    } else {
      SplicePair(a, b, idxs, n);
      EvenOn(n);
      SpliceRoom(a, b, idxs, n + 2);
    }
  }

  lemma SpliceNone(a: seq<int>, b: seq<int>, idxs: seq<int>)
    ensures Even(0) && ValidCuts(a, b, idxs[..0]) && Spliced(a, b, idxs[..0]) == []
    ensures forall x: nat, y: nat :: Turn(x, y, 0) == x
  {
    assert idxs[..0] == [];
  }

  /** A cut forward is as it was, and a cut back has the last first. */
  lemma CutIs(s: seq<int>, si: nat, ei: nat)
    requires si <= |s| && ei <= |s|
    ensures si <= ei ==> Cut(s, si, ei) == s[si..ei]
    ensures ei < si ==> |Cut(s, si, ei)| == si - ei && forall k | 0 <= k < si - ei :: Cut(s, si, ei)[k] == s[si - 1 - k]
  {
  }

  /** A negative index counts back from the end, which is -1. */
  lemma IndexIs(k: nat, len: nat)
    ensures Index(k, len) == k && Index(-1, len) == len && Index(-1 - k, len) == len - k
  {
  }

  /** The sources are taken by turns, each for two indices. */
  lemma {:induction false} SecondIs(pair: nat)
    ensures Even(2 * pair) && (Second(2 * pair) <==> pair % 2 == 1)
  {
    if pair == 0 {
    } else {
      SecondIs(pair - 1);
      assert 2 * pair - 2 == 2 * (pair - 1);
    }
  }

  /** A splice of the first pairs is what the whole begins with. */
  lemma {:induction false} SplicePrefix(a: seq<int>, b: seq<int>, idxs: seq<int>, n: nat)
    requires ValidCuts(a, b, idxs) && n <= |idxs| && Even(n)
    ensures ValidCuts(a, b, idxs[..n]) && Spliced(a, b, idxs[..n]) <= Spliced(a, b, idxs)
    decreases |idxs| - n
  {
    hide ValidCuts, Spliced, Cut, Index, Turn, Even;
    ValidPrefix(a, b, idxs, n);
    if n == |idxs| {
      assert idxs[..n] == idxs;
    } else {
      SplicePair(a, b, idxs, n);
      EvenOn(n);
      SplicePrefix(a, b, idxs, n + 2);
    }
  }

  /** Where an element of a splice comes from: each pair is of the first source or the second by
      turns, and it puts that source's elements from the one index up to the other, or back down
      to it. */
  lemma SpliceAt(a: seq<int>, b: seq<int>, idxs: seq<int>, pair: nat, k: nat)
    requires ValidCuts(a, b, idxs) && 2 * pair < |idxs|
    ensures 2 * pair + 2 <= |idxs| && ValidCuts(a, b, idxs[..2 * pair]) && ValidCuts(a, b, idxs[..2 * pair + 2])
    ensures var s, n := if pair % 2 == 0 then a else b, |Spliced(a, b, idxs[..2 * pair])|;
            var si, ei := Index(idxs[2 * pair], |s|), Index(idxs[2 * pair + 1], |s|);
            && 0 <= si <= |s| && 0 <= ei <= |s|
            && |Spliced(a, b, idxs[..2 * pair + 2])| == n + (if ei < si then si - ei else ei - si) <= |Spliced(a, b, idxs)|
            && (si + k < ei ==> Spliced(a, b, idxs)[n + k] == s[si + k])
            && (ei + k < si ==> Spliced(a, b, idxs)[n + k] == s[si - 1 - k])
  {
    hide ValidCuts, Spliced, Cut, Index, Second, Even;
    SecondIs(pair);
    SplicePair(a, b, idxs, 2 * pair);
    EvenOn(2 * pair);
    SplicePrefix(a, b, idxs, 2 * pair + 2);
    var s := Turn(a, b, 2 * pair);
    var si, ei := Index(idxs[2 * pair], |s|), Index(idxs[2 * pair + 1], |s|);
    CutLength(s, si, ei);
    CutIs(s, si, ei);
    PartAt(Spliced(a, b, idxs), Spliced(a, b, idxs[..2 * pair]), Cut(s, si, ei), k);
  }

  lemma PartAt(whole: seq<int>, low: seq<int>, part: seq<int>, k: nat)
    requires low + part <= whole
    ensures k < |part| ==> whole[|low| + k] == part[k]
  {
    if k < |part| { assert (low + part)[|low| + k] == part[k]; }
  }

  lemma CutLength(s: seq<int>, si: nat, ei: nat)
    requires si <= |s| && ei <= |s|
    ensures |Cut(s, si, ei)| == if ei < si then si - ei else ei - si
  {
  }

  /** The first pass of `:splice`, over the lengths alone. It comes to what the second writes. */
  method SpliceTotal(len1: nat, len2: nat, idxs: seq<int>, ghost a: seq<int>, ghost b: seq<int>) returns (total: nat)
    requires ValidCuts(a, b, idxs) && len1 == |a| && len2 == |b|
    ensures total == |Spliced(a, b, idxs)|
  {
    hide ValidCuts, Spliced, Cut, Second, Even, Xor;
    SpliceNone(a, b, idxs);
    total := 0;
    var len, swpXor, i := len1, Xor(len1, len2), 0;
    while i != |idxs|
      invariant Even(i) && i <= |idxs| && len == Turn(len1, len2, i) && swpXor == Xor(len1, len2)
      invariant ValidCuts(a, b, idxs[..i]) && total == |Spliced(a, b, idxs[..i])|
    {
      SplicePair(a, b, idxs, i);
      var si, ei := Index(idxs[i], len), Index(idxs[i + 1], len);
      XorTurns(len1, len2, i);
      EvenOn(i);
      CutLength(Turn(a, b, i), si, ei);
      i := i + 2;
      len := Xor(len, swpXor);
      total := total + if ei < si then si - ei else ei - si;
    }
    assert idxs[..|idxs|] == idxs;
  }

  /** `:splice`. The lengths alternate by exclusive or in the first pass and the addresses of the
      sources in the second, so each pair is of the same source in both. */
  method Splice(src1: Array, src2: Array, at1: nat, at2: nat, idxs: seq<int>, room: nat, more: nat)
    returns (this': Array)
    requires src1.Valid() && src2.Valid() && room > 0 && (at1 == at2 ==> src1 == src2)
    requires ValidCuts(src1.Contents(), src2.Contents(), idxs)
    ensures this'.Valid() && fresh(this') && fresh(this'.elems)
    ensures this'.Contents() == Spliced(src1.Contents(), src2.Contents(), idxs)
  {
    ghost var a, b := src1.Contents(), src2.Contents();
    this' := new Array(room);
    if idxs == [] { return; }
    var total := SpliceTotal(src1.length, src2.length, idxs, a, b);
    this'.length := total;
    this'.SetCap(total, more);
    SpliceInto(src1, src2, at1, at2, idxs, this'.elems);
  }

  /** One slice put after what is there. */
  method CopyPair(src: Array, i: int, j: int, dst: array<int>, di: nat) returns (end: nat)
    requires src.Valid() && dst != src.elems && di <= dst.Length
    requires 0 <= Index(i, src.length) <= src.length && 0 <= Index(j, src.length) <= src.length
    requires di + |Cut(src.Contents(), Index(i, src.length), Index(j, src.length))| <= dst.Length
    modifies dst
    ensures end <= dst.Length
    ensures dst[..end] == old(dst[..di]) + Cut(src.Contents(), Index(i, src.length), Index(j, src.length))
    ensures end == di + |Cut(src.Contents(), Index(i, src.length), Index(j, src.length))|
  {
    var si, ei := Index(i, src.length), Index(j, src.length);
    end := di;
    if si != ei {
      CutWithin(src.elems[..], src.length, si, ei);
      end := CopyCut(src.elems, si, ei, dst, di);
    }
  }

  /** What has been written of a splice. */
  ghost predicate Written(a: seq<int>, b: seq<int>, idxs: seq<int>, i: nat, dst: seq<int>, di: nat) {
    && Even(i) && i <= |idxs| && ValidCuts(a, b, idxs[..i])
    && di == |Spliced(a, b, idxs[..i])| && di <= |dst| && dst[..di] == Spliced(a, b, idxs[..i])
  }

  /** One pair of it. */
  method SpliceStep(src1: Array, src2: Array, at: nat, at1: nat, at2: nat, idxs: seq<int>, i: nat,
                    dst: array<int>, di: nat) returns (end: nat)
    requires src1.Valid() && src2.Valid() && (at1 == at2 ==> src1 == src2)
    requires dst != src1.elems && dst != src2.elems && i < |idxs| && at == Turn(at1, at2, i)
    requires ValidCuts(src1.Contents(), src2.Contents(), idxs)
    requires |Spliced(src1.Contents(), src2.Contents(), idxs)| <= dst.Length
    requires Written(src1.Contents(), src2.Contents(), idxs, i, dst[..], di)
    modifies dst
    ensures i + 2 <= |idxs| && Written(src1.Contents(), src2.Contents(), idxs, i + 2, dst[..], end)
  {
    hide ValidCuts, Spliced, Cut, Second, Even;
    ghost var a, b := src1.Contents(), src2.Contents();
    SplicePair(a, b, idxs, i);
    EvenOn(i);
    SpliceRoom(a, b, idxs, i + 2);
    var src := if at == at1 then src1 else src2;
    assert src.Contents() == Turn(a, b, i);
    end := CopyPair(src, idxs[i], idxs[i + 1], dst, di);
  }

  /** The second pass. */
  method SpliceInto(src1: Array, src2: Array, at1: nat, at2: nat, idxs: seq<int>, dst: array<int>)
    requires src1.Valid() && src2.Valid() && (at1 == at2 ==> src1 == src2)
    requires dst != src1.elems && dst != src2.elems
    requires ValidCuts(src1.Contents(), src2.Contents(), idxs)
    requires |Spliced(src1.Contents(), src2.Contents(), idxs)| <= dst.Length
    modifies dst
    ensures dst[..|Spliced(src1.Contents(), src2.Contents(), idxs)|] == Spliced(src1.Contents(), src2.Contents(), idxs)
  {
    hide ValidCuts, Spliced, Cut, Second, Even, Xor;
    ghost var a, b := src1.Contents(), src2.Contents();
    SpliceNone(a, b, idxs);
    var at, swpXor, i, di := at1, Xor(at1, at2), 0, 0;
    while i != |idxs|
      invariant i <= |idxs| && at == Turn(at1, at2, i)
      invariant Written(a, b, idxs, i, dst[..], di)
      invariant src1.Contents() == a && src2.Contents() == b
    {
      di := SpliceStep(src1, src2, at, at1, at2, idxs, i, dst, di);
      XorTurns(at1, at2, i);
      i := i + 2;
      at := Xor(at, swpXor);
    }
    assert idxs[..|idxs|] == idxs;
  }
}
