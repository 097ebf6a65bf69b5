/** Pixels blended two channels to a multiply (src/host/gui_raw.cpp:247-253, 267-273, 311-320,
    388-409, 428-451, 470-490).

    A `pixel_t` is a number under 2^32: sums and products wrap there, a mask keeps some of its
    bytes and a shift by 8 is a division by 256. */
module Pixels {
  const WORD: nat := 0x1_0000_0000

  type Word = x: nat | x < WORD

  function Add(a: nat, b: nat): Word {
    (a + b) % WORD
  }

  /** A product, as a sum, which keeps the proofs linear. */
  function Prod(a: nat, b: nat): nat {
    if b == 0 then 0 else Prod(a, b - 1) + a
  }

  lemma {:induction false} ProdIs(a: nat, b: nat)
    ensures Prod(a, b) == a * b
  {
    if b == 0 {
    } else {
      ProdIs(a, b - 1);
      assert a * b == a * (b - 1) + a;
    }
  }

  function Mul(a: nat, b: nat): Word {
    Prod(a, b) % WORD
  }

  /** `x & 0xff00ff` */
  function KeepRB(x: nat): nat {
    x / 0x10000 % 0x100 * 0x10000 + x % 0x100
  }

  /** `x & 0xff00` */
  function KeepG(x: nat): nat {
    x / 0x100 % 0x100 * 0x100
  }

  /** What is under a source, turned down by `da`, with the source added: red and blue in the
      one word, green in another. */
  function Blend(dst: nat, da: nat, srb: nat, sg: nat): Word {
    var drb := Add(KeepRB(Mul(KeepRB(dst), da) / 0x100), srb);
    var dg := Add(KeepG(Mul(KeepG(dst), da) / 0x100), sg);
    Add(drb, dg)
  }

  // ----- a channel at a time -----

  datatype Rgb = Rgb(r: nat, g: nat, b: nat)

  predicate Bytes(c: Rgb) {
    c.r <= 255 && c.g <= 255 && c.b <= 255
  }

  function Red(p: nat): nat {
    p / 0x10000 % 0x100
  }

  function Green(p: nat): nat {
    p / 0x100 % 0x100
  }

  function Blue(p: nat): nat {
    p % 0x100
  }

  function Colors(p: nat): Rgb {
    Rgb(Red(p), Green(p), Blue(p))
  }

  function Pack(c: Rgb): nat {
    c.r * 0x10000 + c.g * 0x100 + c.b
  }

  /** A channel with a source of some alpha over it. */
  function Shade(d: nat, a: nat, s: nat): nat
    requires a <= 255
  {
    Prod(d, 255 - a) / 256 + s
  }

  function ShadeAll(d: Rgb, a: nat, s: Rgb): Rgb
    requires a <= 255
  {
    Rgb(Shade(d.r, a, s.r), Shade(d.g, a, s.g), Shade(d.b, a, s.b))
  }

  /** A pixel with a source of some alpha over it; none of it leaves the pixel as it was. */
  function Paint(p: nat, a: nat, s: Rgb): nat
    requires a <= 255
  {
    if a == 0 then p else Pack(ShadeAll(Colors(p), a, s))
  }

  /** A channel by an alpha. */
  function Scaled(c: nat, a: nat): nat {
    Prod(c + 1, a) / 256
  }

  function ScaledAll(c: Rgb, a: nat): Rgb {
    Rgb(Scaled(c.r, a), Scaled(c.g, a), Scaled(c.b, a))
  }

  // ----- two at once is one at a time -----

  lemma Bound(d: nat, m: nat, top: nat)
    requires d <= top
    ensures Prod(d, m) <= top * m
  {
    ProdIs(d, m);
  }

  lemma TwoAtOnce(x: nat, y: nat)
    requires x < 0x10000 && y < 0x10000
    ensures KeepRB((x * 0x10000 + y) / 0x100) == x / 0x100 * 0x10000 + y / 0x100
    ensures KeepG(x) == x / 0x100 * 0x100
  {
    var q := (x * 0x10000 + y) / 0x100;
    assert q == x * 0x100 + y / 0x100;
    assert q / 0x10000 == x / 0x100;
  }

  lemma Spread(r: nat, b: nat, m: nat)
    ensures Prod(r * 0x10000 + b, m) == Prod(r, m) * 0x10000 + Prod(b, m)
    ensures Prod(m, r * 0x10000 + b) == Prod(r, m) * 0x10000 + Prod(b, m)
  {
    ProdIs(r * 0x10000 + b, m);
    ProdIs(m, r * 0x10000 + b);
    ProdIs(r, m);
    ProdIs(b, m);
  }

  lemma SpreadG(g: nat, m: nat)
    ensures Prod(g * 0x100, m) == Prod(g, m) * 0x100 && Prod(m, g * 0x100) == Prod(g, m) * 0x100
  {
    ProdIs(g * 0x100, m);
    ProdIs(m, g * 0x100);
    ProdIs(g, m);
  }

  /** A word of two products under 2^16 is not one that wraps. */
  lemma NoWrap(x: nat, y: nat)
    requires x <= 65280 && y <= 65280
    ensures (x * 0x10000 + y) % WORD == x * 0x10000 + y && x * 0x100 % WORD / 0x100 == x
  {
  }

  lemma Kept(p: nat)
    ensures KeepRB(p) == Red(p) * 0x10000 + Blue(p) && KeepG(p) == Green(p) * 0x100 && Bytes(Colors(p))
  {
  }

  lemma TurnedDownRB(p: nat, m: nat)
    requires m <= 255
    ensures KeepRB(Mul(KeepRB(p), m) / 0x100) == Prod(Red(p), m) / 0x100 * 0x10000 + Prod(Blue(p), m) / 0x100
  {
    var r, b := Red(p), Blue(p);
    Kept(p);
    hide Red, Blue, KeepRB, KeepG, Prod;
    Bound(r, m, 255);
    Bound(b, m, 255);
    Spread(r, b, m);
    NoWrap(Prod(r, m), Prod(b, m));
    TwoAtOnce(Prod(r, m), Prod(b, m));
  }

  lemma TurnedDownG(p: nat, m: nat)
    requires m <= 255
    ensures KeepG(Mul(KeepG(p), m) / 0x100) == Prod(Green(p), m) / 0x100 * 0x100
  {
    var g := Green(p);
    Kept(p);
    hide Green, KeepRB, KeepG, Prod;
    Bound(g, m, 255);
    SpreadG(g, m);
    NoWrap(Prod(g, m), 0);
    TwoAtOnce(Prod(g, m), 0);
  }

  /** The blend of two channels at once is that of each by itself. */
  lemma BlendIsPaint(p: nat, a: nat, s: Rgb)
    requires 0 < a <= 255 && Bytes(s)
    ensures Blend(p, 255 - a, s.r * 0x10000 + s.b, s.g * 0x100) == Paint(p, a, s)
  {
    hide Prod, KeepRB, KeepG, Mul, Add, Red, Green, Blue, Pack;
    var m, d := 255 - a, Colors(p);
    Kept(p);
    ByteShade(d.r, m);
    ByteShade(d.g, m);
    ByteShade(d.b, m);
    TurnedDownRB(p, m);
    TurnedDownG(p, m);
    AddsUp(Prod(d.r, m) / 0x100, Prod(d.b, m) / 0x100, Prod(d.g, m) / 0x100, s);
  }

  lemma ByteShade(d: nat, m: nat)
    requires d <= 255 && m <= 255
    ensures Prod(d, m) / 0x100 <= 255
  {
    Bound(d, m, 255);
  }

  lemma AddsUp(x: nat, y: nat, z: nat, s: Rgb)
    requires x <= 255 && y <= 255 && z <= 255 && Bytes(s)
    ensures Add(Add(x * 0x10000 + y, s.r * 0x10000 + s.b), Add(z * 0x100, s.g * 0x100)) ==
            Pack(Rgb(x + s.r, z + s.g, y + s.b))
  {
  }

  /** To paint with no alpha left out is to put. */
  lemma Opaque(p: nat, s: Rgb)
    ensures Paint(p, 255, s) == Pack(s)
  {
  }

  lemma PackColors(c: Rgb)
    requires c.r <= 510 && c.g <= 510 && c.b <= 510
    ensures Pack(c) < WORD
    ensures Colors(Pack(c)) == c && Pack(c) < 0x1000000 <==> Bytes(c)
  {
    if c.b <= 255 {
      assert Pack(c) / 0x100 == c.r * 0x100 + c.g;
      if c.g <= 255 { assert Pack(c) / 0x10000 == c.r; }
    }
  }

  predicate Premultiplied(a: nat, s: Rgb) {
    s.r <= a && s.g <= a && s.b <= a
  }

  lemma ShadeBound(d: nat, a: nat, s: nat)
    requires d <= 255 && a <= 255 && s <= 255
    ensures Shade(d, a, s) <= 510 && (s <= a ==> Shade(d, a, s) <= 255)
  {
    Bound(d, 255 - a, 255);
  }

  /** What is left of what is under is never more than it should be, and less by under 2. */
  lemma ShadeNear(d: nat, a: nat, s: nat)
    requires d <= 255 && a <= 255
    ensures var x, left := Prod(d, 255 - a), Shade(d, a, s) - s;
            255 * left <= x < 255 * (left + 2)
  {
    Bound(d, 255 - a, 255);
  }

  /** No channel runs over into the next just when each of them stays a byte, and with a source
      that is premultiplied they do. */
  lemma NoCarry(p: nat, a: nat, s: Rgb)
    requires 0 < a <= 255 && Bytes(s)
    ensures var c := ShadeAll(Colors(p), a, s);
            && Paint(p, a, s) < WORD
            && (Colors(Paint(p, a, s)) == c && Paint(p, a, s) < 0x1000000 <==> Bytes(c))
            && (Premultiplied(a, s) ==> Bytes(c))
  {
    var d := Colors(p);
    ShadeBound(d.r, a, s.r);
    ShadeBound(d.g, a, s.g);
    ShadeBound(d.b, a, s.b);
    PackColors(ShadeAll(d, a, s));
  }

  // ----- where sources come from -----

  lemma ScaledBounds(c: nat, a: nat)
    requires c <= 255 && a <= 255
    ensures Scaled(c, a) <= a && (a == 255 ==> Scaled(c, a) == c) && Scaled(0, a) == 0
    ensures Scaled(255, a) == a
  {
    ProdIs(256, a);
    ProdIs(1, a);
    ProdIs(c + 1, 255);
    Bound(c + 1, a, 256);
    hide Prod;
  }

  /** A channel by an alpha is 1 more than it by 256ths of the alpha, cut down. */
  lemma ScaledIs(c: nat, a: nat)
    ensures 256 * Scaled(c, a) <= (c + 1) * a < 256 * (Scaled(c, a) + 1)
  {
    ProdIs(c + 1, a);
  }

  lemma ScaledPremultiplied(c: Rgb, a: nat)
    requires Bytes(c) && a <= 255
    ensures Premultiplied(a, ScaledAll(c, a)) && (a == 255 ==> ScaledAll(c, a) == c)
  {
    ScaledBounds(c.r, a);
    ScaledBounds(c.g, a);
    ScaledBounds(c.b, a);
  }

  /** The colour of `host_gui_set_color`, its red and blue in one word and its green in another. */
  lemma ColorWords(c: Rgb, a: nat)
    requires Bytes(c) && a <= 255
    ensures var s := ScaledAll(c, a);
            && KeepG(Prod(c.r + 1, a)) * 0x100 + Prod(c.b + 1, a) / 0x100 == s.r * 0x10000 + s.b
            && KeepG(Prod(c.g + 1, a)) == s.g * 0x100
  {
    Bound(c.r + 1, a, 256);
    Bound(c.g + 1, a, 256);
    hide Prod, KeepG;
    TwoAtOnce(Prod(c.r + 1, a), 0);
    TwoAtOnce(Prod(c.g + 1, a), 0);
  }

  /** A texture's colour, scaled by an alpha. */
  lemma TintWords(c: Rgb, a: nat)
    requires Bytes(c) && a <= 255
    ensures var s := ScaledAll(c, a);
            && KeepRB(Mul(a, (c.r + 1) * 0x10000 + (c.b + 1)) / 0x100) == s.r * 0x10000 + s.b
            && KeepG(Mul(a, (c.g + 1) * 0x100) / 0x100) == s.g * 0x100
  {
    hide Prod, KeepRB, KeepG;
    var x, y, z := Prod(c.r + 1, a), Prod(c.b + 1, a), Prod(c.g + 1, a);
    Bound(c.r + 1, a, 256);
    Bound(c.b + 1, a, 256);
    Bound(c.g + 1, a, 256);
    Spread(c.r + 1, c.b + 1, a);
    SpreadG(c.g + 1, a);
    NoWrap(x, y);
    NoWrap(z, 0);
    TwoAtOnce(x, y);
    TwoAtOnce(z, 0);
  }
}
