/** The raw driver's drawing into its back buffer: the clip, filled boxes, boxes and blits
    (src/host/gui_raw.cpp:247-253, 259-496).

    Places are counted in pixels, where the source steps in bytes, and an element of a texture
    is a pixel, an alpha, or an alpha and a grey. The clip of a `Canvas` is not empty and is
    inside the screen; `LoopsEndIff` has what an empty one would do. */
module Canvas {
  import opened Pixels

  datatype Rect = Rect(x: int, y: int, w: int, h: int)

  /** A rect as it is clipped: its corners. */
  datatype Area = Area(x0: int, y0: int, x1: int, y1: int)

  datatype Texture = Texture(w: nat, h: nat, m: nat, tint: Rgb, data: seq<nat>)

  function Col(k: nat, w: nat): (r: nat)
    requires 0 < w
    ensures r < w
  {
    k % w
  }

  function Row(k: nat, w: nat): nat
    requires 0 < w
  {
    k / w
  }

  /** The place of a pixel. */
  function At(x: int, y: int, w: int): int {
    y * w + x
  }

  lemma AtIs(k: nat, x: int, y: int, w: nat)
    requires 0 <= x < w && 0 <= y
    ensures k == At(x, y, w) <==> Col(k, w) == x && Row(k, w) == y
  {
    assert k == (k / w) * w + k % w;
    if k == y * w + x { RowIs(k / w, k % w, y, x, w); }
  }

  lemma RowBelow(y: int, v: int, w: nat)
    ensures y < v ==> y * w + w <= v * w
  {
    if y < v {
      var d := v - y - 1;
      assert 0 <= d * w;
      assert v * w == y * w + w + d * w;
    }
  }

  lemma RowIs(v: int, u: int, y: int, x: int, w: nat)
    requires 0 <= u < w && 0 <= x < w && v * w + u == y * w + x
    ensures v == y && u == x
  {
    RowBelow(v, y, w);
    RowBelow(y, v, w);
  }

  /** The places of one row from `x0` up to `x1`. */
  lemma RowOf(k: nat, x0: int, x1: int, y: int, w: nat)
    requires 0 <= x0 < x1 <= w && 0 <= y
    ensures At(x0, y, w) <= k < At(x1, y, w) <==> Row(k, w) == y && x0 <= Col(k, w) < x1
    ensures At(x0, y, w) <= k < At(x1, y, w) ==> Col(k, w) - x0 == k - At(x0, y, w)
  {
    if At(x0, y, w) <= k < At(x1, y, w) { AtIs(k, k - At(0, y, w), y, w); }
    if Row(k, w) == y && x0 <= Col(k, w) < x1 { AtIs(k, Col(k, w), y, w); }
  }

  lemma AtLess(x: int, y: int, w: int, h: int)
    requires 0 <= x <= w && 0 <= y < h
    ensures 0 <= At(x, y, w) <= w * h
  {
    assert (y + 1) * w <= h * w;
    assert 0 <= y * w;
  }

  predicate Has(a: Area, x: int, y: int) {
    a.x0 <= x < a.x1 && a.y0 <= y < a.y1
  }

  predicate InRect(r: Rect, x: int, y: int) {
    r.x <= x < r.x + r.w && r.y <= y < r.y + r.h
  }

  predicate OnEdge(r: Rect, x: int, y: int) {
    InRect(r, x, y) && (x == r.x || x == r.x + r.w - 1 || y == r.y || y == r.y + r.h - 1)
  }

  function Max(a: int, b: int): int {
    if a > b then a else b
  }

  function Min(a: int, b: int): int {
    if a < b then a else b
  }

  /** What of a rect is in a clip. */
  function Clipped(r: Rect, clip: Area): Area {
    Area(Max(r.x, clip.x0), Max(r.y, clip.y0), Min(r.x + r.w, clip.x1), Min(r.y + r.h, clip.y1))
  }

  predicate Empty(a: Area) {
    a.x1 <= a.x0 || a.y1 <= a.y0
  }

  // ----- a clip that is empty -----

  /** What is tested of a rect before any of it is drawn. */
  predicate Passes(r: Rect, clip: Area) {
    0 < r.w && 0 < r.h && r.x < clip.x1 && r.y < clip.y1 && clip.x0 < r.x + r.w && clip.y0 < r.y + r.h
  }

  /** A loop that steps and then tests comes to its end just by some number of steps, one or more. */
  ghost predicate Ends(start: int, step: int, end: int) {
    exists n: nat :: n > 0 && start + Steps(n, step) == end
  }

  function Steps(n: nat, step: int): int {
    n * step
  }

  lemma EndsIff(start: int, step: int, count: int)
    requires step > 0
    ensures Ends(start, step, start + count * step) <==> count > 0
  {
    if count > 0 { assert start + Steps(count, step) == start + count * step; }
    if n: nat :| n > 0 && start + Steps(n, step) == start + count * step {
      assert n * step == count * step > 0;
      assert count <= 0 ==> count * step <= 0;
    }
  }

  /** Of a rect that passes the tests, the loop along a line and the loop down the lines both come to
      their ends just when the clip is not empty. With one that is, pixels are written on and on,
      past the area and the buffer. */
  lemma LoopsEndIff(r: Rect, clip: Area, w: nat)
    requires Passes(r, clip) && 0 < w
    ensures var a := Clipped(r, clip);
            && (Empty(a) <==> Empty(clip))
            && (Ends(At(a.x0, a.y0, w), 1, At(a.x1, a.y0, w)) && Ends(At(a.x0, a.y0, w), w, At(a.x0, a.y1, w))
                <==> !Empty(clip))
  {
    var a := Clipped(r, clip);
    EndsIff(At(a.x0, a.y0, w), 1, a.x1 - a.x0);
    EndsIff(At(a.x0, a.y0, w), w, a.y1 - a.y0);
    assert At(a.x1, a.y0, w) == At(a.x0, a.y0, w) + (a.x1 - a.x0) * 1;
    assert At(a.x0, a.y1, w) == At(a.x0, a.y0, w) + (a.y1 - a.y0) * w;
  }

  /** A rect over an empty clip on the screen: its line does not end. */
  lemma EmptyClipRunsOn()
    ensures var r, clip := Rect(0, 0, 8, 8), Area(4, 0, 4, 8);
            var a := Clipped(r, clip);
            Passes(r, clip) && Empty(clip) && !Ends(At(a.x0, a.y0, 8), 1, At(a.x1, a.y0, 8))
  {
    EndsIff(4, 1, 0);
  }

  // ----- textures -----

  predicate TextureOk(t: Texture) {
    && |t.data| == t.w * t.h && Bytes(t.tint)
    && forall e | e in t.data :: e < (if t.m == 1 then 0x100 else if t.m == 2 then 0x10000 else WORD)
  }

  /** The alpha of an element of a texture, by the texture's mode: glyph, coloured or normal. */
  function Alpha(t: Texture, e: nat): nat {
    if t.m == 1 then e else if t.m == 2 then e / 0x100 else e / 0x1000000
  }

  /** And its colour. */
  function Color(t: Texture, e: nat): Rgb {
    if t.m == 1 then ScaledAll(t.tint, e)
    else if t.m == 2 then ScaledAll(t.tint, Scaled(e % 0x100, e / 0x100))
    else Colors(e)
  }

  lemma ElementOk(t: Texture, e: nat)
    requires TextureOk(t) && e in t.data
    ensures Alpha(t, e) <= 255 && Bytes(Color(t, e))
    ensures t.m == 1 || t.m == 2 ==> Premultiplied(Alpha(t, e), Color(t, e))
  {
    if t.m == 1 { ScaledPremultiplied(t.tint, e); }
    if t.m == 2 {
      ScaledBounds(e % 0x100, e / 0x100);
      ScaledPremultiplied(t.tint, Scaled(e % 0x100, e / 0x100));
    }
  }

  /** Where the parts of an element are: its alpha is the top byte of what its mode has, and under it the
      grey of a coloured one, from black to the tint as a glyph would have it, or the three colours of
      a normal one. */
  lemma ElementParts(t: Texture, a: nat, c: Rgb)
    requires a <= 255 && Bytes(c) && Bytes(t.tint)
    ensures t.m == 1 ==> Alpha(t, a) == a && Color(t, a) == ScaledAll(t.tint, a)
    ensures t.m == 2 ==> Alpha(t, a * 0x100 + c.g) == a
    ensures t.m == 2 ==> Color(t, a * 0x100) == Rgb(0, 0, 0) && Color(t, a * 0x100 + 255) == ScaledAll(t.tint, a)
    ensures t.m != 1 && t.m != 2 ==> Alpha(t, a * 0x1000000 + Pack(c)) == a && Color(t, a * 0x1000000 + Pack(c)) == c
  {
    ProdIs(0 + 1, a);
    ProdIs(255 + 1, a);
    ProdIs(t.tint.r + 1, 0);
    ProdIs(t.tint.g + 1, 0);
    ProdIs(t.tint.b + 1, 0);
    hide Prod;
    assert Scaled(0, a) == 0 && Scaled(255, a) == a && ScaledAll(t.tint, 0) == Rgb(0, 0, 0);
    hide Scaled, ScaledAll;
    assert (a * 0x100 + c.g) / 0x100 == a && a * 0x100 % 0x100 == 0;
    WordParts(a, c);
  }

  lemma LowByte(q: nat, r: nat)
    requires r < 0x100
    ensures (q * 0x100 + r) / 0x100 == q && (q * 0x100 + r) % 0x100 == r
  {
  }

  lemma TwiceDown(e: nat)
    ensures e / 0x10000 == e / 0x100 / 0x100 && e / 0x1000000 == e / 0x10000 / 0x100
  {
  }

  lemma WordParts(a: nat, c: Rgb)
    requires a <= 255 && Bytes(c)
    ensures var e := a * 0x1000000 + Pack(c); e / 0x1000000 == a && Colors(e) == c
  {
    var e, rg, r := a * 0x1000000 + Pack(c), (a * 0x100 + c.r) * 0x100 + c.g, a * 0x100 + c.r;
    assert e == rg * 0x100 + c.b;
    LowByte(rg, c.b);
    LowByte(r, c.g);
    LowByte(a, c.r);
    TwiceDown(e);
  }

  /** A pixel with an element of a texture over it. */
  function Over(p: nat, t: Texture, e: nat): nat
    requires Alpha(t, e) <= 255
  {
    Paint(p, Alpha(t, e), Color(t, e))
  }

  // ----- the canvas -----

  class Canvas {
    const w: nat
    const h: nat
    const buf: array<Word>
    var clip: Area
    var colorA: nat
    var colorRb: nat
    var colorG: nat

    ghost predicate Valid()
      reads this
    {
      && 0 < w && 0 < h && buf.Length == w * h
      && 0 <= clip.x0 < clip.x1 <= w && 0 <= clip.y0 < clip.y1 <= h
      && ColorOk()
    }

    ghost predicate ColorOk()
      reads this
    {
      && colorA <= 255 && Premultiplied(colorA, Ink())
      && colorRb == Ink().r * 0x10000 + Ink().b && colorG == Ink().g * 0x100
    }

    /** The colour that is drawn with. */
    ghost function Ink(): Rgb
      reads this
    {
      Rgb(colorRb / 0x10000, colorG / 0x100, colorRb % 0x10000)
    }

    constructor (w: nat, h: nat)
      requires 0 < w && 0 < h
      ensures Valid() && fresh(buf) && this.w == w && this.h == h
    {
      this.w := w;
      this.h := h;
      buf := new Word[w * h](_ => 0);
      clip := Area(0, 0, w, h);
      colorA, colorRb, colorG := 0, 0, 0;
    }

    /** `host_gui_set_clip` */
    method SetClip(rect: Rect)
      requires Valid()
      requires 0 <= rect.x && 0 <= rect.y && 0 < rect.w && 0 < rect.h && rect.x + rect.w <= w && rect.y + rect.h <= h
      modifies this`clip
      ensures Valid() && forall x, y :: Has(clip, x, y) <==> InRect(rect, x, y)
    {
      clip := Area(rect.x, rect.y, rect.x + rect.w, rect.y + rect.h);
    }

    /** `host_gui_set_color` */
    method SetColor(c: Rgb, a: nat)
      requires Valid() && Bytes(c) && a <= 255
      modifies this`colorA, this`colorRb, this`colorG
      ensures Valid() && colorA == a && Ink() == ScaledAll(c, a)
    {
      colorA := a;
      colorRb := KeepG(Prod(c.r + 1, a)) * 0x100 + Prod(c.b + 1, a) / 0x100;
      colorG := KeepG(Prod(c.g + 1, a));
      hide KeepG, Prod, Scaled;
      ColorWords(c, a);
      ScaledPremultiplied(c, a);
      InkIs(ScaledAll(c, a), colorRb, colorG);
      hide ScaledAll;
    }

    /** One line of `host_gui_filled_box`. */
    method FillLine(start: nat, end: nat)
      requires ColorOk() && colorA > 0 && start < end <= buf.Length
      modifies buf
      ensures forall k | 0 <= k < buf.Length ::
                buf[k] == if start <= k < end then Paint(old(buf[k]), colorA, Ink()) else old(buf[k])
    {
      hide Paint, Blend, Pack;
      var dst := start;
      var more := true;
      while more
        invariant start <= dst <= end && more == (dst != end)
        invariant forall k | 0 <= k < buf.Length ::
                    buf[k] == if start <= k < dst then Paint(old(buf[k]), colorA, Ink()) else old(buf[k])
        decreases end - dst
      {
        if colorA == 0xff {
          Opaque(buf[dst], Ink());
          InkPack();
          buf[dst] := Add(colorRb, colorG);
        } else {
          BlendIsPaint(buf[dst], colorA, Ink());
          buf[dst] := Blend(buf[dst], 0xff - colorA, colorRb, colorG);
        }
        dst := dst + 1;
        more := dst != end;
      }
    }

    lemma InkPack()
      requires ColorOk()
      ensures Add(colorRb, colorG) == Pack(Ink()) && Bytes(Ink())
    {
    }

    /** `host_gui_filled_box`: the pixels of the rect that are in the clip, and no other, have the
        colour over them the once. */
    method FilledBox(rect: Rect)
      requires Valid()
      modifies buf
      ensures forall k | 0 <= k < buf.Length ::
                buf[k] == if InRect(rect, Col(k, w), Row(k, w)) && Has(clip, Col(k, w), Row(k, w))
                          then Paint(old(buf[k]), colorA, Ink()) else old(buf[k])
    {
      hide Paint, Col, Row, At, Canvas.Ink;
      if colorA == 0 { NoInk(); return; }
      if rect.w <= 0 || rect.h <= 0 { return; }
      var r := Area(rect.x, rect.y, rect.x + rect.w, rect.y + rect.h);
      if r.x0 >= clip.x1 || r.y0 >= clip.y1 { return; }
      if r.x1 <= clip.x0 || r.y1 <= clip.y0 { return; }
      if clip.x0 > r.x0 { r := r.(x0 := clip.x0); }
      if clip.y0 > r.y0 { r := r.(y0 := clip.y0); }
      if r.x1 > clip.x1 { r := r.(x1 := clip.x1); }
      if r.y1 > clip.y1 { r := r.(y1 := clip.y1); }
      forall k: nat | k < buf.Length
        ensures Has(r, Col(k, w), Row(k, w)) <==> InRect(rect, Col(k, w), Row(k, w)) && Has(clip, Col(k, w), Row(k, w))
      {
      }
      FillArea(r);
    }

    lemma NoInk()
      requires colorA == 0
      ensures forall k | 0 <= k < buf.Length :: Paint(buf[k], colorA, Ink()) == buf[k]
    {
    }

    predicate Within(r: Area) {
      0 <= r.x0 < r.x1 <= w && 0 <= r.y0 < r.y1 <= h
    }

    method FillArea(r: Area)
      requires Valid() && colorA > 0 && Within(r)
      modifies buf
      ensures forall k | 0 <= k < buf.Length ::
                buf[k] == if Has(r, Col(k, w), Row(k, w)) then Paint(old(buf[k]), colorA, Ink()) else old(buf[k])
    {
      hide Paint, Col, Row, Canvas.Ink;
      var span := r.x1 - r.x0;
      var dst := r.y0 * w + r.x0;
      var end := dst + (r.y1 - r.y0) * w;
      var stride := w - span;
      ghost var y := r.y0;
      var more := true;
      while more
        invariant r.y0 <= y <= r.y1 && dst == At(r.x0, y, w) && end == At(r.x0, r.y1, w) && more == (y != r.y1)
        invariant forall k | 0 <= k < buf.Length ::
                    buf[k] == if Has(r.(y1 := y), Col(k, w), Row(k, w)) then Paint(old(buf[k]), colorA, Ink()) else old(buf[k])
        decreases r.y1 - y
      {
        AtLess(r.x0, y, w, h);
        AtLess(r.x1, y, w, h);
        forall k: nat | k < buf.Length
          ensures dst <= k < dst + span <==> Row(k, w) == y && r.x0 <= Col(k, w) < r.x1
        {
          RowOf(k, r.x0, r.x1, y, w);
        }
        FillLine(dst, dst + span);
        dst := dst + span + stride;
        y := y + 1;
        RowStep(r.x0, y, r.y1, w);
        more := dst != end;
      }
    }

    /** `host_gui_box`: of those pixels the ones on the edge of the rect, each of them once,
        corners and all, however thin it is. */
    method Box(rect: Rect)
      requires Valid()
      modifies buf
      ensures forall k | 0 <= k < buf.Length ::
                buf[k] == if OnEdge(rect, Col(k, w), Row(k, w)) && Has(clip, Col(k, w), Row(k, w))
                          then Paint(old(buf[k]), colorA, Ink()) else old(buf[k])
    {
      hide Paint, Col, Row, Canvas.Ink, Canvas.ColorOk;
      if rect.w <= 0 || rect.h <= 0 { return; }
      var r := rect.(h := 1);
      FilledBox(r);
      if rect.h <= 1 { return; }
      r := r.(y := rect.y + rect.h - 1);
      FilledBox(r);
      if rect.h <= 2 { return; }
      r := Rect(r.x, rect.y + 1, 1, rect.h - 2);
      FilledBox(r);
      if rect.w <= 1 { return; }
      r := r.(x := rect.x + rect.w - 1);
      FilledBox(r);
    }

    // ----- blits -----

    /** What is blitted is in the texture. */
    predicate SourceOk(t: Texture, sx: int, sy: int, r: Area) {
      0 <= sx && 0 <= sy && sx + (r.x1 - r.x0) <= t.w && sy + (r.y1 - r.y0) <= t.h
    }

    /** One line of a blit. */
    method BlitLine(t: Texture, from: nat, start: nat, end: nat)
      requires TextureOk(t) && start < end <= buf.Length && from + (end - start) <= |t.data|
      modifies buf
      ensures LineOver(t, from, start, end, old(buf[..]), buf[..])
    {
      hide TextureOk, IsOver;
      ghost var was := buf[..];
      var dst := start;
      var more := true;
      while more
        invariant start <= dst <= end && more == (dst != end) && |was| == buf.Length
        invariant forall k | dst <= k < buf.Length :: buf[k] == was[k]
        invariant forall k | 0 <= k < start :: buf[k] == was[k]
        invariant forall k | start <= k < dst :: IsOver(was[k], t, t.data[from + (k - start)], buf[k])
        decreases end - dst
      {
        var e := t.data[from + (dst - start)];
        buf[dst] := Put(t, e, buf[dst]);
        dst := dst + 1;
        more := dst != end;
      }
    }

    /** Place `k` of the buffer has what of the texture is at the same step from `sx`, `sy` as it
        is from the corner of the area over it. */
    ghost predicate IsBlit(t: Texture, sx: int, sy: int, r: Area, k: nat, was: nat, now: nat)
      requires 0 < w
    {
      var x, y := sx + Col(k, w) - r.x0, sy + Row(k, w) - r.y0;
      InTexture(t, x, y) && IsOver(was, t, t.data[At(x, y, t.w)], now)
    }

    method BlitArea(t: Texture, sx: int, sy: int, r: Area)
      requires Valid() && Within(r) && TextureOk(t) && SourceOk(t, sx, sy, r)
      modifies buf
      ensures forall k: nat | k < buf.Length ::
                if Has(r, Col(k, w), Row(k, w)) then IsBlit(t, sx, sy, r, k, old(buf[k]), buf[k]) else buf[k] == old(buf[k])
    {
      hide Col, Row, IsOver, Canvas.IsBlit, Canvas.ColorOk;
      var span := r.x1 - r.x0;
      var dst := r.y0 * w + r.x0;
      var end := dst + (r.y1 - r.y0) * w;
      var src := sy * t.w + sx;
      var dstride, sstride := w - span, t.w - span;
      ghost var y, was := r.y0, buf[..];
      var more := true;
      while more
        invariant r.y0 <= y <= r.y1 && dst == At(r.x0, y, w) && end == At(r.x0, r.y1, w) && more == (y != r.y1)
        invariant src == At(sx, sy + (y - r.y0), t.w) && |was| == buf.Length
        invariant forall k: nat | k < buf.Length && Has(r.(y1 := y), Col(k, w), Row(k, w)) ::
                    IsBlit(t, sx, sy, r, k, was[k], buf[k])
        invariant forall k: nat | k < buf.Length && !Has(r.(y1 := y), Col(k, w), Row(k, w)) :: buf[k] == was[k]
        decreases r.y1 - y
      {
        AtLess(r.x0, y, w, h);
        AtLess(r.x1, y, w, h);
        AtLess(sx, sy + (y - r.y0), t.w, t.h);
        AtLess(sx + span, sy + (y - r.y0), t.w, t.h);
        ghost var before := buf[..];
        BlitLine(t, src, dst, dst + span);
        forall k: nat | k < buf.Length
          ensures dst <= k < dst + span <==> Row(k, w) == y && r.x0 <= Col(k, w) < r.x1
          ensures dst <= k < dst + span ==> IsBlit(t, sx, sy, r, k, before[k], buf[k])
        {
          RowOf(k, r.x0, r.x1, y, w);
          if dst <= k < dst + span { LineBlit(t, sx, sy, r, y, k, before, buf[..]); }
        }
        assert forall k: nat | k < buf.Length && !(dst <= k < dst + span) :: buf[k] == before[k];
        dst := dst + span + dstride;
        src := src + span + sstride;
        y := y + 1;
        RowStep(r.x0, y, r.y1, w);
        RowStep(sx, sy + (y - r.y0), 0, t.w);
        more := dst != end;
      }
    }

    lemma LineBlit(t: Texture, sx: int, sy: int, r: Area, y: int, k: nat, was: seq<Word>, now: seq<Word>)
      requires 0 < w && Within(r) && SourceOk(t, sx, sy, r) && TextureOk(t) && r.y0 <= y < r.y1
      requires 0 <= At(sx, sy + (y - r.y0), t.w) && 0 <= At(r.x0, y, w)
      requires At(r.x1, y, w) <= |was| == |now| && At(sx + (r.x1 - r.x0), sy + (y - r.y0), t.w) <= |t.data|
      requires LineOver(t, At(sx, sy + (y - r.y0), t.w), At(r.x0, y, w), At(r.x1, y, w), was, now)
      requires At(r.x0, y, w) <= k < At(r.x1, y, w)
      ensures IsBlit(t, sx, sy, r, k, was[k], now[k])
    {
      hide Col, Row, IsOver;
      RowOf(k, r.x0, r.x1, y, w);
    }

    /** `host_gui_blit`: each pixel of the rect that is in the clip, and no other, has over it the
        once what of the texture is at the same place in the source rect. */
    method Blit(t: Texture, srect: Rect, drect: Rect)
      requires Valid() && TextureOk(t)
      requires var c := Clipped(drect, clip);
               !Empty(c) ==> SourceOk(t, srect.x + (c.x0 - drect.x), srect.y + (c.y0 - drect.y), c)
      modifies buf
      ensures forall k: nat | k < buf.Length ::
                if InRect(drect, Col(k, w), Row(k, w)) && Has(clip, Col(k, w), Row(k, w))
                then IsBlit(t, srect.x, srect.y, Area(drect.x, drect.y, 0, 0), k, old(buf[k]), buf[k])
                else buf[k] == old(buf[k])
    {
      hide Col, Row, IsOver, Canvas.ColorOk, TextureOk;
      var dr := Area(drect.x, drect.y, drect.w, drect.h);
      var sx, sy := srect.x, srect.y;
      if dr.x1 <= 0 || dr.y1 <= 0 { return; }
      dr := dr.(x1 := dr.x1 + dr.x0, y1 := dr.y1 + dr.y0);
      if dr.x0 >= clip.x1 || dr.y0 >= clip.y1 { return; }
      if dr.x1 <= clip.x0 || dr.y1 <= clip.y0 { return; }
      if clip.x0 > dr.x0 {
        sx := sx + (clip.x0 - dr.x0);
        dr := dr.(x0 := clip.x0);
      }
      if clip.y0 > dr.y0 {
        sy := sy + (clip.y0 - dr.y0);
        dr := dr.(y0 := clip.y0);
      }
      if dr.x1 > clip.x1 { dr := dr.(x1 := clip.x1); }
      if dr.y1 > clip.y1 { dr := dr.(y1 := clip.y1); }
      assert dr == Clipped(drect, clip);
      BlitArea(t, sx, sy, dr);
    }

    method Put(t: Texture, e: nat, dst: Word) returns (now: Word)
      requires TextureOk(t) && e in t.data
      ensures IsOver(dst, t, e, now)
    {
      hide Paint, Prod, Red, Green, Blue;
      ElementOk(t, e);
      if t.m == 1 {
        now := PutScaled(t, e, e, dst);
      } else if t.m == 2 {
        var sa, tc := e / 0x100, e % 0x100;
        ScaledBounds(tc, sa);
        ProdTurns(sa, tc + 1);
        now := PutScaled(t, sa, Prod(sa, tc + 1) / 0x100, dst);
      } else {
        now := PutNormal(e, dst);
      }
    }
  }

  lemma InkIs(s: Rgb, rb: nat, g: nat)
    requires Bytes(s) && rb == s.r * 0x10000 + s.b && g == s.g * 0x100
    ensures Rgb(rb / 0x10000, g / 0x100, rb % 0x10000) == s
  {
  }

  /** Glyph mode and coloured mode, an element: the texture's colour by `ca`, its alpha `sa`. */
  method PutScaled(t: Texture, sa: nat, ca: nat, dst: Word) returns (now: Word)
    requires Bytes(t.tint) && ca <= sa <= 255
    ensures now == Paint(dst, sa, ScaledAll(t.tint, ca))
  {
    hide Paint, Blend, Pack, Scaled, KeepRB, KeepG, Mul;
    if sa == 0 { NoPaint(dst, ScaledAll(t.tint, ca)); return dst; }
    var rb, g := (t.tint.r + 1) * 0x10000 + (t.tint.b + 1), (t.tint.g + 1) * 0x100;
    TintWords(t.tint, ca);
    ScaledPremultiplied(t.tint, ca);
    var sg := KeepG(Mul(ca, g) / 0x100);
    var srb := KeepRB(Mul(ca, rb) / 0x100);
    if sa != 0xff {
      BlendIsPaint(dst, sa, ScaledAll(t.tint, ca));
      now := Blend(dst, 0xff - sa, srb, sg);
    } else {
      Opaque(dst, ScaledAll(t.tint, ca));
      PackAdds(ScaledAll(t.tint, ca));
      now := Add(srb, sg);
    }
  }

  /** Normal mode, an element. */
  method PutNormal(sa: nat, dst: Word) returns (now: Word)
    requires sa < WORD
    ensures now == Paint(dst, sa / 0x1000000, Colors(sa))
  {
    hide Paint, Blend, Pack, Add;
    NoPaint(dst, Colors(sa));
    now := dst;
    if sa > 0xffffff {
      if sa < 0xff000000 {
        BlendIsPaint(dst, sa / 0x1000000, Colors(sa));
        now := Blend(dst, 0xff - sa / 0x1000000, KeepRB(sa), KeepG(sa));
      } else {
        Opaque(dst, Colors(sa));
        PackMasked(sa);
        now := sa % 0x1000000;
      }
    }
  }

  lemma ProdTurns(a: nat, b: nat)
    ensures Prod(a, b) == Prod(b, a)
  {
    ProdIs(a, b);
    ProdIs(b, a);
  }

  lemma NoPaint(p: nat, s: Rgb)
    ensures Paint(p, 0, s) == p
  {
  }

  lemma PackAdds(s: Rgb)
    requires Bytes(s)
    ensures Add(s.r * 0x10000 + s.b, s.g * 0x100) == Pack(s)
  {
  }

  lemma PackMasked(p: nat)
    ensures Pack(Colors(p)) == p % 0x1000000
  {
    var q := p / 0x100;
    var r := q / 0x100;
    assert p / 0x10000 == r;
    assert p == r / 0x100 * 0x1000000 + r % 0x100 * 0x10000 + q % 0x100 * 0x100 + p % 0x100;
  }

  ghost predicate LineOver(t: Texture, from: nat, start: nat, end: nat, was: seq<Word>, now: seq<Word>)
    requires start <= end <= |was| && |now| == |was| && from + (end - start) <= |t.data|
  {
    forall k | 0 <= k < |was| ::
      if start <= k < end then IsOver(was[k], t, t.data[from + (k - start)], now[k]) else now[k] == was[k]
  }

  predicate InTexture(t: Texture, x: int, y: int) {
    0 <= x < t.w && 0 <= y < t.h && 0 <= At(x, y, t.w) < |t.data|
  }

  predicate IsOver(was: nat, t: Texture, e: nat, now: nat) {
    Alpha(t, e) <= 255 && now == Over(was, t, e)
  }

  lemma RowStep(x: int, y: int, y1: int, w: nat)
    requires 0 < w
    ensures At(x, y, w) == At(x, y - 1, w) + w
    ensures At(x, y, w) == At(x, y1, w) <==> y == y1
  {
    RowBelow(y, y1, w);
    RowBelow(y1, y, w);
  }
}
