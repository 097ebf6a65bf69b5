/** Loading what was written (cmd/ctf.lisp:860-964 of cmd/ctf.lisp:974-1073). */
module CtfRoundTrip {
  import opened CtfFormat
  import opened Options

  // ----- fonts that fit the file -----

  predicate ValidCommand(c: Command) {
    c.kind <= 3 && |c.args| == Arity(c.kind) && forall i | 0 <= i < |c.args| :: Fits(c.args[i])
  }

  predicate ValidKern(k: Kern) {
    k.code < 65536 && Fits(k.adjust)
  }

  predicate ValidGlyph(g: Glyph) {
    && g.code < 65536 && Fits(g.advance)
    && (forall i | 0 <= i < |g.commands| :: ValidCommand(g.commands[i]))
    && (forall i | 0 <= i < |g.kerns| :: ValidKern(g.kerns[i]))
  }

  /** A page has a glyph for each code from its start to its end. */
  predicate ValidPage(p: Page) {
    && p.start <= p.end < 65536 && |p.glyphs| == p.end - p.start + 1
    && forall i | 0 <= i < |p.glyphs| :: ValidGlyph(p.glyphs[i]) && p.glyphs[i].code == p.start + i
  }

  /** Pages in order, none over another. */
  predicate Ordered(pages: seq<Page>) {
    forall i | 0 <= i < |pages| - 1 :: pages[i].end < pages[i + 1].start
  }

  predicate ValidPages(pages: seq<Page>) {
    (forall i | 0 <= i < |pages| :: ValidPage(pages[i])) && Ordered(pages)
  }

  predicate Writable(f: Font) {
    && Fits(f.ascent) && Fits(f.descent) && Fits(XKern(f))
    && ValidPages(f.pages) && Base(f) >= 0 && |Encode(f)| < 0x1_0000_0000
  }

  // ----- reading what is held -----

  ghost predicate Holds(b: seq<byte>, at: nat, s: seq<byte>) {
    at + |s| <= |b| && b[at..at + |s|] == s
  }

  lemma HoldsParts(b: seq<byte>, at: nat, s: seq<byte>, t: seq<byte>)
    requires Holds(b, at, s + t)
    ensures Holds(b, at, s) && Holds(b, at + |s|, t)
  {
    var all := b[at..at + |s + t|];
    assert all[..|s|] == s && all[|s|..] == t;
    assert b[at..at + |s|] == all[..|s|] && b[at + |s|..at + |s| + |t|] == all[|s|..];
  }

  lemma HeldByte(b: seq<byte>, at: nat, s: seq<byte>, i: nat)
    requires Holds(b, at, s) && i < |s|
    ensures Byte(b, at + i) == s[i]
  {
    assert b[at..at + |s|][i] == b[at + i];
  }

  lemma HeldUShort(b: seq<byte>, at: nat, v: int)
    requires Holds(b, at, Short(v)) && 0 <= v < 65536
    ensures GetUShort(b, at) == v
  {
    HeldByte(b, at, Short(v), 0);
    HeldByte(b, at, Short(v), 1);
  }

  lemma HeldShort(b: seq<byte>, at: nat, v: int)
    requires Holds(b, at, Short(v)) && -32768 <= v < 32768
    ensures GetShort(b, at) == v
  {
    var u := if v < 0 then v + 65536 else v;
    assert Short(v) == Short(u) by { assert v < 0 ==> u / 256 == v / 256 + 256; }
    HeldUShort(b, at, u);
  }

  lemma HeldReal(b: seq<byte>, at: nat, x: real)
    requires Holds(b, at, Short(ToFixed(x))) && Fits(x)
    ensures FromFixed(GetShort(b, at)) == x
  {
    HeldShort(b, at, ToFixed(x));
  }

  lemma HeldLong(b: seq<byte>, at: nat, v: int)
    requires Holds(b, at, Long(v)) && 0 <= v < 0x1_0000_0000
    ensures GetUInt(b, at) == v
  {
    HeldByte(b, at, Long(v), 0);
    HeldByte(b, at, Long(v), 1);
    HeldByte(b, at, Long(v), 2);
    HeldByte(b, at, Long(v), 3);
    assert v / 65536 == v / 256 / 256;
    assert v / 16777216 == v / 65536 / 256;
  }

  lemma {:induction false} HeldCoords(b: seq<byte>, at: nat, args: seq<real>)
    requires Holds(b, at, Coords(args)) && forall i | 0 <= i < |args| :: Fits(args[i])
    ensures GetCoords(b, at, |args|) == args
    decreases |args|
  {
    if args == [] {
    } else {
      HoldsParts(b, at, Short(ToFixed(args[0])), Coords(args[1..]));
      HeldReal(b, at, args[0]);
      HeldCoords(b, at + 2, args[1..]);
    }
  }

  lemma {:induction false} HeldPath(b: seq<byte>, at: nat, commands: seq<Command>)
    requires Holds(b, at, PathBytes(commands))
    requires forall i | 0 <= i < |commands| :: ValidCommand(commands[i])
    ensures GetPath(b, at, at + |PathBytes(commands)|) == commands
    decreases |commands|
  {
    hide Short, GetShort, Fits;
    if commands == [] {
    } else {
      var c := commands[0];
      var one, rest := Short(c.kind) + Coords(c.args), PathBytes(commands[1..]);
      HoldsParts(b, at, one, rest);
      HoldsParts(b, at, Short(c.kind), Coords(c.args));
      HeldShort(b, at, c.kind);
      HeldCoords(b, at + 2, c.args);
      HeldPath(b, at + |one|, commands[1..]);
    }
  }

  lemma {:induction false} HeldKerns(b: seq<byte>, at: nat, kerns: seq<Kern>)
    requires Holds(b, at, KernBytes(kerns)) && forall i | 0 <= i < |kerns| :: ValidKern(kerns[i])
    ensures GetKerns(b, at, |kerns|) == kerns
    decreases |kerns|
  {
    if kerns == [] {
    } else {
      var k := kerns[0];
      HoldsParts(b, at, Short(k.code) + Short(ToFixed(k.adjust)), KernBytes(kerns[1..]));
      HoldsParts(b, at, Short(k.code), Short(ToFixed(k.adjust)));
      HeldUShort(b, at, k.code);
      HeldReal(b, at + 2, k.adjust);
      HeldKerns(b, at + 4, kerns[1..]);
    }
  }

  lemma {:induction false} NoPath(commands: seq<Command>)
    ensures |PathBytes(commands)| == 0 <==> commands == []
  {
  }

  lemma HoldsWithin(b: seq<byte>, at: nat, s: seq<byte>)
    requires Holds(b, at, s)
    ensures |s| <= |b|
  {
  }

  function Kept(g: Glyph): seq<Glyph> {
    if g.commands == [] then [] else [g]
  }

  /** A record gives back its glyph, if it has a path. */
  lemma HeldGlyph(b: seq<byte>, at: nat, g: Glyph)
    requires Holds(b, at, Record(g)) && ValidGlyph(g) && |b| < 0x1_0000_0000
    ensures GetGlyph(b, g.code, at) == Kept(g)
  {
    hide Holds, Short, Long, PathBytes, ToFixed, GetPath, GetKerns, GetUInt, GetShort, FromFixed, Fits;
    var path, kerns := PathBytes(g.commands), KernBytes(g.kerns);
    var code, width, len, klen := Short(g.code), Short(ToFixed(g.advance)), Long(|path|), Long(|g.kerns|);
    HoldsParts(b, at, Body(g), Zeros(Align(|Body(g)|) - |Body(g)|));
    HoldsParts(b, at, code + width + len + klen + path, kerns);
    HoldsParts(b, at, code + width + len + klen, path);
    HoldsParts(b, at, code + width + len, klen);
    HoldsParts(b, at, code + width, len);
    HoldsParts(b, at, code, width);
    HoldsWithin(b, at + FONT_PATH, path);
    HoldsWithin(b, at + FONT_PATH + |path|, kerns);
    NoPath(g.commands);
    HeldReal(b, at + 2, g.advance);
    HeldLong(b, at + 4, |path|);
    HeldLong(b, at + 8, |g.kerns|);
    HeldPath(b, at + FONT_PATH, g.commands);
    HeldKerns(b, at + FONT_PATH + |path|, g.kerns);
  }

  // ----- where each thing is -----

  function Value(s: seq<byte>): int {
    if s == [] then 0 else s[0] as int + 256 * Value(s[1..])
  }

  lemma TwoBytes(v: int)
    ensures v % 256 + 256 * (v / 256 % 256) == v % 0x1_0000
  {
  }

  lemma FourBytes(v: int)
    ensures v % 0x1_0000 + 0x1_0000 * (v / 0x1_0000 % 0x1_0000) == v % 0x1_0000_0000
    ensures v / 0x1_0000 / 256 == v / 0x100_0000
  {
    var q := v / 0x1_0000;
    assert v == 0x1_0000 * q + v % 0x1_0000;
    assert q == 0x1_0000 * (q / 0x1_0000) + q % 0x1_0000;
    assert q == 256 * (q / 256) + q % 256;
  }

  /** Numbers are written low byte first. */
  lemma NumbersAre(v: int)
    ensures Value(Short(v)) == v % 0x1_0000 && Value(Long(v)) == v % 0x1_0000_0000
  {
    TwoBytes(v);
    FourBytes(v);
    TwoBytes(v / 0x1_0000);
    var s, l := Short(v), Long(v);
    assert s[1..] == [s[1]] && s[1..][1..] == [];
    assert Value(l[3..]) == l[3] by { assert l[3..][1..] == []; }
    assert Value(l[2..]) == l[2] + 256 * (l[3] as int) by { assert l[2..][1..] == l[3..]; }
    assert Value(l[1..]) == l[1] + 256 * Value(l[2..]) by { assert l[1..][1..] == l[2..]; }
  }

  /** A real is 8192 of a unit, cut toward 0. */
  lemma RealIs(v: int, x: real)
    ensures x >= 0.0 ==> ToFixed(x) as real <= x * 8192.0 < (ToFixed(x) + 1) as real
    ensures ToFixed(-x) == -ToFixed(x)
    ensures FromFixed(v) * 8192.0 == v as real
    ensures -32768 <= v < 32768 ==> Fits(FromFixed(v)) && ToFixed(FromFixed(v)) == v
  {
    assert FromFixed(v) * 8192.0 == v as real && -FromFixed(v) * 8192.0 == (-v) as real;
  }

  /** Where the parts of a header, a page's table and a glyph's record are. */
  lemma Layout(f: Font, p: Page, at: nat, g: Glyph)
    ensures Header(f)[..2] == Short(ToFixed(f.ascent)) && Header(f)[2..4] == Short(ToFixed(f.descent))
    ensures f.xkern == None ==> Header(f)[4..6] == Short(ToFixed(-f.descent))
    ensures f.xkern.Some? ==> Header(f)[4..6] == Short(ToFixed(f.xkern.value))
    ensures Table(p, at)[..2] == Short(p.end) && Table(p, at)[2..4] == Short(p.start)
    ensures Record(g)[..2] == Short(g.code) && Record(g)[2..4] == Short(ToFixed(g.advance))
    ensures Record(g)[4..8] == Long(|PathBytes(g.commands)|) && Record(g)[8..12] == Long(|g.kerns|)
    ensures var len := |PathBytes(g.commands)|;
            && 12 + len + 4 * |g.kerns| <= |Record(g)|
            && Record(g)[12..12 + len] == PathBytes(g.commands)
            && Record(g)[12 + len..12 + len + 4 * |g.kerns|] == KernBytes(g.kerns)
  {
    hide Short, Long, ToFixed, PathBytes, KernBytes, Zeros, OffsetBytes;
  }

  // ----- the tables -----

  function OffsetsOf(gs: seq<Glyph>, at: nat): seq<nat> {
    if gs == [] then [] else [at] + OffsetsOf(gs[1..], at + |Record(gs[0])|)
  }

  function KeptAll(gs: seq<Glyph>): seq<Glyph> {
    if gs == [] then [] else Kept(gs[0]) + KeptAll(gs[1..])
  }

  /** The pages the loader comes to: it stops at one whose end reads as the end of the tables. */
  function CutOff(pages: seq<Page>): seq<Page> {
    if pages == [] || Stops(pages[0].end) then [] else [pages[0]] + CutOff(pages[1..])
  }

  lemma {:induction false} HeldOffsets(b: seq<byte>, at: nat, gs: seq<Glyph>, rec: nat)
    requires Holds(b, at, OffsetBytes(gs, rec)) && rec + |Records(gs)| < 0x1_0000_0000
    ensures GetOffsets(b, at, |gs|) == OffsetsOf(gs, rec)
    decreases |gs|
  {
    hide Record, Long, GetUInt;
    if gs == [] {
    } else {
      HoldsParts(b, at, Long(rec), OffsetBytes(gs[1..], rec + |Record(gs[0])|));
      HeldLong(b, at, rec);
      HeldOffsets(b, at + 4, gs[1..], rec + |Record(gs[0])|);
    }
  }

  /** A record is its parts and then just as many zeros as take it to a multiple of 4. */
  lemma RecordPadded(g: Glyph, i: nat)
    ensures var len := FONT_PATH + |PathBytes(g.commands)| + FONT_KERN * |g.kerns|;
            && |Record(g)| % 4 == 0 && len <= |Record(g)| < len + 4
            && Body(g) <= Record(g) && (len <= i < |Record(g)| ==> Record(g)[i] == 0)
  {
    hide PathBytes, KernBytes, Short, Long;
    assert |Body(g)| == FONT_PATH + |PathBytes(g.commands)| + FONT_KERN * |g.kerns|;
    assert Align(|Body(g)|) % 4 == 0;
  }

  lemma {:induction false} RecordsPadded(gs: seq<Glyph>)
    ensures |Records(gs)| % 4 == 0
  {
    hide Record;
    if gs == [] {
    } else {
      RecordPadded(gs[0], 0);
      RecordsPadded(gs[1..]);
    }
  }

  lemma {:induction false} OffsetAligned(gs: seq<Glyph>, at: nat, k: nat)
    requires k < |gs| && at % 4 == 0
    ensures |OffsetsOf(gs, at)| == |gs| && OffsetsOf(gs, at)[k] % 4 == 0
    decreases |gs|
  {
    hide Record;
    RecordPadded(gs[0], 0);
    var next := at + |Record(gs[0])|;
    assert next % 4 == 0;
    if |gs| > 1 { OffsetAligned(gs[1..], next, if k > 0 then k - 1 else 0); }
  }

  lemma {:induction false} TablesAligned(pages: seq<Page>)
    ensures TableSize(pages) % 4 == 0
  {
    if pages == [] {
    } else {
      TablesAligned(pages[1..]);
      MoreFours(TableSize(pages[1..]), 1 + (pages[0].end - pages[0].start + 1));
    }
  }

  lemma MoreFours(x: int, y: int)
    requires x % 4 == 0
    ensures (4 * y + x) % 4 == 0
  {
  }

  lemma BaseAligned(f: Font)
    ensures Base(f) % 4 == 0
  {
    TablesAligned(f.pages);
  }

  /** Each offset is where its glyph's record begins. */
  lemma {:induction false} OffsetIsRecord(b: seq<byte>, gs: seq<Glyph>, rec: nat, k: nat)
    requires Holds(b, rec, Records(gs)) && k < |gs|
    ensures |OffsetsOf(gs, rec)| == |gs| && Holds(b, OffsetsOf(gs, rec)[k], Record(gs[k]))
    decreases |gs|
  {
    hide Record;
    HoldsParts(b, rec, Record(gs[0]), Records(gs[1..]));
    if k > 0 {
      OffsetIsRecord(b, gs[1..], rec + |Record(gs[0])|, k - 1);
    } else if |gs| > 1 {
      OffsetIsRecord(b, gs[1..], rec + |Record(gs[0])|, 0);
    }
  }

  lemma {:induction false} HeldGlyphs(b: seq<byte>, start: nat, gs: seq<Glyph>, rec: nat)
    requires Holds(b, rec, Records(gs)) && |b| < 0x1_0000_0000
    requires forall i | 0 <= i < |gs| :: ValidGlyph(gs[i]) && gs[i].code == start + i
    ensures GetGlyphs(b, start, OffsetsOf(gs, rec)) == KeptAll(gs)
    decreases |gs|
  {
    hide Record, GetGlyph;
    if gs == [] {
    } else {
      var rest, on := gs[1..], rec + |Record(gs[0])|;
      HoldsParts(b, rec, Record(gs[0]), Records(rest));
      HeldGlyphs(b, start + 1, rest, on);
      assert GetGlyph(b, start, rec) == Kept(gs[0]) by { HeldGlyph(b, rec, gs[0]); }
    }
  }

  lemma {:induction false} RecordsCat(gs: seq<Glyph>, hs: seq<Glyph>)
    ensures Records(gs + hs) == Records(gs) + Records(hs)
    decreases |gs|
  {
    if gs == [] {
      assert gs + hs == hs;
    } else {
      assert (gs + hs)[1..] == gs[1..] + hs;
      RecordsCat(gs[1..], hs);
    }
  }

  lemma {:induction false} KeptCat(gs: seq<Glyph>, hs: seq<Glyph>)
    ensures KeptAll(gs + hs) == KeptAll(gs) + KeptAll(hs)
    decreases |gs|
  {
    if gs == [] {
      assert gs + hs == hs;
    } else {
      assert (gs + hs)[1..] == gs[1..] + hs;
      KeptCat(gs[1..], hs);
    }
  }

  lemma TableParts(b: seq<byte>, at: nat, p: Page, rec: nat, rest: seq<byte>)
    requires Holds(b, at, Table(p, rec) + rest) && p.start < 65536 && p.end < 65536
    ensures GetUShort(b, at) == p.end && GetUShort(b, at + 2) == p.start
    ensures Holds(b, at + FONT_PAGE, OffsetBytes(p.glyphs, rec))
    ensures Holds(b, at + FONT_PAGE + 4 * |p.glyphs|, rest)
  {
    HoldsParts(b, at, Table(p, rec), rest);
    HoldsParts(b, at, Short(p.end) + Short(p.start), OffsetBytes(p.glyphs, rec));
    HoldsParts(b, at, Short(p.end), Short(p.start));
    HeldUShort(b, at, p.end);
    HeldUShort(b, at + 2, p.start);
  }

  /** The first page, as its table and its records give it back. */
  lemma HeldPage(b: seq<byte>, at: nat, p: Page, rec: nat, rest: seq<byte>)
    requires ValidPage(p) && |b| < 0x1_0000_0000
    requires Holds(b, at, Table(p, rec) + rest) && Holds(b, rec, Records(p.glyphs))
    ensures GetOffsets(b, at + FONT_PAGE, |p.glyphs|) == OffsetsOf(p.glyphs, rec)
    ensures GetGlyphs(b, p.start, OffsetsOf(p.glyphs, rec)) == KeptAll(p.glyphs)
  {
    TableParts(b, at, p, rec, rest);
    HeldOffsets(b, at + FONT_PAGE, p.glyphs, rec);
    HeldGlyphs(b, p.start, p.glyphs, rec);
  }

  lemma HeldEnd(b: seq<byte>, at: nat)
    requires Holds(b, at, Long(0))
    ensures GetUShort(b, at) == 0
  {
    HeldByte(b, at, Long(0), 0);
    HeldByte(b, at, Long(0), 1);
  }

  lemma ActiveStep(b: seq<byte>, info: Info, infos: seq<Info>)
    ensures GetActive(b, [info] + infos) == GetGlyphs(b, info.start, info.offsets) + GetActive(b, infos)
  {
    assert ([info] + infos)[1..] == infos;
  }

  lemma TablesStep(b: seq<byte>, at: nat, p: Page, offsets: seq<nat>)
    requires GetUShort(b, at) == p.end && GetUShort(b, at + 2) == p.start && !Stops(p.end)
    requires p.start <= p.end && |p.glyphs| == p.end - p.start + 1
    requires GetOffsets(b, at + FONT_PAGE, |p.glyphs|) == offsets
    ensures GetTables(b, at) == [Info(p.start, p.end, offsets)] + GetTables(b, at + FONT_PAGE + 4 * |p.glyphs|)
  {
    assert Count(p.start, p.end) == |p.glyphs|;
  }

  lemma NoTables(b: seq<byte>, at: nat)
    requires Stops(GetUShort(b, at))
    ensures GetActive(b, GetTables(b, at)) == []
  {
  }

  lemma CutStep(p: Page, more: seq<Page>)
    requires !Stops(p.end)
    ensures KeptAll(AllGlyphs(CutOff([p] + more))) == KeptAll(p.glyphs) + KeptAll(AllGlyphs(CutOff(more)))
  {
    KeptCat(p.glyphs, AllGlyphs(CutOff(more)));
    assert ([p] + more)[1..] == more;
    assert CutOff([p] + more)[1..] == CutOff(more);
  }

  /** The tables and the records of some pages, taken apart after the first. */
  lemma PageApart(b: seq<byte>, at: nat, p: Page, more: seq<Page>, rec: nat)
    requires Holds(b, at, Tables([p] + more, rec) + Long(0)) && Holds(b, rec, Records(AllGlyphs([p] + more)))
    ensures Holds(b, at, Table(p, rec) + (Tables(more, rec + |Records(p.glyphs)|) + Long(0)))
    ensures Holds(b, rec, Records(p.glyphs)) && Holds(b, rec + |Records(p.glyphs)|, Records(AllGlyphs(more)))
  {
    hide Table, Long, Record, Holds;
    var rest := Tables(more, rec + |Records(p.glyphs)|);
    assert ([p] + more)[1..] == more;
    assert Table(p, rec) + rest + Long(0) == Table(p, rec) + (rest + Long(0));
    RecordsCat(p.glyphs, AllGlyphs(more));
    HoldsParts(b, rec, Records(p.glyphs), Records(AllGlyphs(more)));
  }

  lemma {:induction false} HeldTables(b: seq<byte>, at: nat, pages: seq<Page>, rec: nat)
    requires (forall i | 0 <= i < |pages| :: ValidPage(pages[i])) && |b| < 0x1_0000_0000
    requires Holds(b, at, Tables(pages, rec) + Long(0)) && Holds(b, rec, Records(AllGlyphs(pages)))
    ensures GetActive(b, GetTables(b, at)) == KeptAll(AllGlyphs(CutOff(pages)))
    decreases |pages|
  {
    hide Table, GetUShort, GetGlyphs, Holds, GetActive, GetTables, Records, Long, OffsetsOf, GetOffsets, ValidGlyph;
    if pages == [] {
      assert Tables(pages, rec) + Long(0) == Long(0);
      HeldEnd(b, at);
      NoTables(b, at);
    } else {
      var p, more := pages[0], pages[1..];
      assert pages == [p] + more && ValidPage(p);
      var on, rec' := at + FONT_PAGE + 4 * |p.glyphs|, rec + |Records(p.glyphs)|;
      PageApart(b, at, p, more, rec);
      TableParts(b, at, p, rec, Tables(more, rec') + Long(0));
      if Stops(p.end) {
        NoTables(b, at);
      } else {
        HeldPage(b, at, p, rec, Tables(more, rec') + Long(0));
        HeldTables(b, on, more, rec');
        TablesStep(b, at, p, OffsetsOf(p.glyphs, rec));
        ActiveStep(b, Info(p.start, p.end, OffsetsOf(p.glyphs, rec)), GetTables(b, on));
        CutStep(p, more);
      }
    }
  }

  lemma {:induction false} TablesSize(pages: seq<Page>, rec: nat)
    requires forall i | 0 <= i < |pages| :: ValidPage(pages[i])
    ensures |Tables(pages, rec)| == TableSize(pages)
    decreases |pages|
  {
    if pages == [] {
    } else {
      TablesSize(pages[1..], rec + |Records(pages[0].glyphs)|);
    }
  }

  /** The file has the tables after the header and the records from `Base` on. */
  lemma FileHolds(f: Font)
    requires Writable(f)
    ensures var b := Encode(f);
            && Holds(b, FONT_DATA, Tables(f.pages, Base(f)) + Long(0))
            && Holds(b, Base(f), Records(AllGlyphs(f.pages)))
            && Holds(b, 0, Header(f))
  {
    hide Long, Table, Record, Short, Tables, Records, AllGlyphs, ValidPage, Holds, Header, TableSize;
    var b := Encode(f);
    var tables, records := Tables(f.pages, Base(f)) + Long(0), Records(AllGlyphs(f.pages));
    TablesSize(f.pages, Base(f));
    assert b == Header(f) + tables + records;
    HoldsParts(b, 0, Header(f) + tables, records);
    HoldsParts(b, 0, Header(f), tables);
  }

  // ----- in order -----

  /** Every page is as long as it can be. */
  predicate Maximal(pages: seq<Page>) {
    forall i | 0 <= i < |pages| - 1 :: pages[i].end + 1 != pages[i + 1].start
  }

  /** The codes go up, from `from` on. */
  predicate Ascends(gs: seq<Glyph>, from: nat) {
    gs == [] || (gs[0].code >= from && Ascends(gs[1..], gs[0].code + 1))
  }

  lemma {:induction false} AscendsCat(gs: seq<Glyph>, hs: seq<Glyph>, from: nat, mid: nat)
    requires Ascends(gs, from) && Ascends(hs, mid) && from <= mid
    requires forall i | 0 <= i < |gs| :: gs[i].code < mid
    ensures Ascends(gs + hs, from)
    decreases |gs|
  {
    if gs == [] {
      assert gs + hs == hs;
    } else {
      assert (gs + hs)[1..] == gs[1..] + hs;
      AscendsCat(gs[1..], hs, gs[0].code + 1, mid);
    }
  }

  lemma {:induction false} PageAscends(gs: seq<Glyph>, start: nat)
    requires forall i | 0 <= i < |gs| :: gs[i].code == start + i
    ensures Ascends(gs, start)
    decreases |gs|
  {
    if gs == [] {
    } else {
      PageAscends(gs[1..], start + 1);
    }
  }

  /** Pages without the first. */
  lemma PagesTail(p: Page, more: seq<Page>)
    requires ValidPages([p] + more)
    ensures ValidPage(p) && ValidPages(more)
    ensures more != [] ==> ValidPage(more[0]) && p.end < more[0].start
  {
    hide ValidPage;
    var pages := [p] + more;
    assert pages[0] == p && ValidPage(pages[0]);
    forall i | 0 <= i < |more| ensures ValidPage(more[i]) { assert pages[i + 1] == more[i]; }
    forall i | 0 <= i < |more| - 1 ensures more[i].end < more[i + 1].start {
      assert pages[i + 1].end < pages[i + 1 + 1].start;
    }
    assert more != [] ==> pages[0].end < pages[0 + 1].start;
  }

  lemma MaximalTail(p: Page, more: seq<Page>)
    requires Maximal([p] + more)
    ensures Maximal(more) && (more != [] ==> p.end + 1 != more[0].start)
  {
    var pages := [p] + more;
    forall i | 0 <= i < |more| - 1 ensures more[i].end + 1 != more[i + 1].start {
      assert pages[i + 1].end + 1 != pages[i + 1 + 1].start;
    }
    assert more != [] ==> pages[0].end + 1 != pages[0 + 1].start;
  }

  lemma {:induction false} PagesAscend(pages: seq<Page>, from: nat)
    requires ValidPages(pages) && (pages != [] ==> from <= pages[0].start)
    ensures Ascends(AllGlyphs(pages), from)
    decreases |pages|
  {
    if pages == [] {
    } else {
      var p, more := pages[0], pages[1..];
      assert pages == [p] + more;
      PagesTail(p, more);
      PagesAscend(more, p.end + 1);
      PageAscends(p.glyphs, p.start);
      AscendsCat(p.glyphs, AllGlyphs(more), p.start, p.end + 1);
    }
  }

  lemma {:induction false} KeptAscends(gs: seq<Glyph>, from: nat)
    requires Ascends(gs, from)
    ensures Ascends(KeptAll(gs), from)
    decreases |gs|
  {
    if gs == [] {
    } else {
      var tail := KeptAll(gs[1..]);
      assert KeptAll(gs) == Kept(gs[0]) + tail;
      KeptAscends(gs[1..], gs[0].code + 1);
      hide KeptAll;
      if gs[0].commands == [] {
        assert Kept(gs[0]) + tail == tail;
      } else {
        AscendsOn(gs[0], tail, from);
      }
    }
  }

  lemma AscendsOn(g: Glyph, tail: seq<Glyph>, from: nat)
    requires from <= g.code && Ascends(tail, g.code + 1)
    ensures Ascends([g] + tail, from)
  {
    assert ([g] + tail)[1..] == tail;
  }

  /** What is in order already is as the sort would have it. */
  lemma {:induction false} InOrder(gs: seq<Glyph>, from: nat)
    requires Ascends(gs, from)
    ensures ByCode(gs) == gs
    decreases |gs|
  {
    if gs == [] {
    } else {
      InOrder(gs[1..], gs[0].code + 1);
    }
  }

  lemma {:induction false} CutOffPrefix(pages: seq<Page>)
    ensures CutOff(pages) <= pages
    ensures CutOff(pages) == pages <==> forall i | 0 <= i < |pages| :: !Stops(pages[i].end)
    decreases |pages|
  {
    if pages == [] {
    } else {
      CutOffPrefix(pages[1..]);
      if !Stops(pages[0].end) {
        assert pages == [pages[0]] + pages[1..];
        if CutOff(pages) == pages { assert CutOff(pages)[1..] == pages[1..]; }
        assert forall i | 0 <= i < |pages| - 1 :: pages[1..][i] == pages[i + 1];
      }
    }
  }

  lemma HeldHeader(b: seq<byte>, f: Font)
    requires Holds(b, 0, Header(f)) && Fits(f.ascent) && Fits(f.descent) && Fits(XKern(f))
    ensures FromFixed(GetShort(b, 0)) == f.ascent && FromFixed(GetShort(b, 2)) == f.descent
    ensures FromFixed(GetShort(b, 4)) == XKern(f)
  {
    var h0, h1, h2 := Short(ToFixed(f.ascent)), Short(ToFixed(f.descent)), Short(ToFixed(XKern(f)));
    HoldsParts(b, 0, h0 + h1 + h2, Zeros(2));
    HoldsParts(b, 0, h0 + h1, h2);
    HoldsParts(b, 0, h0, h1);
    HeldReal(b, 0, f.ascent);
    HeldReal(b, 2, f.descent);
    HeldReal(b, 4, XKern(f));
  }

  /** What is loaded of any font that fits the file: the glyphs that have a path, of the pages
      the loader comes to, in pages of codes that follow on. */
  lemma LoadedIs(f: Font)
    requires Writable(f)
    ensures Decode(Encode(f)) ==
            Font(f.ascent, f.descent, Some(XKern(f)), Regroup(KeptAll(AllGlyphs(CutOff(f.pages)))))
  {
    hide Encode, Records, Tables, Long, Base, GetTables, GetActive, Regroup, ByCode;
    var b := Encode(f);
    FileHolds(f);
    HeldTables(b, FONT_DATA, f.pages, Base(f));
    HeldHeader(b, f);
    hide Holds, Header, GetShort, FromFixed, Fits, ToFixed, XKern;
    CutOffPrefix(f.pages);
    var cut := CutOff(f.pages);
    assert ValidPages(cut);
    PagesAscend(cut, 0);
    KeptAscends(AllGlyphs(cut), 0);
    InOrder(KeptAll(AllGlyphs(cut)), 0);
  }

  /** A font without a kern of its own comes back with its descent turned round for one. */
  lemma LoadedKern(f: Font)
    requires Writable(f)
    ensures Decode(Encode(f)).xkern == if f.xkern == None then Some(-f.descent) else f.xkern
  {
    hide Decode, Encode, Writable, Regroup, KeptAll, AllGlyphs, CutOff;
    LoadedIs(f);
  }

  // ----- pages again -----

  /** A page that is part made, and all that is left, come to that page and the rest. */
  lemma {:induction false} RunOn(p: Page, k: nat, more: seq<Page>)
    requires ValidPages([p] + more) && Maximal([p] + more) && 0 < k <= |p.glyphs|
    ensures Runs(Page(p.start, p.start + k - 1, p.glyphs[..k]), p.glyphs[k..] + AllGlyphs(more)) == [p] + more
    decreases |more|, |p.glyphs| - k
  {
    hide ValidPage, ValidPages, Maximal, Runs, AllGlyphs;
    PagesTail(p, more);
    MaximalTail(p, more);
    PageCodes(p, k);
    if k < |p.glyphs| {
      RunOn(p, k + 1, more);
      RunsInPage(p, k, AllGlyphs(more));
    } else if more == [] {
      assert [p] + more == [p];
      NoGlyphs();
      RunsEnd(p, []);
    } else {
      var q, rest := more[0], more[1..];
      assert more == [q] + rest;
      PageCodes(q, 0);
      RunOn(q, 1, rest);
      RunStart(q, rest);
      RunsEnd(p, AllGlyphs(more));
    }
  }

  lemma PageCodes(p: Page, k: nat)
    requires ValidPage(p)
    ensures 0 < |p.glyphs| == p.end - p.start + 1 && (k < |p.glyphs| ==> p.glyphs[k].code == p.start + k)
  {
    hide ValidGlyph;
  }

  lemma NoGlyphs()
    ensures AllGlyphs([]) == []
  {
  }

  /** In a page the loader goes on with the page. */
  lemma RunsInPage(p: Page, k: nat, more: seq<Glyph>)
    requires 0 < k < |p.glyphs| && p.glyphs[k].code == p.start + k
    ensures Runs(Page(p.start, p.start + k - 1, p.glyphs[..k]), p.glyphs[k..] + more) ==
            Runs(Page(p.start, p.start + (k + 1) - 1, p.glyphs[..k + 1]), p.glyphs[k + 1..] + more)
  {
    var gs := p.glyphs[k..] + more;
    assert gs[0] == p.glyphs[k] && gs[1..] == p.glyphs[k + 1..] + more;
    assert p.glyphs[..k + 1] == p.glyphs[..k] + [gs[0]];
  }

  /** At the end of a page it puts it by, and begins another if there is a glyph that is not the
      next. */
  lemma RunsEnd(p: Page, more: seq<Glyph>)
    requires |p.glyphs| == p.end - p.start + 1 && (more != [] ==> p.end + 1 != more[0].code)
    ensures var k := |p.glyphs|;
            Runs(Page(p.start, p.start + k - 1, p.glyphs[..k]), p.glyphs[k..] + more) ==
              if more == [] then [p] else [p] + Runs(Page(more[0].code, more[0].code, [more[0]]), more[1..])
  {
    assert p.glyphs[..|p.glyphs|] == p.glyphs && p.glyphs[|p.glyphs|..] + more == more;
    assert Page(p.start, p.start + |p.glyphs| - 1, p.glyphs) == p;
  }

  /** The first glyph of a page is where the loader begins it. */
  lemma RunStart(q: Page, rest: seq<Page>)
    requires ValidPage(q)
    ensures var gs := AllGlyphs([q] + rest);
            && gs != [] && gs[0].code == q.start
            && Page(gs[0].code, gs[0].code, [gs[0]]) == Page(q.start, q.start + 1 - 1, q.glyphs[..1])
            && gs[1..] == q.glyphs[1..] + AllGlyphs(rest)
  {
    var gs := AllGlyphs([q] + rest);
    assert ([q] + rest)[1..] == rest;
    assert gs == q.glyphs + AllGlyphs(rest) && q.glyphs[..1] == [gs[0]];
  }

  lemma Regrouped(pages: seq<Page>)
    requires ValidPages(pages) && Maximal(pages)
    ensures Regroup(AllGlyphs(pages)) == pages
  {
    if pages != [] {
      var p, more := pages[0], pages[1..];
      assert pages == [p] + more;
      PagesTail(p, more);
      PageCodes(p, 0);
      RunStart(p, more);
      RunOn(p, 1, more);
    }
  }

  /** The pages the loader makes hold the glyphs it was given and are maximal. */
  lemma {:induction false} RunsKeep(page: Page, gs: seq<Glyph>)
    ensures var r := Runs(page, gs);
            && |r| > 0 && r[0].start == page.start
            && AllGlyphs(r) == page.glyphs + gs && Maximal(r)
    decreases |gs|
  {
    var r := Runs(page, gs);
    if gs == [] {
      assert r[1..] == [];
      assert page.glyphs + [] == page.glyphs;
    } else if gs[0].code == page.end + 1 {
      var on := Page(page.start, gs[0].code, page.glyphs + [gs[0]]);
      RunsKeep(on, gs[1..]);
      assert on.glyphs + gs[1..] == page.glyphs + gs;
    } else {
      var next := Page(gs[0].code, gs[0].code, [gs[0]]);
      RunsKeep(next, gs[1..]);
      assert r[1..] == Runs(next, gs[1..]);
      assert next.glyphs + gs[1..] == gs;
      assert forall i | 0 < i < |r| :: r[i] == Runs(next, gs[1..])[i - 1];
    }
  }

  lemma RegroupKeeps(gs: seq<Glyph>)
    ensures AllGlyphs(Regroup(gs)) == gs && Maximal(Regroup(gs))
  {
    if gs != [] {
      RunsKeep(Page(gs[0].code, gs[0].code, [gs[0]]), gs[1..]);
      assert [gs[0]] + gs[1..] == gs;
    }
  }

  lemma {:induction false} KeptFewer(gs: seq<Glyph>)
    ensures |KeptAll(gs)| <= |gs|
    ensures |KeptAll(gs)| == |gs| <==> forall i | 0 <= i < |gs| :: gs[i].commands != []
    ensures |KeptAll(gs)| == |gs| ==> KeptAll(gs) == gs
    decreases |gs|
  {
    if gs == [] {
    } else {
      var g, rest := gs[0], gs[1..];
      KeptFewer(rest);
      assert gs == [g] + rest && KeptAll(gs) == Kept(g) + KeptAll(rest);
      hide KeptAll;
      if g.commands == [] {
        assert gs[0].commands == [] && Kept(g) + KeptAll(rest) == KeptAll(rest);
      } else {
        assert forall i | 0 <= i < |rest| :: gs[i + 1] == rest[i];
        assert forall i | 0 < i < |gs| :: gs[i] == rest[i - 1];
      }
    }
  }

  lemma {:induction false} FewerPages(less: seq<Page>, pages: seq<Page>)
    requires less <= pages && forall i | 0 <= i < |pages| :: ValidPage(pages[i])
    ensures |AllGlyphs(less)| <= |AllGlyphs(pages)|
    ensures less != pages ==> |AllGlyphs(less)| < |AllGlyphs(pages)|
    decreases |pages|
  {
    if pages == [] {
    } else {
      assert ValidPage(pages[0]);
      if less != [] {
        FewerPages(less[1..], pages[1..]);
        if less[1..] == pages[1..] { assert less == [less[0]] + less[1..] && pages == [pages[0]] + pages[1..]; }
      }
    }
  }

  /** What a font has to be to be loaded as it was: no glyph without a path, no page that could
      be longer, and none with an end the loader stops at. */
  predicate Loadable(pages: seq<Page>) {
    && (forall i | 0 <= i < |pages| :: !Stops(pages[i].end))
    && Maximal(pages)
    && (var gs := AllGlyphs(pages); forall i | 0 <= i < |gs| :: gs[i].commands != [])
  }

  /** Loading gives back what was written exactly when it can. */
  lemma RoundTrip(f: Font)
    requires Writable(f)
    ensures Decode(Encode(f)) == f.(xkern := Some(XKern(f))) <==> Loadable(f.pages)
  {
    hide Encode, Decode, Regroup, Base, ValidPage;
    LoadedIs(f);
    var cut := CutOff(f.pages);
    CutOffPrefix(f.pages);
    if Loadable(f.pages) {
      KeptFewer(AllGlyphs(f.pages));
      Regrouped(f.pages);
    } else if Regroup(KeptAll(AllGlyphs(cut))) == f.pages {
      RegroupKeeps(KeptAll(AllGlyphs(cut)));
      KeptFewer(AllGlyphs(cut));
      FewerPages(cut, f.pages);
      assert false;
    }
  }

  function OneGlyph(code: nat, commands: seq<Command>): Font {
    Font(0.0, 0.0, Some(0.0), [Page(code, code, [Glyph(code, 0.0, commands, [])])])
  }

  lemma OneGlyphOk(code: nat, commands: seq<Command>)
    requires code < 65536 && (commands == [] || commands == [Command(0, [0.0, 0.0])])
    ensures Writable(OneGlyph(code, commands))
    ensures AllGlyphs(OneGlyph(code, commands).pages) == OneGlyph(code, commands).pages[0].glyphs
  {
    var f, g := OneGlyph(code, commands), Glyph(code, 0.0, commands, []);
    assert Fits(0.0);
    assert |PathBytes(commands)| <= 6 by { if commands != [] { assert commands[1..] == []; } }
    assert |Record(g)| < 40;
    assert AllGlyphs(f.pages) == [g] by { assert f.pages[1..] == [] && [g] + [] == [g]; }
    assert Records([g]) == Record(g) by { assert [g][1..] == [] && Record(g) + [] == Record(g); }
    assert TableSize(f.pages) == 8 by { assert f.pages[1..] == []; }
    assert |Tables(f.pages, Base(f))| == 8 by { assert f.pages[1..] == []; }
  }

  /** Two that it does not give back: of one the only glyph has no path, and of the other the only
      page ends where the loader stops. */
  lemma NotGivenBack()
    ensures Writable(OneGlyph(65, [])) && Decode(Encode(OneGlyph(65, []))) == Font(0.0, 0.0, Some(0.0), [])
    ensures var f := OneGlyph(65535, [Command(0, [0.0, 0.0])]);
            Writable(f) && Decode(Encode(f)) == Font(0.0, 0.0, Some(0.0), [])
  {
    hide Encode, Decode, Writable;
    var f, g := OneGlyph(65, []), OneGlyph(65535, [Command(0, [0.0, 0.0])]);
    OneGlyphOk(65, []);
    LoadedIs(f);
    assert f.pages[1..] == [] && CutOff(f.pages) == [f.pages[0]] == f.pages;
    assert f.pages[0].glyphs[1..] == [] && KeptAll(f.pages[0].glyphs) == [];
    OneGlyphOk(65535, [Command(0, [0.0, 0.0])]);
    LoadedIs(g);
    assert CutOff(g.pages) == [] && AllGlyphs([]) == [] && KeptAll([]) == [];
  }

  // ----- the offset table -----

  lemma {:induction false} OffsetEntry(b: seq<byte>, at: nat, n: nat, j: nat)
    requires j < n
    ensures GetOffsets(b, at, n)[j] == GetUInt(b, at + 4 * j)
    decreases n
  {
    hide GetUInt;
    if j == 0 {
    } else {
      OffsetEntry(b, at + 4, n - 1, j - 1);
    }
  }

  lemma {:induction false} EntryIsRecord(b: seq<byte>, at: nat, pages: seq<Page>, rec: nat, i: nat, j: nat)
    requires (forall k | 0 <= k < |pages| :: ValidPage(pages[k])) && |b| < 0x1_0000_0000
    requires Holds(b, at, Tables(pages, rec) + Long(0)) && Holds(b, rec, Records(AllGlyphs(pages)))
    requires i < |pages| && j < |pages[i].glyphs|
    ensures var entry := at + TableSize(pages[..i]) + FONT_PAGE + 4 * j;
            entry >= 0 && Holds(b, GetUInt(b, entry), Record(pages[i].glyphs[j])) && (rec % 4 == 0 ==> GetUInt(b, entry) % 4 == 0)
    decreases i
  {
    hide Table, GetUShort, Holds, Records, Long, OffsetsOf, GetUInt, GetOffsets, GetGlyphs, KeptAll, Record, ValidGlyph;
    var p, more := pages[0], pages[1..];
    assert pages == [p] + more && ValidPage(p);
    var rec' := rec + |Records(p.glyphs)|;
    PageApart(b, at, p, more, rec);
    TableParts(b, at, p, rec, Tables(more, rec') + Long(0));
    if i == 0 {
      HeldPage(b, at, p, rec, Tables(more, rec') + Long(0));
      OffsetEntry(b, at + FONT_PAGE, |p.glyphs|, j);
      OffsetIsRecord(b, p.glyphs, rec, j);
      if rec % 4 == 0 { OffsetAligned(p.glyphs, rec, j); }
    } else {
      RecordsPadded(p.glyphs);
      EntryIsRecord(b, at + FONT_PAGE + 4 * |p.glyphs|, more, rec', i - 1, j);
      assert pages[..i] == [p] + more[..i - 1] && pages[..i][1..] == more[..i - 1];
    }
  }

  /** What is written in the offset table for a glyph is where its record begins in the file, which is
      a multiple of 4. */
  lemma OffsetTable(f: Font, i: nat, j: nat)
    requires Writable(f) && i < |f.pages| && j < |f.pages[i].glyphs|
    ensures var b, entry := Encode(f), FONT_DATA + TableSize(f.pages[..i]) + FONT_PAGE + 4 * j;
            entry >= 0 && Holds(b, GetUInt(b, entry), Record(f.pages[i].glyphs[j])) && GetUInt(b, entry) % 4 == 0
  {
    hide Encode, Holds, Record, Records, GetUInt;
    BaseAligned(f);
    FileHolds(f);
    EntryIsRecord(Encode(f), FONT_DATA, f.pages, Base(f), i, j);
  }
}
