/** The CTF font file (cmd/ctf.lisp, gui/font/struct.inc): what the writer writes of a
    font and what the loader makes of any bytes, as functions. CtfFile has the loops.

    A coordinate is a real, kept in the file as a 16-bit number of 8192ths. */
module CtfFormat {
  import opened Options

  type byte = b: int | 0 <= b < 256

  /** A move or a line, 0 or 1, a curve, 2, or a quad, 3, and its coordinates. */
  datatype Command = Command(kind: nat, args: seq<real>)
  datatype Kern = Kern(code: nat, adjust: real)
  datatype Glyph = Glyph(code: nat, advance: real, commands: seq<Command>, kerns: seq<Kern>)
  datatype Page = Page(start: nat, end: nat, glyphs: seq<Glyph>)
  datatype Font = Font(ascent: real, descent: real, xkern: Option<real>, pages: seq<Page>)

  const FONT_DATA: nat := 8
  const FONT_PAGE: nat := 4
  const FONT_PATH: nat := 12
  const FONT_KERN: nat := 4

  // ----- numbers as bytes -----

  function Short(v: int): (s: seq<byte>)
    ensures |s| == 2
  {
    [v % 256, v / 256 % 256]
  }

  function Long(v: int): (s: seq<byte>)
    ensures |s| == 4
  {
    [v % 256, v / 256 % 256, v / 65536 % 256, v / 16777216 % 256]
  }

  /** A read past the end of the buffer gives 0. */
  function Byte(b: seq<byte>, at: nat): byte {
    if at < |b| then b[at] else 0
  }

  function GetUShort(b: seq<byte>, at: nat): nat {
    Byte(b, at) + 256 * Byte(b, at + 1)
  }

  function GetShort(b: seq<byte>, at: nat): int {
    var v := GetUShort(b, at);
    if v >= 32768 then v - 65536 else v
  }

  function GetUInt(b: seq<byte>, at: nat): nat {
    Byte(b, at) + 256 * Byte(b, at + 1) + 65536 * Byte(b, at + 2) + 16777216 * Byte(b, at + 3)
  }

  /** `n2i` of 8192 times a real: toward 0. */
  function ToFixed(x: real): int {
    if x < 0.0 then -((-x * 8192.0).Floor) else (x * 8192.0).Floor
  }

  function FromFixed(v: int): real {
    v as real / 8192.0
  }

  /** A real that a short can keep. */
  predicate Fits(x: real) {
    -32768 <= ToFixed(x) < 32768 && FromFixed(ToFixed(x)) == x
  }

  // ----- what is written -----

  /** How many coordinates an element of a path has. */
  function Arity(kind: nat): nat {
    if kind == 2 then 6 else if kind == 3 then 4 else 2
  }

  function Coords(args: seq<real>): (s: seq<byte>)
    ensures |s| == 2 * |args|
  {
    if args == [] then [] else Short(ToFixed(args[0])) + Coords(args[1..])
  }

  function PathBytes(commands: seq<Command>): seq<byte> {
    if commands == [] then []
    else Short(commands[0].kind) + Coords(commands[0].args) + PathBytes(commands[1..])
  }

  function KernBytes(kerns: seq<Kern>): (s: seq<byte>)
    ensures |s| == FONT_KERN * |kerns|
  {
    if kerns == [] then [] else Short(kerns[0].code) + Short(ToFixed(kerns[0].adjust)) + KernBytes(kerns[1..])
  }

  /** Up to the next multiple of 4. */
  function Align(n: nat): (m: nat)
    ensures n <= m < n + 4
  {
    (n + 3) / 4 * 4
  }

  function Zeros(n: nat): (s: seq<byte>)
    ensures |s| == n
  {
    seq(n, _ => 0)
  }

  function Body(g: Glyph): seq<byte> {
    Short(g.code) + Short(ToFixed(g.advance)) + Long(|PathBytes(g.commands)|) + Long(|g.kerns|)
      + PathBytes(g.commands) + KernBytes(g.kerns)
  }

  function Record(g: Glyph): (s: seq<byte>)
    ensures |s| >= FONT_PATH
  {
    Body(g) + Zeros(Align(|Body(g)|) - |Body(g)|)
  }

  function Records(gs: seq<Glyph>): seq<byte> {
    if gs == [] then [] else Record(gs[0]) + Records(gs[1..])
  }

  function OffsetBytes(gs: seq<Glyph>, at: nat): (s: seq<byte>)
    ensures |s| == 4 * |gs|
  {
    if gs == [] then [] else Long(at) + OffsetBytes(gs[1..], at + |Record(gs[0])|)
  }

  function Table(p: Page, at: nat): (s: seq<byte>)
    ensures |s| == FONT_PAGE + 4 * |p.glyphs|
  {
    Short(p.end) + Short(p.start) + OffsetBytes(p.glyphs, at)
  }

  function Tables(pages: seq<Page>, at: nat): seq<byte> {
    if pages == [] then [] else Table(pages[0], at) + Tables(pages[1..], at + |Records(pages[0].glyphs)|)
  }

  function AllGlyphs(pages: seq<Page>): seq<Glyph> {
    if pages == [] then [] else pages[0].glyphs + AllGlyphs(pages[1..])
  }

  /** `(or xkern (neg descent))`. */
  function XKern(f: Font): real {
    if f.xkern.Some? then f.xkern.value else -f.descent
  }

  function Header(f: Font): (s: seq<byte>)
    ensures |s| == FONT_DATA
  {
    Short(ToFixed(f.ascent)) + Short(ToFixed(f.descent)) + Short(ToFixed(XKern(f))) + Zeros(2)
  }

  /** How long the tables are, by what the pages say they hold. */
  function TableSize(pages: seq<Page>): int {
    if pages == [] then 0
    else FONT_PAGE + 4 * (pages[0].end - pages[0].start + 1) + TableSize(pages[1..])
  }

  /** Where the first record begins. */
  function Base(f: Font): int {
    FONT_DATA + TableSize(f.pages) + 4
  }

  function Encode(f: Font): seq<byte>
    requires Base(f) >= 0
  {
    Header(f) + Tables(f.pages, Base(f)) + Long(0) + Records(AllGlyphs(f.pages))
  }

  // ----- what is loaded -----

  function GetCoords(b: seq<byte>, at: nat, n: nat): seq<real>
    decreases n
  {
    if n == 0 then [] else [FromFixed(GetShort(b, at))] + GetCoords(b, at + 2, n - 1)
  }

  function GetPath(b: seq<byte>, at: nat, end: nat): seq<Command>
    decreases end - at
  {
    if at >= end then []
    else
      var kind := GetShort(b, at);
      if 0 <= kind <= 3 then
        [Command(kind, GetCoords(b, at + 2, Arity(kind)))] + GetPath(b, at + 2 + 2 * Arity(kind), end)
      else GetPath(b, at + 2, end)
  }

  function GetKerns(b: seq<byte>, at: nat, n: nat): seq<Kern>
    decreases n
  {
    if n == 0 then []
    else [Kern(GetUShort(b, at), FromFixed(GetShort(b, at + 2)))] + GetKerns(b, at + FONT_KERN, n - 1)
  }

  /** The glyph at an offset. One with no path is passed over. */
  function GetGlyph(b: seq<byte>, code: nat, at: nat): seq<Glyph> {
    var len, klen := GetUInt(b, at + 4), GetUInt(b, at + 8);
    if len == 0 then []
    else [Glyph(code, FromFixed(GetShort(b, at + 2)), GetPath(b, at + FONT_PATH, at + FONT_PATH + len),
                GetKerns(b, at + FONT_PATH + len, klen))]
  }

  function GetGlyphs(b: seq<byte>, code: nat, offsets: seq<nat>): seq<Glyph>
    decreases |offsets|
  {
    if offsets == [] then [] else GetGlyph(b, code, offsets[0]) + GetGlyphs(b, code + 1, offsets[1..])
  }

  datatype Info = Info(start: nat, end: nat, offsets: seq<nat>)

  function GetOffsets(b: seq<byte>, at: nat, n: nat): (s: seq<nat>)
    ensures |s| == n
    decreases n
  {
    if n == 0 then [] else [GetUInt(b, at)] + GetOffsets(b, at + 4, n - 1)
  }

  predicate Stops(end: nat) {
    end == 0 || end == 0xffff
  }

  function Count(start: nat, end: nat): nat {
    if start <= end then end - start + 1 else 0
  }

  function GetTables(b: seq<byte>, at: nat): seq<Info>
    decreases |b| - at
  {
    var end := GetUShort(b, at);
    if Stops(end) then []
    else
      var start := GetUShort(b, at + 2);
      [Info(start, end, GetOffsets(b, at + FONT_PAGE, Count(start, end)))]
        + GetTables(b, at + FONT_PAGE + 4 * Count(start, end))
  }

  function GetActive(b: seq<byte>, infos: seq<Info>): seq<Glyph> {
    if infos == [] then [] else GetGlyphs(b, infos[0].start, infos[0].offsets) + GetActive(b, infos[1..])
  }

  /** By code, for which the loader calls `sort`. */
  function Insert(g: Glyph, gs: seq<Glyph>): seq<Glyph> {
    if gs == [] || g.code <= gs[0].code then [g] + gs else [gs[0]] + Insert(g, gs[1..])
  }

  function ByCode(gs: seq<Glyph>): seq<Glyph> {
    if gs == [] then [] else Insert(gs[0], ByCode(gs[1..]))
  }

  /** The glyphs on from a page's, put on it while they follow, and the pages after. */
  function Runs(page: Page, gs: seq<Glyph>): seq<Page>
    decreases |gs|
  {
    if gs == [] then [page]
    else if gs[0].code == page.end + 1 then Runs(Page(page.start, gs[0].code, page.glyphs + [gs[0]]), gs[1..])
    else [page] + Runs(Page(gs[0].code, gs[0].code, [gs[0]]), gs[1..])
  }

  function Regroup(gs: seq<Glyph>): seq<Page> {
    if gs == [] then [] else Runs(Page(gs[0].code, gs[0].code, [gs[0]]), gs[1..])
  }

  function Decode(b: seq<byte>): Font {
    Font(FromFixed(GetShort(b, 0)), FromFixed(GetShort(b, 2)), Some(FromFixed(GetShort(b, 4))),
         Regroup(ByCode(GetActive(b, GetTables(b, FONT_DATA)))))
  }
}
