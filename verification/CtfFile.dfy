/** The loops that write and load a CTF font (cmd/ctf.lisp:860-964, 974-1073). */
module CtfFile {
  import opened CtfFormat
  import CtfRoundTrip
  import opened Options

  // ----- the writer -----

  /** Every element of a path has the coordinates its kind has. */
  predicate Shaped(f: Font) {
    forall i | 0 <= i < |f.pages| :: ShapedAll(f.pages[i].glyphs)
  }

  predicate ShapedAll(gs: seq<Glyph>) {
    forall i | 0 <= i < |gs| :: ShapedPath(gs[i].commands)
  }

  predicate ShapedPath(commands: seq<Command>) {
    forall i | 0 <= i < |commands| :: |commands[i].args| == Arity(commands[i].kind)
  }

  /** The length of a path, added up by the kinds of its elements. */
  method PathLength(commands: seq<Command>) returns (plen: nat)
    requires ShapedPath(commands)
    ensures plen == |PathBytes(commands)|
  {
    plen := 0;
    for i := 0 to |commands|
      invariant plen + |PathBytes(commands[i..])| == |PathBytes(commands)|
    {
      assert commands[i..][1..] == commands[i + 1..];
      plen := plen + if commands[i].kind == 2 then 14 else if commands[i].kind == 3 then 10 else 6;
    }
  }

  /** The bytes of a glyph, and of zeros to the next that begins on 4. */
  method WriteGlyph(stream: seq<byte>, g: Glyph) returns (out: seq<byte>)
    requires ShapedPath(g.commands)
    ensures out == stream + Record(g)
  {
    hide Short, Long, ToFixed;
    var plen := PathLength(g.commands);
    out := Short(g.code) + Short(ToFixed(g.advance)) + Long(plen) + Long(|g.kerns|);
    ghost var head := out;
    for i := 0 to |g.commands|
      invariant out + PathBytes(g.commands[i..]) == head + PathBytes(g.commands)
    {
      assert g.commands[i..][1..] == g.commands[i + 1..];
      var written := WriteCoords(Short(g.commands[i].kind), g.commands[i].args);
      assert out + (written + PathBytes(g.commands[i + 1..])) == (out + written) + PathBytes(g.commands[i + 1..]);
      out := out + written;
    }
    assert out == head + PathBytes(g.commands);
    head := out;
    for i := 0 to |g.kerns|
      invariant out + KernBytes(g.kerns[i..]) == head + KernBytes(g.kerns)
    {
      assert g.kerns[i..][1..] == g.kerns[i + 1..];
      var written := Short(g.kerns[i].code) + Short(ToFixed(g.kerns[i].adjust));
      assert out + (written + KernBytes(g.kerns[i + 1..])) == (out + written) + KernBytes(g.kerns[i + 1..]);
      out := out + written;
    }
    assert out == Body(g);
    var written_size := FONT_PATH + plen + |g.kerns| * FONT_KERN;
    out := stream + (out + Zeros(Align(written_size) - written_size));
  }

  method WriteCoords(stream: seq<byte>, args: seq<real>) returns (out: seq<byte>)
    ensures out == stream + Coords(args)
  {
    hide Short, ToFixed;
    out := stream;
    for i := 0 to |args|
      invariant out + Coords(args[i..]) == stream + Coords(args)
    {
      assert args[i..][1..] == args[i + 1..];
      var written := Short(ToFixed(args[i]));
      assert out + (written + Coords(args[i + 1..])) == (out + written) + Coords(args[i + 1..]);
      out := out + written;
    }
  }

  /** One page's table. The offset goes on by the size of each glyph, worked out again. */
  method WriteTable(stream: seq<byte>, page: Page, current: nat) returns (out: seq<byte>, offset: nat)
    requires ShapedAll(page.glyphs)
    ensures out == stream + Table(page, current) && offset == current + |Records(page.glyphs)|
  {
    hide Short, Long, Record;
    offset := current;
    out := Short(page.end) + Short(page.start);
    ghost var head := out;
    for i := 0 to |page.glyphs|
      invariant out + OffsetBytes(page.glyphs[i..], offset) == head + OffsetBytes(page.glyphs, current)
      invariant offset + |Records(page.glyphs[i..])| == current + |Records(page.glyphs)|
    {
      var g := page.glyphs[i];
      assert page.glyphs[i..][1..] == page.glyphs[i + 1..];
      var plen := PathLength(g.commands);
      var size := Align(FONT_PATH + plen + |g.kerns| * FONT_KERN);
      RecordSize(g);
      var rest := OffsetBytes(page.glyphs[i + 1..], offset + size);
      assert out + (Long(offset) + rest) == (out + Long(offset)) + rest;
      out := out + Long(offset);
      offset := offset + size;
    }
    out := stream + out;
  }

  lemma RecordSize(g: Glyph)
    ensures |Record(g)| == Align(FONT_PATH + |PathBytes(g.commands)| + |g.kerns| * FONT_KERN)
  {
  }

  method WriteRecords(stream: seq<byte>, gs: seq<Glyph>) returns (out: seq<byte>)
    requires ShapedAll(gs)
    ensures out == stream + Records(gs)
  {
    hide Record;
    out := stream;
    for i := 0 to |gs|
      invariant out + Records(gs[i..]) == stream + Records(gs)
    {
      assert gs[i..][1..] == gs[i + 1..];
      assert out + (Record(gs[i]) + Records(gs[i + 1..])) == (out + Record(gs[i])) + Records(gs[i + 1..]);
      out := WriteGlyph(out, gs[i]);
    }
  }

  /** Where the first record will begin: the tables are sized before any is written. */
  method FirstOffset(pages: seq<Page>) returns (offset: int)
    ensures offset == FONT_DATA + TableSize(pages) + 4
  {
    offset := FONT_DATA;
    for i := 0 to |pages|
      invariant offset + TableSize(pages[i..]) == FONT_DATA + TableSize(pages)
    {
      assert pages[i..][1..] == pages[i + 1..];
      var count := pages[i].end - pages[i].start + 1;
      offset := offset + FONT_PAGE + count * 4;
    }
    offset := offset + 4;
  }

  method WriteTables(stream: seq<byte>, pages: seq<Page>, first: nat) returns (out: seq<byte>)
    requires forall i | 0 <= i < |pages| :: ShapedAll(pages[i].glyphs)
    ensures out == stream + Tables(pages, first)
  {
    hide Table, Record;
    out := stream;
    var offset := first;
    for i := 0 to |pages|
      invariant out + Tables(pages[i..], offset) == stream + Tables(pages, first)
    {
      assert pages[i..][1..] == pages[i + 1..];
      ghost var was, at := out, offset;
      out, offset := WriteTable(out, pages[i], offset);
      assert was + (Table(pages[i], at) + Tables(pages[i + 1..], offset)) == out + Tables(pages[i + 1..], offset);
    }
  }

  /** `write-ctf`. */
  method WriteCtf(f: Font) returns (stream: seq<byte>)
    requires Shaped(f) && Base(f) >= 0
    ensures stream == Encode(f)
  {
    hide Short, Long, Record, ToFixed;
    stream := Short(ToFixed(f.ascent)) + Short(ToFixed(f.descent)) + Short(ToFixed(XKern(f))) + Zeros(FONT_DATA - 6);
    var offset := FirstOffset(f.pages);
    stream := WriteTables(stream, f.pages, offset);
    stream := stream + Long(0);
    ghost var head := stream;
    for i := 0 to |f.pages|
      invariant stream + Records(AllGlyphs(f.pages[i..])) == head + Records(AllGlyphs(f.pages))
    {
      assert f.pages[i..][1..] == f.pages[i + 1..];
      ghost var was, rest := stream, AllGlyphs(f.pages[i + 1..]);
      CtfRoundTrip.RecordsCat(f.pages[i].glyphs, rest);
      stream := WriteRecords(stream, f.pages[i].glyphs);
      assert was + (Records(f.pages[i].glyphs) + Records(rest)) == stream + Records(rest);
    }
  }

  // ----- the loader -----

  method LoadPath(b: seq<byte>, at: nat, end: nat) returns (commands: seq<Command>)
    ensures commands == GetPath(b, at, end)
  {
    hide GetShort, GetCoords;
    commands := [];
    var offset := at;
    while offset < end
      invariant commands + GetPath(b, offset, end) == GetPath(b, at, end)
      decreases end - offset
    {
      var kind := GetShort(b, offset);
      ghost var was, from := commands, offset;
      offset := offset + 2;
      if 0 <= kind <= 3 {
        commands := commands + [Command(kind, GetCoords(b, offset, Arity(kind)))];
        offset := offset + 2 * Arity(kind);
        assert was + ([commands[|was|]] + GetPath(b, offset, end)) == commands + GetPath(b, offset, end);
      }
    }
  }

  method LoadKerns(b: seq<byte>, at: nat, klen: nat) returns (kerns: seq<Kern>)
    ensures kerns == GetKerns(b, at, klen)
  {
    hide GetShort, GetUShort, FromFixed;
    kerns := [];
    var offset := at;
    for i := 0 to klen
      invariant offset == at + FONT_KERN * i
      invariant kerns + GetKerns(b, offset, klen - i) == GetKerns(b, at, klen)
    {
      var k := Kern(GetUShort(b, offset), FromFixed(GetShort(b, offset + 2)));
      offset := offset + FONT_KERN;
      assert kerns + ([k] + GetKerns(b, offset, klen - i - 1)) == (kerns + [k]) + GetKerns(b, offset, klen - i - 1);
      kerns := kerns + [k];
    }
  }

  method LoadOffsets(b: seq<byte>, at: nat, count: nat) returns (offsets: seq<nat>)
    ensures offsets == GetOffsets(b, at, count)
  {
    hide GetUInt;
    offsets := [];
    var offset := at;
    for i := 0 to count
      invariant offset == at + 4 * i
      invariant offsets + GetOffsets(b, offset, count - i) == GetOffsets(b, at, count)
    {
      var o := GetUInt(b, offset);
      offset := offset + 4;
      assert offsets + ([o] + GetOffsets(b, offset, count - i - 1)) == (offsets + [o]) + GetOffsets(b, offset, count - i - 1);
      offsets := offsets + [o];
    }
  }

  /** The tables, to the end that stops it. */
  method LoadTables(b: seq<byte>) returns (infos: seq<Info>)
    ensures infos == GetTables(b, FONT_DATA)
  {
    hide GetOffsets;
    infos := [];
    var offset: nat := FONT_DATA;
    var running := true;
    while running
      invariant running ==> infos + GetTables(b, offset) == GetTables(b, FONT_DATA)
      invariant !running ==> infos == GetTables(b, FONT_DATA)
      decreases running, |b| - offset
    {
      var end := GetUShort(b, offset);
      if Stops(end) {
        running := false;
        assert infos + [] == infos;
      } else {
        var start := GetUShort(b, offset + 2);
        var count := Count(start, end);
        var offsets := LoadOffsets(b, offset + FONT_PAGE, count);
        offset := offset + FONT_PAGE + 4 * count;
        var info := Info(start, end, offsets);
        assert infos + ([info] + GetTables(b, offset)) == (infos + [info]) + GetTables(b, offset);
        infos := infos + [info];
      }
    }
  }

  /** The glyph at an offset, put on the list if it has a path. */
  method LoadGlyph(glyphs: seq<Glyph>, b: seq<byte>, code: nat, at: nat) returns (more: seq<Glyph>)
    ensures more == glyphs + GetGlyph(b, code, at)
  {
    hide GetUInt, GetShort, GetPath, GetKerns, FromFixed;
    var width, len, klen := FromFixed(GetShort(b, at + 2)), GetUInt(b, at + 4), GetUInt(b, at + 8);
    var kerns := LoadKerns(b, at + FONT_PATH + len, klen);
    more := glyphs;
    if len > 0 {
      var commands := LoadPath(b, at + FONT_PATH, at + FONT_PATH + len);
      more := glyphs + [Glyph(code, width, commands, kerns)];
    }
  }

  method LoadGlyphs(b: seq<byte>, start: nat, offsets: seq<nat>) returns (glyphs: seq<Glyph>)
    ensures glyphs == GetGlyphs(b, start, offsets)
  {
    hide GetGlyph;
    glyphs := [];
    for i := 0 to |offsets|
      invariant glyphs + GetGlyphs(b, start + i, offsets[i..]) == GetGlyphs(b, start, offsets)
    {
      assert offsets[i..][1..] == offsets[i + 1..];
      ghost var rest := GetGlyphs(b, start + i + 1, offsets[i + 1..]);
      assert glyphs + (GetGlyph(b, start + i, offsets[i]) + rest) == (glyphs + GetGlyph(b, start + i, offsets[i])) + rest;
      glyphs := LoadGlyph(glyphs, b, start + i, offsets[i]);
    }
  }

  method LoadActive(b: seq<byte>, infos: seq<Info>) returns (active: seq<Glyph>)
    ensures active == GetActive(b, infos)
  {
    hide GetGlyphs;
    active := [];
    for i := 0 to |infos|
      invariant active + GetActive(b, infos[i..]) == GetActive(b, infos)
    {
      assert infos[i..][1..] == infos[i + 1..];
      ghost var rest := GetActive(b, infos[i + 1..]);
      var glyphs := LoadGlyphs(b, infos[i].start, infos[i].offsets);
      assert active + (glyphs + rest) == (active + glyphs) + rest;
      active := active + glyphs;
    }
  }

  /** Pages of the codes that follow on. */
  method LoadPages(gs: seq<Glyph>) returns (pages: seq<Page>)
    ensures pages == Regroup(gs)
  {
    pages := [];
    if gs != [] {
      var page := Page(gs[0].code, gs[0].code, [gs[0]]);
      for index := 1 to |gs|
        invariant pages + Runs(page, gs[index..]) == Regroup(gs)
      {
        var g := gs[index];
        assert gs[index..][1..] == gs[index + 1..];
        if g.code == page.end + 1 {
          page := Page(page.start, g.code, page.glyphs + [g]);
        } else {
          ghost var rest := Runs(Page(g.code, g.code, [g]), gs[index + 1..]);
          assert pages + ([page] + rest) == (pages + [page]) + rest;
          pages := pages + [page];
          page := Page(g.code, g.code, [g]);
        }
      }
      pages := pages + [page];
    }
  }

  /** `load-ctf-buf`, of every glyph. */
  method LoadCtf(b: seq<byte>) returns (f: Font)
    ensures f == Decode(b)
  {
    var infos := LoadTables(b);
    var active := LoadActive(b, infos);
    var pages := LoadPages(ByCode(active));
    f := Font(FromFixed(GetShort(b, 0)), FromFixed(GetShort(b, 2)), Some(FromFixed(GetShort(b, 4))), pages);
  }
}
