/**
 * The glyph atlas that drawSetTextFont builds the first time it sees a
 * font: a single pass over byte codes 0..255 that packs every
 * non-whitespace glyph into rows of a 256-pixel-wide RGBA buffer, which
 * starts 256 rows tall and grows by 256 rows.
 *
 * The font is foreign: its id, its line height (getTall) and its per-code
 * metrics (getCharABCwide) are inputs. The pixels getCharRGBA writes are
 * not modelled; the buffer is modelled by its height only.
 */
module GlyphAtlas {
  import opened Wrappers
  import opened Sdl

  const ATLAS_WIDTH := 256
  const INITIAL_HEIGHT := 256
  const GROWTH := 256
  const GLYPH_COUNT := 256

  /** getCharABCwide: bearing, glyph width, trailing space. */
  datatype Abc = Abc(a: int, b: int, c: int)

  /** What the surface asks of a font: getId, getTall and the metrics of every byte code. */
  datatype FontData = FontData(id: int, tall: int, abc: seq<Abc>)
  type Font = f: FontData | |f.abc| == GLYPH_COUNT
    witness FontData(0, 0, seq(GLYPH_COUNT, _ => Abc(0, 0, 0)))

  /** isspace in the C locale. */
  predicate IsSpace(ch: int) {
    9 <= ch <= 13 || ch == 32
  }

  /**
   * A cached atlas (FontTexture): its texture id, the font id and one rect
   * per byte code; None marks a code whose rect was never written.
   */
  datatype FontTexture = FontTexture(texture: int, fontId: int, rects: seq<Option<Rect>>)

  /** Every non-whitespace code has a rect and no whitespace code has one. */
  predicate AtlasComplete(rects: seq<Option<Rect>>) {
    && |rects| == GLYPH_COUNT
    && forall ch :: 0 <= ch < GLYPH_COUNT ==> (rects[ch].Some? <==> !IsSpace(ch))
  }

  /** The packer's state: its cursor, the buffer height and the rects of the codes seen so far. */
  datatype Packing = Packing(x: int, y: int, height: int, rects: seq<Option<Rect>>)

  /** Placing one non-whitespace glyph, as the loop body is written. */
  function PlaceGlyph(p: Packing, width: int, tall: int): Packing {
    if p.x + width + 1 > ATLAS_WIDTH then
      var height := if p.y + tall + 1 > p.height then p.height + GROWTH else p.height;
      var y := p.y + tall + 1;
      Packing(width + 1, y, height, p.rects + [Some(Rect(0, y, width, tall))])
    else
      Packing(p.x + width + 1, p.y, p.height, p.rects + [Some(Rect(p.x, p.y, width, tall))])
  }

  /** The packer as written, after byte codes 0 .. n-1. */
  function Pack(font: Font, n: nat): (p: Packing)
    requires n <= GLYPH_COUNT
    ensures |p.rects| == n
    ensures p.height >= INITIAL_HEIGHT && p.height % GROWTH == 0
  {
    if n == 0 then Packing(0, 0, INITIAL_HEIGHT, [])
    else
      var p := Pack(font, n - 1);
      if IsSpace(n - 1) then p.(rects := p.rects + [None])
      else PlaceGlyph(p, font.abc[n - 1].b, font.tall)
  }

  /**
   * After the first n codes, exactly the whitespace codes have no rect, and
   * every placed glyph is b wide and one line tall.
   */
  lemma {:induction false} PackShape(font: Font, n: nat)
    requires n <= GLYPH_COUNT
    ensures var p := Pack(font, n);
      && (forall ch :: 0 <= ch < n ==> (p.rects[ch].None? <==> IsSpace(ch)))
      && (forall ch :: 0 <= ch < n && !IsSpace(ch) ==>
            p.rects[ch].value.w == font.abc[ch].b && p.rects[ch].value.h == font.tall)
  {
    if n > 0 {
      PackShape(font, n - 1);
      var p, q := Pack(font, n - 1), Pack(font, n);
      assert q.rects[..n - 1] == p.rects;
      assert forall ch :: 0 <= ch < n - 1 ==> q.rects[ch] == q.rects[..n - 1][ch];
    }
  }

  /** The finished atlas has a rect for exactly the non-whitespace codes. */
  lemma PackedAtlasComplete(font: Font)
    ensures AtlasComplete(Pack(font, GLYPH_COUNT).rects)
  {
    PackShape(font, GLYPH_COUNT);
  }

  /**
   * The single-pass loop of drawSetTextFont as written: the rect table and
   * the buffer height it leaves are those of the packer Pack, and the table
   * has a rect for exactly the non-whitespace codes.
   */
  method BuildAtlas(font: Font) returns (rects: seq<Option<Rect>>, textureHeight: int)
    ensures rects == Pack(font, GLYPH_COUNT).rects
    ensures textureHeight == Pack(font, GLYPH_COUNT).height
    ensures AtlasComplete(rects)
  {
    var table := new Option<Rect>[GLYPH_COUNT](_ => None);
    var x, y := 0, 0;
    textureHeight := INITIAL_HEIGHT;
    var i := 0;
    while i < GLYPH_COUNT
      invariant 0 <= i <= GLYPH_COUNT
      invariant Pack(font, i) == Packing(x, y, textureHeight, table[..i])
      invariant forall k :: i <= k < GLYPH_COUNT ==> table[k] == None
    {
      ghost var before := Pack(font, i);
      if !IsSpace(i) {
        var width := font.abc[i].b;
        var height := font.tall;
        assert Pack(font, i + 1) == PlaceGlyph(before, width, height);
        if x + width + 1 > ATLAS_WIDTH {
          x := 0;
          if y + height + 1 > textureHeight {
            textureHeight := textureHeight + GROWTH;
          }
          y := y + height + 1;
        }
        table[i] := Some(Rect(x, y, width, height));
        x := x + width + 1;
      } else {
        assert Pack(font, i + 1) == before.(rects := before.rects + [None]);
      }
      assert table[..i + 1] == before.rects + [table[i]];
      assert Pack(font, i + 1) == Packing(x, y, textureHeight, table[..i + 1]);
      i := i + 1;
    }
    assert table[..] == table[..GLYPH_COUNT];
    rects := table[..];
    PackedAtlasComplete(font);
  }

  /**
   * The corrected packer over all 256 codes: the same rect table as the
   * code as written, a buffer at least as tall, and for a font whose glyphs
   * fit a row every glyph inside the buffer.
   */
  lemma CorrectedAtlas(font: Font)
    ensures var p := PackChecked(font, GLYPH_COUNT);
      && p.rects == Pack(font, GLYPH_COUNT).rects
      && AtlasComplete(p.rects)
      && (font.tall >= 0 ==> p.height >= Pack(font, GLYPH_COUNT).height)
      && (NarrowGlyphs(font) ==>
            forall ch :: 0 <= ch < GLYPH_COUNT && !IsSpace(ch) ==> FitsBuffer(p.rects[ch].value, p.height))
  {
    CheckedPlacesAsWritten(font, GLYPH_COUNT);
    PackedAtlasComplete(font);
    if NarrowGlyphs(font) {
      PackCheckedFits(font, GLYPH_COUNT);
    }
  }

  /** Packing never rewrites a rect already placed, and the buffer never shrinks. */
  lemma {:induction false} PackPrefix(font: Font, m: nat, n: nat)
    requires m <= n <= GLYPH_COUNT
    ensures Pack(font, n).rects[..m] == Pack(font, m).rects
    ensures Pack(font, m).height <= Pack(font, n).height
    decreases n - m
  {
    if m < n {
      PackPrefix(font, m + 1, n);
      assert Pack(font, m + 1).rects[..m] == Pack(font, m).rects;
      assert Pack(font, n).rects[..m] == Pack(font, n).rects[..m + 1][..m];
    }
  }

  /**
   * One code's step: the buffer grows, by exactly 256 rows, if and only if
   * a glyph wraps to a new row and the old row's y plus the line height
   * overflows the current height; otherwise it keeps its height.
   */
  lemma HeightGrowsOnlyOnWrap(font: Font, n: nat)
    requires n < GLYPH_COUNT
    ensures var p, q := Pack(font, n), Pack(font, n + 1);
      var grows := && !IsSpace(n)
                   && p.x + font.abc[n].b + 1 > ATLAS_WIDTH
                   && p.y + font.tall + 1 > p.height;
      && (grows ==> q.height == p.height + GROWTH)
      && (!grows ==> q.height == p.height)
  {
  }

  /**
   * One code's step: a glyph wraps exactly when `x + width + 1` passes the
   * atlas width; a wrap places it at x = 0 one line lower, otherwise it
   * goes at the cursor; either way the cursor moves past it by one pixel.
   */
  lemma WrapStartsNewRow(font: Font, n: nat)
    requires n < GLYPH_COUNT && !IsSpace(n)
    ensures var p, q := Pack(font, n), Pack(font, n + 1);
      var r, width := q.rects[n].value, font.abc[n].b;
      && (p.x + width + 1 > ATLAS_WIDTH ==> r.x == 0 && r.y == p.y + font.tall + 1)
      && (p.x + width + 1 <= ATLAS_WIDTH ==> r.x == p.x && r.y == p.y)
      && q.x == r.x + width + 1 && q.y == r.y
  {
  }

  /** Whitespace codes get no rect and leave the packer where it was. */
  lemma WhitespaceSkipped(font: Font, n: nat)
    requires n < GLYPH_COUNT && IsSpace(n)
    ensures var p, q := Pack(font, n), Pack(font, n + 1);
      q.rects[n] == None && q.x == p.x && q.y == p.y && q.height == p.height
  {
  }

  /** How many non-whitespace codes lie below n. */
  function GlyphsBelow(n: nat): (k: nat)
    ensures k <= n
  {
    if n == 0 then 0 else GlyphsBelow(n - 1) + (if IsSpace(n - 1) then 0 else 1)
  }

  /** How many whitespace codes lie below n: 9 .. 13, then 32. */
  function SpacesBelow(n: nat): nat {
    if n <= 9 then 0 else if n <= 14 then n - 9 else if n <= 32 then 5 else 6
  }

  /** Below n, every code is either whitespace or a glyph. */
  lemma {:induction false} GlyphsAndSpacesBelow(n: nat)
    ensures GlyphsBelow(n) + SpacesBelow(n) == n
  {
    if n > 0 {
      GlyphsAndSpacesBelow(n - 1);
    }
  }

  /** The atlas holds 250 glyphs: the 256 byte codes less the six whitespace codes. */
  lemma AtlasGlyphCount()
    ensures GlyphsBelow(GLYPH_COUNT) == 250
  {
    GlyphsAndSpacesBelow(GLYPH_COUNT);
  }

  predicate UniformWidthTen(font: Font) {
    forall ch :: 0 <= ch < GLYPH_COUNT && !IsSpace(ch) ==> font.abc[ch].b == 10
  }

  /** The column and row of the k-th glyph when 23 fit a row. */
  lemma DivModNext(j: nat)
    ensures j % 23 == 22 ==> (j + 1) % 23 == 0 && (j + 1) / 23 == j / 23 + 1
    ensures j % 23 < 22 ==> (j + 1) % 23 == j % 23 + 1 && (j + 1) / 23 == j / 23
  {
  }

  lemma RowStep(r: int, t: int)
    ensures r * (t + 1) + t + 1 == (r + 1) * (t + 1)
  {
  }

  /** Where the k-th glyph of a uniform font goes: column k % 23, row k / 23. */
  function UniformSlot(k: nat, tall: int): Rect {
    Rect((k % 23) * 11, (k / 23) * (tall + 1), 10, tall)
  }

  /** The packer's cursor after codes 0 .. n-1 of a font whose glyphs are all 10 pixels wide. */
  lemma {:induction false} UniformCursor(font: Font, n: nat)
    requires n <= GLYPH_COUNT && UniformWidthTen(font)
    ensures var p, k := Pack(font, n), GlyphsBelow(n);
      && (k == 0 ==> p.x == 0 && p.y == 0)
      && (k > 0 ==> p.x == UniformSlot(k - 1, font.tall).x + 11 && p.y == UniformSlot(k - 1, font.tall).y)
  {
    if n > 0 {
      var m := n - 1;
      UniformCursor(font, m);
      var p, q := Pack(font, m), Pack(font, n);
      if IsSpace(m) {
        assert GlyphsBelow(n) == GlyphsBelow(m);
        assert q.x == p.x && q.y == p.y;
      } else {
        UniformPlacement(font, m);
        assert GlyphsBelow(n) - 1 == GlyphsBelow(m);
      }
    }
  }

  /**
   * Placing a 10-pixel glyph when the cursor stands just after slot k - 1
   * (or at the origin for k = 0) puts it in slot k and the cursor after it.
   */
  lemma UniformStep(p: Packing, k: nat, t: int)
    requires k == 0 ==> p.x == 0 && p.y == 0
    requires k > 0 ==> p.x == UniformSlot(k - 1, t).x + 11 && p.y == UniformSlot(k - 1, t).y
    ensures var q := PlaceGlyph(p, 10, t);
      && q.rects == p.rects + [Some(UniformSlot(k, t))]
      && q.x == UniformSlot(k, t).x + 11 && q.y == UniformSlot(k, t).y
  {
    if k > 0 {
      var j := k - 1;
      DivModNext(j);
      if j % 23 == 22 {
        RowStep(j / 23, t);
        assert p.x + 11 > ATLAS_WIDTH;
      } else {
        assert p.x + 11 <= ATLAS_WIDTH;
      }
    }
  }

  /** A non-whitespace code of a uniform font is placed in the slot of its glyph index. */
  lemma UniformPlacement(font: Font, m: nat)
    requires m < GLYPH_COUNT && UniformWidthTen(font) && !IsSpace(m)
    requires var p, k := Pack(font, m), GlyphsBelow(m);
      && (k == 0 ==> p.x == 0 && p.y == 0)
      && (k > 0 ==> p.x == UniformSlot(k - 1, font.tall).x + 11 && p.y == UniformSlot(k - 1, font.tall).y)
    ensures Pack(font, m + 1).rects[m] == Some(UniformSlot(GlyphsBelow(m), font.tall))
    ensures Pack(font, m + 1).x == UniformSlot(GlyphsBelow(m), font.tall).x + 11
    ensures Pack(font, m + 1).y == UniformSlot(GlyphsBelow(m), font.tall).y
  {
    assert font.abc[m].b == 10;
    assert Pack(font, m + 1) == PlaceGlyph(Pack(font, m), 10, font.tall);
    UniformStep(Pack(font, m), GlyphsBelow(m), font.tall);
  }

  /**
   * With every glyph 10 pixels wide (11 with its gap), the k-th packed
   * glyph lands in column k % 23 of row k / 23: 23 glyphs per row.
   */
  lemma UniformWidthPacks23PerRow(font: Font, ch: nat)
    requires ch < GLYPH_COUNT && !IsSpace(ch) && UniformWidthTen(font)
    ensures Pack(font, GLYPH_COUNT).rects[ch] == Some(UniformSlot(GlyphsBelow(ch), font.tall))
  {
    UniformCursor(font, ch);
    UniformPlacement(font, ch);
    PackPrefix(font, ch + 1, GLYPH_COUNT);
    assert Pack(font, GLYPH_COUNT).rects[ch] == Pack(font, GLYPH_COUNT).rects[..ch + 1][ch];
  }

  /** Whether a rect lies inside a buffer 256 pixels wide and `height` rows tall. */
  predicate FitsBuffer(r: Rect, height: int) {
    0 <= r.x && r.x + r.w <= ATLAS_WIDTH && 0 <= r.y && r.y + r.h <= height
  }

  /**
   * As written, the growth test looks at the row being left, not the row
   * being opened: with a 200-pixel line height and 255-pixel glyphs, code 1
   * wraps to y = 201 while the buffer is still 256 rows tall, so getCharRGBA
   * writes rows 201..400 of a 256-row buffer.
   */
  lemma StaleGrowthTestOverflows()
    ensures var f: Font := FontData(0, 200, seq(GLYPH_COUNT, _ => Abc(0, 255, 0)));
      var p := Pack(f, 2);
      p.rects[1] == Some(Rect(0, 201, 255, 200)) && p.height == 256 && !FitsBuffer(p.rects[1].value, p.height)
  {
    var f: Font := FontData(0, 200, seq(GLYPH_COUNT, _ => Abc(0, 255, 0)));
    assert Pack(f, 0) == Packing(0, 0, 256, []);
    assert Pack(f, 1) == Packing(256, 0, 256, [Some(Rect(0, 0, 255, 200))]);
  }

  /**
   * A glyph wider than 255 pixels wraps even from an empty row and still
   * runs past the atlas's right edge.
   */
  lemma WideGlyphOverflowsRow()
    ensures var f: Font := FontData(0, 10, seq(GLYPH_COUNT, i => Abc(0, if i == 0 then 300 else 10, 0)));
      var p := Pack(f, 1);
      p.rects[0] == Some(Rect(0, 11, 300, 10)) && !FitsBuffer(p.rects[0].value, p.height)
  {
    var f: Font := FontData(0, 10, seq(GLYPH_COUNT, i => Abc(0, if i == 0 then 300 else 10, 0)));
    assert f.abc[0].b == 300;
    assert Pack(f, 0) == Packing(0, 0, 256, []);
  }

  // The packer as evidently intended: the buffer is grown, before a glyph is
  // written, until the row that glyph occupies fits.

  /** The smallest height reachable from `height` in 256-row steps that holds `bottom` rows. */
  function GrowToFit(height: int, bottom: int): (h: int)
    requires height > 0
    ensures h >= height && h >= bottom && (h - height) % GROWTH == 0
    ensures h - GROWTH < bottom || h == height
    decreases bottom - height
  {
    if bottom <= height then height else GrowToFit(height + GROWTH, bottom)
  }

  /** Placing one glyph as PlaceGlyph does, then growing the buffer until the glyph's row fits. */
  function PlaceGlyphChecked(p: Packing, width: int, tall: int): (q: Packing)
    requires p.height > 0 && p.height % GROWTH == 0
    ensures |q.rects| == |p.rects| + 1 && q.height >= p.height && q.height % GROWTH == 0
  {
    var wrap := p.x + width + 1 > ATLAS_WIDTH;
    var x := if wrap then 0 else p.x;
    var y := if wrap then p.y + tall + 1 else p.y;
    Packing(x + width + 1, y, GrowToFit(p.height, y + tall), p.rects + [Some(Rect(x, y, width, tall))])
  }

  /** The corrected packer after byte codes 0 .. n-1. */
  function PackChecked(font: Font, n: nat): (p: Packing)
    requires n <= GLYPH_COUNT
    ensures |p.rects| == n && p.height >= INITIAL_HEIGHT && p.height % GROWTH == 0
  {
    if n == 0 then Packing(0, 0, INITIAL_HEIGHT, [])
    else
      var p := PackChecked(font, n - 1);
      if IsSpace(n - 1) then p.(rects := p.rects + [None])
      else PlaceGlyphChecked(p, font.abc[n - 1].b, font.tall)
  }

  /** One glyph: both packers place it alike, and the corrected buffer stays at least as tall. */
  lemma PlaceCheckedStep(p: Packing, q: Packing, width: int, tall: int)
    requires q.x == p.x && q.y == p.y && q.rects == p.rects && q.height > 0
    requires q.height % GROWTH == 0 && p.height % GROWTH == 0
    requires tall >= 0 ==> q.height >= p.height
    ensures var p', q' := PlaceGlyph(p, width, tall), PlaceGlyphChecked(q, width, tall);
      q'.x == p'.x && q'.y == p'.y && q'.rects == p'.rects && (tall >= 0 ==> q'.height >= p'.height)
  {
    if tall >= 0 && p.x + width + 1 > ATLAS_WIDTH && p.y + tall + 1 > p.height {
      var h := PlaceGlyphChecked(q, width, tall).height;
      assert h >= p.y + 2 * tall + 1 > p.height;
      assert (h - q.height) % GROWTH == 0;
      assert h % GROWTH == 0;
    }
  }

  /**
   * The correction changes only the buffer height: the corrected packer
   * puts every glyph where the code as written does, and for a line height
   * of at least 0 its buffer is never shorter.
   */
  lemma {:induction false} CheckedPlacesAsWritten(font: Font, n: nat)
    requires n <= GLYPH_COUNT
    ensures var p, q := Pack(font, n), PackChecked(font, n);
      q.x == p.x && q.y == p.y && q.rects == p.rects
    ensures font.tall >= 0 ==> PackChecked(font, n).height >= Pack(font, n).height
  {
    if n > 0 {
      CheckedPlacesAsWritten(font, n - 1);
      if !IsSpace(n - 1) {
        PlaceCheckedStep(Pack(font, n - 1), PackChecked(font, n - 1), font.abc[n - 1].b, font.tall);
      }
    }
  }

  /** A font whose glyphs can fit a 256-pixel row at all. */
  predicate NarrowGlyphs(font: Font) {
    && font.tall >= 0
    && forall ch :: 0 <= ch < GLYPH_COUNT && !IsSpace(ch) ==> 0 <= font.abc[ch].b < ATLAS_WIDTH
  }

  /**
   * The corrected packer keeps every glyph inside the buffer as it stands
   * when the glyph is written (n = code + 1), and so inside the final atlas.
   */
  lemma {:induction false} PackCheckedFits(font: Font, n: nat)
    requires n <= GLYPH_COUNT && NarrowGlyphs(font)
    ensures var p := PackChecked(font, n);
      && 0 <= p.x <= ATLAS_WIDTH && 0 <= p.y
      && forall ch :: 0 <= ch < n && !IsSpace(ch) ==> p.rects[ch].Some? && FitsBuffer(p.rects[ch].value, p.height)
  {
    if n > 0 {
      var m := n - 1;
      PackCheckedFits(font, m);
      var p, q := PackChecked(font, m), PackChecked(font, n);
      assert q.rects[..m] == p.rects;
      assert q.height >= p.height;
      if !IsSpace(m) {
        assert 0 <= font.abc[m].b < ATLAS_WIDTH;
      }
    }
  }
}
