/**
 * drawPrintText's layout: the pen advances by a + b + c per character,
 * whitespace included, and each non-whitespace character becomes one
 * textured quad cut from the font's atlas.
 */
module TextLayout {
  import opened Wrappers
  import opened Sdl
  import opened RenderState
  import opened GlyphAtlas

  /** Every character is a byte code the atlas covers. */
  predicate ByteCodes(text: seq<int>) {
    forall i :: 0 <= i < |text| ==> 0 <= text[i] < GLYPH_COUNT
  }

  /** The horizontal advance of one character: a + b + c. */
  function CharAdvance(font: Font, ch: int): int
    requires 0 <= ch < GLYPH_COUNT
  {
    font.abc[ch].a + font.abc[ch].b + font.abc[ch].c
  }

  /** The total advance of a text: the sum of its characters' advances. */
  function Advance(font: Font, text: seq<int>): int
    requires ByteCodes(text)
  {
    if text == [] then 0
    else Advance(font, text[..|text| - 1]) + CharAdvance(font, text[|text| - 1])
  }

  /** The number of non-whitespace characters of a text. */
  function GlyphCount(text: seq<int>): (n: nat)
    ensures n <= |text|
  {
    if text == [] then 0
    else GlyphCount(text[..|text| - 1]) + (if IsSpace(text[|text| - 1]) then 0 else 1)
  }

  /** The quad for character `ch` with the pen at `pen`: the atlas rect drawn at the bearing, one line tall. */
  function GlyphQuad(font: Font, rects: seq<Option<Rect>>, tex: Option<TextureHandle>, pen: Point, ch: int): Call
    requires AtlasComplete(rects) && 0 <= ch < GLYPH_COUNT && !IsSpace(ch)
  {
    RenderTexture(tex, rects[ch], Rect(pen.x + font.abc[ch].a, pen.y, font.abc[ch].b, font.tall))
  }

  /** The quads drawPrintText issues for `text` when the pen starts at `start`. */
  function PrintedQuads(font: Font, rects: seq<Option<Rect>>, tex: Option<TextureHandle>, start: Point, text: seq<int>): (calls: seq<Call>)
    requires AtlasComplete(rects) && ByteCodes(text)
    ensures |calls| == GlyphCount(text)
  {
    if text == [] then []
    else
      var init, ch := text[..|text| - 1], text[|text| - 1];
      PrintedQuads(font, rects, tex, start, init)
        + (if IsSpace(ch) then [] else [GlyphQuad(font, rects, tex, Point(start.x + Advance(font, init), start.y), ch)])
  }

  /** The state drawPrintText sets before its loop: blend mode, texture tint and draw colour from the text colour. */
  function PrintSetup(color: Rgba, tex: Option<TextureHandle>): (calls: seq<Call>)
    ensures |calls| == 4 && calls[0] == SetRenderDrawBlendMode(BlendFor(color.a))
    ensures calls[1] == SetTextureColorMod(tex, ToUint8(color.r), ToUint8(color.g), ToUint8(color.b))
    ensures calls[2] == SetTextureAlphaMod(tex, ToUint8(color.a))
    ensures calls[3] == SetRenderDrawColor(ToUint8(color.r), ToUint8(color.g), ToUint8(color.b), ToUint8(color.a))
  {
    [ SetRenderDrawBlendMode(BlendFor(color.a)),
      SetTextureColorMod(tex, ToUint8(color.r), ToUint8(color.g), ToUint8(color.b)),
      SetTextureAlphaMod(tex, ToUint8(color.a)),
      SetRenderDrawColor(ToUint8(color.r), ToUint8(color.g), ToUint8(color.b), ToUint8(color.a)) ]
  }

  /**
   * Extending a text by one character: its a + b + c is added to the
   * advance, and unless it is whitespace its quad, drawn at the pen reached
   * so far, is appended after whatever the log already held.
   */
  lemma PrintStep(font: Font, rects: seq<Option<Rect>>, tex: Option<TextureHandle>, start: Point, text: seq<int>, i: nat, before: seq<Call>)
    requires AtlasComplete(rects) && ByteCodes(text) && i < |text|
    ensures var ch, pen := text[i], Point(start.x + Advance(font, text[..i]), start.y);
      && Advance(font, text[..i + 1]) == Advance(font, text[..i]) + font.abc[ch].a + font.abc[ch].b + font.abc[ch].c
      && before + PrintedQuads(font, rects, tex, start, text[..i + 1])
         == before + PrintedQuads(font, rects, tex, start, text[..i])
            + (if IsSpace(ch) then [] else [RenderTexture(tex, rects[ch], Rect(pen.x + font.abc[ch].a, pen.y, font.abc[ch].b, font.tall))])
  {
    assert text[..i + 1][..i] == text[..i];
  }

  /** Advances add up over concatenation. */
  lemma {:induction false} AdvanceAppend(font: Font, s: seq<int>, t: seq<int>)
    requires ByteCodes(s) && ByteCodes(t)
    ensures ByteCodes(s + t) && Advance(font, s + t) == Advance(font, s) + Advance(font, t)
    decreases |t|
  {
    if t != [] {
      var t' := t[..|t| - 1];
      assert (s + t)[..|s + t| - 1] == s + t';
      AdvanceAppend(font, s, t');
    } else {
      assert s + t == s;
    }
  }

  /** The glyph count of a concatenated text is the sum of the two counts. */
  lemma {:induction false} GlyphCountAppend(s: seq<int>, t: seq<int>)
    ensures GlyphCount(s + t) == GlyphCount(s) + GlyphCount(t)
    decreases |t|
  {
    if t == [] {
      assert s + t == s;
    } else {
      assert (s + t)[..|s + t| - 1] == s + t[..|t| - 1];
      GlyphCountAppend(s, t[..|t| - 1]);
    }
  }

  /**
   * The i-th character, when it is not whitespace, is drawn by quad number
   * GlyphCount(text[..i]): its atlas rect, at the pen position reached after
   * text[..i] plus its bearing, on the starting line, b wide and one line tall.
   */
  lemma {:induction false} QuadAt(font: Font, rects: seq<Option<Rect>>, tex: Option<TextureHandle>, start: Point, text: seq<int>, i: nat)
    requires AtlasComplete(rects) && ByteCodes(text)
    requires i < |text| && !IsSpace(text[i])
    ensures GlyphCount(text[..i]) < |PrintedQuads(font, rects, tex, start, text)|
    ensures PrintedQuads(font, rects, tex, start, text)[GlyphCount(text[..i])]
      == RenderTexture(tex, rects[text[i]],
                       Rect(start.x + Advance(font, text[..i]) + font.abc[text[i]].a, start.y, font.abc[text[i]].b, font.tall))
    decreases |text|
  {
    var init := text[..|text| - 1];
    if i == |text| - 1 {
      assert text[..i] == init;
    } else {
      QuadAt(font, rects, tex, start, init, i);
      assert init[..i] == text[..i];
      var before := PrintedQuads(font, rects, tex, start, init);
      assert PrintedQuads(font, rects, tex, start, text)[..|before|] == before;
    }
  }

  /** A text of whitespace only draws nothing (its advance still counts, see Advance). */
  lemma {:induction false} WhitespaceOnlyDrawsNothing(font: Font, rects: seq<Option<Rect>>, tex: Option<TextureHandle>, start: Point, text: seq<int>)
    requires AtlasComplete(rects) && ByteCodes(text)
    requires forall i :: 0 <= i < |text| ==> IsSpace(text[i])
    ensures PrintedQuads(font, rects, tex, start, text) == []
    decreases |text|
  {
    if text != [] {
      WhitespaceOnlyDrawsNothing(font, rects, tex, start, text[..|text| - 1]);
    }
  }
}
