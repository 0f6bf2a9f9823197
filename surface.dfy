/**
 * SDLSurface: the backend's render state, its texture table, its cursor
 * table and its cache of font atlases, updated in place by the toolkit's
 * draw calls. Every native SDL call the surface makes is appended to the
 * ghost log `calls`.
 */
module Surface {
  import opened Wrappers
  import opened Sdl
  import opened RenderState
  import opened Viewport
  import opened CursorTable
  import opened GlyphAtlas
  import opened TextLayout

  /** The capacity of the texture table. */
  const MAX_TEXTURES := 4096

  predicate TextureIdInRange(id: int) {
    0 <= id < MAX_TEXTURES
  }

  /** Whether an atlas for `fontId` is cached. */
  predicate HasAtlasFor(fonts: seq<FontTexture>, fontId: int) {
    exists k :: 0 <= k < |fonts| && fonts[k].fontId == fontId
  }

  /** The lookup loop of drawSetTextFont: the first cached atlas for `fontId`. */
  method FindFontTexture(fonts: seq<FontTexture>, fontId: int) returns (index: Option<nat>)
    ensures index.Some? ==> index.value < |fonts| && fonts[index.value].fontId == fontId
    ensures index.Some? ==> forall k :: 0 <= k < index.value ==> fonts[k].fontId != fontId
    ensures index.None? <==> !HasAtlasFor(fonts, fontId)
  {
    index := None;
    var i := 0;
    while i < |fonts|
      invariant 0 <= i <= |fonts|
      invariant forall k :: 0 <= k < i ==> fonts[k].fontId != fontId
    {
      if fonts[i].fontId == fontId {
        index := Some(i);
        return;
      }
      i := i + 1;
    }
  }

  /**
   * The calls drawSetTextureRGBA issues for an in-range id whose slot held
   * `previous`: the old texture is destroyed only if there was one, then one
   * texture is made from a temporary surface.
   */
  function UploadCalls(previous: Option<TextureHandle>, wide: int, tall: int): (calls: seq<Call>)
    ensures DestroyTexture(previous) in calls <==> previous.Some?
    ensures |calls| >= 3 && calls[|calls| - 1] == DestroySurface
    ensures calls[|calls| - 3] == CreateSurfaceFrom(wide, tall) && calls[|calls| - 2] == CreateTextureFromSurface
  {
    (if previous.Some? then [DestroyTexture(previous)] else [])
      + [CreateSurfaceFrom(wide, tall), CreateTextureFromSurface, DestroySurface]
  }

  /**
   * The calls drawTexturedRect issues: one draw of the whole bound texture,
   * and only when the bound id is in range and its slot holds a texture.
   */
  function TexturedRectCalls(slots: seq<Option<TextureHandle>>, bound: int, dst: Rect): (calls: seq<Call>)
    requires |slots| == MAX_TEXTURES
    ensures calls != [] <==> TextureIdInRange(bound) && slots[bound].Some?
    ensures calls != [] ==> |calls| == 1 && calls[0].RenderTexture? && calls[0].texture.Some?
    ensures calls != [] ==> calls[0] == RenderTexture(slots[bound], None, dst)
  {
    if bound < 0 || bound >= MAX_TEXTURES || slots[bound].None? then []
    else [RenderTexture(slots[bound], None, dst)]
  }

  /** The destructor's cursor calls: one SDL_DestroyCursor per slot, null or not. */
  function DestroyCursorCalls(slots: seq<Option<CursorHandle>>): (calls: seq<Call>)
  {
    seq(|slots|, i requires 0 <= i < |slots| => DestroyCursor(slots[i]))
  }

  /** The destructor's texture calls: one SDL_DestroyTexture per slot, null or not. */
  function DestroyTextureCalls(slots: seq<Option<TextureHandle>>): (calls: seq<Call>)
  {
    seq(|slots|, i requires 0 <= i < |slots| => DestroyTexture(slots[i]))
  }

  class SdlSurface {
    /** `textures[MAX_TEXTURES]`: null (None) or the texture in each slot. */
    const textures: array<Option<TextureHandle>>
    var lastTexture: int
    var boundTexture: int

    var color: Rgba
    var textColor: Rgba
    var textPos: Point

    /** `cursors[SDL_SYSTEM_CURSOR_COUNT]`. */
    const cursors: array<Option<CursorHandle>>

    /** The atlas cache, the current font, and the selected atlas as an index into `fonts`. */
    var fonts: seq<FontTexture>
    var font: Option<Font>
    var fontTexture: Option<nat>

    /** Every native SDL call made so far, in order. */
    ghost var calls: seq<Call>

    /** The tables have their fixed sizes, and every cached atlas is complete and cached once. */
    ghost predicate TablesValid()
      reads this`fonts
    {
      && textures.Length == MAX_TEXTURES
      && cursors.Length == SYSTEM_CURSOR_COUNT
      && (forall k :: 0 <= k < |fonts| ==> AtlasComplete(fonts[k].rects))
      && (forall j, k :: 0 <= j < k < |fonts| ==> fonts[j].fontId != fonts[k].fontId)
    }

    /** TablesValid, and a selected atlas belongs to the current font. */
    ghost predicate Valid()
      reads this`fonts, this`font, this`fontTexture
    {
      && TablesValid()
      && (fontTexture.Some? ==>
            fontTexture.value < |fonts| && font.Some? && fonts[fontTexture.value].fontId == font.value.id)
    }

    /** A fresh surface: empty tables, zeroed state, nothing cached or selected. */
    constructor ()
      ensures Valid()
      ensures fresh(textures) && fresh(cursors)
      ensures forall i :: 0 <= i < textures.Length ==> textures[i] == None
      ensures forall i :: 0 <= i < cursors.Length ==> cursors[i] == None
      ensures lastTexture == 0 && boundTexture == 0
      ensures color == Rgba(0, 0, 0, 0) && textColor == Rgba(0, 0, 0, 0) && textPos == Point(0, 0)
      ensures fonts == [] && font == None && fontTexture == None
      ensures calls == []
    {
      textures := new Option<TextureHandle>[MAX_TEXTURES](_ => None);
      cursors := new Option<CursorHandle>[SYSTEM_CURSOR_COUNT](_ => None);
      lastTexture, boundTexture := 0, 0;
      color, textColor, textPos := Rgba(0, 0, 0, 0), Rgba(0, 0, 0, 0), Point(0, 0);
      fonts, font, fontTexture := [], None, None;
      calls := [];
    }

    /** createNewTextureID: hands out the counter and increments it, with no capacity check. */
    method CreateNewTextureId() returns (id: int)
      modifies this`lastTexture
      ensures id == old(lastTexture) && lastTexture == id + 1
    {
      id := lastTexture;
      lastTexture := lastTexture + 1;
    }

    /** drawSetColor: stores the colour with inverted alpha and passes the raw arguments to SDL. */
    method DrawSetColor(r: int, g: int, b: int, a: int)
      modifies this`color, this`calls
      ensures color == StoreColor(r, g, b, a)
      ensures calls == old(calls) + [SetRenderDrawColor(ToUint8(r), ToUint8(g), ToUint8(b), ToUint8(a))]
    {
      color := Rgba(r, g, b, 255 - a);
      calls := calls + [SetRenderDrawColor(ToUint8(r), ToUint8(g), ToUint8(b), ToUint8(a))];
    }

    /** drawFilledRect. */
    method DrawFilledRect(x0: int, y0: int, x1: int, y1: int)
      modifies this`calls
      ensures calls == old(calls) + RectDrawCalls(color, Filled, CornersToRect(x0, y0, x1, y1))
    {
      var frect := CornersToRect(x0, y0, x1, y1);
      if color.a == 0 {
        return;
      }
      calls := calls + [SetRenderDrawBlendMode(if color.a == 255 then BlendNone else BlendBlend)];
      calls := calls + [SetRenderDrawColor(ToUint8(color.r), ToUint8(color.g), ToUint8(color.b), ToUint8(color.a))];
      calls := calls + [RenderFillRect(frect)];
    }

    /** drawOutlinedRect. */
    method DrawOutlinedRect(x0: int, y0: int, x1: int, y1: int)
      modifies this`calls
      ensures calls == old(calls) + RectDrawCalls(color, Outlined, CornersToRect(x0, y0, x1, y1))
    {
      var frect := CornersToRect(x0, y0, x1, y1);
      if color.a == 0 {
        return;
      }
      calls := calls + [SetRenderDrawBlendMode(if color.a == 255 then BlendNone else BlendBlend)];
      calls := calls + [SetRenderDrawColor(ToUint8(color.r), ToUint8(color.g), ToUint8(color.b), ToUint8(color.a))];
      calls := calls + [RenderRect(frect)];
    }

    /**
     * drawSetTextFont. `f` is the font argument (None: null) and `created`
     * is what SDL_CreateTextureFromSurface returns if an atlas is uploaded.
     */
    method DrawSetTextFont(f: Option<Font>, created: Option<TextureHandle>)
      requires Valid()
      modifies this`font, this`fontTexture, this`fonts, this`lastTexture, this`calls, textures
      ensures Valid()
      ensures f.None? ==>
        && fontTexture == None && font == old(font) && fonts == old(fonts)
        && lastTexture == old(lastTexture) && calls == old(calls) && unchanged(textures)
      ensures f.Some? ==> font == f && fontTexture.Some? && fonts[fontTexture.value].fontId == f.value.id
      ensures f.Some? && HasAtlasFor(old(fonts), f.value.id) ==>
        fonts == old(fonts) && lastTexture == old(lastTexture) && calls == old(calls) && unchanged(textures)
      ensures f.Some? && !HasAtlasFor(old(fonts), f.value.id) ==>
        && lastTexture == old(lastTexture) + 1
        && fonts == old(fonts) + [FontTexture(old(lastTexture), f.value.id, Pack(f.value, GLYPH_COUNT).rects)]
        && fontTexture == Some(|old(fonts)|)
      ensures f.Some? && !HasAtlasFor(old(fonts), f.value.id) && TextureIdInRange(old(lastTexture)) ==>
        && textures[..] == old(textures[..])[old(lastTexture) := created]
        && calls == old(calls) + UploadCalls(old(textures[lastTexture]), ATLAS_WIDTH, Pack(f.value, GLYPH_COUNT).height)
      ensures f.Some? && !HasAtlasFor(old(fonts), f.value.id) && !TextureIdInRange(old(lastTexture)) ==>
        textures[..] == old(textures[..]) && calls == old(calls)
    {
      if f.None? {
        fontTexture := None;
        return;
      }
      var fontId := f.value.id;
      font := f;
      var found := FindFontTexture(fonts, fontId);
      if found.Some? {
        fontTexture := found;
        return;
      }
      CacheNewAtlas(f.value, created);
    }

    /**
     * drawSetTextFont for a font with no cached atlas: take a texture id,
     * pack the atlas, upload it, append it to the cache and select it.
     */
    method CacheNewAtlas(f: Font, created: Option<TextureHandle>)
      requires TablesValid() && font == Some(f) && !HasAtlasFor(fonts, f.id)
      modifies this`fontTexture, this`fonts, this`lastTexture, this`calls, textures
      ensures Valid()
      ensures lastTexture == old(lastTexture) + 1
      ensures fonts == old(fonts) + [FontTexture(old(lastTexture), f.id, Pack(f, GLYPH_COUNT).rects)]
      ensures fontTexture == Some(|old(fonts)|)
      ensures TextureIdInRange(old(lastTexture)) ==>
        && textures[..] == old(textures[..])[old(lastTexture) := created]
        && calls == old(calls) + UploadCalls(old(textures[lastTexture]), ATLAS_WIDTH, Pack(f, GLYPH_COUNT).height)
      ensures !TextureIdInRange(old(lastTexture)) ==> textures[..] == old(textures[..]) && calls == old(calls)
    {
      var id := CreateNewTextureId();
      var rects, textureHeight := BuildAtlas(f);
      DrawSetTextureRgba(id, ATLAS_WIDTH, textureHeight, created);
      fonts := fonts + [FontTexture(id, f.id, rects)];
      fontTexture := Some(|fonts| - 1);
    }

    /** drawSetTextColor: stores the colour with inverted alpha; no SDL call. */
    method DrawSetTextColor(r: int, g: int, b: int, a: int)
      modifies this`textColor
      ensures textColor == StoreColor(r, g, b, a)
    {
      textColor := Rgba(r, g, b, 255 - a);
    }

    /** drawSetTextPos. */
    method DrawSetTextPos(x: int, y: int)
      modifies this`textPos
      ensures textPos == Point(x, y)
    {
      textPos := Point(x, y);
    }

    /**
     * drawPrintText over the character codes `text`. The source indexes
     * `textures` with the selected atlas's texture id unchecked, so that id
     * must be in range.
     */
    method DrawPrintText(text: seq<int>)
      requires Valid() && ByteCodes(text)
      requires fontTexture.Some? ==> TextureIdInRange(fonts[fontTexture.value].texture)
      modifies this`textPos, this`calls
      ensures fontTexture.None? ==> textPos == old(textPos) && calls == old(calls)
      ensures fontTexture.Some? ==>
        var atlas := fonts[fontTexture.value];
        var tex := textures[atlas.texture];
        && textPos == Point(old(textPos).x + Advance(font.value, text), old(textPos).y)
        && calls == old(calls) + PrintSetup(textColor, tex) + PrintedQuads(font.value, atlas.rects, tex, old(textPos), text)
    {
      if fontTexture.None? {
        return;
      }
      var atlas := fonts[fontTexture.value];
      PrintWithAtlas(font.value, atlas.rects, textures[atlas.texture], text);
    }

    /**
     * drawPrintText once the atlas is known: the render state is set from
     * the text colour, then the loop draws the glyphs.
     */
    method PrintWithAtlas(current: Font, rects: seq<Option<Rect>>, tex: Option<TextureHandle>, text: seq<int>)
      requires AtlasComplete(rects) && ByteCodes(text)
      modifies this`textPos, this`calls
      ensures textPos == Point(old(textPos).x + Advance(current, text), old(textPos).y)
      ensures calls == old(calls) + PrintSetup(textColor, tex) + PrintedQuads(current, rects, tex, old(textPos), text)
    {
      ghost var setupDone := calls + PrintSetup(textColor, tex);
      calls := setupDone;
      PrintGlyphs(current, rects, tex, text);
    }

    /**
     * drawPrintText's loop: the pen walks the text by a + b + c per
     * character, and each non-whitespace character is drawn as one quad.
     */
    method PrintGlyphs(current: Font, rects: seq<Option<Rect>>, tex: Option<TextureHandle>, text: seq<int>)
      requires AtlasComplete(rects) && ByteCodes(text)
      modifies this`textPos, this`calls
      ensures textPos == Point(old(textPos).x + Advance(current, text), old(textPos).y)
      ensures calls == old(calls) + PrintedQuads(current, rects, tex, old(textPos), text)
    {
      ghost var start, before := textPos, calls;
      var i := 0;
      while i < |text|
        invariant 0 <= i <= |text|
        invariant textPos == Point(start.x + Advance(current, text[..i]), start.y)
        invariant calls == before + PrintedQuads(current, rects, tex, start, text[..i])
      {
        var ch := text[i];
        var abc := current.abc[ch];
        PrintStep(current, rects, tex, start, text, i, before);
        if !IsSpace(ch) {
          var srcrect := rects[ch];
          var dstrect := Rect(textPos.x + abc.a, textPos.y, abc.b, current.tall);
          calls := calls + [RenderTexture(tex, srcrect, dstrect)];
        }
        textPos := Point(textPos.x + abc.a + abc.b + abc.c, textPos.y);
        i := i + 1;
      }
      assert text[..|text|] == text;
    }

    /** drawSetTextureRGBA: ids outside the table are ignored; otherwise only slot `id` is replaced. */
    method DrawSetTextureRgba(id: int, wide: int, tall: int, created: Option<TextureHandle>)
      requires textures.Length == MAX_TEXTURES
      modifies this`calls, textures
      ensures TextureIdInRange(id) ==>
        && textures[..] == old(textures[..])[id := created]
        && calls == old(calls) + UploadCalls(old(textures[id]), wide, tall)
      ensures !TextureIdInRange(id) ==> textures[..] == old(textures[..]) && calls == old(calls)
    {
      if id < 0 || id >= MAX_TEXTURES {
        return;
      }
      if textures[id].Some? {
        calls := calls + [DestroyTexture(textures[id])];
      }
      calls := calls + [CreateSurfaceFrom(wide, tall), CreateTextureFromSurface];
      textures[id] := created;
      calls := calls + [DestroySurface];
    }

    /** drawSetTexture: binds any id; the range check happens at draw time. */
    method DrawSetTexture(id: int)
      modifies this`boundTexture
      ensures boundTexture == id
    {
      boundTexture := id;
    }

    /** drawTexturedRect. */
    method DrawTexturedRect(x0: int, y0: int, x1: int, y1: int)
      requires Valid()
      modifies this`calls
      ensures calls == old(calls) + TexturedRectCalls(textures[..], boundTexture, CornersToRect(x0, y0, x1, y1))
    {
      var frect := CornersToRect(x0, y0, x1, y1);
      if boundTexture < 0 || boundTexture >= MAX_TEXTURES || textures[boundTexture].None? {
        return;
      }
      calls := calls + [RenderTexture(textures[boundTexture], None, frect)];
    }

    /**
     * setCursor for cursor kind `dc`; `created` is what SDL_CreateSystemCursor
     * returns. The slot is overwritten on every call.
     */
    method SetCursor(dc: DefaultCursor, created: Option<CursorHandle>)
      requires Valid()
      modifies this`calls, cursors
      ensures UsesSystemCursor(dc) ==> cursors[..] == old(cursors[..])[SystemCursorFor(dc) := created]
      ensures !UsesSystemCursor(dc) ==> cursors[..] == old(cursors[..])
      ensures calls == old(calls) + CursorCalls(dc, created)
    {
      if dc.DcUser? {
        return;
      }
      if dc.DcNone? {
        calls := calls + [HideCursor];
        return;
      }
      var sc := SystemCursorFor(dc);
      calls := calls + [CreateSystemCursor(sc)];
      cursors[sc] := created;
      if cursors[sc].Some? {
        calls := calls + [Call.SetCursor(Created(cursors[sc].value))];
      } else {
        calls := calls + [GetDefaultCursor, Call.SetCursor(PlatformDefault)];
      }
      calls := calls + [ShowCursor];
    }

    /** pushMakeCurrent, in a window of `windowWide` by `windowTall` pixels. */
    method PushMakeCurrent(panel: PanelFrame, useInsets: bool, windowWide: int, windowTall: int)
      modifies this`calls
      ensures calls == old(calls) + PushCalls(panel, useInsets, windowWide, windowTall)
    {
      var insets := if useInsets then panel.insets else Insets(0, 0, 0, 0);
      var absExtents := panel.absExtents;
      var clip := panel.clip;
      calls := calls + [GetWindowSizeInPixels];
      var x := insets.left + absExtents.x0;
      var y := insets.top + absExtents.y0;
      calls := calls + [SetRenderViewport(Some(Rect(x, y, windowWide - x, windowTall - y)))];
    }

    /** popMakeCurrent: the viewport goes back to the whole window. */
    method PopMakeCurrent()
      modifies this`calls
      ensures calls == old(calls) + [SetRenderViewport(None)]
    {
      calls := calls + [SetRenderViewport(None)];
    }

    /** The destructor: destroys and clears every cursor slot, then every texture slot, then drops the atlases. */
    method Dispose()
      requires Valid()
      modifies this`calls, this`fonts, cursors, textures
      ensures forall i :: 0 <= i < cursors.Length ==> cursors[i] == None
      ensures forall i :: 0 <= i < textures.Length ==> textures[i] == None
      ensures fonts == []
      ensures calls == old(calls) + DestroyCursorCalls(old(cursors[..])) + DestroyTextureCalls(old(textures[..]))
                       + [DestroyRenderer, DestroyWindow]
    {
      var i := 0;
      while i < cursors.Length
        invariant 0 <= i <= cursors.Length
        invariant forall k :: 0 <= k < i ==> cursors[k] == None
        invariant forall k :: i <= k < cursors.Length ==> cursors[k] == old(cursors[k])
        invariant unchanged(textures)
        invariant calls == old(calls) + DestroyCursorCalls(old(cursors[..])[..i])
      {
        assert DestroyCursorCalls(old(cursors[..])[..i + 1]) == DestroyCursorCalls(old(cursors[..])[..i]) + [DestroyCursor(cursors[i])];
        calls := calls + [DestroyCursor(cursors[i])];
        cursors[i] := None;
        i := i + 1;
      }
      assert old(cursors[..])[..cursors.Length] == old(cursors[..]);
      ghost var cursorsDone := calls;
      i := 0;
      while i < textures.Length
        invariant 0 <= i <= textures.Length
        invariant forall k :: 0 <= k < i ==> textures[k] == None
        invariant forall k :: i <= k < textures.Length ==> textures[k] == old(textures[k])
        invariant forall k :: 0 <= k < cursors.Length ==> cursors[k] == None
        invariant calls == cursorsDone + DestroyTextureCalls(old(textures[..])[..i])
      {
        assert DestroyTextureCalls(old(textures[..])[..i + 1]) == DestroyTextureCalls(old(textures[..])[..i]) + [DestroyTexture(textures[i])];
        calls := calls + [DestroyTexture(textures[i])];
        textures[i] := None;
        i := i + 1;
      }
      assert old(textures[..])[..textures.Length] == old(textures[..]);
      fonts := [];
      calls := calls + [DestroyRenderer, DestroyWindow];
    }
  }
}
