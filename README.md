# vgui_sdl backend: a Dafny model

This project models the SDL3 backend that lets the VGUI toolkit run on SDL.
It covers three parts:

- `SDLSurface`, the toolkit's drawing surface. It holds the current draw
  colour, the text colour and pen, the 4096-slot texture table, the cursor
  table and a cache of font atlases. Its draw calls turn into SDL renderer
  calls.
- The glyph-atlas packer inside `drawSetTextFont`. It lays the 256 byte
  codes of a font out in rows of a 256-pixel-wide RGBA buffer, and grows the
  buffer by 256 rows at a time.
- `SDLApp::platTick`. It drains SDL's event queue and forwards mouse motion,
  buttons, the wheel and keys to the toolkit's input pipeline. A quit event
  ends the process.

SDL itself is not modelled. Every native call the surface makes is appended
to a ghost log (`Surface.SdlSurface.calls`, of type `Sdl.Call`). Handles
that SDL returns (a created texture, a created cursor, or null) come in as
parameters.

Modules:

- `Wrappers`: the `Option` type.
- `Sdl`: the SDL constants the code uses, the call log entries, and the
  `Uint8` conversion applied to `int` colour arguments.
- `RenderState`: the colour and pen records, rect construction, and the
  calls of the two rect draws.
- `Viewport`: `pushMakeCurrent`/`popMakeCurrent`.
- `CursorTable`: `setCursor`.
- `GlyphAtlas`: the atlas packer. It sits beside a corrected packer (see
  Findings).
- `TextLayout`: `drawPrintText`'s layout.
- `Surface`: the `SdlSurface` class.
- `Input`: `platTick` and its scan-code and button tables.

The model follows the code as written. In two places the code contradicts
its evident intent (see Findings): the atlas buffer's growth test, and the
digit row of the scan-code map. In both places a corrected definition
stands beside the as-written one, with lemmas that exhibit the defect and
prove the intended property of the correction:

- The surface builds and uploads the atlas as the code does (`Pack`). The
  corrected packer `PackChecked` lays out the same rect table, and only its
  buffer height differs.
- The event loop takes the scan-code map as a parameter (`Input.KeyMap`).
  `AsWritten` is the code's map and `Corrected` the intended one, and every
  property of the loop is proved for both.

## Model

| member | source | states |
|---|---|---|
| Sdl.ToUint8 | sdl_surface.cpp:108 | An `int` colour component passed to SDL's `Uint8` parameter lands in 0..255, keeps its value modulo 256, and is unchanged when already in range |
| Sdl.Occurrences | sdl_surface.cpp:390 | The count of a call in a log is at most the log's length, and is zero exactly when the call is absent |
| Sdl.OccurrencesAppend | sdl_surface.cpp:390 | Counting a call over two concatenated logs adds the two counts |
| RenderState.StoreColor | sdl_surface.cpp:101-107 | `drawSetColor`/`drawSetTextColor` store r, g, b as given and the alpha inverted, so stored plus given alpha is 255 |
| RenderState.CornersToRect | sdl_surface.cpp:5-9 | The corner pair (x0, y0, x1, y1) becomes a rect at (x0, y0) whose far edges are x1 and y1 |
| RenderState.BlendFor | sdl_surface.cpp:118-121 | Blending is off exactly when the stored alpha is 255 |
| RenderState.PrimitiveCall | sdl_surface.cpp:124 | A filled rect is drawn with SDL_RenderFillRect and an outlined one with SDL_RenderRect, both on the given rect |
| RenderState.RectDrawsAppend | sdl_surface.cpp:124 | The rect draws of two concatenated logs add up, so each rect draw of a session adds its own count |
| RenderState.RectDrawCalls | sdl_surface.cpp:111-141 | A rect draw issues nothing exactly when the stored alpha is 0; otherwise it sets the blend mode, then the draw colour with the stored (inverted) alpha, each component as a `Uint8`, and ends with the draw of the rect |
| RenderState.RectDrawIssuesOneDraw | sdl_surface.cpp:111-141 | A rect draw makes exactly one draw call when the stored alpha is non-zero, and none otherwise |
| RenderState.ToolkitAlphaDecidesRectDraw | sdl_surface.cpp:101-141 | In terms of the toolkit's alpha: 255 draws nothing, 0 draws without blending, and anything else blends |
| Viewport.ViewportFor | sdl_surface.cpp:409-431 | The viewport starts at the panel's absolute origin, shifted by the left/top insets only when insets are used, and reaches the window's right and bottom edges |
| Viewport.PushCalls | sdl_surface.cpp:425-432 | Pushing queries the window size, then sets the viewport to `ViewportFor` of the panel, the insets flag and that size |
| Viewport.ViewportIgnoresClipAndUnusedInsets | sdl_surface.cpp:411-431 | The viewport does not depend on the panel's clip rect, nor on its insets when useInsets is false |
| CursorTable.SystemCursorFor | sdl_surface.cpp:345-388 | Every cursor kind maps to a slot in the cursor table; the slot is SDL's default cursor exactly for arrow, up, dc_last, user and none |
| CursorTable.SystemCursorTableInjective | sdl_surface.cpp:352-384 | Two kinds that do not map to the default map to different system cursors |
| CursorTable.CursorCalls | sdl_surface.cpp:329-402 | dc_user does nothing; dc_none hides the cursor; every other kind creates its system cursor, sets it (or the platform default when creation failed), then shows the cursor |
| CursorTable.CreatesOnce | sdl_surface.cpp:390 | One setCursor of a system kind creates that system cursor exactly once |
| CursorTable.EveryCallCreatesAgain | sdl_surface.cpp:390-401 | The cursor is not cached: two calls create it twice; a hide followed by any system kind ends shown |
| GlyphAtlas.Pack | sdl_surface.cpp:174-212 | After the first n codes, as written: one entry per code, and a buffer height that is a positive multiple of 256 |
| GlyphAtlas.PackShape | sdl_surface.cpp:184-209 | After the first n codes, exactly the whitespace codes have no rect, and every placed glyph is b wide and one line tall |
| GlyphAtlas.PackedAtlasComplete | vgui_sdl.h:21-26 | The finished atlas has a rect for every non-whitespace byte code |
| GlyphAtlas.BuildAtlas | sdl_surface.cpp:174-212 | The packing loop leaves exactly the rect table and the buffer height of `Pack`, and the table has a rect for exactly the non-whitespace codes |
| GlyphAtlas.CorrectedAtlas | sdl_surface.cpp:174-212 | Over all 256 codes the corrected packer lays out the as-written rect table, which is complete; its buffer is never shorter; for narrow glyphs every glyph fits |
| GlyphAtlas.PackPrefix | sdl_surface.cpp:180-212 | Packing more codes never moves an earlier glyph and never shrinks the buffer |
| GlyphAtlas.HeightGrowsOnlyOnWrap | sdl_surface.cpp:192-200 | The buffer grows by exactly 256 rows if and only if a non-whitespace glyph wraps and the old row's y plus the line height overflows the current height; otherwise its height is unchanged |
| GlyphAtlas.WrapStartsNewRow | sdl_surface.cpp:192-211 | A glyph wraps exactly when x + b + 1 passes 256; a wrap puts it at x = 0 one line plus one pixel lower; the cursor then moves past it by one pixel |
| GlyphAtlas.WhitespaceSkipped | sdl_surface.cpp:184-185 | A whitespace code gets no rect and leaves cursor and height unchanged |
| GlyphAtlas.GlyphsAndSpacesBelow | sdl_surface.cpp:180-185 | Below n, the glyph codes and the whitespace codes (9 to 13, then 32) together number n |
| GlyphAtlas.AtlasGlyphCount | sdl_surface.cpp:180-185 | The loop places 250 glyphs: the 256 byte codes less the six whitespace codes |
| GlyphAtlas.UniformStep | sdl_surface.cpp:192-211 | A 10-pixel glyph placed with the cursor just after slot k - 1 goes into slot k, and the cursor moves just after it |
| GlyphAtlas.UniformWidthPacks23PerRow | sdl_surface.cpp:180-212 | With every glyph 10 pixels wide, the k-th placed glyph sits at column k mod 23 and row k div 23, 11 pixels per column and tall + 1 per row |
| GlyphAtlas.StaleGrowthTestOverflows | sdl_surface.cpp:196-205 | As written, a 200-pixel font of 255-pixel glyphs places code 1 at y = 201 in a 256-row buffer, outside the buffer |
| GlyphAtlas.WideGlyphOverflowsRow | sdl_surface.cpp:189-209 | As written, a glyph wider than 255 pixels is placed past the atlas's right edge |
| GlyphAtlas.GrowToFit | sdl_surface.cpp:196-199 | The corrected growth reaches the smallest height, in 256-row steps, that holds the glyph's bottom row |
| GlyphAtlas.PackChecked | sdl_surface.cpp:174-212 | The corrected packer keeps one entry per code and a buffer that is a positive multiple of 256 rows |
| GlyphAtlas.CheckedPlacesAsWritten | sdl_surface.cpp:192-211 | The correction changes only the height: every glyph is placed where the code as written places it, and for a line height of at least 0 the buffer is never shorter |
| GlyphAtlas.PlaceCheckedStep | sdl_surface.cpp:192-211 | For one glyph, both packers place it alike, and the corrected buffer stays at least as tall |
| GlyphAtlas.PackCheckedFits | sdl_surface.cpp:196-205 | With the corrected growth, every glyph of a font whose widths are below 256 lies inside the buffer |
| TextLayout.GlyphCountAppend | sdl_surface.cpp:262-266 | The drawn characters of a concatenated text are those of the two parts added |
| TextLayout.PrintedQuads | sdl_surface.cpp:255-280 | The print loop makes one textured quad per non-whitespace character |
| TextLayout.PrintSetup | sdl_surface.cpp:246-253 | Before the loop, in this order: the blend mode from the stored text alpha, the texture's colour mod from r, g, b, its alpha mod from the stored alpha, and the draw colour from all four, each component passed to SDL as a `Uint8` |
| TextLayout.PrintStep | sdl_surface.cpp:255-280 | One more character adds its a + b + c to the advance; unless it is whitespace, it appends its quad, drawn at the pen reached so far |
| TextLayout.AdvanceAppend | sdl_surface.cpp:264-279 | The pen advance of a concatenated text is the sum of the two advances |
| TextLayout.QuadAt | sdl_surface.cpp:268-277 | The i-th non-whitespace character is drawn from its atlas rect at the pen position after the preceding text plus its a, on the start line, b wide and one line tall |
| TextLayout.WhitespaceOnlyDrawsNothing | sdl_surface.cpp:262-266 | A text of whitespace only draws no quad |
| Surface.FindFontTexture | sdl_surface.cpp:157-165 | The lookup finds the first cached atlas for the font id, and finds none exactly when none is cached |
| Surface.UploadCalls | sdl_surface.cpp:288-301 | An upload destroys the slot's old texture only if there was one, then creates a surface of the given size, a texture from it, and destroys the surface |
| Surface.TexturedRectCalls | sdl_surface.cpp:309-317 | A textured rect is drawn exactly when the bound id is in range and its slot is not null, and then it is one draw of the whole texture in that slot onto the given rect |
| Surface.SdlSurface.constructor | vgui_sdl.h:66-82 | A new surface has empty tables, zeroed colours, pen and counters, and no font or atlas |
| Surface.SdlSurface.CreateNewTextureId | sdl_surface.cpp:81-84 | Hands out the counter and increments it |
| Surface.SdlSurface.DrawSetColor | sdl_surface.cpp:101-109 | Stores the colour with inverted alpha, and passes the raw arguments to SDL_SetRenderDrawColor |
| Surface.SdlSurface.DrawFilledRect | sdl_surface.cpp:111-125 | Issues exactly `RectDrawCalls` for a filled rect in the stored colour |
| Surface.SdlSurface.DrawOutlinedRect | sdl_surface.cpp:127-141 | Issues exactly `RectDrawCalls` for an outlined rect in the stored colour |
| Surface.SdlSurface.DrawSetTextFont | sdl_surface.cpp:143-220 | Null clears the selected atlas only. A cached font is selected with no SDL call. Otherwise a new id is taken and the packed atlas, with the height the code as written computes, is uploaded to that slot when in range; the atlas is appended to the cache and selected. The cache stays complete and free of duplicates |
| Surface.SdlSurface.CacheNewAtlas | sdl_surface.cpp:167-219 | For an uncached font: exactly one texture id is used; the atlas is uploaded, 256 wide and as tall as `Pack` leaves it, to that slot when the id is in range; one cache entry is appended and selected; the cache stays complete and free of duplicates |
| Surface.SdlSurface.DrawSetTextColor | sdl_surface.cpp:222-228 | Stores the text colour with inverted alpha; no SDL call |
| Surface.SdlSurface.DrawSetTextPos | sdl_surface.cpp:230-234 | Sets the pen |
| Surface.SdlSurface.DrawPrintText | sdl_surface.cpp:236-281 | With no atlas selected, nothing happens. Otherwise the setup calls and then `PrintedQuads` are issued, and the pen moves right by the text's total advance on the same line |
| Surface.SdlSurface.PrintWithAtlas | sdl_surface.cpp:246-280 | With the atlas known: the setup calls, then exactly `PrintedQuads`; the pen moves right by the text's total advance on the same line |
| Surface.SdlSurface.PrintGlyphs | sdl_surface.cpp:255-280 | The print loop moves the pen right by the text's total advance on the same line, and issues exactly `PrintedQuads` |
| Surface.SdlSurface.DrawSetTextureRgba | sdl_surface.cpp:283-302 | Out-of-range ids change nothing. Otherwise only slot `id` is replaced, by the created texture, with `UploadCalls` issued |
| Surface.SdlSurface.DrawSetTexture | sdl_surface.cpp:304-307 | Binds any id, unchecked |
| Surface.SdlSurface.DrawTexturedRect | sdl_surface.cpp:309-317 | Issues exactly `TexturedRectCalls` for the bound id |
| Surface.SdlSurface.SetCursor | sdl_surface.cpp:329-402 | Issues `CursorCalls`; a system kind overwrites its slot with the new cursor, and every other slot is unchanged |
| Surface.SdlSurface.PushMakeCurrent | sdl_surface.cpp:409-433 | Issues `PushCalls` |
| Surface.SdlSurface.PopMakeCurrent | sdl_surface.cpp:435-438 | Issues one call, which resets the viewport to the whole target |
| Surface.SdlSurface.Dispose | sdl_surface.cpp:11-29 | All cursor slots and all texture slots end null, the atlas cache is empty, and the calls are the per-slot destroys, then renderer and window |
| Input.TruncateToInt | sdl_app.cpp:107 | C's float-to-int conversion truncates toward zero, on both sides of 0 |
| Input.MouseCodeFor | sdl_app.cpp:116-130 | A button maps to no mouse code exactly when it is not left, middle or right |
| Input.ScancodeFor | sdl_app.cpp:152-170 | The inverse of the corrected scan-code map only returns scan codes the map resolves |
| Input.KeyCodeRoundTrip | sdl_app.cpp:145-170 | The corrected map resolves exactly the digit row, F1-F12, A-Z, backspace, tab, return and space, and `ScancodeFor` undoes it in both directions |
| Input.KeyCodeInjective | sdl_app.cpp:145-170 | Under the corrected map, two scan codes that resolve to the same key code are equal |
| Input.KeyCodeOrderPreserving | sdl_app.cpp:147-154 | Within the digits 1-9, the function keys and the letters, the corrected map is a shift, so it keeps order and distance |
| Input.DigitKeysNeverResolve | sdl_app.cpp:152 | As written, the digit range is empty: no scan code is in it, the digit row maps to KEY_LAST, and no scan code maps to KEY_0..KEY_9 |
| Input.EventDispatches | sdl_app.cpp:104-184 | Under either scan-code map, an event makes at most two toolkit calls; two only for a resolved key-down (press then typed); quit and other events make none |
| Input.MotionDispatch | sdl_app.cpp:106-108 | Motion forwards both coordinates, truncated |
| Input.ButtonDispatch | sdl_app.cpp:113-139 | A mapped button makes one press or release as its down flag says; other buttons make none |
| Input.WheelUsesHorizontal | sdl_app.cpp:140-142 | The wheel forwards the horizontal component, truncated, and ignores the vertical one |
| Input.KeyDispatch | sdl_app.cpp:143-182 | Under either map, a key that maps to a code other than KEY_LAST makes press then typed with that code when down and one release when up; a key that maps to KEY_LAST makes nothing |
| Input.CorrectedKeyDispatch | sdl_app.cpp:143-182 | Under the corrected map a key dispatches exactly when its scan code is resolvable, and the pressed key code leads back to that scan code |
| Input.DigitKeyDispatch | sdl_app.cpp:143-182 | Under the map as written a digit-row key dispatches nothing, up or down; under the corrected map the key "4" presses and types KEY_0 + 4 |
| Input.Tick | sdl_app.cpp:98-186 | A tick polls no more events than are queued |
| Input.TickStopsAtFirstQuit | sdl_app.cpp:102-112 | A tick requests quit exactly when a quit is queued, and then stops right after the first one; without a quit it polls the whole queue |
| Input.TickUnfold | sdl_app.cpp:102-112 | One poll: a quit ends the tick; any other event dispatches before the rest of the queue |
| Input.PlatTick | sdl_app.cpp:98-186 | For the map it is given, the event loop's calls, quit flag and poll count are those of `Tick` under that map |
| Input.TickInOrder | sdl_app.cpp:102-185 | Without a quit, the events are handled strictly in queue order |
| Input.QuitIsTerminal | sdl_app.cpp:109-112 | Nothing queued after a quit is polled or dispatched |
| Input.CorrectedDigitKeysResolve | sdl_app.cpp:152 | The corrected map sends the digit key d to KEY_0 + d, and agrees with the map as written outside the digit row |
| Input.MapsAgreeOffDigitRow | sdl_app.cpp:98-186 | A tick over a queue with no digit-row key has the same result under both maps |
| Input.DigitsTypeNothingAsWritten | sdl_app.cpp:98-186 | As written, a tick over digit-row keys only polls them all and dispatches nothing; corrected, it dispatches at least one call per key |

## Left out

- Window creation, the title, fullscreen and windowed modes, `setAsTopMost`, popups, `hasFocus`, `isWithin`, `GetMousePos`, `addModeInfo`, `invalidate`, `enableMouseCapture`, `swapBuffers` and `applyChanges` are left out. They are single SDL queries or calls, or printf stubs, with no state of their own.
- `SDLApp`'s lifecycle (`main`, `Loop`, viewport creation) is left out. Only `platTick` is modelled.
- Rendering and the pixels are left out: SDL's output and the RGBA contents that `getCharRGBA` writes. Only the call sequence and the rects are modelled. `malloc`/`realloc`/`free` of the buffer are reduced to its height.
- Floating point is left out. `SDL_FRect` coordinates are integers, since the code only converts `int` values to float. Motion and wheel coordinates are `real`, with C's truncation written out. An out-of-range float-to-int conversion is not modelled.
- `int` overflow is left out: texture ids, the pen and rect corners are unbounded integers. In particular `CreateNewTextureId` never wraps.
- Surface.SdlSurface.DrawPrintText: requires the selected atlas's texture id to be within the texture table, and every character to be a byte code 0..255. The source indexes both arrays unchecked, so other inputs are undefined behaviour there.
- Negative `char` values, from a signed-char platform, are not modelled. They index out of bounds in the source.
- Surface.SdlSurface.SetCursor: the message printed for `dc_user` is left out; only the early return with no SDL call is modelled.
- Surface.SdlSurface.SetCursor: the cursor a slot held before is overwritten without being destroyed. The model records the overwrite but has no notion of a leak.
- The `FontTexture*` that points into the `fonts` vector is modelled as an index. The pointer is invalidated when `push_back` reallocates; the index is not, so that aliasing hazard is not captured.
- The toolkit's calls (`getCharABCwide`, `getTall`, `getInset`, `getAbsExtents`, `internalKeyPressed`, …) are inputs or log entries. The values of `KeyCode` come from VGUI_KeyCode.h, which is not part of this model. The values used are KEY_0 = 0, KEY_1 = 1, KEY_9 = 9, KEY_A = 10, KEY_ENTER = 63, KEY_SPACE = 64, KEY_BACKSPACE = 65, KEY_TAB = 66, KEY_F1 = 91 and KEY_LAST = 103.
- GlyphAtlas.PackCheckedFits: proved only for fonts whose glyph widths lie in 0..255 (not negative, and narrower than 256 pixels) and whose line height is not negative. A wider glyph cannot fit a 256-pixel row under any growth rule, so it has no evidently intended placement; `WideGlyphOverflowsRow` shows where the code puts it.
- `isspace` is the C locale's: codes 9 to 13 and 32.
- The system cursors are recreated on every `setCursor` call, as the code does. They are not kept in a cache.
- The wheel forwards `ev.wheel.x`, the horizontal component, as the code does.

## Findings

| source | as written | input that shows it | evidently intended | confidence | as-written member | corrected member |
|---|---|---|---|---|---|---|
| sdl_surface.cpp:196-202 | On a wrap, the growth test uses the y of the row being left, and only then moves y down a line | A font 200 pixels tall whose glyphs are 255 wide: code 1 wraps to y = 201 while the buffer stays 256 rows tall, so the glyph occupies rows 201..400 and rows 256..400 lie past the buffer | Grow the buffer until the new row's bottom fits before the glyph is written | high; not executed | GlyphAtlas.StaleGrowthTestOverflows | GlyphAtlas.PackCheckedFits |
| sdl_app.cpp:152 | The digit range runs from SDL_SCANCODE_0 (39) to SDL_SCANCODE_9 (38), which is empty because SDL numbers the digit row 1..9 then 0 | Pressing "5" (scan code 34) gives KEY_LAST, so the key is dropped | Map SDL_SCANCODE_1..9 to KEY_1..KEY_9 and SDL_SCANCODE_0 to KEY_0 | high; not executed | Input.DigitKeysNeverResolve | Input.CorrectedDigitKeysResolve |
