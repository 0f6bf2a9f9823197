/**
 * The slice of SDL3 that the backend talks to: the enumerant values it
 * uses, the opaque handles SDL hands back, and one log entry per native
 * call the backend issues. Nothing here renders; a call is recorded, not
 * performed.
 */
module Sdl {
  import opened Wrappers

  // SDL_Scancode values (SDL3 follows the USB HID keyboard page).
  const SCANCODE_A := 4
  const SCANCODE_Z := 29
  const SCANCODE_1 := 30
  const SCANCODE_9 := 38
  const SCANCODE_0 := 39
  const SCANCODE_RETURN := 40
  const SCANCODE_BACKSPACE := 42
  const SCANCODE_TAB := 43
  const SCANCODE_SPACE := 44
  const SCANCODE_F1 := 58
  const SCANCODE_F12 := 69

  // Mouse button indices.
  const BUTTON_LEFT := 1
  const BUTTON_MIDDLE := 2
  const BUTTON_RIGHT := 3

  // SDL_SystemCursor values.
  const SYSTEM_CURSOR_DEFAULT := 0
  const SYSTEM_CURSOR_TEXT := 1
  const SYSTEM_CURSOR_WAIT := 2
  const SYSTEM_CURSOR_CROSSHAIR := 3
  const SYSTEM_CURSOR_NWSE_RESIZE := 5
  const SYSTEM_CURSOR_NESW_RESIZE := 6
  const SYSTEM_CURSOR_EW_RESIZE := 7
  const SYSTEM_CURSOR_NS_RESIZE := 8
  const SYSTEM_CURSOR_MOVE := 9
  const SYSTEM_CURSOR_NOT_ALLOWED := 10
  const SYSTEM_CURSOR_POINTER := 11
  const SYSTEM_CURSOR_COUNT := 20

  /** An SDL_Texture* that SDL created; which one is SDL's business. */
  datatype TextureHandle = TextureHandle(serial: nat)

  /** An SDL_Cursor* that SDL created. */
  datatype CursorHandle = CursorHandle(serial: nat)

  /** An SDL_Rect / SDL_FRect, kept in integers. */
  datatype Rect = Rect(x: int, y: int, w: int, h: int)

  datatype BlendMode = BlendNone | BlendBlend

  /** The argument of SDL_SetCursor: a cursor the backend created, or the one SDL_GetDefaultCursor returned. */
  datatype CursorRef = Created(handle: CursorHandle) | PlatformDefault

  /** One native SDL call, with the arguments that matter to the backend. */
  datatype Call =
    | SetRenderDrawColor(r: int, g: int, b: int, a: int)
    | SetRenderDrawBlendMode(mode: BlendMode)
    | RenderFillRect(rect: Rect)
    | RenderRect(rect: Rect)
    | RenderTexture(texture: Option<TextureHandle>, src: Option<Rect>, dst: Rect)
    | SetTextureColorMod(texture: Option<TextureHandle>, r: int, g: int, b: int)
    | SetTextureAlphaMod(texture: Option<TextureHandle>, a: int)
    | DestroyTexture(texture: Option<TextureHandle>)
    | CreateSurfaceFrom(width: int, height: int)
    | CreateTextureFromSurface
    | DestroySurface
    | HideCursor
    | ShowCursor
    | CreateSystemCursor(id: int)
    | GetDefaultCursor
    | SetCursor(cursor: CursorRef)
    | DestroyCursor(slot: Option<CursorHandle>)
    | GetWindowSizeInPixels
    | SetRenderViewport(viewport: Option<Rect>)
    | DestroyRenderer
    | DestroyWindow

  /** The implicit C conversion of an `int` argument to SDL's `Uint8` parameters. */
  function ToUint8(v: int): (u: int)
    ensures 0 <= u < 256
    ensures (v - u) % 256 == 0
    ensures 0 <= v < 256 ==> u == v
  {
    v % 256
  }

  /** How many entries of a call log equal `c`. */
  function Occurrences(calls: seq<Call>, c: Call): (n: nat)
    ensures n <= |calls|
    ensures n == 0 <==> c !in calls
  {
    if calls == [] then 0
    else Occurrences(calls[..|calls| - 1], c) + (if calls[|calls| - 1] == c then 1 else 0)
  }

  lemma {:induction false} OccurrencesAppend(s: seq<Call>, t: seq<Call>, c: Call)
    ensures Occurrences(s + t, c) == Occurrences(s, c) + Occurrences(t, c)
    decreases |t|
  {
    if t == [] {
      assert s + t == s;
    } else {
      assert (s + t)[..|s + t| - 1] == s + t[..|t| - 1];
      OccurrencesAppend(s, t[..|t| - 1], c);
    }
  }
}
