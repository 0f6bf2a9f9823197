/**
 * The per-surface render state (draw colour, text colour, text cursor) and
 * the calls the rectangle primitives issue for it.
 *
 * The toolkit's alpha runs the other way from SDL's: the surface stores
 * `255 - a`, so a stored alpha of 0 is fully transparent (nothing is drawn)
 * and 255 is fully opaque (drawn without blending).
 */
module RenderState {
  import opened Wrappers
  import opened Sdl

  /** The `int[4]` colour arrays `color` and `text_color`. */
  datatype Rgba = Rgba(r: int, g: int, b: int, a: int)

  /** The `int[2]` text cursor `text_pos`. */
  datatype Point = Point(x: int, y: int)

  /** The colour that drawSetColor and drawSetTextColor store for toolkit arguments r, g, b, a. */
  function StoreColor(r: int, g: int, b: int, a: int): (c: Rgba)
    ensures c.r == r && c.g == g && c.b == b
    ensures c.a + a == 255
  {
    Rgba(r, g, b, 255 - a)
  }

  /** The rectangle `rect()` builds from two corners, as origin and extent. */
  function CornersToRect(x0: int, y0: int, x1: int, y1: int): (r: Rect)
    ensures r.x == x0 && r.y == y0
    ensures r.x + r.w == x1 && r.y + r.h == y1
  {
    Rect(x0, y0, x1 - x0, y1 - y0)
  }

  /** The blend mode a stored alpha selects: only a fully opaque colour skips blending. */
  function BlendFor(storedAlpha: int): (m: BlendMode)
    ensures m == BlendNone <==> storedAlpha == 255
  {
    if storedAlpha == 255 then BlendNone else BlendBlend
  }

  datatype Primitive = Filled | Outlined

  predicate IsRectDraw(c: Call) {
    c.RenderFillRect? || c.RenderRect?
  }

  /** The one SDL draw call behind each primitive. */
  function PrimitiveCall(kind: Primitive, rect: Rect): (c: Call)
    ensures c.RenderFillRect? <==> kind == Filled
    ensures c.RenderRect? <==> kind == Outlined
    ensures IsRectDraw(c) && c.rect == rect
  {
    match kind
    case Filled => RenderFillRect(rect)
    case Outlined => RenderRect(rect)
  }

  /** How many fill or outline calls a log holds. */
  function RectDraws(calls: seq<Call>): (n: nat)
    ensures n <= |calls|
  {
    if calls == [] then 0
    else RectDraws(calls[..|calls| - 1]) + (if IsRectDraw(calls[|calls| - 1]) then 1 else 0)
  }

  /** The rect draws of two concatenated logs add up. */
  lemma {:induction false} RectDrawsAppend(s: seq<Call>, t: seq<Call>)
    ensures RectDraws(s + t) == RectDraws(s) + RectDraws(t)
    decreases |t|
  {
    if t == [] {
      assert s + t == s;
    } else {
      assert (s + t)[..|s + t| - 1] == s + t[..|t| - 1];
      RectDrawsAppend(s, t[..|t| - 1]);
    }
  }

  /**
   * The calls drawFilledRect (kind Filled) and drawOutlinedRect (kind
   * Outlined) issue under the stored draw colour `color`.
   */
  function RectDrawCalls(color: Rgba, kind: Primitive, rect: Rect): (calls: seq<Call>)
    ensures calls == [] <==> color.a == 0
    ensures calls != [] ==> |calls| == 3 && calls[0] == SetRenderDrawBlendMode(BlendFor(color.a))
    ensures calls != [] ==> calls[1] == SetRenderDrawColor(ToUint8(color.r), ToUint8(color.g), ToUint8(color.b), ToUint8(color.a))
    ensures calls != [] ==> calls[|calls| - 1] == PrimitiveCall(kind, rect)
  {
    if color.a == 0 then []
    else
      [ SetRenderDrawBlendMode(BlendFor(color.a)),
        SetRenderDrawColor(ToUint8(color.r), ToUint8(color.g), ToUint8(color.b), ToUint8(color.a)),
        PrimitiveCall(kind, rect) ]
  }

  /** A rectangle draw issues exactly one fill or outline call unless the colour is fully transparent. */
  lemma RectDrawIssuesOneDraw(color: Rgba, kind: Primitive, rect: Rect)
    ensures RectDraws(RectDrawCalls(color, kind, rect)) == if color.a == 0 then 0 else 1
  {
    var calls := RectDrawCalls(color, kind, rect);
    if color.a != 0 {
      var two, one := calls[..2], calls[..1];
      assert calls[..|calls| - 1] == two;
      assert two[..|two| - 1] == one;
      assert one[..|one| - 1] == [];
      assert !IsRectDraw(calls[0]) && !IsRectDraw(calls[1]) && IsRectDraw(calls[2]);
      assert RectDraws(one) == 0;
      assert RectDraws(two) == 0;
    }
  }

  /**
   * Read through the inversion, the toolkit's own alpha decides: 255 draws
   * nothing, 0 draws without blending, anything else blends.
   */
  lemma ToolkitAlphaDecidesRectDraw(r: int, g: int, b: int, a: int, kind: Primitive, rect: Rect)
    ensures RectDrawCalls(StoreColor(r, g, b, a), kind, rect) == [] <==> a == 255
    ensures a != 255 ==>
      RectDrawCalls(StoreColor(r, g, b, a), kind, rect)[0]
        == SetRenderDrawBlendMode(if a == 0 then BlendNone else BlendBlend)
  {
  }
}
