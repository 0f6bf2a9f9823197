/**
 * setCursor: the toolkit's closed set of cursor kinds, the fixed table that
 * maps them onto SDL system cursors, and the calls the surface issues.
 */
module CursorTable {
  import opened Wrappers
  import opened Sdl

  /** Cursor::DefaultCursor, in declaration order. */
  datatype DefaultCursor =
    | DcUser | DcNone | DcArrow | DcIbeam | DcHourglass | DcCrosshair | DcUp
    | DcSizeNwse | DcSizeNesw | DcSizeWe | DcSizeNs | DcSizeAll | DcNo | DcHand | DcLast

  /** The kinds the table sends to the default arrow (dc_user and dc_none never reach it). */
  predicate MapsToDefault(dc: DefaultCursor) {
    dc.DcArrow? || dc.DcLast? || dc.DcUp? || dc.DcUser? || dc.DcNone?
  }

  /** The fixed table from toolkit cursor kinds to SDL system cursors. */
  function SystemCursorFor(dc: DefaultCursor): (sc: int)
    ensures 0 <= sc < SYSTEM_CURSOR_COUNT
    ensures sc == SYSTEM_CURSOR_DEFAULT <==> MapsToDefault(dc)
  {
    match dc
    case DcArrow | DcLast | DcUp => SYSTEM_CURSOR_DEFAULT
    case DcIbeam => SYSTEM_CURSOR_TEXT
    case DcHourglass => SYSTEM_CURSOR_WAIT
    case DcCrosshair => SYSTEM_CURSOR_CROSSHAIR
    case DcSizeNwse => SYSTEM_CURSOR_NWSE_RESIZE
    case DcSizeNesw => SYSTEM_CURSOR_NESW_RESIZE
    case DcSizeWe => SYSTEM_CURSOR_EW_RESIZE
    case DcSizeNs => SYSTEM_CURSOR_NS_RESIZE
    case DcSizeAll => SYSTEM_CURSOR_MOVE
    case DcNo => SYSTEM_CURSOR_NOT_ALLOWED
    case DcHand => SYSTEM_CURSOR_POINTER
    case DcUser | DcNone => SYSTEM_CURSOR_DEFAULT
  }

  /** Apart from the kinds sent to the default arrow, no two kinds share a system cursor. */
  lemma SystemCursorTableInjective(d1: DefaultCursor, d2: DefaultCursor)
    requires !MapsToDefault(d1) && !MapsToDefault(d2) && d1 != d2
    ensures SystemCursorFor(d1) != SystemCursorFor(d2)
  {
  }

  /** Whether setCursor reaches the table (bitmap and hidden cursors return early). */
  predicate UsesSystemCursor(dc: DefaultCursor) {
    !dc.DcUser? && !dc.DcNone?
  }

  /**
   * The calls of setCursor for kind `dc`, where `created` is what
   * SDL_CreateSystemCursor returned (None: creation failed).
   */
  function CursorCalls(dc: DefaultCursor, created: Option<CursorHandle>): (calls: seq<Call>)
    ensures dc.DcUser? ==> calls == []
    ensures dc.DcNone? ==> calls == [HideCursor]
    ensures UsesSystemCursor(dc) ==>
      && |calls| >= 3
      && calls[0] == CreateSystemCursor(SystemCursorFor(dc))
      && calls[|calls| - 1] == ShowCursor
      && HideCursor !in calls
    ensures UsesSystemCursor(dc) && created.Some? ==> SetCursor(Created(created.value)) in calls
    ensures UsesSystemCursor(dc) && created.None? ==> SetCursor(PlatformDefault) in calls
  {
    if dc.DcUser? then []
    else if dc.DcNone? then [HideCursor]
    else
      var sc := SystemCursorFor(dc);
      var activate :=
        if created.Some? then [SetCursor(Created(created.value))]
        else [GetDefaultCursor, SetCursor(PlatformDefault)];
      [CreateSystemCursor(sc)] + activate + [ShowCursor]
  }

  /**
   * There is no cache: each call for a kind that uses the table creates its
   * system cursor again, so two calls for the arrow create it twice, and a
   * hidden cursor is shown again by the next such call.
   */
  lemma {:induction false} EveryCallCreatesAgain(dc: DefaultCursor, c1: Option<CursorHandle>, c2: Option<CursorHandle>)
    requires UsesSystemCursor(dc)
    ensures Occurrences(CursorCalls(dc, c1) + CursorCalls(dc, c2), CreateSystemCursor(SystemCursorFor(dc))) == 2
    ensures var calls := CursorCalls(DcNone, c1) + CursorCalls(dc, c2);
      calls[0] == HideCursor && calls[|calls| - 1] == ShowCursor
  {
    var create := CreateSystemCursor(SystemCursorFor(dc));
    CreatesOnce(dc, c1);
    CreatesOnce(dc, c2);
    OccurrencesAppend(CursorCalls(dc, c1), CursorCalls(dc, c2), create);
  }

  /** One call for a kind that uses the table creates its system cursor exactly once. */
  lemma CreatesOnce(dc: DefaultCursor, c: Option<CursorHandle>)
    requires UsesSystemCursor(dc)
    ensures Occurrences(CursorCalls(dc, c), CreateSystemCursor(SystemCursorFor(dc))) == 1
  {
    var create := CreateSystemCursor(SystemCursorFor(dc));
    var calls := CursorCalls(dc, c);
    var head, rest := [create], calls[1..];
    assert calls == head + rest;
    assert create !in rest;
    assert head[..|head| - 1] == [];
    assert Occurrences(head, create) == 1;
    OccurrencesAppend(head, rest, create);
  }
}
