/**
 * SDLApp::platTick: drain SDL's event queue in order and turn each event
 * into zero, one or two calls of the toolkit's input pipeline. A quit event
 * shuts SDL down and exits the process, so nothing after it is handled; the
 * model records that as a terminal "quit requested" result.
 *
 * The translator takes the scan-code map as a parameter: AsWritten is the
 * map as the code has it, whose digit range is empty (KeyCodeForAsWritten),
 * and Corrected is the map as evidently intended (KeyCodeFor). Every
 * property of the loop holds for both.
 */
module Input {
  import opened Wrappers
  import opened Sdl

  // The toolkit's KeyCode values that the translator produces.
  const KEY_0 := 0
  const KEY_1 := 1
  const KEY_9 := 9
  const KEY_A := 10
  const KEY_Z := 35
  const KEY_ENTER := 63
  const KEY_SPACE := 64
  const KEY_BACKSPACE := 65
  const KEY_TAB := 66
  const KEY_F1 := 91
  const KEY_F12 := 102
  const KEY_LAST := 103

  /** The toolkit's MouseCode; MouseLast means "no button". */
  datatype MouseCode = MouseLeft | MouseRight | MouseMiddle | MouseLast

  /**
   * The SDL events platTick tells apart. Button and key events carry their
   * `down` flag, which decides press or release for both event types.
   */
  datatype Event =
    | MouseMotion(x: real, y: real)
    | Quit
    | MouseButton(button: int, down: bool)
    | MouseWheel(x: real, y: real)
    | Key(scancode: int, down: bool)
    | Other(kind: int)

  /** One call into the toolkit's input pipeline. */
  datatype Dispatch =
    | CursorMoved(x: int, y: int)
    | MousePressed(mouse: MouseCode)
    | MouseReleased(mouse: MouseCode)
    | MouseWheeled(delta: int)
    | KeyPressed(key: int)
    | KeyTyped(key: int)
    | KeyReleased(key: int)

  /** C's `(int)` conversion of a float: truncation toward zero. */
  function TruncateToInt(v: real): (n: int)
    ensures v >= 0.0 ==> 0 <= n && n as real <= v < n as real + 1.0
    ensures v < 0.0 ==> n <= 0 && n as real - 1.0 < v <= n as real
  {
    if v >= 0.0 then v.Floor else -((-v).Floor)
  }

  /** The three-entry button table. */
  function MouseCodeFor(button: int): (mc: MouseCode)
    ensures mc == MouseLast <==> button !in {BUTTON_LEFT, BUTTON_MIDDLE, BUTTON_RIGHT}
  {
    if button == BUTTON_LEFT then MouseLeft
    else if button == BUTTON_RIGHT then MouseRight
    else if button == BUTTON_MIDDLE then MouseMiddle
    else MouseLast
  }

  /** DECLARE_KEY_RANGE's test. */
  predicate InKeyRange(scancode: int, min: int, max: int) {
    scancode >= min && scancode <= max
  }

  /**
   * The scan-code map, as written: three range checks in order (digits,
   * function keys, letters), then a four-entry table, else KEY_LAST.
   */
  function KeyCodeForAsWritten(scancode: int): int {
    if InKeyRange(scancode, SCANCODE_0, SCANCODE_9) then scancode - SCANCODE_0 + KEY_0
    else if InKeyRange(scancode, SCANCODE_F1, SCANCODE_F12) then scancode - SCANCODE_F1 + KEY_F1
    else if InKeyRange(scancode, SCANCODE_A, SCANCODE_Z) then scancode - SCANCODE_A + KEY_A
    else if scancode == SCANCODE_BACKSPACE then KEY_BACKSPACE
    else if scancode == SCANCODE_TAB then KEY_TAB
    else if scancode == SCANCODE_RETURN then KEY_ENTER
    else if scancode == SCANCODE_SPACE then KEY_SPACE
    else KEY_LAST
  }

  /**
   * The digit range runs from SDL_SCANCODE_0 (39) down to SDL_SCANCODE_9
   * (38), so no scan code is in it: as written, every key of the digit row
   * is dropped, and no scan code reaches KEY_0 .. KEY_9.
   */
  lemma DigitKeysNeverResolve(scancode: int)
    ensures !InKeyRange(scancode, SCANCODE_0, SCANCODE_9)
    ensures InKeyRange(scancode, SCANCODE_1, SCANCODE_0) ==> KeyCodeForAsWritten(scancode) == KEY_LAST
    ensures !(KEY_0 <= KeyCodeForAsWritten(scancode) <= KEY_9)
  {
  }

  /**
   * The scan-code map as evidently intended: the
   * digit row, which SDL numbers 1 .. 9 then 0, maps to KEY_1 .. KEY_9 and
   * KEY_0; then the function keys, the letters and the four-entry table.
   */
  function KeyCodeFor(scancode: int): int {
    if InKeyRange(scancode, SCANCODE_1, SCANCODE_9) then scancode - SCANCODE_1 + KEY_1
    else if scancode == SCANCODE_0 then KEY_0
    else if InKeyRange(scancode, SCANCODE_F1, SCANCODE_F12) then scancode - SCANCODE_F1 + KEY_F1
    else if InKeyRange(scancode, SCANCODE_A, SCANCODE_Z) then scancode - SCANCODE_A + KEY_A
    else if scancode == SCANCODE_BACKSPACE then KEY_BACKSPACE
    else if scancode == SCANCODE_TAB then KEY_TAB
    else if scancode == SCANCODE_RETURN then KEY_ENTER
    else if scancode == SCANCODE_SPACE then KEY_SPACE
    else KEY_LAST
  }

  /** The scan codes the map resolves. */
  predicate Resolvable(scancode: int) {
    || InKeyRange(scancode, SCANCODE_1, SCANCODE_0)
    || InKeyRange(scancode, SCANCODE_F1, SCANCODE_F12)
    || InKeyRange(scancode, SCANCODE_A, SCANCODE_Z)
    || scancode in {SCANCODE_BACKSPACE, SCANCODE_TAB, SCANCODE_RETURN, SCANCODE_SPACE}
  }

  /** The inverse of the map: the scan code a key code comes from, if any. */
  function ScancodeFor(key: int): (sc: Option<int>)
    ensures sc.Some? ==> Resolvable(sc.value)
  {
    if KEY_1 <= key <= KEY_9 then Some(key - KEY_1 + SCANCODE_1)
    else if key == KEY_0 then Some(SCANCODE_0)
    else if KEY_F1 <= key <= KEY_F12 then Some(key - KEY_F1 + SCANCODE_F1)
    else if KEY_A <= key <= KEY_Z then Some(key - KEY_A + SCANCODE_A)
    else if key == KEY_BACKSPACE then Some(SCANCODE_BACKSPACE)
    else if key == KEY_TAB then Some(SCANCODE_TAB)
    else if key == KEY_ENTER then Some(SCANCODE_RETURN)
    else if key == KEY_SPACE then Some(SCANCODE_SPACE)
    else None
  }

  /**
   * The map resolves exactly the digit row, the function keys, the letters
   * and the four table keys, and ScancodeFor undoes it in both directions.
   */
  lemma KeyCodeRoundTrip(scancode: int, key: int)
    ensures KeyCodeFor(scancode) != KEY_LAST <==> Resolvable(scancode)
    ensures Resolvable(scancode) ==> ScancodeFor(KeyCodeFor(scancode)) == Some(scancode)
    ensures ScancodeFor(key) == Some(scancode) ==> KeyCodeFor(scancode) == key
  {
  }

  /** Two scan codes that resolve to the same key code are the same key. */
  lemma KeyCodeInjective(s1: int, s2: int)
    requires KeyCodeFor(s1) != KEY_LAST && KeyCodeFor(s1) == KeyCodeFor(s2)
    ensures s1 == s2
  {
    KeyCodeRoundTrip(s1, 0);
    KeyCodeRoundTrip(s2, 0);
  }

  /** Inside each range the map keeps the order and the distances of scan codes. */
  lemma KeyCodeOrderPreserving(s1: int, s2: int)
    requires s1 <= s2
    requires || (InKeyRange(s1, SCANCODE_1, SCANCODE_9) && InKeyRange(s2, SCANCODE_1, SCANCODE_9))
             || (InKeyRange(s1, SCANCODE_F1, SCANCODE_F12) && InKeyRange(s2, SCANCODE_F1, SCANCODE_F12))
             || (InKeyRange(s1, SCANCODE_A, SCANCODE_Z) && InKeyRange(s2, SCANCODE_A, SCANCODE_Z))
    ensures KeyCodeFor(s2) - KeyCodeFor(s1) == s2 - s1
  {
  }

  /**
   * The corrected map sends the digit key d to KEY_0 + d, and agrees with
   * the map as written on every scan code outside the digit row.
   */
  lemma CorrectedDigitKeysResolve(d: int, scancode: int)
    requires 0 <= d <= 9
    ensures KeyCodeFor(if d == 0 then SCANCODE_0 else SCANCODE_1 + d - 1) == KEY_0 + d
    ensures !InKeyRange(scancode, SCANCODE_1, SCANCODE_0) ==> KeyCodeFor(scancode) == KeyCodeForAsWritten(scancode)
  {
  }

  /** Which scan-code map the translator runs with. */
  datatype KeyMap = AsWritten | Corrected

  /** The key code a scan code translates to under `keys`. */
  function KeyCodeUnder(keys: KeyMap, scancode: int): int {
    match keys
    case AsWritten => KeyCodeForAsWritten(scancode)
    case Corrected => KeyCodeFor(scancode)
  }

  /** The toolkit calls for one event other than quit. */
  function EventDispatches(keys: KeyMap, ev: Event): (d: seq<Dispatch>)
    ensures |d| <= 2
    ensures |d| == 2 ==> ev.Key? && ev.down && d[0].KeyPressed? && d[1] == KeyTyped(d[0].key)
    ensures ev.Quit? || ev.Other? ==> d == []
  {
    match ev
    case MouseMotion(x, y) => [CursorMoved(TruncateToInt(x), TruncateToInt(y))]
    case Quit => []
    case MouseButton(button, down) =>
      var mc := MouseCodeFor(button);
      if mc == MouseLast then []
      else if down then [MousePressed(mc)]
      else [MouseReleased(mc)]
    case MouseWheel(x, _) => [MouseWheeled(TruncateToInt(x))]
    case Key(scancode, down) =>
      var kc := KeyCodeUnder(keys, scancode);
      if kc == KEY_LAST then []
      else if down then [KeyPressed(kc), KeyTyped(kc)]
      else [KeyReleased(kc)]
    case Other(_) => []
  }

  /** Motion dispatches one cursor move with both coordinates truncated. */
  lemma MotionDispatch(keys: KeyMap, x: real, y: real)
    ensures EventDispatches(keys, MouseMotion(x, y)) == [CursorMoved(TruncateToInt(x), TruncateToInt(y))]
  {
  }

  /**
   * The mapped buttons dispatch one press or release as `down` says; any
   * other button dispatches nothing.
   */
  lemma ButtonDispatch(keys: KeyMap, button: int, down: bool)
    ensures button == BUTTON_LEFT ==> EventDispatches(keys, MouseButton(button, down)) == [if down then MousePressed(MouseLeft) else MouseReleased(MouseLeft)]
    ensures button == BUTTON_RIGHT ==> EventDispatches(keys, MouseButton(button, down)) == [if down then MousePressed(MouseRight) else MouseReleased(MouseRight)]
    ensures button == BUTTON_MIDDLE ==> EventDispatches(keys, MouseButton(button, down)) == [if down then MousePressed(MouseMiddle) else MouseReleased(MouseMiddle)]
    ensures button !in {BUTTON_LEFT, BUTTON_MIDDLE, BUTTON_RIGHT} ==> EventDispatches(keys, MouseButton(button, down)) == []
  {
  }

  /** The wheel forwards the horizontal component and ignores the vertical one. */
  lemma WheelUsesHorizontal(keys: KeyMap, x: real, y1: real, y2: real)
    ensures EventDispatches(keys, MouseWheel(x, y1)) == [MouseWheeled(TruncateToInt(x))]
    ensures EventDispatches(keys, MouseWheel(x, y1)) == EventDispatches(keys, MouseWheel(x, y2))
    ensures EventDispatches(keys, MouseWheel(3.0, y1)) == [MouseWheeled(3)]
  {
  }

  /**
   * Under either map, a resolved key-down dispatches press then typed with
   * the same code, a resolved key-up one release, and an unresolved key
   * nothing.
   */
  lemma KeyDispatch(keys: KeyMap, scancode: int, down: bool)
    ensures var kc := KeyCodeUnder(keys, scancode);
      && (kc != KEY_LAST && down ==> EventDispatches(keys, Key(scancode, down)) == [KeyPressed(kc), KeyTyped(kc)])
      && (kc != KEY_LAST && !down ==> EventDispatches(keys, Key(scancode, down)) == [KeyReleased(kc)])
      && (kc == KEY_LAST ==> EventDispatches(keys, Key(scancode, down)) == [])
  {
  }

  /**
   * Under the corrected map exactly the resolvable scan codes dispatch, and
   * the typed key code leads back to the scan code.
   */
  lemma CorrectedKeyDispatch(scancode: int, down: bool)
    ensures EventDispatches(Corrected, Key(scancode, down)) != [] <==> Resolvable(scancode)
    ensures Resolvable(scancode) && down ==>
      EventDispatches(Corrected, Key(scancode, down))[0].KeyPressed? &&
      ScancodeFor(EventDispatches(Corrected, Key(scancode, down))[0].key) == Some(scancode)
  {
    KeyCodeRoundTrip(scancode, 0);
  }

  /**
   * Under the map as written a digit-row key dispatches nothing, up or down;
   * under the corrected map the key "4" (scan code 33) types KEY_0 + 4.
   */
  lemma DigitKeyDispatch(scancode: int, down: bool)
    requires InKeyRange(scancode, SCANCODE_1, SCANCODE_0)
    ensures EventDispatches(AsWritten, Key(scancode, down)) == []
    ensures EventDispatches(Corrected, Key(SCANCODE_1 + 3, true)) == [KeyPressed(KEY_0 + 4), KeyTyped(KEY_0 + 4)]
  {
    DigitKeysNeverResolve(scancode);
  }

  /** The concatenated dispatches of events none of which is a quit. */
  function Flatten(keys: KeyMap, events: seq<Event>): seq<Dispatch> {
    if events == [] then [] else EventDispatches(keys, events[0]) + Flatten(keys, events[1..])
  }

  /** What one platTick does: the toolkit calls, whether quit was requested, and how many events it polled. */
  datatype TickResult = TickResult(dispatched: seq<Dispatch>, quitRequested: bool, polled: nat)

  /** platTick over the queued events, front first. */
  function Tick(keys: KeyMap, queue: seq<Event>): (r: TickResult)
    ensures r.polled <= |queue|
  {
    if queue == [] then TickResult([], false, 0)
    else if queue[0].Quit? then TickResult([], true, 1)
    else
      var rest := Tick(keys, queue[1..]);
      TickResult(EventDispatches(keys, queue[0]) + rest.dispatched, rest.quitRequested, rest.polled + 1)
  }

  /**
   * A tick requests quit exactly when a quit is queued, and then it stops
   * at the first one; otherwise it polls the whole queue.
   */
  lemma {:induction false} TickStopsAtFirstQuit(keys: KeyMap, queue: seq<Event>)
    ensures Tick(keys, queue).quitRequested <==> Quit in queue
    ensures var r := Tick(keys, queue);
      r.quitRequested ==> r.polled > 0 && queue[r.polled - 1] == Quit && Quit !in queue[..r.polled - 1]
    ensures !Tick(keys, queue).quitRequested ==> Tick(keys, queue).polled == |queue|
  {
    if queue != [] && !queue[0].Quit? {
      var rest := queue[1..];
      TickStopsAtFirstQuit(keys, rest);
      assert queue == [queue[0]] + rest;
      var n := Tick(keys, rest).polled;
      if Tick(keys, rest).quitRequested {
        assert queue[..n] == [queue[0]] + rest[..n - 1];
      }
    }
  }

  /** One poll: a quit ends the tick, any other event dispatches before the rest. */
  lemma TickUnfold(keys: KeyMap, queue: seq<Event>)
    requires queue != []
    ensures queue[0].Quit? ==> Tick(keys, queue) == TickResult([], true, 1)
    ensures !queue[0].Quit? ==> Tick(keys, queue) == TickResult(EventDispatches(keys, queue[0]) + Tick(keys, queue[1..]).dispatched, Tick(keys, queue[1..]).quitRequested, Tick(keys, queue[1..]).polled + 1)
  {
  }

  /** The event loop of platTick, run with the scan-code map `keys`. */
  method PlatTick(keys: KeyMap, queue: seq<Event>) returns (dispatched: seq<Dispatch>, quitRequested: bool, polled: nat)
    ensures TickResult(dispatched, quitRequested, polled) == Tick(keys, queue)
  {
    dispatched, quitRequested := [], false;
    var i := 0;
    ghost var rest := Tick(keys, queue);
    while i < |queue|
      invariant 0 <= i <= |queue|
      invariant rest == Tick(keys, queue[i..])
      invariant Tick(keys, queue) == TickResult(dispatched + rest.dispatched, rest.quitRequested, i + rest.polled)
    {
      var ev := queue[i];
      TickUnfold(keys, queue[i..]);
      assert queue[i..][0] == ev;
      if ev.Quit? {
        // Here the code shuts SDL down and ends the process.
        assert rest == TickResult([], true, 1);
        i := i + 1;
        quitRequested := true;
        break;
      }
      ghost var next := Tick(keys, queue[i + 1..]);
      assert queue[i..][1..] == queue[i + 1..];
      assert rest == TickResult(EventDispatches(keys, ev) + next.dispatched, next.quitRequested, next.polled + 1);
      assert dispatched + rest.dispatched == (dispatched + EventDispatches(keys, ev)) + next.dispatched;
      dispatched := dispatched + EventDispatches(keys, ev);
      i := i + 1;
      rest := next;
    }
    polled := i;
  }

  /**
   * Without a quit, a tick handles the events strictly in queue order: the
   * dispatches of a prefix come first, then those of the rest.
   */
  lemma {:induction false} TickInOrder(keys: KeyMap, q1: seq<Event>, q2: seq<Event>)
    requires Quit !in q1
    ensures Tick(keys, q1 + q2) == TickResult(Flatten(keys, q1) + Tick(keys, q2).dispatched, Tick(keys, q2).quitRequested, |q1| + Tick(keys, q2).polled)
    decreases |q1|
  {
    if q1 != [] {
      var ev, rest := q1[0], q1[1..];
      assert (q1 + q2)[0] == ev && (q1 + q2)[1..] == rest + q2;
      assert ev != Quit && Quit !in rest;
      TickInOrder(keys, rest, q2);
      TickUnfold(keys, q1 + q2);
      var t2 := Tick(keys, q2);
      assert EventDispatches(keys, ev) + (Flatten(keys, rest) + t2.dispatched) == Flatten(keys, q1) + t2.dispatched;
    } else {
      assert q1 + q2 == q2;
    }
  }

  /** A quit ends the tick: whatever is queued after it is never polled or dispatched. */
  lemma QuitIsTerminal(keys: KeyMap, q1: seq<Event>, q2: seq<Event>)
    requires Quit !in q1
    ensures Tick(keys, q1 + [Quit] + q2) == TickResult(Flatten(keys, q1), true, |q1| + 1)
  {
    TickInOrder(keys, q1, [Quit] + q2);
    assert q1 + [Quit] + q2 == q1 + ([Quit] + q2);
  }

  /**
   * The two maps disagree only on digit-row keys: a tick over a queue with
   * no digit-row key dispatches the same under both.
   */
  lemma {:induction false} MapsAgreeOffDigitRow(queue: seq<Event>)
    requires forall i :: 0 <= i < |queue| && queue[i].Key? ==> !InKeyRange(queue[i].scancode, SCANCODE_1, SCANCODE_0)
    ensures Tick(AsWritten, queue) == Tick(Corrected, queue)
  {
    if queue != [] && !queue[0].Quit? {
      if queue[0].Key? {
        CorrectedDigitKeysResolve(0, queue[0].scancode);
      }
      assert EventDispatches(AsWritten, queue[0]) == EventDispatches(Corrected, queue[0]);
      MapsAgreeOffDigitRow(queue[1..]);
    }
  }

  /**
   * As written, a tick over typed digits and nothing else polls them all
   * and dispatches nothing; corrected, each key-down dispatches two calls.
   */
  lemma {:induction false} DigitsTypeNothingAsWritten(queue: seq<Event>)
    requires forall i :: 0 <= i < |queue| ==> queue[i].Key? && InKeyRange(queue[i].scancode, SCANCODE_1, SCANCODE_0)
    ensures Tick(AsWritten, queue) == TickResult([], false, |queue|)
    ensures |Tick(Corrected, queue).dispatched| >= |queue|
  {
    if queue != [] {
      DigitKeysNeverResolve(queue[0].scancode);
      CorrectedDigitKeysResolve(0, queue[0].scancode);
      KeyCodeRoundTrip(queue[0].scancode, 0);
      DigitsTypeNothingAsWritten(queue[1..]);
    }
  }
}
