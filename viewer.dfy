/**
 * The interaction state of the browser viewer, app/static/js/viewer.js.
 *
 * `View` is a snapshot of an `ImageViewer`'s fields; `Step` says what one
 * input event does to it and `Install` what an upload response does.  The
 * `ImageViewer` class holds the same fields and has one method per event
 * handler, each proved to move its snapshot as `Step` says.  Babylon.js,
 * the DOM and `fetch` are abstract: an event carries the numbers the
 * handler reads, and an upload is given by its outcome.
 */
module Viewer {
  import opened Wrappers
  import opened Text

  /** `this.rotation`: never assigned before its first use, so `undefined`, then NaN. */
  datatype Rotation = Unset | NotANumber | Degrees(degrees: int)

  /** `this.mode`: `undefined` until a mode menu item is chosen. */
  datatype Mode = NoMode | RegionOfInterest | WindowLevelMode

  datatype View = View(
    windowCenter: real,
    windowWidth: real,
    currentSlice: int,
    totalSlices: int,
    imageId: Option<string>,
    currentLabel: string,
    lastMouseX: real,
    lastMouseY: real,
    isWindowLevelDrag: bool,
    rotation: Rotation,
    mode: Mode,
    /** the `active` class of the optimize-window button */
    optimizeActive: bool,
    /** the `active` class of the window-level button */
    windowLevelActive: bool,
    /** the container's `has-image` class */
    hasImage: bool,
    slices: Option<seq<string>>,
    dataMin: Option<real>,
    dataMax: Option<real>,
    bitDepth: Option<nat>,
    maxValue: Option<int>,
    /** the `windowCenter` and `windowWidth` uniforms of the fragment shader */
    shaderCenter: real,
    shaderWidth: real)

  datatype Event =
    | MouseDown(button: int, clientX: real, clientY: real)
    | MouseMove(clientX: real, clientY: real)
    | MouseUp
    | MouseLeave
    | RotateLeft
    | RotateRight
    | OptimizeWindow
    | WindowLevel
    | Wheel(deltaY: real)

  function MaxReal(a: real, b: real): real { if a >= b then a else b }
  function MinInt(a: int, b: int): int { if a <= b then a else b }
  function MaxInt(a: int, b: int): int { if a >= b then a else b }

  /** JavaScript's `%` on integers: the remainder takes the sign of the dividend. */
  function JsRem(a: int, n: int): (r: int)
    requires n > 0
    ensures -n < r < n
    ensures a >= 0 ==> r >= 0
    ensures a <= 0 ==> r <= 0
  {
    if a >= 0 then a % n else -((-a) % n)
  }

  /** The JavaScript remainder differs from its dividend by a multiple of 360. */
  lemma JsRemCongruent(a: int)
    ensures (a - JsRem(a, 360)) % 360 == 0
  {
    if a >= 0 {
      assert a == 360 * (a / 360) + a % 360;
    } else {
      assert -a == 360 * ((-a) / 360) + (-a) % 360;
      assert a - JsRem(a, 360) == 360 * -((-a) / 360);
    }
  }

  /** `(this.rotation ± 90) % 360` on a JavaScript number. */
  function Turn(r: Rotation, delta: int): Rotation {
    match r
    case Degrees(d) => Degrees(JsRem(d + delta, 360))
    case _ => NotANumber
  }

  /** Moving the mouse while dragging: width grows with x, centre with upward motion. */
  function Drag(v: View, x: real, y: real): View {
    var width := MaxReal(1.0, v.windowWidth + (x - v.lastMouseX));
    var center := v.windowCenter + (v.lastMouseY - y);
    v.(windowWidth := width, windowCenter := center,
       shaderCenter := center, shaderWidth := width,
       lastMouseX := x, lastMouseY := y)
  }

  /** The wheel handler, followed by `loadSlice(currentSlice)`, which keeps the slice. */
  function Scroll(v: View, deltaY: real): View {
    if !v.hasImage || v.totalSlices <= 1 then v
    else if deltaY < 0.0 then v.(currentSlice := MinInt(v.currentSlice + 1, v.totalSlices - 1))
    else v.(currentSlice := MaxInt(v.currentSlice - 1, 0))
  }

  /**
   * One handler.  The two mode items set the mode and the buttons' classes
   * and then throw on the missing `roiCanvas`, so nothing after that runs.
   */
  function Step(v: View, e: Event): View {
    match e
    case MouseDown(button, x, y) =>
      if button == 0 then v.(isWindowLevelDrag := true, lastMouseX := x, lastMouseY := y) else v
    case MouseMove(x, y) => if v.isWindowLevelDrag then Drag(v, x, y) else v
    case MouseUp => v.(isWindowLevelDrag := false)
    case MouseLeave => v.(isWindowLevelDrag := false)
    case RotateLeft => if v.hasImage then v.(rotation := Turn(v.rotation, -90)) else v
    case RotateRight => if v.hasImage then v.(rotation := Turn(v.rotation, 90)) else v
    case OptimizeWindow =>
      if v.hasImage then v.(mode := RegionOfInterest, optimizeActive := true, windowLevelActive := false) else v
    case WindowLevel =>
      if v.hasImage then v.(mode := WindowLevelMode, windowLevelActive := true, optimizeActive := false) else v
    case Wheel(deltaY) => Scroll(v, deltaY)
  }

  // ---- dragging ----

  /** A left-button press starts a drag at the pointer; other buttons do nothing; release or leave ends it. */
  lemma DragStartsAndEnds(v: View, button: int, x: real, y: real)
    ensures button == 0 ==> Step(v, MouseDown(button, x, y)).isWindowLevelDrag
    ensures button == 0 ==> Step(v, MouseDown(button, x, y)).lastMouseX == x
    ensures button == 0 ==> Step(v, MouseDown(button, x, y)).lastMouseY == y
    ensures button != 0 ==> Step(v, MouseDown(button, x, y)) == v
    ensures !Step(v, MouseUp).isWindowLevelDrag && !Step(v, MouseLeave).isWindowLevelDrag
    ensures Step(v, MouseUp).(isWindowLevelDrag := v.isWindowLevelDrag) == v
    ensures Step(v, MouseLeave).(isWindowLevelDrag := v.isWindowLevelDrag) == v
  {
  }

  /**
   * A move during a drag widens the window by the horizontal motion (never
   * below 1), raises the centre by the upward motion, and pushes both to the
   * shader; without a drag a move changes nothing.
   */
  lemma MoveAdjustsWindow(v: View, x: real, y: real)
    ensures var u := Step(v, MouseMove(x, y));
      v.isWindowLevelDrag ==>
        u.windowWidth >= 1.0 &&
        (v.windowWidth + (x - v.lastMouseX) >= 1.0 ==> u.windowWidth == v.windowWidth + (x - v.lastMouseX)) &&
        u.windowCenter == v.windowCenter + (v.lastMouseY - y) &&
        u.shaderCenter == u.windowCenter && u.shaderWidth == u.windowWidth &&
        u.lastMouseX == x && u.lastMouseY == y
    ensures !v.isWindowLevelDrag ==> Step(v, MouseMove(x, y)) == v
  {
  }

  /** Press at (x0, y0), move to (x1, y1): the window follows the whole motion. */
  lemma PressThenMove(v: View, x0: real, y0: real, x1: real, y1: real)
    ensures var u := Step(Step(v, MouseDown(0, x0, y0)), MouseMove(x1, y1));
      u.windowWidth == MaxReal(1.0, v.windowWidth + (x1 - x0)) &&
      u.windowCenter == v.windowCenter + (y0 - y1) &&
      u.isWindowLevelDrag
  {
  }

  /** No event makes the window narrower than 1 once it is at least 1. */
  lemma WidthStaysPositive(v: View, e: Event)
    requires v.windowWidth >= 1.0
    ensures Step(v, e).windowWidth >= 1.0
    ensures v.shaderWidth >= 1.0 ==> Step(v, e).shaderWidth >= 1.0
  {
  }

  // ---- slice navigation ----

  /**
   * The wheel does nothing without an image or with at most one slice; a
   * negative delta goes one slice forward up to the last, any other delta
   * one slice back down to the first.
   */
  lemma WheelMovesOneSlice(v: View, deltaY: real)
    ensures var u := Step(v, Wheel(deltaY));
      (!v.hasImage || v.totalSlices <= 1 ==> u == v) &&
      (v.hasImage && v.totalSlices > 1 && 0 <= v.currentSlice < v.totalSlices ==>
        u.currentSlice == (if deltaY < 0.0 then
          (if v.currentSlice == v.totalSlices - 1 then v.currentSlice else v.currentSlice + 1)
        else
          (if v.currentSlice == 0 then 0 else v.currentSlice - 1))) &&
      u.(currentSlice := v.currentSlice) == v
  {
  }

  /** Every event keeps the current slice inside `[0, totalSlices)`. */
  lemma SliceStaysInRange(v: View, e: Event)
    requires 0 <= v.currentSlice < v.totalSlices
    ensures 0 <= Step(v, e).currentSlice < Step(v, e).totalSlices
  {
  }

  // ---- rotation ----

  predicate QuarterTurn(d: int) { d % 90 == 0 && -360 < d < 360 }

  lemma RemQuarter(a: int)
    requires a % 90 == 0 && -450 < a < 450
    ensures QuarterTurn(JsRem(a, 360))
  {
    if a >= 360 { assert JsRem(a, 360) == a - 360; }
    else if a <= -360 { assert JsRem(a, 360) == a + 360; }
    else if a >= 0 { assert JsRem(a, 360) == a; }
    else { assert JsRem(a, 360) == a; }
  }

  /** From a multiple of 90 strictly inside (-360, 360), a turn stays such an angle. */
  lemma TurnStaysQuarter(v: View, e: Event)
    requires v.rotation.Degrees? && QuarterTurn(v.rotation.degrees)
    requires e == RotateLeft || e == RotateRight
    ensures Step(v, e).rotation.Degrees? && QuarterTurn(Step(v, e).rotation.degrees)
  {
    var d := v.rotation.degrees;
    RemQuarter(d - 90);
    RemQuarter(d + 90);
  }

  /** A left turn then a right turn comes back to the same angle modulo 360, not always to the same number. */
  lemma LeftThenRight(v: View)
    requires v.hasImage && v.rotation.Degrees?
    ensures var u := Step(Step(v, RotateLeft), RotateRight);
      u.rotation.Degrees? && (u.rotation.degrees - v.rotation.degrees) % 360 == 0
  {
    var d := v.rotation.degrees;
    var a := JsRem(d - 90, 360);
    var b := JsRem(a + 90, 360);
    assert Step(v, RotateLeft).rotation == Degrees(a);
    assert Step(Step(v, RotateLeft), RotateRight).rotation == Degrees(b);
    JsRemCongruent(d - 90);
    JsRemCongruent(a + 90);
    SumOfMultiples(d - 90 - a, a + 90 - b);
    NegatedMultiple(d - b);
  }

  lemma SumOfMultiples(p: int, q: int)
    ensures p % 360 == 0 && q % 360 == 0 ==> (p + q) % 360 == 0
  {
    if p % 360 == 0 && q % 360 == 0 {
      var i, j := p / 360, q / 360;
      assert p + q == 360 * (i + j);
    }
  }

  lemma NegatedMultiple(p: int)
    ensures p % 360 == 0 ==> (-p) % 360 == 0
  {
    if p % 360 == 0 {
      var i := p / 360;
      assert -p == 360 * -i;
    }
  }

  /** From -270 a left then a right turn lands on 90, since JavaScript's -360 % 360 is 0. */
  lemma LeftThenRightFromMinus270(v: View)
    requires v.hasImage && v.rotation == Degrees(-270)
    ensures Step(Step(v, RotateLeft), RotateRight).rotation == Degrees(90)
  {
    assert JsRem(-360, 360) == 0;
  }

  /** Rotation starts undefined, so the first turn gives NaN, which then stays NaN. */
  lemma RotationBecomesNaN(v: View, e: Event)
    requires v.hasImage && (e == RotateLeft || e == RotateRight)
    ensures v.rotation.Unset? ==> Step(v, e).rotation.NotANumber?
    ensures v.rotation.NotANumber? ==> Step(v, e).rotation.NotANumber?
  {
  }

  // ---- modes ----

  /**
   * Turns and mode items act only with an image; each mode item selects
   * its mode and makes its own button the only active one.
   */
  lemma ModeButtonsExclusive(v: View, e: Event)
    requires e == RotateLeft || e == RotateRight || e == OptimizeWindow || e == WindowLevel
    ensures !v.hasImage ==> Step(v, e) == v
    ensures v.hasImage && e == OptimizeWindow ==>
      Step(v, e).mode == RegionOfInterest && Step(v, e).optimizeActive && !Step(v, e).windowLevelActive
    ensures v.hasImage && e == WindowLevel ==>
      Step(v, e).mode == WindowLevelMode && Step(v, e).windowLevelActive && !Step(v, e).optimizeActive
  {
  }

  /** No event leaves both mode buttons active once at most one is. */
  lemma ButtonsNeverBothActive(v: View, e: Event)
    requires !(v.optimizeActive && v.windowLevelActive)
    ensures !(Step(v, e).optimizeActive && Step(v, e).windowLevelActive)
  {
  }

  // ---- the fragment shader ----

  /**
   * The window transform of the fragment shader: 0 at or below the window's
   * lower edge, 1 at or above its upper edge, linear in between.
   */
  function WindowTransform(value: real, center: real, width: real): (r: real)
    ensures 0.0 <= r <= 1.0
    ensures value <= center - width / 2.0 ==> r == 0.0
    ensures value > center - width / 2.0 && value >= center + width / 2.0 ==> r == 1.0
  {
    var lo := center - width / 2.0;
    var hi := center + width / 2.0;
    if value <= lo then 0.0
    else if value >= hi then 1.0
    else
      var a := value - lo;
      FractionBounds(a, width);
      a / width
  }

  lemma FractionBounds(a: real, w: real)
    requires 0.0 < a < w
    ensures 0.0 < a / w < 1.0
  {
    var q := a / w;
    assert q * w == a;
    assert q > 0.0;
    if q >= 1.0 {
      MulAtLeast(q, w);
      assert false;
    }
  }

  lemma MulAtLeast(q: real, w: real)
    ensures q >= 1.0 && w > 0.0 ==> q * w >= w
  {
    if q >= 1.0 && w > 0.0 {
      var e := q - 1.0;
      assert q * w == w + e * w;
      assert e * w >= 0.0;
    }
  }

  lemma DivMonotone(a: real, b: real, w: real)
    requires 0.0 < w && a <= b
    ensures a / w <= b / w
  {
    assert b / w - a / w == (b - a) / w;
  }

  /** Brighter texels never display darker, and a positive window is linear inside its edges. */
  lemma WindowTransformMonotone(v1: real, v2: real, center: real, width: real)
    requires v1 <= v2
    ensures WindowTransform(v1, center, width) <= WindowTransform(v2, center, width)
    ensures width > 0.0 && center - width / 2.0 < v1 < center + width / 2.0 ==>
      WindowTransform(v1, center, width) == (v1 - (center - width / 2.0)) / width
  {
    var lo := center - width / 2.0;
    var hi := center + width / 2.0;
    if lo < v1 && v2 < hi {
      DivMonotone(v1 - lo, v2 - lo, width);
    }
  }

  /** What the screen shows for a texel: the shader's uniforms, not the viewer's fields. */
  function Displayed(v: View, texel: real): real {
    WindowTransform(texel, v.shaderCenter, v.shaderWidth)
  }

  // ---- upload ----

  /** The JSON body of a response from the upload endpoint. */
  datatype UploadReply = UploadReply(
    status: string,
    slices: Option<seq<string>>,
    totalSlices: int,
    imageId: string,
    windowWidth: real,
    windowCenter: real,
    dataMin: real,
    dataMax: real,
    bitDepth: Option<nat>,
    message: Option<string>)

  /** How an upload ends: an exception (with its message), a non-OK status, or a parsed reply. */
  datatype UploadOutcome =
    | Thrown(reason: string)
    | HttpFailure(status: int, body: string)
    | Received(reply: UploadReply)

  predicate Succeeded(o: UploadOutcome) {
    o.Received? && o.reply.status == "success" && o.reply.slices.Some? && |o.reply.slices.value| > 0
  }

  /** `data.bit_depth || 8`: a missing or zero depth means 8. */
  function BitDepthOf(b: Option<nat>): (r: nat)
    ensures r > 0
    ensures b.Some? && b.value > 0 ==> r == b.value
  {
    if b.Some? && b.value != 0 then b.value else 8
  }

  function Pow2(n: nat): (r: nat)
    ensures r >= 1
  {
    if n == 0 then 1 else 2 * Pow2(n - 1)
  }

  /** `Math.pow(2, this.bitDepth) - 1`. */
  function MaxValueFor(b: Option<nat>): int {
    Pow2(BitDepthOf(b)) - 1
  }

  /** The fields a successful upload installs; any other outcome changes nothing. */
  function Install(v: View, o: UploadOutcome): View {
    if Succeeded(o) then Installed(v, o.reply) else v
  }

  /** The viewer after the success branch of `uploadFile` has run on reply d. */
  function Installed(v: View, d: UploadReply): View {
      var depth := BitDepthOf(d.bitDepth);
      View(
        windowCenter := d.windowCenter,
        windowWidth := d.windowWidth,
        currentSlice := 0,
        totalSlices := d.totalSlices,
        imageId := Some(d.imageId),
        currentLabel := v.currentLabel,
        lastMouseX := v.lastMouseX,
        lastMouseY := v.lastMouseY,
        isWindowLevelDrag := v.isWindowLevelDrag,
        rotation := v.rotation,
        mode := v.mode,
        optimizeActive := v.optimizeActive,
        windowLevelActive := v.windowLevelActive,
        hasImage := true,
        slices := d.slices,
        dataMin := Some(d.dataMin),
        dataMax := Some(d.dataMax),
        bitDepth := Some(depth),
        maxValue := Some(MaxValueFor(d.bitDepth)),
        shaderCenter := v.shaderCenter,
        shaderWidth := v.shaderWidth)
  }

  /** The message `showError` displays for an outcome; none on success. */
  function UploadError(o: UploadOutcome): (r: Option<string>)
    ensures r.None? <==> Succeeded(o)
  {
    match o
    case Thrown(reason) => Some("Upload failed: " + reason)
    case HttpFailure(status, body) =>
      Some("Upload failed: " + ("HTTP error! status: " + IntToDecimal(status) + ", message: " + body))
    case Received(d) =>
      if Succeeded(o) then None
      else if d.message.Some? && d.message.value != "" then Some(d.message.value)
      else Some("Failed to process image")
  }

  /**
   * A successful upload installs the reply's slices, counts, id, window and
   * data range, starts at slice 0, sets `maxValue = 2^bitDepth - 1`, and
   * leaves rotation, mode and the shader uniforms as they were.
   */
  lemma UploadInstalls(v: View, o: UploadOutcome)
    requires Succeeded(o)
    ensures var u, d := Install(v, o), o.reply;
      u.hasImage && u.currentSlice == 0 && u.slices == d.slices &&
      u.totalSlices == d.totalSlices && u.imageId == Some(d.imageId) &&
      u.windowWidth == d.windowWidth && u.windowCenter == d.windowCenter &&
      u.dataMin == Some(d.dataMin) && u.dataMax == Some(d.dataMax) &&
      u.bitDepth.Some? && u.maxValue == Some(Pow2(u.bitDepth.value) - 1) &&
      u.rotation == v.rotation && u.mode == v.mode &&
      u.shaderCenter == v.shaderCenter && u.shaderWidth == v.shaderWidth
    ensures o.reply.bitDepth.None? ==> Install(v, o).maxValue == Some(255)
  {
    assert Pow2(8) == 256 by {
      assert Pow2(4) == 16;
    }
  }

  /** A failed upload changes no field and shows the server's message or the fallback. */
  lemma UploadFailureKeepsState(v: View, o: UploadOutcome)
    requires !Succeeded(o)
    ensures Install(v, o) == v
    ensures o.Received? && (o.reply.message.None? || o.reply.message == Some("")) ==>
      UploadError(o) == Some("Failed to process image")
    ensures o.Thrown? ==> UploadError(o) == Some("Upload failed: " + o.reason)
  {
  }

  /**
   * Of the two uploads one selection starts, a successful later reply leaves
   * the viewer as that reply alone would, whatever the earlier one did; a
   * failed later reply keeps what the earlier one installed.
   */
  lemma LaterUploadWins(v: View, first: UploadOutcome, second: UploadOutcome)
    ensures Succeeded(second) ==> Install(Install(v, first), second) == Install(v, second)
    ensures !Succeeded(second) ==> Install(Install(v, first), second) == Install(v, first)
  {
  }

  // ---- info text ----

  /** `Math.round`: the nearest integer, halves upward. */
  function Round(x: real): int { (x + 0.5).Floor }

  /** The text `updateWindowingInfo` writes. */
  function InfoText(v: View): string {
    "Window: C: " + (IntToDecimal(Round(v.windowCenter)) + (" W: " + (IntToDecimal(Round(v.windowWidth)) +
    (" | Slice: " + (IntToDecimal(v.currentSlice + 1) + ("/" + IntToDecimal(v.totalSlices)))))))
  }

  lemma DecimalChars(i: int)
    ensures ' ' !in IntToDecimal(i) && '/' !in IntToDecimal(i)
  {
    if i < 0 {
      DigitsExclude(NatToDecimal(-i), ' ');
      DigitsExclude(NatToDecimal(-i), '/');
    } else {
      DigitsExclude(NatToDecimal(i), ' ');
      DigitsExclude(NatToDecimal(i), '/');
    }
  }

  lemma DecimalIntInjective(i: int, j: int)
    requires IntToDecimal(i) == IntToDecimal(j)
    ensures i == j
  {
    if i < 0 {
      assert IntToDecimal(i)[1..] == NatToDecimal(-i);
      assert IntToDecimal(j)[1..] == NatToDecimal(-j);
      DecimalInjective(-i, -j);
    } else {
      DecimalInjective(i, j);
    }
  }

  /** Two strings free of c, each followed by text that starts with c, split uniquely. */
  lemma SplitBefore(a: string, x: string, b: string, y: string, c: char)
    requires c !in a && c !in b && |x| > 0 && |y| > 0 && x[0] == c && y[0] == c
    requires a + x == b + y
    ensures a == b && x == y
  {
    CharAt(a, x, |b|);
    CharAt(b, y, |a|);
    assert |a| == |b|;
    assert a == (a + x)[..|a|];
    assert b == (b + y)[..|b|];
    assert x == (a + x)[|a|..];
    assert y == (b + y)[|b|..];
  }

  lemma CharAt(a: string, x: string, i: int)
    ensures 0 <= i < |a| ==> (a + x)[i] == a[i] && a[i] in a
    ensures |x| > 0 ==> (a + x)[|a|] == x[0]
  {
  }

  lemma DropPrefix(p: string, x: string, y: string)
    requires p + x == p + y
    ensures x == y
  {
    assert x == (p + x)[|p|..];
    assert y == (p + y)[|p|..];
  }

  /** The info line determines the rounded centre and width, the slice and the count it reports. */
  lemma InfoTextDetermines(v: View, w: View)
    requires InfoText(v) == InfoText(w)
    ensures Round(v.windowCenter) == Round(w.windowCenter)
    ensures Round(v.windowWidth) == Round(w.windowWidth)
    ensures v.currentSlice == w.currentSlice && v.totalSlices == w.totalSlices
  {
    var c1, c2 := IntToDecimal(Round(v.windowCenter)), IntToDecimal(Round(w.windowCenter));
    var w1, w2 := IntToDecimal(Round(v.windowWidth)), IntToDecimal(Round(w.windowWidth));
    var s1, s2 := IntToDecimal(v.currentSlice + 1), IntToDecimal(w.currentSlice + 1);
    var t1, t2 := IntToDecimal(v.totalSlices), IntToDecimal(w.totalSlices);
    var q1, q2 := s1 + ("/" + t1), s2 + ("/" + t2);
    var r1, r2 := w1 + (" | Slice: " + q1), w2 + (" | Slice: " + q2);
    assert c1 == c2 && r1 == r2 by {
      DecimalChars(Round(v.windowCenter));
      DecimalChars(Round(w.windowCenter));
      Field("Window: C: ", c1, " W: " + r1, c2, " W: " + r2, ' ');
      DropPrefix(" W: ", r1, r2);
    }
    assert w1 == w2 && q1 == q2 by {
      DecimalChars(Round(v.windowWidth));
      DecimalChars(Round(w.windowWidth));
      SplitBefore(w1, " | Slice: " + q1, w2, " | Slice: " + q2, ' ');
      DropPrefix(" | Slice: ", q1, q2);
    }
    assert s1 == s2 && t1 == t2 by {
      DecimalChars(v.currentSlice + 1);
      DecimalChars(w.currentSlice + 1);
      SplitBefore(s1, "/" + t1, s2, "/" + t2, '/');
      DropPrefix("/", t1, t2);
    }
    DecimalIntInjective(Round(v.windowCenter), Round(w.windowCenter));
    DecimalIntInjective(Round(v.windowWidth), Round(w.windowWidth));
    DecimalIntInjective(v.currentSlice + 1, w.currentSlice + 1);
    DecimalIntInjective(v.totalSlices, w.totalSlices);
  }

  /** Behind equal prefixes, a field free of the separator and what follows it are equal. */
  lemma Field(p: string, a: string, x: string, b: string, y: string, c: char)
    requires c !in a && c !in b && |x| > 0 && |y| > 0 && x[0] == c && y[0] == c
    requires p + (a + x) == p + (b + y)
    ensures a == b && x == y
  {
    DropPrefix(p, a + x, b + y);
    SplitBefore(a, x, b, y, c);
  }

  // ---- saved state ----

  /** The object `getState` returns. */
  datatype SavedState = SavedState(
    windowCenter: real,
    windowWidth: real,
    currentSlice: int,
    totalSlices: int,
    imageId: Option<string>,
    slices: Option<seq<string>>,
    rotation: Rotation,
    currentLabel: string,
    bitDepth: Option<nat>,
    dataMin: Option<real>,
    dataMax: Option<real>)

  function Saved(v: View): SavedState {
    SavedState(v.windowCenter, v.windowWidth, v.currentSlice, v.totalSlices, v.imageId,
      v.slices, v.rotation, v.currentLabel, v.bitDepth, v.dataMin, v.dataMax)
  }

  /** A truthy image id: present and not the empty string. */
  predicate Truthy(id: Option<string>) { id.Some? && id.value != "" }

  /** The state a freshly constructed viewer is in, with or without a saved state. */
  function Restore(state: Option<SavedState>): View {
    var center := if state.Some? then state.value.windowCenter else 128.0;
    var width := if state.Some? then state.value.windowWidth else 255.0;
    View(
      windowCenter := center,
      windowWidth := width,
      currentSlice := if state.Some? then state.value.currentSlice else 0,
      totalSlices := if state.Some? then state.value.totalSlices else 0,
      imageId := if state.Some? then state.value.imageId else None,
      currentLabel := if state.Some? then state.value.currentLabel else "",
      lastMouseX := 0.0,
      lastMouseY := 0.0,
      isWindowLevelDrag := false,
      rotation := Unset,
      mode := NoMode,
      optimizeActive := false,
      windowLevelActive := false,
      hasImage := state.Some? && Truthy(state.value.imageId),
      slices := None,
      dataMin := None,
      dataMax := None,
      bitDepth := None,
      maxValue := None,
      shaderCenter := center,
      shaderWidth := width)
  }

  /** Without a saved state a viewer starts at 128 / 255 / slice 0 of 0, no id, no label, no image. */
  lemma RestoreDefaults()
    ensures var v := Restore(None);
      v.windowCenter == 128.0 && v.windowWidth == 255.0 && v.currentSlice == 0 &&
      v.totalSlices == 0 && v.imageId == None && v.currentLabel == "" && !v.hasImage &&
      v.rotation == Unset
  {
  }

  /**
   * Saving and restoring keeps centre, width, slice, count, id and label;
   * rotation, bit depth, data range and slices are saved but come back unset,
   * and the image flag comes back exactly when the id is truthy.
   */
  lemma RestoreRoundTrip(v: View)
    ensures var u := Restore(Some(Saved(v)));
      u.windowCenter == v.windowCenter && u.windowWidth == v.windowWidth &&
      u.currentSlice == v.currentSlice && u.totalSlices == v.totalSlices &&
      u.imageId == v.imageId && u.currentLabel == v.currentLabel &&
      u.rotation == Unset && u.bitDepth == None && u.dataMin == None &&
      u.dataMax == None && u.slices == None &&
      (u.hasImage <==> Truthy(v.imageId))
    ensures Saved(Restore(Some(Saved(v)))).(rotation := v.rotation, bitDepth := v.bitDepth,
      dataMin := v.dataMin, dataMax := v.dataMax, slices := v.slices) == Saved(v)
  {
  }

  // ---- grid layout ----

  /** `Number(s)` for the strings a layout holds: digits give their value ("" is 0), anything else NaN. */
  function JsNumber(s: string): Option<nat> {
    if AllDigits(s) then Some(DigitsValue(s)) else None
  }

  /** `rows * cols` from `value.split("x").map(Number)`, and how many cells the loop creates. */
  function CellCount(layout: string): nat {
    var parts := Split(layout, 'x');
    if |parts| < 2 then 0
    else
      var rows, cols := JsNumber(parts[0]), JsNumber(parts[1]);
      if rows.Some? && cols.Some? then rows.value * cols.value else 0
  }

  /** "RxC" with digit strings R and C gives R·C cells. */
  lemma CellCountOfLayout(r: string, c: string)
    requires AllDigits(r) && AllDigits(c)
    ensures CellCount(r + "x" + c) == DigitsValue(r) * DigitsValue(c)
  {
    DigitsExclude(r, 'x');
    DigitsExclude(c, 'x');
    SplitJoin(r, c, 'x');
    assert r + "x" + c == r + ['x'] + c;
  }

  /** The state handed to the new viewer in cell i: the old viewer i's, or none. */
  function StateFor(existing: seq<SavedState>, i: nat): (r: Option<SavedState>)
    ensures i < |existing| ==> r == Some(existing[i])
    ensures i >= |existing| ==> r == None
  {
    if i < |existing| then Some(existing[i]) else None
  }

  /**
   * After a re-layout, cell i shows old viewer i's centre, width, slice,
   * count, id and label when there was one; later cells start from the
   * defaults, and saved states beyond the cell count are dropped.
   */
  lemma GridCarriesStates(old_: seq<View>, i: nat)
    ensures var u := Restore(StateFor(seq(|old_|, k requires 0 <= k < |old_| => Saved(old_[k])), i));
      (i < |old_| ==>
        u.windowCenter == old_[i].windowCenter && u.windowWidth == old_[i].windowWidth &&
        u.currentSlice == old_[i].currentSlice && u.totalSlices == old_[i].totalSlices &&
        u.imageId == old_[i].imageId && u.currentLabel == old_[i].currentLabel) &&
      (i >= |old_| ==> u == Restore(None))
  {
    if i < |old_| {
      RestoreRoundTrip(old_[i]);
    }
  }

  class ImageViewer {
    var windowCenter: real
    var windowWidth: real
    var currentSlice: int
    var totalSlices: int
    var imageId: Option<string>
    var currentLabel: string
    var lastMouseX: real
    var lastMouseY: real
    var isWindowLevelDrag: bool
    var rotation: Rotation
    var mode: Mode
    var optimizeActive: bool
    var windowLevelActive: bool
    var hasImage: bool
    var slices: Option<seq<string>>
    var dataMin: Option<real>
    var dataMax: Option<real>
    var bitDepth: Option<nat>
    var maxValue: Option<int>
    var shaderCenter: real
    var shaderWidth: real

    function Snapshot(): View
      reads this
    {
      View(windowCenter, windowWidth, currentSlice, totalSlices, imageId, currentLabel,
        lastMouseX, lastMouseY, isWindowLevelDrag, rotation, mode, optimizeActive,
        windowLevelActive, hasImage, slices, dataMin, dataMax, bitDepth, maxValue,
        shaderCenter, shaderWidth)
    }

    /** `getState()`. */
    function GetState(): SavedState
      reads this
    {
      SavedState(windowCenter, windowWidth, currentSlice, totalSlices, imageId,
        slices, rotation, currentLabel, bitDepth, dataMin, dataMax)
    }

    /** `new ImageViewer(container, state)`; the shader is created with the restored window. */
    constructor(state: Option<SavedState>)
      ensures Snapshot() == Restore(state)
    {
      windowCenter := if state.Some? then state.value.windowCenter else 128.0;
      windowWidth := if state.Some? then state.value.windowWidth else 255.0;
      currentSlice := if state.Some? then state.value.currentSlice else 0;
      totalSlices := if state.Some? then state.value.totalSlices else 0;
      imageId := if state.Some? then state.value.imageId else None;
      lastMouseX := 0.0;
      lastMouseY := 0.0;
      currentLabel := if state.Some? then state.value.currentLabel else "";
      isWindowLevelDrag := false;
      rotation := Unset;
      mode := NoMode;
      optimizeActive := false;
      windowLevelActive := false;
      slices := None;
      dataMin := None;
      dataMax := None;
      bitDepth := None;
      maxValue := None;
      shaderCenter := windowCenter;
      shaderWidth := windowWidth;
      // `loadSlice` returns at once: no slices are restored
      hasImage := state.Some? && Truthy(state.value.imageId);
    }

    method OnMouseDown(button: int, clientX: real, clientY: real)
      modifies this
      ensures Snapshot() == Step(old(Snapshot()), MouseDown(button, clientX, clientY))
    {
      if button == 0 {
        isWindowLevelDrag := true;
        lastMouseX := clientX;
        lastMouseY := clientY;
      }
    }

    method OnMouseMove(clientX: real, clientY: real)
      modifies this
      ensures Snapshot() == Step(old(Snapshot()), MouseMove(clientX, clientY))
    {
      if isWindowLevelDrag {
        var deltaX := clientX - lastMouseX;
        var deltaY := lastMouseY - clientY;
        windowWidth := MaxReal(1.0, windowWidth + deltaX);
        windowCenter := windowCenter + deltaY;
        shaderCenter := windowCenter;
        shaderWidth := windowWidth;
        lastMouseX := clientX;
        lastMouseY := clientY;
      }
    }

    method OnMouseUp()
      modifies this
      ensures Snapshot() == Step(old(Snapshot()), MouseUp)
    {
      isWindowLevelDrag := false;
    }

    method OnMouseLeave()
      modifies this
      ensures Snapshot() == Step(old(Snapshot()), MouseLeave)
    {
      isWindowLevelDrag := false;
    }

    /** The rotate-left button and the "rotate-left" menu item. */
    method OnRotateLeft()
      modifies this
      ensures Snapshot() == Step(old(Snapshot()), RotateLeft)
    {
      if hasImage {
        rotation := Turn(rotation, -90);
      }
    }

    /** The rotate-right button and the "rotate-right" menu item. */
    method OnRotateRight()
      modifies this
      ensures Snapshot() == Step(old(Snapshot()), RotateRight)
    {
      if hasImage {
        rotation := Turn(rotation, 90);
      }
    }

    /** The "optimize-window" menu item, up to the throw on the missing ROI canvas. */
    method OnOptimizeWindow()
      modifies this
      ensures Snapshot() == Step(old(Snapshot()), OptimizeWindow)
    {
      if hasImage {
        mode := RegionOfInterest;
        optimizeActive := true;
        windowLevelActive := false;
      }
    }

    /** The "window-level" menu item, up to the throw on the missing ROI canvas. */
    method OnWindowLevel()
      modifies this
      ensures Snapshot() == Step(old(Snapshot()), WindowLevel)
    {
      if hasImage {
        mode := WindowLevelMode;
        windowLevelActive := true;
        optimizeActive := false;
      }
    }

    method OnWheel(deltaY: real)
      modifies this
      ensures Snapshot() == Step(old(Snapshot()), Wheel(deltaY))
    {
      if !hasImage {
        return;
      }
      if totalSlices <= 1 {
        return;
      }
      if deltaY < 0.0 {
        currentSlice := MinInt(currentSlice + 1, totalSlices - 1);
      } else {
        currentSlice := MaxInt(currentSlice - 1, 0);
      }
      LoadSlice(currentSlice);
    }

    /** `loadSlice(n)`: with slices present it selects slice n; the texture is not modelled. */
    method LoadSlice(sliceNumber: int)
      modifies this
      ensures slices.Some? && |slices.value| > 0 ==> Snapshot() == old(Snapshot()).(currentSlice := sliceNumber)
      ensures !(slices.Some? && |slices.value| > 0) ==> Snapshot() == old(Snapshot())
    {
      if slices.None? || |slices.value| == 0 {
        return;
      }
      currentSlice := sliceNumber;
    }

    /** `uploadFile(file)`, given how the request ended; returns the error it shows, if any. */
    method UploadFile(outcome: UploadOutcome) returns (shown: Option<string>)
      modifies this
      ensures Snapshot() == Install(old(Snapshot()), outcome)
      ensures shown == UploadError(outcome)
    {
      match outcome
      case Thrown(reason) =>
        shown := Some("Upload failed: " + reason);
      case HttpFailure(status, body) =>
        var message := "HTTP error! status: " + IntToDecimal(status) + ", message: " + body;
        shown := Some("Upload failed: " + message);
      case Received(data) =>
        if data.status == "success" && data.slices.Some? && |data.slices.value| > 0 {
          InstallReply(data);
          shown := None;
        } else {
          shown := Some(if data.message.Some? && data.message.value != "" then data.message.value
            else "Failed to process image");
        }
    }

    /**
     * A file selection.  The file input carries two "change" listeners, so
     * both call `uploadFile` and two requests go out; the outcomes are given
     * in the order their replies are handled.
     */
    method OnFileSelected(first: UploadOutcome, second: UploadOutcome) returns (shown: seq<Option<string>>)
      modifies this
      ensures Snapshot() == Install(Install(old(Snapshot()), first), second)
      ensures shown == [UploadError(first), UploadError(second)]
    {
      var a := UploadFile(first);
      var b := UploadFile(second);
      shown := [a, b];
    }

    /** The success branch of `uploadFile`. */
    method InstallReply(data: UploadReply)
      modifies this
      ensures Snapshot() == Installed(old(Snapshot()), data)
    {
      InstallSlices(data);
      InstallWindow(data);
      InstallRange(data);
      InstallDepth(data);
      // `loadSlice(this.currentSlice)` selects slice 0, which is already current
      hasImage := true;
    }

    /** The reply's slices, count and id, and slice 0 selected. */
    method InstallSlices(data: UploadReply)
      modifies this
      ensures Snapshot() == old(Snapshot()).(slices := data.slices, totalSlices := data.totalSlices,
        currentSlice := 0, imageId := Some(data.imageId))
    {
      slices := data.slices;
      totalSlices := data.totalSlices;
      currentSlice := 0;
      imageId := Some(data.imageId);
    }

    /** The reply's window. */
    method InstallWindow(data: UploadReply)
      modifies this
      ensures Snapshot() == old(Snapshot()).(windowWidth := data.windowWidth, windowCenter := data.windowCenter)
    {
      windowWidth := data.windowWidth;
      windowCenter := data.windowCenter;
    }

    /** The reply's data range. */
    method InstallRange(data: UploadReply)
      modifies this
      ensures Snapshot() == old(Snapshot()).(dataMin := Some(data.dataMin), dataMax := Some(data.dataMax))
    {
      dataMin := Some(data.dataMin);
      dataMax := Some(data.dataMax);
    }

    /** The reply's bit depth, 8 by default, and the largest pixel value it allows. */
    method InstallDepth(data: UploadReply)
      modifies this
      ensures Snapshot() == old(Snapshot()).(bitDepth := Some(BitDepthOf(data.bitDepth)),
        maxValue := Some(MaxValueFor(data.bitDepth)))
    {
      bitDepth := Some(BitDepthOf(data.bitDepth));
      maxValue := Some(MaxValueFor(data.bitDepth));
    }
  }

  /** `viewers.map(viewer => viewer.getState())`. */
  function SavedStates(viewers: seq<ImageViewer>): (r: seq<SavedState>)
    reads viewers
    ensures |r| == |viewers|
    ensures forall i | 0 <= i < |viewers| :: r[i] == Saved(viewers[i].Snapshot())
  {
    if viewers == [] then [] else [viewers[0].GetState()] + SavedStates(viewers[1..])
  }

  class GridManager {
    var viewers: seq<ImageViewer>

    constructor()
      ensures viewers == []
    {
      viewers := [];
    }

    /** `updateGrid()`: rebuild the grid for `layout`, handing each new viewer its predecessor's state. */
    method UpdateGrid(layout: string)
      modifies this
      ensures |viewers| == CellCount(layout)
      ensures forall i | 0 <= i < |viewers| ::
        fresh(viewers[i]) && viewers[i].Snapshot() == Restore(StateFor(old(SavedStates(viewers)), i))
    {
      var totalCells := CellCount(layout);
      var existingStates := SavedStates(viewers);
      viewers := [];
      var i := 0;
      while i < totalCells
        invariant 0 <= i <= totalCells
        invariant |viewers| == i
        invariant existingStates == old(SavedStates(viewers))
        invariant forall k | 0 <= k < i ::
          fresh(viewers[k]) && viewers[k].Snapshot() == Restore(StateFor(existingStates, k))
      {
        var state := if i < |existingStates| then Some(existingStates[i]) else None;
        assert state == StateFor(existingStates, i);
        var viewer := new ImageViewer(state);
        viewers := viewers + [viewer];
        i := i + 1;
      }
    }
  }
}
