/**
 * The image canvas (ImageView): a uniform scale with its fit-to-image and
 * fit-to-window flags, the three content slots (vector, animation, decoded
 * bitmap), the current path, the stale-result guard on the background decode,
 * and the notifications the view sends to the toolbar and the navigation logic.
 */
module View {
  import opened Wrappers
  import Paths

  const MaxScaleFactor: real := 20.0
  const MinScaleFactor: real := 0.02
  /** The half-width of the band in which a scale counts as equal to a fit target. */
  const Tolerance: real := 0.01

  /** Pixel size of the picture image() renders; a picture with no pixels is null. */
  datatype Size = Size(width: nat, height: nat)

  predicate IsNull(s: Size)
  {
    s.width == 0 || s.height == 0
  }

  /** A scene item: the picture it shows and its bounding rectangle in scene units. */
  datatype Item = Item(pixels: Size, boundsWidth: real, boundsHeight: real)

  /** An item's bounding rectangle is empty exactly when its picture is null. */
  predicate WellFormed(it: Item)
  {
    it.boundsWidth >= 0.0 && it.boundsHeight >= 0.0 &&
    (IsNull(it.pixels) <==> (it.boundsWidth == 0.0 || it.boundsHeight == 0.0))
  }

  /** The signals the view emits, in the order it emits them. */
  datatype Signal =
    | CheckAdaptImageBtn | DisCheckAdaptImageBtn
    | CheckAdaptScreenBtn | DisCheckAdaptScreenBtn
    | Scaled(percent: real) | ShowScaleLabel | TransformChanged
    | ImageChanged(path: string) | HideNavigation
    | NextRequested | PreviousRequested

  /** A request to the external collaborator that rotates the file on disk. */
  datatype Rotation = Rotation(path: string, degrees: int)

  function Abs(x: real): real
  {
    if x < 0.0 then -x else x
  }

  function Min(a: real, b: real): real
  {
    if a <= b then a else b
  }

  function Max(a: real, b: real): real
  {
    if a >= b then a else b
  }

  /** The two comparisons the view makes before checking a toolbar button. */
  function Near(a: real, b: real): (r: bool)
    ensures r <==> Abs(a - b) < Tolerance
  {
    a - b > -Tolerance && a - b < Tolerance
  }

  /** "1:1 size" is checked when the scale is within the tolerance of 1. */
  function AdaptImageSignal(s: real): (r: Signal)
    ensures r == CheckAdaptImageBtn || r == DisCheckAdaptImageBtn
    ensures r == CheckAdaptImageBtn <==> Abs(s - 1.0) < Tolerance
  {
    if Near(s, 1.0) then CheckAdaptImageBtn else DisCheckAdaptImageBtn
  }

  /**
   * "Fit to window" is checked when the scale is within the tolerance of the
   * window-relative scale. When that scale is not a finite number (None) both
   * floating-point comparisons fail, so the button is unchecked.
   */
  function AdaptScreenSignal(s: real, wrs: Option<real>): (r: Signal)
    ensures r == CheckAdaptScreenBtn || r == DisCheckAdaptScreenBtn
    ensures r == CheckAdaptScreenBtn <==> wrs.Some? && Abs(s - wrs.value) < Tolerance
  {
    if wrs.Some? && Near(s, wrs.value) then CheckAdaptScreenBtn else DisCheckAdaptScreenBtn
  }

  /**
   * windowRelativeScale: when the viewport is wider in aspect than the scene
   * the height constrains (height / sceneHeight), otherwise the width does
   * (width / sceneWidth). The aspect comparison is made by cross-multiplying;
   * for the zero sizes the outcome is the one IEEE arithmetic gives (a zero
   * viewport height makes the left ratio +infinity), and None stands for an
   * infinite or NaN quotient.
   */
  function WindowRelativeScale(vw: nat, vh: nat, sw: real, sh: real): (r: Option<real>)
    requires sw >= 0.0 && sh >= 0.0
    ensures r.Some? ==> r.value >= 0.0
  {
    var w, h := vw as real, vh as real;
    var wider := if vh > 0 && sh > 0.0 then w * sh > sw * h else vh == 0 && vw > 0 && sh > 0.0;
    if wider then Some(h / sh)
    else if sw > 0.0 then Some(w / sw)
    else None
  }

  /** The scale is undefined (an infinite or NaN quotient) exactly when the scene has no width and either no height or the viewport no width. */
  lemma WindowRelativeScaleUndefined(vw: nat, vh: nat, sw: real, sh: real)
    requires sw >= 0.0 && sh >= 0.0
    ensures WindowRelativeScale(vw, vh, sw, sh).None? <==> sw == 0.0 && (sh == 0.0 || vw == 0)
  {
    if vw > 0 && sh > 0.0 {
      SignOfProduct(vw as real, sh);
    }
  }

  /** For a non-empty viewport and scene, the window-relative scale is the smaller of the two ratios. */
  lemma WindowRelativeScaleIsMin(vw: nat, vh: nat, sw: real, sh: real)
    requires vw > 0 && vh > 0 && sw > 0.0 && sh > 0.0
    ensures var r := WindowRelativeScale(vw, vh, sw, sh);
      r.Some? && r.value == Min(vw as real / sw, vh as real / sh)
  {
    var w, h := vw as real, vh as real;
    var a, b := h / sh, w / sw;
    assert a * sh == h;
    assert b * sw == w;
    CrossMultiply(w, h, sw, sh, a, b);
  }

  lemma CrossMultiply(w: real, h: real, sw: real, sh: real, a: real, b: real)
    requires sw > 0.0 && sh > 0.0 && a * sh == h && b * sw == w
    ensures (w * sh > sw * h) <==> (a < b)
  {
    assert w * sh == (b * sw) * sh;
    assert sw * h == (a * sh) * sw;
    assert (b * sw) * sh - (a * sh) * sw == (b - a) * (sw * sh);
    assert sw * sh > 0.0;
    SignOfProduct(b - a, sw * sh);
  }

  lemma SignOfProduct(x: real, y: real)
    requires y > 0.0
    ensures x * y > 0.0 <==> x > 0.0
  {
    if x > 0.0 {
      assert x * y > 0.0;
    } else {
      assert x * y <= 0.0;
    }
  }

  /**
   * fitWindow's scale makes the scene touch the viewport on the constraining
   * axis and fit inside it on the other, so the whole image is shown with its
   * aspect ratio.
   */
  lemma WindowRelativeScaleFits(vw: nat, vh: nat, sw: real, sh: real)
    requires vw > 0 && vh > 0 && sw > 0.0 && sh > 0.0
    ensures var r := WindowRelativeScale(vw, vh, sw, sh).value;
      r > 0.0 && r * sw <= vw as real && r * sh <= vh as real &&
      (r * sw == vw as real || r * sh == vh as real)
  {
    WindowRelativeScaleIsMin(vw, vh, sw, sh);
    var w, h := vw as real, vh as real;
    var a, b := h / sh, w / sw;
    assert a * sh == h && b * sw == w;
    assert a > 0.0 && b > 0.0;
    if a <= b {
      assert a * sw <= b * sw;
    } else {
      assert b * sh < a * sh;
    }
  }

  /** Whether setScaleValue rolls the scale back to a bound. */
  predicate RollsBack(s: real, v: real)
  {
    (v < 1.0 && s * v <= MinScaleFactor) || (v > 1.0 && s * v >= MaxScaleFactor)
  }

  /** The scale setScaleValue leaves, from the scale s it starts at and its factor v. */
  function ScaleAfter(s: real, v: real): real
  {
    var p := s * v;
    if v < 1.0 && p <= MinScaleFactor then MinScaleFactor
    else if v > 1.0 && p >= MaxScaleFactor then MaxScaleFactor
    else p
  }

  /**
   * One zoom step keeps the scale positive and within the bounds, moves it in
   * the direction of the factor unless it was rolled back to a bound, and a
   * factor of 1 leaves it unchanged.
   */
  lemma ScaleAfterOrder(s: real, v: real)
    requires s > 0.0 && v > 0.0
    ensures ScaleAfter(s, v) > 0.0
    ensures MinScaleFactor <= s <= MaxScaleFactor ==> MinScaleFactor <= ScaleAfter(s, v) <= MaxScaleFactor
    ensures v < 1.0 ==> ScaleAfter(s, v) < s || ScaleAfter(s, v) == MinScaleFactor
    ensures v > 1.0 ==> ScaleAfter(s, v) > s || ScaleAfter(s, v) == MaxScaleFactor
    ensures v == 1.0 ==> ScaleAfter(s, v) == s
    ensures !RollsBack(s, v) ==> ScaleAfter(s, v) == s * v
    ensures RollsBack(s, v) && v < 1.0 ==> ScaleAfter(s, v) == MinScaleFactor
    ensures RollsBack(s, v) && v > 1.0 ==> ScaleAfter(s, v) == MaxScaleFactor
  {
    var p := s * v;
    if v < 1.0 {
      var d := 1.0 - v;
      SignOfProduct(d, s);
      assert d * s == s - p;
    } else if v > 1.0 {
      var d := v - 1.0;
      SignOfProduct(d, s);
      assert d * s == p - s;
    } else {
      assert p == s;
    }
  }

  /**
   * setScaleValue's transform steps on a scale s: multiply by v, and when a
   * zoom-out reached the minimum or a zoom-in reached the maximum multiply
   * again by bound / scale. The intermediate scale irs is returned alongside.
   */
  method ZoomTransform(s: real, v: real) returns (irs: real, r: real)
    requires s > 0.0 && v > 0.0
    ensures irs == s * v
    ensures RollsBack(s, v) <==> (v < 1.0 && irs <= MinScaleFactor) || (v > 1.0 && irs >= MaxScaleFactor)
    ensures r == ScaleAfter(s, v) && r > 0.0
  {
    ScaleAfterOrder(s, v);
    SignOfProduct(s, v);
    irs := s * v;
    r := irs;
    if v < 1.0 && irs <= MinScaleFactor {
      var minv := MinScaleFactor / irs;
      r := r * minv;
    } else if v > 1.0 && irs >= MaxScaleFactor {
      var maxv := MaxScaleFactor / irs;
      r := r * maxv;
    }
  }

  /** The scale after n zoom steps with the same factor. */
  function ZoomSteps(s: real, v: real, n: nat): real
  {
    if n == 0 then s else ScaleAfter(ZoomSteps(s, v, n - 1), v)
  }

  function Pow(v: real, n: nat): real
  {
    if n == 0 then 1.0 else v * Pow(v, n - 1)
  }

  /** The closed form of n zoom-in steps: the scale times v to the n, clamped to the maximum. */
  function ClampedPower(s: real, v: real, n: nat): real
  {
    var q := s * Pow(v, n);
    if q >= MaxScaleFactor then MaxScaleFactor else q
  }

  /** Repeated zooming in multiplies the scale until it reaches the maximum, and then stays there. */
  lemma {:induction false} ZoomInSteps(s: real, v: real, n: nat)
    requires MinScaleFactor <= s <= MaxScaleFactor && v > 1.0
    ensures ZoomSteps(s, v, n) == ClampedPower(s, v, n)
  {
    if n > 0 {
      ZoomInSteps(s, v, n - 1);
      ZoomInStep(s, v, n);
    }
  }

  lemma ZoomInStep(s: real, v: real, n: nat)
    requires MinScaleFactor <= s <= MaxScaleFactor && v > 1.0 && n > 0
    requires ZoomSteps(s, v, n - 1) == ClampedPower(s, v, n - 1)
    ensures ZoomSteps(s, v, n) == ClampedPower(s, v, n)
  {
    var q := s * Pow(v, n - 1);
    assert q > 0.0 by {
      PowPositive(v, n - 1);
      SignOfProduct(s, Pow(v, n - 1));
    }
    var c := if q >= MaxScaleFactor then MaxScaleFactor else q;
    assert ZoomSteps(s, v, n) == ScaleAfter(c, v);
    ClampStep(q, v);
    PowStep(s, v, n);
  }

  /** One more factor of v in the power is one more factor of v on the scaled value. */
  lemma PowStep(s: real, v: real, n: nat)
    requires n > 0
    ensures s * Pow(v, n) == (s * Pow(v, n - 1)) * v
  {
    var p := Pow(v, n - 1);
    assert s * (v * p) == (s * p) * v;
  }

  /** One zoom-in step from the clamped closed form gives the clamped closed form of the next step. */
  lemma ClampStep(q: real, v: real)
    requires q > 0.0 && v > 1.0
    ensures ScaleAfter(if q >= MaxScaleFactor then MaxScaleFactor else q, v) ==
      if q * v >= MaxScaleFactor then MaxScaleFactor else q * v
  {
    SignOfProduct(v - 1.0, q);
    assert q * v > q;
    if q >= MaxScaleFactor {
      SignOfProduct(v - 1.0, MaxScaleFactor);
      assert MaxScaleFactor * v > MaxScaleFactor;
    }
  }

  lemma {:induction false} PowPositive(v: real, n: nat)
    requires v > 0.0
    ensures Pow(v, n) > 0.0
  {
    if n > 0 {
      PowPositive(v, n - 1);
      SignOfProduct(Pow(v, n - 1), v);
    }
  }

  lemma {:induction false} PowGrows(v: real, n: nat)
    requires v >= 1.0
    ensures Pow(v, n) >= 1.0 + (n as real) * (v - 1.0)
  {
    if n > 0 {
      PowGrows(v, n - 1);
      var p := Pow(v, n - 1);
      var d := v - 1.0;
      assert Pow(v, n) == v * p;
      assert p >= 1.0 + ((n - 1) as real) * d;
      assert ((n - 1) as real) * d + d == (n as real) * d;
      assert p - 1.0 >= 0.0 by {
        assert ((n - 1) as real) * d >= 0.0;
      }
      assert v * p == p + d * p;
      assert d * p >= d by {
        assert d * (p - 1.0) >= 0.0;
      }
      assert v * p >= 1.0 + (n as real) * d;
    }
  }

  /** How many zoom-in steps of factor v bring scale s to the maximum. */
  function ZoomInBound(s: real, v: real): nat
    requires MinScaleFactor <= s <= MaxScaleFactor && v > 1.0
  {
    var k := ((MaxScaleFactor / s - 1.0) / (v - 1.0)).Floor;
    if k < 0 then 1 else k + 1
  }

  /** Zooming in repeatedly ends exactly at the maximum scale, never beyond it. */
  lemma ZoomInReachesMax(s: real, v: real)
    requires MinScaleFactor <= s <= MaxScaleFactor && v > 1.0
    ensures ZoomSteps(s, v, ZoomInBound(s, v)) == MaxScaleFactor
  {
    var n := ZoomInBound(s, v);
    var d := v - 1.0;
    var goal := MaxScaleFactor / s;
    assert goal * s == MaxScaleFactor;
    var q := (goal - 1.0) / d;
    assert q * d == goal - 1.0;
    assert (n as real) >= q;
    assert (n as real) * d >= q * d by {
      assert ((n as real) - q) * d >= 0.0;
    }
    PowGrows(v, n);
    var p := Pow(v, n);
    assert p >= goal;
    assert s * p >= s * goal by {
      assert s * (p - goal) >= 0.0;
    }
    ZoomInSteps(s, v, n);
  }

  /** From below the minimum (after fitting a very large image), a zoom-out step enlarges to the minimum. */
  lemma ZoomOutBelowMinimumEnlarges(s: real, v: real)
    requires 0.0 < s < MinScaleFactor && 0.0 < v < 1.0
    ensures ScaleAfter(s, v) == MinScaleFactor > s
  {
    SignOfProduct(1.0 - v, s);
  }

  /** Which of fitWindow and fitImage autoFit calls, if either. */
  datatype FitChoice = NoFit | FitToWindow | FitToImage

  /** The scale after the fit autoFit chose, from the scale s before it. */
  function FitScale(choice: FitChoice, wrs: Option<real>, s: real): real
  {
    match choice
    case NoFit => s
    case FitToWindow => if wrs.Some? then wrs.value else s
    case FitToImage => 1.0
  }

  /** The signals the chosen fit emits. */
  function FitLog(choice: FitChoice, wrs: Option<real>): seq<Signal>
  {
    match choice
    case NoFit => []
    case FitToWindow =>
      if wrs.Some? then [CheckAdaptScreenBtn, AdaptImageSignal(wrs.value), Scaled(wrs.value * 100.0), TransformChanged]
      else []
    case FitToImage => [CheckAdaptImageBtn, AdaptScreenSignal(1.0, wrs), Scaled(100.0), TransformChanged]
  }

  /** autoFit's decision on the scene's activity, image() and the viewport. */
  function AutoFitChoice(active: bool, img: Size, vw: nat, vh: nat): (c: FitChoice)
    ensures c == NoFit <==> !active || IsNull(img)
    ensures c == FitToWindow <==>
      active && !IsNull(img) && (img.width >= vw || img.height >= vh) && vw > 0 && vh > 0
    ensures c == FitToImage ==> (img.width < vw && img.height < vh) || vw == 0 || vh == 0
  {
    if !active then NoFit
    else if IsNull(img) then NoFit
    else if (img.width >= vw || img.height >= vh) && vw > 0 && vh > 0 then FitToWindow
    else FitToImage
  }

  /**
   * When the scene is the picture's own size, autoFit picks the smaller of
   * native size and the window fit: it shrinks large images to the window and
   * never magnifies a small one.
   */
  lemma AutoFitIsMinOfNativeAndWindow(img: Size, vw: nat, vh: nat)
    requires !IsNull(img) && vw > 0 && vh > 0
    ensures var wrs := WindowRelativeScale(vw, vh, img.width as real, img.height as real).value;
      (if AutoFitChoice(true, img, vw, vh) == FitToWindow then wrs else 1.0) == Min(1.0, wrs)
  {
    var iw, ih := img.width as real, img.height as real;
    var a, b := vw as real / iw, vh as real / ih;
    assert a * iw == vw as real && b * ih == vh as real;
    if img.width >= vw { assert a <= 1.0; }
    if img.height >= vh { assert b <= 1.0; }
    if img.width < vw && img.height < vh {
      assert a > 1.0 && b > 1.0;
    }
  }

  datatype GestureState = NoGesture | GestureStarted | GestureUpdated | GestureFinished | GestureCanceled
  datatype SwipeDirection = NoDirection | Left | Right | Up | Down
  datatype Navigation = Next | Previous

  /** swipeTriggered: only a finished swipe navigates; left or up asks for the next image. */
  function SwipeNavigation(state: GestureState, horizontal: SwipeDirection, vertical: SwipeDirection): (r: Option<Navigation>)
    ensures r.Some? <==> state == GestureFinished
    ensures r == Some(Next) <==> state == GestureFinished && (horizontal == Left || vertical == Up)
    ensures r == Some(Previous) <==> state == GestureFinished && horizontal != Left && vertical != Up
  {
    if state != GestureFinished then None
    else if horizontal == Left || vertical == Up then Some(Next)
    else Some(Previous)
  }

  /** The horizontal direction does not take priority: right-and-up asks for the next image. */
  lemma UpOverridesRight()
    ensures SwipeNavigation(GestureFinished, Right, Up) == Some(Next)
  {
  }

  /** The three ways setImage can load a path. */
  datatype ContentKind = SvgContent | MovieContent | DecodedContent

  /** setImage's dispatch: a loadable ".svg", then an animation suffix, else a background decode. */
  function KindOf(path: string, svgLoadable: bool, movieFormats: set<string>): (r: ContentKind)
    ensures var x := Paths.Suffix(path);
      r == SvgContent <==> (svgLoadable && |x| == 3 &&
        (x[0] == 's' || x[0] == 'S') && (x[1] == 'v' || x[1] == 'V') && (x[2] == 'g' || x[2] == 'G'))
    ensures r == MovieContent ==> Paths.Lower(Paths.Suffix(path)) in movieFormats
    ensures r == DecodedContent ==> Paths.Lower(Paths.Suffix(path)) !in movieFormats
  {
    var suffix := Paths.Lower(Paths.Suffix(path));
    Paths.LowerIsSvg(Paths.Suffix(path));
    if suffix == "svg" && svgLoadable then SvgContent
    else if suffix in movieFormats then MovieContent
    else DecodedContent
  }

  /** The signals setImage(p) emits for content of the given kind, for a non-empty p. */
  function LoadedLog(kind: ContentKind, p: string, watcherRunning: bool): seq<Signal>
  {
    match kind
    case DecodedContent => if watcherRunning then [] else [HideNavigation]
    case _ => [ImageChanged(p)]
  }

  /** An integer rectangle (QRect): origin and size. */
  datatype IRect = IRect(x: int, y: int, w: int, h: int)

  function MinI(a: int, b: int): int { if a <= b then a else b }
  function MaxI(a: int, b: int): int { if a >= b then a else b }

  /** QRect::isNull: both sides are 0. */
  predicate IsNullRect(a: IRect)
  {
    a.w == 0 && a.h == 0
  }

  /**
   * QRect intersection (operator&). A null operand, or two rectangles that
   * share no pixel column or no pixel row (QRect's right and bottom edges are
   * x + w - 1 and y + h - 1), give the null rectangle; otherwise the overlap,
   * which keeps a side of 0 when an operand has one. A negative side is taken
   * as empty.
   */
  function Intersect(a: IRect, b: IRect): (r: IRect)
    ensures r.w >= 0 && r.h >= 0
    ensures r.w <= MaxI(0, a.w) && r.w <= MaxI(0, b.w)
    ensures r.h <= MaxI(0, a.h) && r.h <= MaxI(0, b.h)
    ensures r.w > 0 && r.h > 0 ==>
      a.x <= r.x && r.x + r.w <= a.x + a.w && a.y <= r.y && r.y + r.h <= a.y + a.h &&
      b.x <= r.x && r.x + r.w <= b.x + b.w && b.y <= r.y && r.y + r.h <= b.y + b.h
    ensures b.w > 0 && b.h > 0 && a.x <= b.x && b.x + b.w <= a.x + a.w && a.y <= b.y && b.y + b.h <= a.y + a.h ==> r == b
  {
    var l, t := MaxI(a.x, b.x), MaxI(a.y, b.y);
    var rr, bb := MinI(a.x + a.w, b.x + b.w), MinI(a.y + a.h, b.y + b.h);
    if a.w < 0 || a.h < 0 || b.w < 0 || b.h < 0 || IsNullRect(a) || IsNullRect(b) ||
       a.x >= b.x + b.w || b.x >= a.x + a.w || a.y >= b.y + b.h || b.y >= a.y + a.h then IRect(0, 0, 0, 0)
    else IRect(l, t, rr - l, bb - t)
  }

  /** A zero-width scene inside the viewport keeps its column: the written test reports it visible. */
  lemma ZeroWidthSceneReportedVisible()
    ensures Intersect(IRect(-10, -10, 1000, 1000), IRect(0, 0, 0, 50)) == IRect(0, 0, 0, 50)
    ensures WholeImageVisibleAsWritten(IRect(-10, -10, 1000, 1000), 0.0, 50.0)
  {
  }

  /** Conversion of a non-negative qreal to int, which truncates. */
  function Trunc(r: real): (n: int)
    requires r >= 0.0
    ensures n >= 0 && n as real <= r < n as real + 1.0
  {
    r.Floor
  }

  /**
   * isWholeImageVisible as written: the visible part of the scene (the
   * viewport mapped into scene coordinates) is intersected with the scene
   * rectangle after its size has been truncated to integers, and then compared
   * with the untruncated size.
   */
  function WholeImageVisibleAsWritten(visible: IRect, sw: real, sh: real): (r: bool)
    requires sw >= 0.0 && sh >= 0.0
    ensures r && sw > 0.0 && sh > 0.0 ==>
      visible.x <= 0 && visible.y <= 0 && (visible.x + visible.w) as real >= sw && (visible.y + visible.h) as real >= sh
  {
    var r := Intersect(visible, IRect(0, 0, Trunc(sw), Trunc(sh)));
    r.w as real >= sw && r.h as real >= sh
  }

  /** A scene whose width or height has a fractional part is never reported wholly visible. */
  lemma FractionalSceneNeverWhollyVisible(visible: IRect, sw: real, sh: real)
    requires sw >= 0.0 && sh >= 0.0 && (sw != Trunc(sw) as real || sh != Trunc(sh) as real)
    ensures !WholeImageVisibleAsWritten(visible, sw, sh)
  {
    var r := Intersect(visible, IRect(0, 0, Trunc(sw), Trunc(sh)));
    assert r.w <= Trunc(sw) && r.h <= Trunc(sh);
  }

  /** The viewport covers a 50.5 x 50.5 scene entirely, yet the written test says no. */
  lemma CoveredFractionalSceneReportedHidden()
    ensures !WholeImageVisibleAsWritten(IRect(-10, -10, 1000, 1000), 50.5, 50.5)
    ensures WholeImageVisible(IRect(-10, -10, 1000, 1000), 50.5, 50.5)
  {
    FractionalSceneNeverWhollyVisible(IRect(-10, -10, 1000, 1000), 50.5, 50.5);
  }

  /**
   * isWholeImageVisible as intended: the visible region is intersected with
   * the scene rectangle itself (QRectF intersection, empty when either is
   * empty or they do not overlap), and the result must be as large as the scene.
   */
  function WholeImageVisible(visible: IRect, sw: real, sh: real): (r: bool)
    requires sw >= 0.0 && sh >= 0.0
    ensures sw > 0.0 && sh > 0.0 ==>
      (r <==> visible.x <= 0 && visible.y <= 0 &&
              (visible.x + visible.w) as real >= sw && (visible.y + visible.h) as real >= sh)
  {
    var l, t := Max(visible.x as real, 0.0), Max(visible.y as real, 0.0);
    var rr, bb := Min((visible.x + visible.w) as real, sw), Min((visible.y + visible.h) as real, sh);
    if visible.w <= 0 || visible.h <= 0 || sw == 0.0 || sh == 0.0 || rr <= l || bb <= t then
      0.0 >= sw && 0.0 >= sh
    else
      rr - l >= sw && bb - t >= sh
  }

  /**
   * For a scene of whole-unit size the intended test and the written one
   * agree, unless exactly one side is 0 (QRect keeps such a scene, QRectF
   * does not).
   */
  lemma WholeImageVisibleAgreesOnIntegralScene(visible: IRect, sw: nat, sh: nat)
    requires sw == 0 <==> sh == 0
    ensures WholeImageVisible(visible, sw as real, sh as real) ==
            WholeImageVisibleAsWritten(visible, sw as real, sh as real)
  {
    assert Trunc(sw as real) == sw && Trunc(sh as real) == sh;
  }

  /**
   * What the graphics scene holds: its rectangle and the three item slots
   * (the vector item, the animation item, the bitmap item).
   */
  datatype Scene = Scene(width: real, height: real, svg: Option<Item>, movie: Option<Item>, pixmap: Option<Item>)

  predicate RectOf(sc: Scene, it: Item)
  {
    sc.width == it.boundsWidth && sc.height == it.boundsHeight
  }

  /**
   * The scene rectangle is that of the animation or the bitmap when there is
   * one, else that of the vector item; every item is well formed.
   */
  predicate SceneValid(sc: Scene)
  {
    sc.width >= 0.0 && sc.height >= 0.0 &&
    (sc.svg.Some? ==> WellFormed(sc.svg.value)) &&
    (sc.movie.Some? ==> WellFormed(sc.movie.value) && RectOf(sc, sc.movie.value)) &&
    (sc.pixmap.Some? ==> WellFormed(sc.pixmap.value) && RectOf(sc, sc.pixmap.value)) &&
    (sc.svg.Some? && sc.movie.None? && sc.pixmap.None? ==> RectOf(sc, sc.svg.value))
  }

  /** image(): the animation's frame, else the bitmap, else the rendered vector, else null. */
  function ImageOf(sc: Scene): (r: Size)
    ensures sc.movie.None? && sc.pixmap.None? && sc.svg.None? ==> IsNull(r)
  {
    if sc.movie.Some? then sc.movie.value.pixels
    else if sc.pixmap.Some? then sc.pixmap.value.pixels
    else if sc.svg.Some? then sc.svg.value.pixels
    else Size(0, 0)
  }

  /** A picture that is not null always comes with a non-empty scene rectangle. */
  lemma ShownImageHasScene(sc: Scene)
    requires SceneValid(sc) && !IsNull(ImageOf(sc))
    ensures sc.width > 0.0 && sc.height > 0.0
  {
  }

  class ImageView {
    /** The animation formats the movie decoder supports (QMovie::supportedFormats). */
    const movieFormats: set<string>
    var viewWidth: nat
    var viewHeight: nat
    /** Whether the scene is shown in an active view. */
    var sceneActive: bool
    var scene: Scene
    /** The uniform scale of the view transform (its m11). */
    var scale: real
    var isFitImage: bool
    var isFitWindow: bool
    var path: string
    /** The path of the decode whose completion notification is still to be delivered. */
    var pendingDecode: Option<string>
    var emitted: seq<Signal>
    var rotations: seq<Rotation>

    predicate IsMoviePath(p: string)
    {
      Paths.Lower(Paths.Suffix(p)) in movieFormats
    }

    ghost predicate Valid()
      reads this
    {
      scale > 0.0 && SceneValid(scene) && !(isFitImage && isFitWindow) &&
      (scene.movie.Some? ==> pendingDecode != Some(path)) &&
      (pendingDecode.Some? ==> !IsMoviePath(pendingDecode.value))
    }

    function Image(): Size
      reads this
    {
      ImageOf(scene)
    }

    /** imageRelativeScale: the transform's uniform factor, positive in every valid state. */
    function ImageRelativeScale(): (r: real)
      reads this
      requires Valid()
      ensures r > 0.0
    {
      scale
    }

    function WindowScale(): Option<real>
      reads this
      requires scene.width >= 0.0 && scene.height >= 0.0
    {
      WindowRelativeScale(viewWidth, viewHeight, scene.width, scene.height)
    }

    /** Everything but the transform, the fit flags and the signal log is as before. */
    twostate predicate KeptContent()
      reads this
    {
      viewWidth == old(viewWidth) && viewHeight == old(viewHeight) && sceneActive == old(sceneActive) &&
      scene == old(scene) && path == old(path) && pendingDecode == old(pendingDecode) && rotations == old(rotations)
    }

    constructor (movieFormats: set<string>, viewWidth: nat, viewHeight: nat, sceneActive: bool)
      ensures Valid()
      ensures this.movieFormats == movieFormats && this.viewWidth == viewWidth &&
              this.viewHeight == viewHeight && this.sceneActive == sceneActive
      ensures scale == 1.0 && !isFitImage && !isFitWindow && path == ""
      ensures scene == Scene(0.0, 0.0, None, None, None) && pendingDecode == None
      ensures emitted == [] && rotations == []
    {
      this.movieFormats := movieFormats;
      this.viewWidth := viewWidth;
      this.viewHeight := viewHeight;
      this.sceneActive := sceneActive;
      scene := Scene(0.0, 0.0, None, None, None);
      scale := 1.0;
      isFitImage, isFitWindow := false, false;
      path := "";
      pendingDecode := None;
      emitted, rotations := [], [];
    }

    /** The widget is resized or shown/hidden. */
    method SetGeometry(w: nat, h: nat, active: bool)
      requires Valid()
      modifies this
      ensures Valid()
      ensures viewWidth == w && viewHeight == h && sceneActive == active
      ensures scale == old(scale) && isFitImage == old(isFitImage) && isFitWindow == old(isFitWindow)
      ensures scene == old(scene) && path == old(path) && pendingDecode == old(pendingDecode)
      ensures emitted == old(emitted) && rotations == old(rotations)
    {
      viewWidth, viewHeight, sceneActive := w, h, active;
    }

    /**
     * setScaleValue: multiply the scale by v; if a zoom-out reached the
     * minimum or a zoom-in reached the maximum, scale back to that bound and
     * keep the fit flags; otherwise clear both flags. Then report the button
     * states and the new scale.
     */
    method SetScaleValue(v: real)
      requires Valid() && v > 0.0
      modifies this
      ensures Valid() && KeptContent()
      ensures scale == ScaleAfter(old(scale), v)
      ensures RollsBack(old(scale), v) ==> isFitImage == old(isFitImage) && isFitWindow == old(isFitWindow)
      ensures !RollsBack(old(scale), v) ==> !isFitImage && !isFitWindow
      ensures emitted == old(emitted) + [AdaptImageSignal(scale), AdaptScreenSignal(scale, WindowScale()),
                                         Scaled(scale * 100.0), ShowScaleLabel, TransformChanged]
    {
      var irs, rolled := ZoomTransform(scale, v);
      scale := rolled;
      if !(v < 1.0 && irs <= MinScaleFactor) && !(v > 1.0 && irs >= MaxScaleFactor) {
        isFitImage := false;
        isFitWindow := false;
      }
      var rescale := scale;
      var wrs := WindowScale();
      emitted := emitted + [AdaptImageSignal(rescale), AdaptScreenSignal(rescale, wrs),
                            Scaled(scale * 100.0), ShowScaleLabel, TransformChanged];
    }

    /**
     * fitWindow: reset the transform to the window-relative scale, check
     * "fit to window", check "1:1 size" only if that scale is about 1, and set
     * the flags to fit-window.
     */
    method FitWindow()
      requires Valid() && viewWidth > 0 && viewHeight > 0 && scene.width > 0.0 && scene.height > 0.0
      modifies this
      ensures Valid() && KeptContent()
      ensures WindowScale().Some? && scale == WindowScale().value && scale > 0.0
      ensures isFitWindow && !isFitImage
      ensures emitted == old(emitted) + [CheckAdaptScreenBtn, AdaptImageSignal(scale), Scaled(scale * 100.0), TransformChanged]
    {
      WindowRelativeScaleFits(viewWidth, viewHeight, scene.width, scene.height);
      var wrs := WindowScale().value;
      scale := wrs;
      emitted := emitted + [CheckAdaptScreenBtn, AdaptImageSignal(wrs)];
      isFitImage := false;
      isFitWindow := true;
      emitted := emitted + [Scaled(scale * 100.0), TransformChanged];
    }

    /**
     * fitImage: reset the transform to scale 1, check "1:1 size", check
     * "fit to window" only if the window-relative scale is about 1, and set
     * the flags to fit-image.
     */
    method FitImage()
      requires Valid()
      modifies this
      ensures Valid() && KeptContent()
      ensures scale == 1.0 && isFitImage && !isFitWindow
      ensures emitted == old(emitted) + [CheckAdaptImageBtn, AdaptScreenSignal(1.0, WindowScale()), Scaled(100.0), TransformChanged]
    {
      var wrs := WindowScale();
      scale := 1.0;
      emitted := emitted + [CheckAdaptImageBtn, AdaptScreenSignal(1.0, wrs)];
      isFitImage := true;
      isFitWindow := false;
      emitted := emitted + [Scaled(scale * 100.0), TransformChanged];
    }

    /** The state autoFit leaves, given the choice it makes. */
    twostate predicate Fitted(choice: FitChoice)
      reads this
      requires scene.width >= 0.0 && scene.height >= 0.0
    {
      KeptContent() &&
      (choice == FitToWindow ==> WindowScale().Some?) &&
      scale == FitScale(choice, WindowScale(), old(scale)) &&
      isFitImage == (if choice == NoFit then old(isFitImage) else choice == FitToImage) &&
      isFitWindow == (if choice == NoFit then old(isFitWindow) else choice == FitToWindow) &&
      emitted == old(emitted) + FitLog(choice, WindowScale())
    }

    /** autoFit: nothing while the scene is inactive or image() is null; else fit as AutoFitChoice says. */
    method AutoFit()
      requires Valid()
      modifies this
      ensures Valid()
      ensures Fitted(AutoFitChoice(old(sceneActive), old(Image()), old(viewWidth), old(viewHeight)))
    {
      if !sceneActive {
        return;
      }
      var img := Image();
      if IsNull(img) {
        return;
      }
      if (img.width >= viewWidth || img.height >= viewHeight) && viewWidth > 0 && viewHeight > 0 {
        ShownImageHasScene(scene);
        FitWindow();
      } else {
        FitImage();
      }
    }

    /** The scene and pending decode setImage(p) leaves for content of the given kind, for a non-empty p. */
    function LoadedScene(kind: ContentKind, p: string, loaded: Item, watcherRunning: bool): (Scene, Option<string>)
      reads this
    {
      match kind
      case SvgContent => (Scene(loaded.boundsWidth, loaded.boundsHeight, Some(loaded), None, None), pendingDecode)
      case MovieContent => (Scene(loaded.boundsWidth, loaded.boundsHeight, None, Some(loaded), None), pendingDecode)
      case DecodedContent =>
        (scene.(svg := None, movie := None), if watcherRunning then pendingDecode else Some(p))
    }

    /** The state setImage(p) leaves (the rotation log aside), for p's content kind. */
    twostate predicate Loaded(p: string, kind: ContentKind, loaded: Item, watcherRunning: bool)
      reads this
    {
      viewWidth == old(viewWidth) && viewHeight == old(viewHeight) && sceneActive == old(sceneActive) &&
      isFitImage == old(isFitImage) && isFitWindow == old(isFitWindow) &&
      if p == "" then
        scene == old(scene) && scale == old(scale) && path == old(path) &&
        pendingDecode == old(pendingDecode) && emitted == old(emitted)
      else
        path == p &&
        (scene, pendingDecode) == old(LoadedScene(kind, p, loaded, watcherRunning)) &&
        scale == (if kind == DecodedContent then old(scale) else 1.0) &&
        emitted == old(emitted) + LoadedLog(kind, p, watcherRunning)
    }

    /**
     * The vector and animation branches of setImage: the scene is cleared,
     * the transform reset, and the scene rectangle fitted to the new item.
     */
    method ShowItem(loaded: Item, vector: bool)
      requires WellFormed(loaded) && (pendingDecode.Some? ==> !IsMoviePath(pendingDecode.value))
      requires !vector ==> pendingDecode != Some(path)
      requires !(isFitImage && isFitWindow)
      modifies this
      ensures Valid()
      ensures scene == if vector then Scene(loaded.boundsWidth, loaded.boundsHeight, Some(loaded), None, None)
        else Scene(loaded.boundsWidth, loaded.boundsHeight, None, Some(loaded), None)
      ensures scale == 1.0 && emitted == old(emitted) + [ImageChanged(path)]
      ensures viewWidth == old(viewWidth) && viewHeight == old(viewHeight) && sceneActive == old(sceneActive)
      ensures isFitImage == old(isFitImage) && isFitWindow == old(isFitWindow) && path == old(path)
      ensures pendingDecode == old(pendingDecode) && rotations == old(rotations)
    {
      scene := Scene(0.0, 0.0, None, None, None);
      scale := 1.0;
      if vector {
        scene := Scene(loaded.boundsWidth, loaded.boundsHeight, Some(loaded), None, None);
      } else {
        scene := Scene(loaded.boundsWidth, loaded.boundsHeight, None, Some(loaded), None);
      }
      emitted := emitted + [ImageChanged(path)];
    }

    /**
     * The decode branch of setImage: the scene keeps only a bitmap, and the
     * current path is handed to the background decoder unless the watcher is
     * still busy, in which case the decode is never watched.
     */
    method StartDecode(watcherRunning: bool)
      requires scale > 0.0 && SceneValid(scene) && scene.svg == None && !IsMoviePath(path)
      requires !(isFitImage && isFitWindow)
      requires pendingDecode.Some? ==> !IsMoviePath(pendingDecode.value)
      modifies this
      ensures Valid()
      ensures scene == old(scene).(movie := None) && scale == old(scale)
      ensures pendingDecode == if watcherRunning then old(pendingDecode) else Some(path)
      ensures emitted == old(emitted) + LoadedLog(DecodedContent, path, watcherRunning)
      ensures viewWidth == old(viewWidth) && viewHeight == old(viewHeight) && sceneActive == old(sceneActive)
      ensures isFitImage == old(isFitImage) && isFitWindow == old(isFitWindow) && path == old(path)
      ensures rotations == old(rotations)
    {
      scene := scene.(movie := None);
      if !watcherRunning {
        pendingDecode := Some(path);
        emitted := emitted + [HideNavigation];
      }
    }

    /**
     * setImage: an empty path is ignored. Otherwise the path becomes current
     * and is shown as a vector item, as an animation, or handed to the
     * background decoder; the vector check and the item it builds
     * (svgLoadable, loaded) and whether the decode watcher is still busy are
     * answers of collaborators outside the model. A decode started while the
     * watcher is busy is never watched, so its result is never delivered.
     */
    method SetImage(p: string, svgLoadable: bool, loaded: Item, watcherRunning: bool)
      requires Valid() && WellFormed(loaded)
      modifies this
      ensures Valid()
      ensures Loaded(p, KindOf(p, svgLoadable, movieFormats), loaded, watcherRunning)
      ensures rotations == old(rotations)
    {
      if p == "" {
        return;
      }
      path := p;
      var kind := KindOf(p, svgLoadable, movieFormats);
      if kind == SvgContent {
        ShowItem(loaded, true);
      } else {
        scene := scene.(svg := None);
        if kind == MovieContent {
          ShowItem(loaded, false);
        } else {
          StartDecode(watcherRunning);
        }
      }
    }

    /**
     * onCacheFinish: the decoded bitmap for the pending path arrives. It is
     * shown (scale reset to 1, scene set to the bitmap, then autoFit) only if
     * that path is still the current one; otherwise nothing but the pending
     * notification changes.
     */
    method OnCacheFinish(decoded: Item)
      requires Valid() && pendingDecode.Some? && WellFormed(decoded)
      modifies this
      ensures Valid()
      ensures pendingDecode == None
      ensures old(pendingDecode) != Some(old(path)) ==>
        scale == old(scale) && isFitImage == old(isFitImage) && isFitWindow == old(isFitWindow) &&
        scene == old(scene) && emitted == old(emitted)
      ensures old(pendingDecode) == Some(old(path)) ==>
        scene == old(scene).(width := decoded.boundsWidth, height := decoded.boundsHeight, pixmap := Some(decoded)) &&
        scene.movie == None && Image() == decoded.pixels &&
        var choice := AutoFitChoice(sceneActive, decoded.pixels, viewWidth, viewHeight);
        scale == FitScale(choice, WindowScale(), 1.0) &&
        isFitImage == (if choice == NoFit then old(isFitImage) else choice == FitToImage) &&
        isFitWindow == (if choice == NoFit then old(isFitWindow) else choice == FitToWindow) &&
        emitted == old(emitted) + FitLog(choice, WindowScale()) + [ImageChanged(path)]
      ensures path == old(path) && viewWidth == old(viewWidth) && viewHeight == old(viewHeight)
      ensures sceneActive == old(sceneActive) && rotations == old(rotations)
    {
      var p := pendingDecode.value;
      pendingDecode := None;
      if p == path {
        scene := scene.(pixmap := None);
        scale := 1.0;
        scene := scene.(width := decoded.boundsWidth, height := decoded.boundsHeight, pixmap := Some(decoded));
        AutoFit();
        emitted := emitted + [ImageChanged(p)];
      }
    }

    /** rotateClockWise: have the file rotated by 90 degrees on disk, then reload it. */
    method RotateClockWise(svgLoadable: bool, loaded: Item, watcherRunning: bool)
      requires Valid() && WellFormed(loaded)
      modifies this
      ensures Valid()
      ensures rotations == old(rotations) + [Rotation(old(path), 90)]
      ensures Loaded(old(path), KindOf(old(path), svgLoadable, movieFormats), loaded, watcherRunning)
    {
      rotations := rotations + [Rotation(path, 90)];
      SetImage(path, svgLoadable, loaded, watcherRunning);
    }

    /** rotateCounterclockwise: have the file rotated by -90 degrees on disk, then reload it. */
    method RotateCounterclockwise(svgLoadable: bool, loaded: Item, watcherRunning: bool)
      requires Valid() && WellFormed(loaded)
      modifies this
      ensures Valid()
      ensures rotations == old(rotations) + [Rotation(old(path), -90)]
      ensures Loaded(old(path), KindOf(old(path), svgLoadable, movieFormats), loaded, watcherRunning)
    {
      rotations := rotations + [Rotation(path, -90)];
      SetImage(path, svgLoadable, loaded, watcherRunning);
    }

    /** swipeTriggered: report the navigation a finished swipe asks for. */
    method SwipeTriggered(state: GestureState, horizontal: SwipeDirection, vertical: SwipeDirection)
      requires Valid()
      modifies this
      ensures Valid() && KeptContent()
      ensures scale == old(scale) && isFitImage == old(isFitImage) && isFitWindow == old(isFitWindow)
      ensures emitted == old(emitted) + match SwipeNavigation(state, horizontal, vertical)
                                        case None => []
                                        case Some(Next) => [NextRequested]
                                        case Some(Previous) => [PreviousRequested]
    {
      if state == GestureFinished {
        if horizontal == Left || vertical == Up {
          emitted := emitted + [NextRequested];
        } else {
          emitted := emitted + [PreviousRequested];
        }
      }
    }

    /**
     * isWholeImageVisible as written, for the viewport as mapped into scene
     * coordinates: a scene of whole-unit size is reported visible exactly when
     * the viewport covers it, one with a fractional width or height never.
     */
    function IsWholeImageVisible(visible: IRect): (r: bool)
      reads this
      requires Valid()
      ensures scene.width > 0.0 && scene.height > 0.0 &&
              scene.width == Trunc(scene.width) as real && scene.height == Trunc(scene.height) as real ==>
        (r <==> visible.x <= 0 && visible.y <= 0 &&
                (visible.x + visible.w) as real >= scene.width && (visible.y + visible.h) as real >= scene.height)
      ensures scene.width != Trunc(scene.width) as real || scene.height != Trunc(scene.height) as real ==> !r
    {
      if scene.width > 0.0 && scene.height > 0.0 &&
         scene.width == Trunc(scene.width) as real && scene.height == Trunc(scene.height) as real then
        WholeImageVisibleAgreesOnIntegralScene(visible, Trunc(scene.width), Trunc(scene.height));
        WholeImageVisibleAsWritten(visible, scene.width, scene.height)
      else if scene.width == Trunc(scene.width) as real && scene.height == Trunc(scene.height) as real then
        WholeImageVisibleAsWritten(visible, scene.width, scene.height)
      else
        FractionalSceneNeverWhollyVisible(visible, scene.width, scene.height);
        WholeImageVisibleAsWritten(visible, scene.width, scene.height)
    }
  }

  /**
   * The stale-result guard: a decode of `a` is pending when `b`, which is not
   * decoded in the background, is opened; when the decode of `a` then
   * completes, `b` stays on screen.
   */
  method StaleDecodeIsIgnored(v: ImageView, a: string, b: string, svgLoadable: bool,
                              itemA: Item, itemB: Item, decodedA: Item)
    requires v.Valid() && WellFormed(itemA) && WellFormed(itemB) && WellFormed(decodedA)
    requires a != "" && b != "" && a != b
    requires KindOf(a, false, v.movieFormats) == DecodedContent
    requires KindOf(b, svgLoadable, v.movieFormats) != DecodedContent
    modifies v
    ensures v.Valid() && v.path == b && v.scene.pixmap == None
    ensures v.scene.svg == Some(itemB) || v.scene.movie == Some(itemB)
  {
    v.SetImage(a, false, itemA, false);
    assert v.pendingDecode == Some(a);
    v.SetImage(b, svgLoadable, itemB, false);
    v.OnCacheFinish(decodedA);
  }
}
