/**
 * `Button` (`widget/button.rs`): a focusable widget that runs its
 * functionality when clicked, or when Return is released while it holds
 * the focus. It is drawn from one of three cached textures and takes its
 * sizing from its style.
 */
module Button {
  import opened Wrappers
  import opened Sdl
  import opened Rects
  import opened Sizing
  import opened Events
  import opened Focus
  import Checkbox
  import Render

  /** `ButtonTextureVariant`. */
  datatype ButtonTextureVariant = Idle | Focused | FocusedPressed

  /**
   * The variant `draw` shows: `Idle` without the focus (pressed or not),
   * otherwise `FocusedPressed` exactly when pressed.
   */
  function VariantFor(focused: bool, pressed: bool): (v: ButtonTextureVariant)
    ensures v == Idle <==> !focused
    ensures v == FocusedPressed <==> focused && pressed
    ensures v == Focused <==> focused && !pressed
  {
    if focused then (if pressed then FocusedPressed else Focused) else Idle
  }

  // ------------------------------------------------------------ default style

  /** How far the corner marks of the default style reach along each edge. */
  const AMOUNT_INWARD: int := 5

  /** The colour of `DefaultButtonStyle` for a variant, as red, green, blue. */
  function StyleColor(v: ButtonTextureVariant): (int, int, int)
  {
    match v
    case Idle => (50, 50, 50)
    case Focused => (118, 73, 206)
    case FocusedPressed => (200, 200, 200)
  }

  /** The three variants are drawn in three different colours. */
  lemma ColorsTellVariantsApart(u: ButtonTextureVariant, v: ButtonTextureVariant)
    requires u != v
    ensures StyleColor(u) != StyleColor(v)
  {
  }

  /**
   * The corner marks of `DefaultButtonStyle::draw` on a texture of `size`:
   * top left, top right, bottom left, bottom right, each a three-point path
   * through its corner; nothing when a side is at most `AMOUNT_INWARD`.
   */
  function CornerMarks(size: (nat, nat)): (r: seq<seq<Render.Point>>)
    ensures size.0 as int <= AMOUNT_INWARD || size.1 as int <= AMOUNT_INWARD ==> r == []
    ensures size.0 as int > AMOUNT_INWARD && size.1 as int > AMOUNT_INWARD ==> |r| == 4
  {
    if size.0 as int <= AMOUNT_INWARD || size.1 as int <= AMOUNT_INWARD then []
    else
      var right := size.0 as int - 1;
      var bottom := size.1 as int - 1;
      [[Render.Point(AMOUNT_INWARD, 0), Render.Point(0, 0), Render.Point(0, AMOUNT_INWARD)],
       [Render.Point(right - AMOUNT_INWARD, 0), Render.Point(right, 0), Render.Point(right, AMOUNT_INWARD)],
       [Render.Point(AMOUNT_INWARD, bottom), Render.Point(0, bottom), Render.Point(0, bottom - AMOUNT_INWARD)],
       [Render.Point(right - AMOUNT_INWARD, bottom), Render.Point(right, bottom), Render.Point(right, bottom - AMOUNT_INWARD)]]
  }

  predicate OnTexture(p: Render.Point, size: (nat, nat))
  {
    0 <= p.x < size.0 && 0 <= p.y < size.1
  }

  /**
   * Each corner mark lies on the texture, bends at one of the texture's
   * corners, and has two axis-aligned arms of `AMOUNT_INWARD` pixels.
   */
  lemma CornerMarksShape(size: (nat, nat))
    ensures var marks := CornerMarks(size);
      forall m :: 0 <= m < |marks| ==>
        |marks[m]| == 3 &&
        (forall k :: 0 <= k < 3 ==> OnTexture(marks[m][k], size)) &&
        (marks[m][1].x == 0 || marks[m][1].x == size.0 - 1) &&
        (marks[m][1].y == 0 || marks[m][1].y == size.1 - 1) &&
        marks[m][0].y == marks[m][1].y && Abs(marks[m][0].x - marks[m][1].x) == AMOUNT_INWARD &&
        marks[m][2].x == marks[m][1].x && Abs(marks[m][2].y - marks[m][1].y) == AMOUNT_INWARD
  {
  }

  function Abs(x: int): nat
  {
    if x < 0 then -x else x
  }

  // ------------------------------------------------------------ the widget

  /** `Button`: its own press state, its style's sizing and a texture cache per variant. */
  class Button {
    const focusId: FocusId
    var pressed: bool
    /** The sizing answers of the style's label, which every sizing query forwards to. */
    const styleSizing: Sizing
    const idle: Checkbox.TextureVariantSizeCache<ButtonTextureVariant>
    const focused: Checkbox.TextureVariantSizeCache<ButtonTextureVariant>
    const focusPressed: Checkbox.TextureVariantSizeCache<ButtonTextureVariant>

    /** The cache `draw` uses for a variant. */
    function CacheFor(v: ButtonTextureVariant): Checkbox.TextureVariantSizeCache<ButtonTextureVariant>
    {
      match v
      case Idle => idle
      case Focused => focused
      case FocusedPressed => focusPressed
    }

    function Caches(): set<object>
    {
      {idle, focused, focusPressed}
    }

    /** Each variant has a cache of its own, holding only textures of that variant. */
    ghost predicate Valid()
      reads this, Caches()
    {
      forall v :: CacheFor(v).owner == v && CacheFor(v).Valid()
    }

    lemma CachesDistinct(u: ButtonTextureVariant, v: ButtonTextureVariant)
      requires Valid() && u != v
      ensures CacheFor(u) != CacheFor(v)
    {
      assert CacheFor(u).owner == u && CacheFor(v).owner == v;
    }

    /** `new`: unpressed, nothing rendered yet. */
    constructor (focusId: FocusId, styleSizing: Sizing)
      ensures Valid() && fresh(Caches())
      ensures this.focusId == focusId && this.styleSizing == styleSizing && !pressed
      ensures forall v :: CacheFor(v).cache.None?
    {
      this.focusId := focusId;
      this.styleSizing := styleSizing;
      pressed := false;
      idle := new Checkbox.TextureVariantSizeCache(Idle);
      focused := new Checkbox.TextureVariantSizeCache(Focused);
      focusPressed := new Checkbox.TextureVariantSizeCache(FocusedPressed);
    }

    /**
     * `update`: the press handling shared with check boxes, running the
     * button's functionality; `firstFailure` stands for that
     * functionality's behaviour, `calls` is how often it ran.
     */
    method Update(fm: Option<FocusManager>, position: Option<FRect>, canvas: Canvas, events: array<SdlEvent>,
                  firstFailure: Option<nat>)
      returns (calls: nat, ok: bool)
      modifies this, events, ManagerFrame(fm)
      ensures NextAvailableOf(fm) == old(NextAvailableOf(fm))
      ensures (events[..], Checkbox.PressState(pressed, FocusOf(fm), calls, !ok)) ==
        Checkbox.FocusPressUpdate(focusId, fm.Some?, old(FocusOf(fm)), NextAvailableOf(fm),
                                  ToRectOpt(position), canvas.clipRect, firstFailure, old(events[..]), old(pressed))
    {
      var p;
      p, calls, ok := Checkbox.FocusPressUpdateImpl(focusId, fm, position, canvas, events, pressed, firstFailure);
      pressed := p;
    }

    /**
     * `draw`: with a position of non-zero area, the variant for the current
     * focus and press state is rendered through its own cache at the
     * position's size and copied there; no other cache changes.
     * `createOk`, `drawOk` and `copyOk` stand for the results of the SDL
     * calls and the style.
     */
    method Draw(fm: Option<FocusManager>, position: Option<FRect>, createOk: bool, drawOk: bool, copyOk: bool)
      returns (shown: Option<ButtonTextureVariant>, copiedTo: Option<Rect>, ok: bool)
      requires Valid()
      modifies Caches()
      ensures Valid()
      ensures ToRectOpt(position).None? ==>
        shown.None? && copiedTo.None? && ok && forall v :: CacheFor(v).cache == old(CacheFor(v).cache)
      ensures ToRectOpt(position).Some? ==>
        var r := ToRectOpt(position).value;
        var v := VariantFor(fm.Some? && FocusOf(fm) == Some(focusId), pressed);
        shown == Some(v) &&
        (forall u :: u != v ==> CacheFor(u).cache == old(CacheFor(u).cache)) &&
        (old(CacheFor(v).cache).Some? && old(CacheFor(v).cache).value.size == (r.w, r.h) ==>
           CacheFor(v).cache == old(CacheFor(v).cache)) &&
        (!(old(CacheFor(v).cache).Some? && old(CacheFor(v).cache).value.size == (r.w, r.h)) ==>
           CacheFor(v).cache == (if createOk && drawOk then Some(Checkbox.VariantTexture(v, (r.w, r.h))) else None)) &&
        (CacheFor(v).cache.Some? ==> CacheFor(v).cache.value == Checkbox.VariantTexture(v, (r.w, r.h))) &&
        (ok <==> CacheFor(v).cache.Some? && copyOk) &&
        (copiedTo.Some? <==> CacheFor(v).cache.Some?) &&
        (copiedTo.Some? ==> copiedTo.value == r)
    {
      var rect := ToRectOpt(position);
      if rect.None? {
        return None, None, true;
      }
      var r := rect.value;
      var isFocused := fm.Some? && fm.value.IsFocused(focusId);
      var v := VariantFor(isFocused, pressed);
      shown := Some(v);
      var cache := CacheFor(v);
      forall u | u != v
        ensures CacheFor(u) != cache
      {
        CachesDistinct(u, v);
      }
      var texture, rendered := cache.Render(v, (r.w, r.h), createOk, drawOk);
      if texture.None? {
        return shown, None, false;
      }
      copiedTo := Some(r);
      ok := copyOk;
    }
  }
}
