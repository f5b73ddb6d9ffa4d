/**
 * The event a widget receives each frame and how a widget is placed inside
 * a parent rectangle (`widget/widget.rs`).
 */
module Widget {
  import opened Wrappers
  import opened Sdl
  import opened Rects
  import opened Length
  import opened Sizing
  import opened Events
  import opened Focus

  /**
   * `WidgetEvent`: the focus manager (if the widget is focusable), the
   * widget's position (None for zero area), which length an aspect ratio
   * may derive, the frame's shared events and the canvas.
   */
  datatype WidgetEvent = WidgetEvent(
    focusManager: Option<FocusManager>,
    position: Option<FRect>,
    aspectRatioPriority: AspectRatioPreferredDirection,
    events: array<SdlEvent>,
    canvas: Canvas)
  {
    /** `sub_event`: the same event, seen at another position (for a layout's children). */
    function SubEvent(p: Option<FRect>): (r: WidgetEvent)
      ensures r.position == p
      ensures r.focusManager == focusManager && r.aspectRatioPriority == aspectRatioPriority
      ensures r.events == events && r.canvas == canvas
    {
      this.(position := p)
    }

    /** `dup`: the same event again. */
    function Dup(): (r: WidgetEvent)
      ensures r == this
    {
      SubEvent(position)
    }
  }

  /** The cap on a linked length: the maximum, and unless allowed to exceed it, the portion too. */
  function LinkCap(max: MaxLen, preClamp: real, allowExceed: bool): (r: MaxLen)
    ensures r.v <= max.v
    ensures !allowExceed ==> r.v <= preClamp
    ensures allowExceed ==> r == max
  {
    if allowExceed then max else max.Strictest(MaxLen(preClamp))
  }

  /**
   * The width and height `place` settles on: each length is its portion of
   * the parent clamped to its limits; then the length on the priority side
   * of the aspect ratio is re-derived from the other and clamped again, at
   * most to its portion unless `allowExceed`.
   */
  function PlacedSize(s: Sizing, parent: FRect, priority: AspectRatioPreferredDirection, allowExceed: bool): (r: (real, real))
    // a minimum length has the highest priority
    ensures r.0 >= s.minW.v && r.1 >= s.minH.v
    // the length that is not derived is its clamped portion of the parent
    ensures priority == WidthFromHeight ==> r.1 == Clamp(s.prefH.Get(parent.h), s.minH, s.maxH)
    ensures priority == HeightFromWidth ==> r.0 == Clamp(s.prefW.Get(parent.w), s.minW, s.maxW)
    // so is the derived one, when the widget has no aspect ratio
    ensures !HasRatio(s.link) ==>
      r == (Clamp(s.prefW.Get(parent.w), s.minW, s.maxW), Clamp(s.prefH.Get(parent.h), s.minH, s.maxH))
    // the derived length follows the link when the limits allow it
    ensures priority == WidthFromHeight && HasRatio(s.link) ==>
      var derived := PreferredWidthFromHeight(s.link, r.1).value;
      var cap := LinkCap(s.maxW, s.prefW.Get(parent.w), allowExceed);
      (s.minW.v < cap.v && s.minW.v <= derived <= cap.v ==> r.0 == derived) &&
      (s.minW.v < cap.v ==> r.0 <= cap.v)
    ensures priority == HeightFromWidth && HasRatio(s.link) ==>
      var derived := PreferredHeightFromWidth(s.link, r.0).value;
      var cap := LinkCap(s.maxH, s.prefH.Get(parent.h), allowExceed);
      (s.minH.v < cap.v && s.minH.v <= derived <= cap.v ==> r.1 == derived) &&
      (s.minH.v < cap.v ==> r.1 <= cap.v)
  {
    var preW := s.prefW.Get(parent.w);
    var preH := s.prefH.Get(parent.h);
    var w := Clamp(preW, s.minW, s.maxW);
    var h := Clamp(preH, s.minH, s.maxH);
    match priority
    case WidthFromHeight =>
      (match PreferredWidthFromHeight(s.link, h)
       case Some(newW) => (Clamp(newW, s.minW, s.maxW.Strictest(LinkCap(s.maxW, preW, allowExceed))), h)
       case None => (w, h))
    case HeightFromWidth =>
      (match PreferredHeightFromWidth(s.link, w)
       case Some(newH) => (w, Clamp(newH, s.minH, s.maxH.Strictest(LinkCap(s.maxH, preH, allowExceed))))
       case None => (w, h))
  }

  /**
   * `place`: the child's rectangle inside `parent`, offset along each axis
   * by its fail policies; None when either length is zero.
   */
  function Place(s: Sizing, parent: FRect, priority: AspectRatioPreferredDirection): (r: Option<FRect>)
    ensures var (w, h) := PlacedSize(s, parent, priority, false);
      (r.None? <==> w == 0.0 || h == 0.0) &&
      (r.Some? ==> r.value.w == w && r.value.h == h)
    ensures r.Some? ==>
      r.value.x == parent.x + Length.Place(r.value.w, parent.w, s.minWFail, s.maxWFail) &&
      r.value.y == parent.y + Length.Place(r.value.h, parent.h, s.minHFail, s.maxHFail)
  {
    var (w, h) := PlacedSize(s, parent, priority, false);
    if w == 0.0 || h == 0.0 then None
    else
      Some(FRect(parent.x + Length.Place(w, parent.w, s.minWFail, s.maxWFail),
                 parent.y + Length.Place(h, parent.h, s.minHFail, s.maxHFail), w, h))
  }

  /**
   * A placed widget that fits its parent, with fail policies between the
   * edges, lies inside the parent; one that is larger covers the parent.
   */
  lemma PlaceWithinParent(s: Sizing, parent: FRect, priority: AspectRatioPreferredDirection)
    requires 0.0 <= s.maxWFail.p <= 1.0 && 0.0 <= s.minWFail.p <= 1.0
    requires Place(s, parent, priority).Some?
    ensures var r := Place(s, parent, priority).value;
      (r.w <= parent.w ==> parent.x <= r.x && r.x + r.w <= parent.x + parent.w) &&
      (r.w >= parent.w ==> r.x <= parent.x && parent.x + parent.w <= r.x + r.w)
  {
  }

  /** A widget with the default sizing takes exactly its parent's rectangle. */
  lemma DefaultSizingFillsParent(parent: FRect, priority: AspectRatioPreferredDirection)
    requires 0.0 < parent.w < F32_MAX && 0.0 < parent.h < F32_MAX
    ensures Place(DEFAULT, parent, priority) == Some(parent)
  {
    var (w, h) := PlacedSize(DEFAULT, parent, priority, false);
    assert w == parent.w && h == parent.h;
  }

  /** `canvas.output_size()`, or 320 x 320 when it cannot be queried. */
  function WindowSize(outputSize: Option<(nat, nat)>): (nat, nat)
  {
    if outputSize.Some? then outputSize.value else (320, 320)
  }

  /**
   * `update_gui` / `draw_gui`: the event the root widget receives, placed in
   * the whole window with width-from-height priority.
   */
  function GuiEvent(root: Sizing, outputSize: Option<(nat, nat)>, fm: Option<FocusManager>,
                    events: array<SdlEvent>, canvas: Canvas): (r: WidgetEvent)
    ensures var (w, h) := WindowSize(outputSize);
      r.position == Place(root, FRect(0.0, 0.0, w as real, h as real), DEFAULT_DIRECTION)
    ensures r.aspectRatioPriority == WidthFromHeight
    ensures r.focusManager == fm && r.events == events && r.canvas == canvas
  {
    var (w, h) := WindowSize(outputSize);
    WidgetEvent(fm, Place(root, FRect(0.0, 0.0, w as real, h as real), DEFAULT_DIRECTION), DEFAULT_DIRECTION, events, canvas)
  }

  /** A root widget with the default sizing covers the whole window. */
  lemma GuiEventDefaultCoversWindow(outputSize: Option<(nat, nat)>, fm: Option<FocusManager>,
                                    events: array<SdlEvent>, canvas: Canvas)
    requires outputSize.Some? ==> 0 < outputSize.value.0 && 0 < outputSize.value.1
    requires outputSize.Some? ==> outputSize.value.0 as real < F32_MAX && outputSize.value.1 as real < F32_MAX
    ensures var (w, h) := WindowSize(outputSize);
      GuiEvent(DEFAULT, outputSize, fm, events, canvas).position == Some(FRect(0.0, 0.0, w as real, h as real))
  {
    var (w, h) := WindowSize(outputSize);
    DefaultSizingFillsParent(FRect(0.0, 0.0, w as real, h as real), DEFAULT_DIRECTION);
  }
}
