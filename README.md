# sdl-rust-ui: a verified model of the layout, focus and widget core

sdl-rust-ui is a small GUI toolkit on top of SDL2. Each frame,
the application hands the root widget a `WidgetEvent` (the frame's SDL events,
the canvas, an optional focus manager and the position the widget was given)
and calls `update` and then `draw`. Widgets answer sizing queries (minimum and
maximum lengths, the policies for when those cannot be met, a preferred
portion of the parent, an optional aspect-ratio link), and layouts use those
answers to share out their own rectangle among their children.

This project models that core in Dafny:

- `Length`, `Rects`: the length types of `util/length.rs` (`MinLen`, `MaxLen`,
  their `strictest`/`combined`, `clamp`, `place`, `weighted_portion`, the
  aspect-ratio rules, `frect_to_rect`) and the float-to-pixel rounding of
  `util/rect.rs`.
- `Sizing`, `Widget`, `WidgetMod`: a child widget as the record of its sizing
  answers, the `place` rule of `widget/widget.rs` and `widget/mod.rs`, and the
  two event types with their `sub_event`/`dup` and consumption marks
  (`Events` holds the `SDLEvent` of `widget/widget.rs`).
- `Focus`: `FocusManager` of `util/focus.rs` as a class, with Tab / Shift-Tab
  cycling, `default_start_focus_behavior` and
  `default_widget_focus_behavior`, each proved equal to a pure fold over the
  frame's events.
- `Linear`, `Aggregate`, `HorizontalLayout`, `VerticalLayout`,
  `StackedLayout`: the layouts. The length distribution shared by the
  horizontal and vertical layouts (the first pass, `distribute_excess`,
  `take_deficit`, the pixel snapping with a carried rounding error, the
  gaps) lives in `Linear` and works in place on an array of `ChildInfo`,
  as the source does.
- `Clipper`, `Scroller`, `Border`, `Render`: the clipping rectangle
  intersection, drag and wheel scrolling, the border frame (its sizing
  transform, the rectangle its child gets, its cached texture and the
  ring paths its styles draw) and the point paths of `util/render.rs`.
- `Checkbox`, `Button`, `TextInput`: the press handling shared by check
  boxes and buttons, their per-variant texture caches, and the single-line
  text input (focus sound on the rising edge of focus, Backspace and
  Ctrl-Backspace, typed text, the fifty-millisecond sound limiter, Return,
  the label cache and caret placement when drawing).
- `Shuffle`: the deterministic Fisher-Yates shuffle of `util/shuffle.rs`.

Floating-point lengths are modelled as `real`. `MaxLen::LAX` is
`MaxLen(f32::MAX)` with that literal value, so the explicit `LAX` test in
`combined` is kept. Event loops are modelled as methods over an
`array<SdlEvent>`, each proved equal to a pure fold (`...Run`) of a
per-event step function; the lemmas are stated about the folds. SDL calls
that can fail (creating a texture, drawing with a style, copying to the
canvas, playing a sound, the user's button functionality) are boolean or
`Option<nat>` parameters that say whether, or at which call, they fail.

## Model

| member | source | states |
|---|---|---|
| `Length.MinLen.Strictest` | src/util/length.rs:55-61 | the result is one of the two and at least both (the larger minimum) |
| `Length.MinLen.Combined` | src/util/length.rs:63-65 | the combined minimum is the sum of the two |
| `Length.MaxLen.Strictest` | src/util/length.rs:88-94 | the result is one of the two and at most both (the smaller maximum) |
| `Length.MaxLen.Combined` | src/util/length.rs:96-103 | `LAX` if either side is `LAX`, otherwise the sum |
| `Length.Clamp` | src/util/length.rs:115-129 | the minimum wins when the limits cross; otherwise the length is kept inside the limits, and a length already inside is returned unchanged |
| `Length.Place` | src/util/length.rs:131-144 | an equal length sits at 0; a shorter one with a policy in [0, 1] stays inside the parent, and NEGATIVE/POSITIVE/CENTERED put it at the start, the end, or with equal space on each side |
| `Length.ShorterPlaced` | src/util/length.rs:137-139 | a shorter length placed by the max fail policy lies inside the parent, hugging the edge the policy names |
| `Length.LongerPlaced` | src/util/length.rs:140-142 | a longer length placed by the min fail policy covers the parent, overflowing on the side the policy names |
| `Length.PreferredPortion.WeightedPortion` | src/util/length.rs:170-190 | with a non-zero sum the share is proportional to the portion; with a zero sum the parent is split equally, and a count of zero is taken as one |
| `Length.SumWeightedEqual` | src/util/length.rs:181-185 | with a zero total every portion gets an equal share of the parent |
| `Length.SumWeightedProportional` | src/util/length.rs:186-189 | the weighted shares add up in proportion to the summed portions |
| `Length.WeightedPortionsFillParent` | src/util/length.rs:167-190 | the weighted portions of a non-empty set of portions add up to exactly the parent's length |
| `Length.RatioWidthFromHeight` | src/util/length.rs:240-242 | definition: `h * ratio`; `AspectRatioRoundTrip` states that it and `RatioHeightFromWidth` undo each other |
| `Length.RatioHeightFromWidth` | src/util/length.rs:244-246 | definition: `w / ratio` for a non-zero ratio; inverse of `RatioWidthFromHeight` by `AspectRatioRoundTrip` |
| `Length.AspectRatioRoundTrip` | src/util/length.rs:240-246 | `height_from_width` undoes `width_from_height` and vice versa |
| `Length.SdlLength` | src/util/length.rs:252 | the length clamp of `Rect::new`: at least one pixel, and any positive length unchanged |
| `Length.FrectToRect` | src/util/length.rs:251-253 | the position is rounded; a length is rounded to the nearest whole, and one below one half (negative ones included) becomes 1, since `Rect::new` never makes an empty rectangle |
| `Rects.RectPositionRound` | src/util/rect.rs:60-73 | the result is `floor(i + 0.5)`: nearest integer, ties rounded up rather than away from zero |
| `Rects.PositionRoundCases` | src/util/rect.rs:65-72 | both branches of the source (default rounding, and truncation at a negative tie) agree with rounding ties up |
| `Rects.RectPositionRoundMonotone` | src/util/rect.rs:60-73 | rounding preserves order, so adjacent edges never cross |
| `Rects.RectPositionRoundWhole` | src/util/rect.rs:20-25 | whole numbers are unaffected |
| `Rects.RectPositionRoundTies` | src/util/rect.rs:19-57 | the values asserted by `round_tie_tests` |
| `Rects.RectLenRound` | src/util/rect.rs:79-86 | `None` exactly for lengths below one half; otherwise a positive whole within one half of the input |
| `Rects.ToRect` | src/util/rect.rs:88-107 | no rectangle when either length rounds below 1; otherwise the rounded position and rounded lengths |
| `Rects.ToRectOfWhole` | src/util/rect.rs:88-107 | a rectangle with whole coordinates converts to itself |
| `Rects.ToRectOpt` | src/util/rect.rs:88-107 | the conversion lifted over a missing position |
| `Sdl.Intersection` | src/layout/clipper.rs:19-22 | a point is in the intersection exactly when it is in both rectangles; an empty intersection is `None` |
| `Sizing.BorderSplit` | src/widget/border.rs:209-219 | the amount removed and the amount passed on add up to the query; the border never passes a negative length |
| `Sizing.AddBack` | src/widget/border.rs:220-222 | what was removed is added back to the child's answer, and a missing answer stays missing |
| `Sizing.PreferredWidthFromHeight` | src/widget/border.rs:208-223 | an answer exists exactly when the link has an aspect ratio |
| `Sizing.PreferredHeightFromWidth` | src/widget/border.rs:225-240 | an answer exists exactly when the link has an aspect ratio |
| `Events.SdlEvent.MarkConsumed` | src/widget/widget.rs:19-21 | the same event, now consumed and no longer available |
| `Events.NewEvent` | src/widget/widget.rs:31-37 | a new event is available and not consumed |
| `Events.SetConsumed` | src/widget/widget.rs:19-21 | only the `i`-th event changes, to its consumed form |
| `Widget.WidgetEvent.SubEvent` | src/widget/widget.rs:69-85 | the child's event has the given position and everything else of the parent's event |
| `Widget.WidgetEvent.Dup` | src/widget/widget.rs:87-89 | a re-borrow: the copy equals the event |
| `Widget.LinkCap` | src/widget/mod.rs:295-300 | the cap on a derived length is the maximum, tightened to the portion unless the widget may exceed its portion |
| `Widget.PlacedSize` | src/widget/widget.rs:206-227 | both lengths respect their minimums; the non-derived length is its clamped portion; without a ratio both are clamped portions; with one, the derived length is the ratio's answer when it fits its cap |
| `Widget.Place` | src/widget/widget.rs:201-250 | no rectangle when a length is zero; otherwise the placed size, offset by each axis's fail policy |
| `Widget.PlaceWithinParent` | src/widget/widget.rs:229-250 | with fail policies in [0, 1] a child no larger than its parent lies inside it, and a larger one covers it |
| `Widget.DefaultSizingFillsParent` | src/widget/widget.rs:95-147 | a widget with the default sizing answers is placed exactly at its parent's rectangle |
| `Widget.GuiEvent` | src/widget/widget.rs:157-194 | the root gets the whole window placed by `place`, the default aspect priority and all of the frame's events |
| `Widget.GuiEventDefaultCoversWindow` | src/widget/widget.rs:157-194 | a root with default sizing gets the whole window |
| `WidgetMod.NewEvent` | src/widget/mod.rs:88-93 | a new event is available |
| `WidgetMod.SdlEvent.MarkConsumed` | src/widget/mod.rs:74-78 | the same event, consumed by a plain widget |
| `WidgetMod.SetConsumed` | src/widget/mod.rs:74-78 | only the `i`-th event changes, marked consumed by a widget |
| `WidgetMod.SetConsumedByLayout` | src/widget/mod.rs:80-86 | only the `i`-th event changes, marked consumed by a layout |
| `WidgetMod.WidgetUpdateEvent.SubEvent` | src/widget/mod.rs:130-141 | the child's event has the given position and keeps the clipping rectangle, window, priority and events |
| `WidgetMod.WidgetUpdateEvent.Dup` | src/widget/mod.rs:143-148 | a re-borrow: the copy equals the event |
| `WidgetMod.Place` | src/widget/mod.rs:278-334 | the size follows the `widget.rs` rule with the widget's own exceed flag, offset by the fail policies; a rectangle is always returned |
| `WidgetMod.PlaceAgreesWithWidgetPlace` | src/widget/mod.rs:278-334 | for a widget that may not exceed its portion, the two `place` functions agree whenever `widget.rs` gives a rectangle |
| `WidgetMod.ExceedNeverShrinks` | src/widget/mod.rs:291-313 | allowing a link to exceed the portion never shrinks the derived length and leaves the other length alone |
| `WidgetMod.UpdateGuiEvent` | src/widget/mod.rs:234-269 | the root's update event: the whole window placed, no clipping, the default priority |
| `Focus.NextFocus` | src/util/focus.rs:50-62 | Tab moves to the next id and wraps to 0; nothing focused moves to 0 |
| `Focus.PreviousFocus` | src/util/focus.rs:64-70 | Shift-Tab moves to the previous id and wraps to the last; nothing focused moves to the last |
| `Focus.PreviousUndoesNext` | src/util/focus.rs:50-70 | Shift-Tab after Tab returns to the same widget |
| `Focus.NextUndoesPrevious` | src/util/focus.rs:50-70 | Tab after Shift-Tab returns to the same widget |
| `Focus.TabTimesCycles` | src/util/focus.rs:50-62 | `k` Tabs advance by `k` and wrap to 0 after the last id |
| `Focus.FocusManager.constructor` | src/util/focus.rs:166-173 | no ids handed out, nothing focused |
| `Focus.FocusManager.Clear` | src/util/focus.rs:21-24 | back to no ids and nothing focused |
| `Focus.FocusManager.NextAvailableId` | src/util/focus.rs:26-30 | returns the next id and increments the counter; the focus is untouched |
| `Focus.FocusManager.SetFocus` | src/util/focus.rs:39-42 | the id is focused and no other id is |
| `Focus.FocusManager.Unfocus` | src/util/focus.rs:44-48 | the id is not focused afterwards; another widget's focus is left alone |
| `Focus.FocusManager.SetNextFocused` | src/util/focus.rs:50-62 | the focus becomes `NextFocus` of the old focus |
| `Focus.FocusManager.SetPreviousFocused` | src/util/focus.rs:64-70 | the focus becomes `PreviousFocus` of the old focus |
| `Focus.FocusManager.DefaultStartFocusBehavior` | src/util/focus.rs:139-163 | with a focus nothing changes; without one, events and focus follow the Tab fold |
| `Focus.StartFocusStep` | src/util/focus.rs:143-161 | definition: one event of `default_start_focus_behavior`; an available Tab press is consumed and moves the focus |
| `Focus.StartFocusRun` | src/util/focus.rs:139-163 | definition: the step over the frame in order; stated by `StartFocusRunFacts` and implemented by `FocusManager.DefaultStartFocusBehavior` |
| `Focus.StartFocusRunFacts` | src/util/focus.rs:139-163 | exactly the available Tab presses are consumed, and a focus is set exactly when there was one |
| `Focus.WidgetFocusStep` | src/util/focus.rs:83-131 | definition: one event of `default_widget_focus_behavior`; stated by `MouseMotionDecidesFocus` and implemented by `WidgetFocusEvent` |
| `Focus.WidgetFocusRun` | src/util/focus.rs:77-133 | definition: the step over the frame in order; stated by `WidgetFocusRunConsumesOnlyTabs` and implemented by `DefaultWidgetFocusBehavior` |
| `Focus.WidgetFocusRunConsumesOnlyTabs` | src/util/focus.rs:77-133 | the widget focus behaviour consumes nothing but Tab presses and keeps every event's data |
| `Focus.MouseMotionDecidesFocus` | src/util/focus.rs:84-108 | after a mouse motion the widget is focused exactly when the event was available and inside both its position and the clipping rectangle |
| `Focus.DefaultWidgetFocusBehavior` | src/util/focus.rs:77-133 | without a manager nothing changes; with one, events and focus follow the per-event fold and no id is handed out |
| `Focus.WidgetFocusEvent` | src/util/focus.rs:83-131 | one event handled in place: that event and the focus change as the step function says |
| `Aggregate.LiteralMax` | src/layout/horizontal_layout.rs:234-240 | `Spread` gives `LAX`, a literal gives itself, and only `Together(Children)` asks the children |
| `Aggregate.MinCombinedFold` | src/layout/horizontal_layout.rs:205-211 | definition: `combined` folded over the children from a seed; stated by `MinCombinedFoldIsSum` |
| `Aggregate.MinCombinedFoldIsSum` | src/layout/horizontal_layout.rs:205-211 | combining minimums over the children sums them onto the seed |
| `Aggregate.MinStrictestFold` | src/layout/horizontal_layout.rs:205-211 | definition: `strictest` folded over the children from a seed; stated by `MinStrictestFoldIsMax` |
| `Aggregate.MinStrictestFoldIsMax` | src/layout/horizontal_layout.rs:205-211 | the strictest minimum is one of the seed or children and at least all of them |
| `Aggregate.MaxCombinedFold` | src/layout/vertical_layout.rs:273-281 | definition: `combined` of maximums folded over the children; stated by `MaxCombinedFoldIsSum` |
| `Aggregate.MaxCombinedFoldIsSum` | src/layout/vertical_layout.rs:273-281 | combining maximums is either `LAX` or their sum; any `LAX` child or seed makes the result `LAX`; non-negative maximums whose sum stays below `f32::MAX` give exactly that sum |
| `Aggregate.MaxStrictestFold` | src/layout/vertical_layout.rs:273-281 | definition: `strictest` of maximums folded over the children; stated by `MaxStrictestFoldIsMin` |
| `Aggregate.MaxStrictestFoldIsMin` | src/layout/vertical_layout.rs:273-281 | the strictest maximum is one of the seed or children and at most all of them |
| `HorizontalLayout.Default` | src/layout/horizontal_layout.rs:25-41 | the default policies: the width from the children, the height lax |
| `HorizontalLayout.Min` | src/layout/horizontal_layout.rs:188-223 | a literal policy gives itself; otherwise the width is the sum and the height the largest of the children's minimums |
| `HorizontalLayout.MaxAsWritten` | src/layout/horizontal_layout.rs:233-271 | the source's seeds: the width fold starts at `LAX`, the height fold at 0 |
| `HorizontalLayout.MaxAsWrittenIgnoresChildren` | src/layout/horizontal_layout.rs:253-259 | with the children's policies the source always answers `LAX` wide and at most 0 high, whatever the children |
| `HorizontalLayout.Max` | src/layout/horizontal_layout.rs:233-271 | corrected: a literal gives itself; otherwise the width is the sum and the height the smallest of the children's maximums |
| `HorizontalLayout.MaxOfChildren` | src/layout/horizontal_layout.rs:233-271 | the corrected rule on two concrete children: widths add up, heights take the strictest |
| `HorizontalLayout.InfoOf` | src/layout/horizontal_layout.rs:60-77 | a child's info: the width is the major axis, the height the minor axis |
| `HorizontalLayout.Infos` | src/layout/horizontal_layout.rs:60-77 | one info per child, in order |
| `HorizontalLayout.ChildHeight` | src/layout/horizontal_layout.rs:152-162 | at least the minimum; the clamped portion without a ratio; the derived height when it fits its cap |
| `HorizontalLayout.ChildHeightAgreesWithPlace` | src/layout/horizontal_layout.rs:152-162 | the height a child gets in the row is the one `place` would give it |
| `HorizontalLayout.ChildRect` | src/layout/horizontal_layout.rs:164-169 | the child's rectangle starts at `x` with the snapped width |
| `HorizontalLayout.Placed` | src/layout/horizontal_layout.rs:47-140 | every child gets the layout's own rectangle when it has no pixel area; a lone child with spare width is placed on its own |
| `HorizontalLayout.RowUpToAt` | src/layout/horizontal_layout.rs:142-177 | the `j`-th child of a row prefix starts at the sum of the widths and gaps before it |
| `HorizontalLayout.Row` | src/layout/horizontal_layout.rs:142-177 | every child stands at its offset with its snapped width |
| `HorizontalLayout.Arrange` | src/layout/horizontal_layout.rs:44-181 | the `impl_widget_fn` body computes exactly the placements of the specification |
| `HorizontalLayout.Collect` | src/layout/horizontal_layout.rs:60-77 | fills a fresh info array with the children's infos and sums their width portions |
| `HorizontalLayout.PlaceRow` | src/layout/horizontal_layout.rs:142-177 | the placement loop gives the row of snapped widths and leaves the infos holding them |
| `HorizontalLayout.PlaceNext` | src/layout/horizontal_layout.rs:164-176 | places one child and advances by its width and the gap |
| `HorizontalLayout.ChildAt` | src/layout/horizontal_layout.rs:152-169 | computes the child's rectangle as specified |
| `HorizontalLayout.SpacedRow` | src/layout/horizontal_layout.rs:113-177 | a layout with pixel area and more than one child, or no spare width, lays out a row |
| `HorizontalLayout.ChildrenAdjacent` | src/layout/horizontal_layout.rs:164-176 | each child starts where its left neighbour ends plus a non-negative gap |
| `HorizontalLayout.ChildrenSpanParent` | src/layout/horizontal_layout.rs:113-177 | with spare width the last child ends within a pixel of the right edge; otherwise the widths trail their total by less than a pixel |
| `HorizontalLayout.RowSpan` | src/layout/horizontal_layout.rs:142-177 | the last child ends after all widths and gaps |
| `HorizontalLayout.WidthsWithinLimits` | src/layout/horizontal_layout.rs:79-151 | each snapped width is its settled width rounded down or up, and within a pixel of the child's limits |
| `VerticalLayout.Default` | src/layout/vertical_layout.rs:36-51 | the default policies: the height from the children, the width lax |
| `VerticalLayout.Min` | src/layout/vertical_layout.rs:207-243 | a literal policy gives itself; otherwise the height is the sum and the width the largest of the children's minimums |
| `VerticalLayout.Max` | src/layout/vertical_layout.rs:253-292 | a literal policy gives itself; otherwise the height is the sum and the width the smallest of the children's maximums |
| `VerticalLayout.InfoOf` | src/layout/vertical_layout.rs:72-88 | a child's info: the height is the major axis, the width the minor axis |
| `VerticalLayout.Infos` | src/layout/vertical_layout.rs:72-88 | one info per child, in order |
| `VerticalLayout.ChildWidth` | src/layout/vertical_layout.rs:165-181 | at least the minimum; the clamped portion without a ratio; the derived width when it fits its cap |
| `VerticalLayout.ChildWidthAgreesWithPlace` | src/layout/vertical_layout.rs:165-181 | the width a child gets in the column is the one `place` would give it |
| `VerticalLayout.ChildPosIs` | src/layout/vertical_layout.rs:182-194 | no rectangle when a length is zero; otherwise one at `y` with the snapped height |
| `VerticalLayout.Placed` | src/layout/vertical_layout.rs:118-153 | one position per child; a lone child with spare height is placed on its own |
| `VerticalLayout.ColumnUpToAt` | src/layout/vertical_layout.rs:155-203 | the `j`-th child of a column prefix starts at the sum of the heights and gaps before it |
| `VerticalLayout.Column` | src/layout/vertical_layout.rs:155-203 | every child stands at its offset with its snapped height |
| `VerticalLayout.Placements` | src/layout/vertical_layout.rs:57-70 | without a position every child gets none |
| `VerticalLayout.Arrange` | src/layout/vertical_layout.rs:54-204 | the `impl_widget_fn` body computes exactly the placements of the specification |
| `VerticalLayout.Collect` | src/layout/vertical_layout.rs:72-88 | fills a fresh info array with the children's infos and sums their height portions |
| `VerticalLayout.PlaceColumn` | src/layout/vertical_layout.rs:155-203 | the placement loop gives the column of snapped heights and leaves the infos holding them |
| `VerticalLayout.PlaceNext` | src/layout/vertical_layout.rs:190-199 | places one child and advances by its height and the gap |
| `VerticalLayout.ChildAt` | src/layout/vertical_layout.rs:165-194 | computes the child's position as specified |
| `VerticalLayout.SpacedColumn` | src/layout/vertical_layout.rs:123-203 | a layout with more than one child, or no spare height, lays out a column |
| `VerticalLayout.ChildrenStacked` | src/layout/vertical_layout.rs:190-199 | each child starts at its offset, and below its upper neighbour by its height plus a non-negative gap |
| `VerticalLayout.ChildrenSpanParent` | src/layout/vertical_layout.rs:123-203 | with spare height the column ends within a pixel of the bottom edge; otherwise the heights trail their total by less than a pixel |
| `VerticalLayout.HeightsWithinLimits` | src/layout/vertical_layout.rs:89-163 | each snapped height is its settled height rounded down or up, and within a pixel of the child's limits |
| `Linear.Prefs` | src/layout/horizontal_layout.rs:60-77 | the children's major-axis portions, in order |
| `Linear.FirstPassOne` | src/layout/horizontal_layout.rs:79-98 | a child gets its weighted portion clamped to its limits; the amount taken or given is what clamping added or removed |
| `Linear.FirstPassFillsParent` | src/layout/horizontal_layout.rs:79-98 | after the first pass the lengths add up to the parent's length plus what was taken minus what was given |
| `Linear.FirstPassAll` | src/layout/horizontal_layout.rs:79-98 | definition: `FirstPassOne` over the children; stated by `FirstPassSum`, `FirstPassFillsParent`, `FirstPassKeepsLimits`, implemented by `FirstPass` |
| `Linear.FirstPassSum` | src/layout/horizontal_layout.rs:79-98 | the first pass treats each child on its own and sums the amounts taken and given |
| `Linear.FirstPass` | src/layout/horizontal_layout.rs:79-98 | the in-place first pass computes the specified lengths and amounts |
| `Linear.ShareAsWritten` | src/layout/horizontal_layout.rs:352-353 | the source's share `(portion / available_weight) * excess` is undefined exactly when the available weight is 0 |
| `Linear.Share` | src/layout/horizontal_layout.rs:352-353 | definition: the portion over the available weight times the amount, and the equal split when the weight is zero (the corrected rule of "## Findings"); stated by `RoundShares`, `WeightedSharesAddUp`, `EqualSharesAddUp` |
| `Linear.AdjustOne` | src/layout/horizontal_layout.rs:351-361 | a child still able to move takes its share up to its limit, and the overflow is carried; another child is untouched |
| `Linear.AdjustAll` | src/layout/horizontal_layout.rs:350-363 | definition: `AdjustOne` over the children with the overflow summed; stated by `AdjustAllFacts`, implemented by `AdjustInPlace` |
| `Linear.AdjustAllFacts` | src/layout/horizontal_layout.rs:343-363 | one round adjusts each child on its own and sums what overflowed |
| `Linear.SumSharesWeighted` | src/layout/horizontal_layout.rs:343-363 | the shares of one round are proportional to the portions of the children able to move |
| `Linear.RoundShares` | src/layout/horizontal_layout.rs:343-363 | the shares handed out in one round add up to the amount |
| `Linear.WeightedSharesAddUp` | src/layout/horizontal_layout.rs:343-363 | with a positive available weight the weighted shares add up to the amount |
| `Linear.EqualSharesAddUp` | src/layout/horizontal_layout.rs:343-363 | with zero available weight the equal shares add up to the amount |
| `Linear.Round` | src/layout/horizontal_layout.rs:338-365 | definition: the available weight and count, then `AdjustAll`; stated by `RoundConserves`, `RoundWithoutAdjustable`, `RoundBounds` |
| `Linear.RoundConserves` | src/layout/horizontal_layout.rs:338-365 | one round adds (or removes) the amount, less what it carries over to the next round |
| `Linear.RoundWithoutAdjustable` | src/layout/horizontal_layout.rs:343-363 | a round with no child able to move changes nothing |
| `Linear.RoundBounds` | src/layout/horizontal_layout.rs:351-361 | one round moves each length toward its limit without passing it and carries a non-negative amount |
| `Linear.DistributeRounds` | src/layout/horizontal_layout.rs:332-366 | definition: up to the given number of rounds, stopping at a zero excess; stated by `DistributeRoundsKeeps`, `DistributeRoundsConserves`, implemented by `DistributeExcess` |
| `Linear.DistributeRoundsKeeps` | src/layout/horizontal_layout.rs:332-366 | `distribute_excess` only grows lengths and never past their maximums |
| `Linear.DistributeRoundsConserves` | src/layout/horizontal_layout.rs:332-366 | `distribute_excess` only adds length, and what it adds plus what it leaves over is at most the excess; less only when a round finds no child able to grow, which drops the rest (as the source's `excess = excess_from_excess = 0` does) |
| `Linear.AvailableWeightOf` | src/layout/horizontal_layout.rs:343-348 | the loop sums the portions, and counts, the children able to move |
| `Linear.AdjustInPlace` | src/layout/horizontal_layout.rs:350-363 | one round in place computes the specified lengths and carry |
| `Linear.AdjustChild` | src/layout/horizontal_layout.rs:351-361 | the per-child step of a round, as `AdjustOne` states it |
| `Linear.DistributeExcess` | src/layout/horizontal_layout.rs:332-366 | `distribute_excess` in place gives the specified lengths after at most 15 rounds |
| `Linear.DeficitRounds` | src/layout/horizontal_layout.rs:371-405 | definition: up to the given number of rounds, stopping after one leaves a zero deficit; stated by `DeficitRoundsKeeps`, `DeficitRoundsConserves`, implemented by `TakeDeficit` |
| `Linear.DeficitRoundsKeeps` | src/layout/horizontal_layout.rs:371-405 | `take_deficit` only shrinks lengths and never below their minimums |
| `Linear.DeficitRoundsConserves` | src/layout/horizontal_layout.rs:371-405 | `take_deficit` only removes length, and what it removes plus what it leaves over is at most the deficit; less only when a round finds no child able to shrink, which drops the rest |
| `Linear.TakeDeficit` | src/layout/horizontal_layout.rs:371-405 | `take_deficit` in place gives the specified lengths after at most 15 rounds |
| `Linear.ZeroWeightFirstPass` | src/layout/horizontal_layout.rs:79-106 | two concrete children, one with zero portion, leave 90 of 100 to distribute |
| `Linear.ZeroWeightShareAsWritten` | src/layout/horizontal_layout.rs:343-353 | in that layout the only child able to grow has zero portion and the available weight is 0, so the source's share is undefined |
| `Linear.ZeroWeightShareCorrected` | src/layout/horizontal_layout.rs:332-366 | corrected: the same layout gives the 90 to the child able to grow and fills the parent |
| `Linear.Lens` | src/layout/horizontal_layout.rs:108-111 | the settled lengths, in order |
| `Linear.Snap` | src/layout/horizontal_layout.rs:146-151 | each length snapped with the rounding error carried from the ones before |
| `Linear.SnapStep` | src/layout/horizontal_layout.rs:146-151 | one snapping step of the carry |
| `Linear.SnapFacts` | src/layout/horizontal_layout.rs:146-151 | the carry stays in [0, 1), the snapped prefix plus the carry equals the settled prefix, and each snapped length is the settled one rounded down or up |
| `Linear.FirstPassKeepsLimits` | src/layout/horizontal_layout.rs:79-98 | the first pass keeps every length inside the child's limits |
| `Linear.SettleFrom` | src/layout/horizontal_layout.rs:100-106 | definition: distribute what was given back, or take what was taken; stated by `SettleFromKeepsLimits` |
| `Linear.SettleFromKeepsLimits` | src/layout/horizontal_layout.rs:100-106 | distributing the excess or taking the deficit keeps lengths inside their limits |
| `Linear.Settle` | src/layout/horizontal_layout.rs:79-106 | definition: the first pass then `SettleFrom`; stated by `SettleKeepsLimits`, `SettleFillsParent`, implemented by `SettleInPlace` |
| `Linear.SettleKeepsLimits` | src/layout/horizontal_layout.rs:79-106 | when every child's limits are ordered, each settled length lies inside its child's limits |
| `Linear.SettleFillsParent` | src/layout/horizontal_layout.rs:79-111 | the settled lengths add up to at most the parent's length when there was excess, and at least when there was a deficit |
| `Linear.SettleInPlace` | src/layout/horizontal_layout.rs:79-106 | the first pass then the excess or deficit, in place, computes the specified settled lengths |
| `Linear.Gap` | src/layout/horizontal_layout.rs:113-140 | a positive gap only with spare length and at least two children, else 0 |
| `Linear.GapsFillSpare` | src/layout/horizontal_layout.rs:130-138 | the gaps add up to exactly the spare length |
| `Linear.OffsetIs` | src/layout/horizontal_layout.rs:142-177 | a child's offset is the sum of the lengths and gaps before it |
| `Linear.TotalLength` | src/layout/horizontal_layout.rs:108-111 | the sum loop computes the total settled length |
| `Linear.SnapOne` | src/layout/horizontal_layout.rs:146-151 | one snapping step in code |
| `Linear.SnapNext` | src/layout/horizontal_layout.rs:146-151 | the next info gets its snapped length and the carry advances |
| `Linear.RowEnd` | src/layout/horizontal_layout.rs:142-177 | the last child ends after all lengths and gaps |
| `Linear.SnapTotal` | src/layout/horizontal_layout.rs:146-151 | the snapped lengths trail the settled total by less than a pixel, never exceeding it |
| `StackedLayout.Top` | src/layout/stacked_layout.rs:140-166 | the top-most (last) child, or default answers when there is none |
| `StackedLayout.AsChild` | src/layout/stacked_layout.rs:102-288 | a literal policy answers its literal sizing without a link; the children's policy takes policies, portions and link from the top child |
| `StackedLayout.InheritedLimits` | src/layout/stacked_layout.rs:102-204 | inherited limits are the strictest of any child's, and each is lax or some child's own |
| `StackedLayout.LiteralIgnoresChildren` | src/layout/stacked_layout.rs:38-48 | a literal policy answers the same whatever the children |
| `StackedLayout.SingleChildIsTransparent` | src/layout/stacked_layout.rs:38-45 | a stack of one child answers exactly as that child |
| `StackedLayout.Min` | src/layout/stacked_layout.rs:102-138 | `min` answers the specified minimums |
| `StackedLayout.Max` | src/layout/stacked_layout.rs:168-204 | `max` answers the specified maximums |
| `StackedLayout.Arrange` | src/layout/stacked_layout.rs:73-99 | without a position every child gets none; otherwise each child is placed by `place` in the whole layout |
| `Clipper.AsChild` | src/layout/clipper.rs:58-96 | definition: every sizing query answered by the contents |
| `Clipper.ClippingRectIntersection` | src/layout/clipper.rs:12-35 | no position clips to nothing; no clip gives the position; an empty intersection clips to nothing; otherwise the intersection |
| `Clipper.IntersectionInsideBoth` | src/layout/clipper.rs:12-35 | every point of a non-empty result lies in both the position and the old clip |
| `Clipper.IntersectionIdempotent` | src/layout/clipper.rs:12-35 | clipping to the same position twice clips the same points as once |
| `Clipper.Run` | src/layout/clipper.rs:38-56 | the contents see the intersected clip, so they can draw only inside the clipper's position and the old clip; the old clip is restored, and the contents' result is returned |
| `Scroller.DragStep` | src/layout/scroller.rs:104-127 | a held-left motion during a drag is consumed and moves each enabled offset to the pointer plus the drag difference; other events change nothing |
| `Scroller.PressStep` | src/layout/scroller.rs:147-190 | a left press inside starts a drag, a left release ends it, a wheel inside is consumed and scrolls by 7 per notch from the frame's starting offsets |
| `Scroller.DragRun` | src/layout/scroller.rs:104-127 | definition: `DragStep` over the frame in order; stated by `DragRunFacts`, `DragFollowsMouse`, implemented by `Scroller.DragPass` |
| `Scroller.DragRunFacts` | src/layout/scroller.rs:104-127 | the drag pass consumes only mouse motions, keeps the drag, and changes nothing without one |
| `Scroller.PressRun` | src/layout/scroller.rs:147-190 | definition: `PressStep` over the frame in order; stated by `PressRunFacts`, `WheelTurnsDoNotAccumulate`, implemented by `Scroller.PressPass` |
| `Scroller.PressRunFacts` | src/layout/scroller.rs:147-190 | the press pass consumes only wheel events and leaves a disabled axis alone |
| `Scroller.WheelTurnsDoNotAccumulate` | src/layout/scroller.rs:171-186 | two wheel events in one frame: the offset is set from the starting offset by the last one only |
| `Scroller.DragFollowsMouse` | src/layout/scroller.rs:109-122 | after pressing at a point, moving the pointer by `d` moves the contents by `d` |
| `Scroller.Shifted` | src/layout/scroller.rs:132-135 | the contents' position is the scroller's moved by the offsets |
| `Scroller.RectOf` | src/layout/scroller.rs:160 | the pixel rectangle presses and wheel events are tested against: `frect_to_rect` of the position, never less than a pixel each way |
| `Scroller.ThinScrollerStillHit` | src/layout/scroller.rs:171-186 | a scroller 0.3 wide still gets a one-pixel rectangle, and a wheel event on its left edge lies inside it |
| `Scroller.ClipOf` | src/layout/scroller.rs:129-131 | the contents are clipped to the scroller's rounded rectangle, or not at all without a position |
| `Scroller.ContentsEffect` | src/layout/scroller.rs:137 | the contents may consume events but change nothing else about them |
| `Scroller.Scroller.constructor` | src/layout/scroller.rs:31-46 | no drag in progress, the given offsets and axes |
| `Scroller.Scroller.Update` | src/layout/scroller.rs:99-193 | the drag pass, the contents at the shifted position and the scroller's clip, the clip cleared, then the press pass only if the contents succeeded |
| `Scroller.Scroller.Draw` | src/layout/scroller.rs:195-216 | the contents are drawn at the shifted position, clipped to the scroller; the clip is cleared afterwards |
| `Scroller.Scroller.DragPass` | src/layout/scroller.rs:104-127 | the loop computes the drag fold in place |
| `Scroller.Scroller.PressPass` | src/layout/scroller.rs:147-190 | the loop computes the press fold in place |
| `Scroller.Scroller.PressAt` | src/layout/scroller.rs:153-188 | one event of the press pass in place: a left press on the rectangle records the drag from the frame-start offsets, a left release clears it, a wheel turn over the rectangle is consumed and sets the enabled offsets from the frame start, as the step says |
| `Render.CenterSeekingRectPoints` | src/util/render.rs:15-26 | a closed path of the four inset corners whose every segment is horizontal or vertical |
| `Render.UpLeftCenterSeekingRectPoints` | src/util/render.rs:28-34 | three points joined by axis-aligned segments |
| `Render.BottomRightCenterSeekingRectPoints` | src/util/render.rs:36-45 | three points joined by axis-aligned segments |
| `Render.HalvesMakeTheRectangle` | src/util/render.rs:15-45 | the upper-left and lower-right halves share their ends and together visit exactly the four corners |
| `Render.InsetWithinTexture` | src/util/render.rs:15-26 | an inset less than half the smaller side keeps every point on the texture, with the corners in order |
| `Border.AsChild` | src/widget/border.rs:203-304 | definition: the contents' sizing seen through the frame; stated by `LimitsGrowByFrame`, `FramedRatio`, `FrameSwallowsSmallLengths`, `LimitsCarryThrough` |
| `Border.LimitsGrowByFrame` | src/widget/border.rs:262-272 | the minimums grow by twice the border width; a lax maximum stays lax, another grows by twice the width |
| `Border.FramedRatio` | src/widget/border.rs:208-240 | seen through a border, a ratio applies to the inside and the frame is added back |
| `Border.FrameSwallowsSmallLengths` | src/widget/border.rs:213-216 | a query no longer than the frame asks the child about 0 and adds the whole query back |
| `Border.FramedRatioRoundTrip` | src/widget/border.rs:208-240 | through a border, the height of the width derived from a height is that height again |
| `Border.FramedHeightOf` | src/widget/border.rs:225-240 | the framed height of a framed width is the inner ratio's height plus the frame |
| `Border.ChildRect` | src/widget/border.rs:274-304 | no child position when the border's has none or is no larger than the frame; otherwise inset by the width on every side |
| `Border.ChildInsideFrame` | src/widget/border.rs:289-300 | the child's rectangle is inset by exactly the border width on each edge |
| `Border.LimitsCarryThrough` | src/widget/border.rs:262-304 | a border placed within its own limits gives its child a rectangle within the child's limits |
| `Border.RingCount` | src/widget/border.rs:59-61 | the rings drawn are capped by the width and by half the smaller side |
| `Border.RingOnTexture` | src/widget/border.rs:72-81 | an inset ring lies on the texture |
| `Border.BevelRings` | src/widget/border.rs:57-86 | definition: the bevel paths, ring by ring; stated by `BevelRingsOnTexture`, drawn by `DrawStyle` |
| `Border.BevelRingsOnTexture` | src/widget/border.rs:57-86 | every bevel path lies on the texture |
| `Border.GradientRings` | src/widget/border.rs:111-129 | definition: the gradient paths, ring by ring; stated by `GradientRingsOnTexture`, drawn by `DrawStyle` |
| `Border.GradientRingsOnTexture` | src/widget/border.rs:111-129 | every gradient path lies on the texture |
| `Border.StylePaths` | src/widget/border.rs:52-170 | definition: the paths each style draws; stated by `StylePathsOnTexture`, drawn by `DrawStyle` |
| `Border.StylePathsOnTexture` | src/widget/border.rs:52-170 | whatever the style, on a texture of at least one pixel every path it draws lies on the texture |
| `Border.DrawStyle` | src/widget/border.rs:52-170 | the style's drawing loop draws exactly the specified paths |
| `Border.BorderWidget.constructor` | src/widget/border.rs:187-200 | nothing rendered yet |
| `Border.BorderWidget.Draw` | src/widget/border.rs:312-415 | without a position only the contents draw; otherwise the texture is reused iff the size matches, re-rendered and recorded otherwise, the contents draw inside the frame and the texture is copied to the rounded position when that has at least a pixel each way; success needs the texture, the style, the contents and that copy, and only a success keeps the texture |
| `Checkbox.VariantTruthTable` | src/widget/checkbox.rs:28-56 | the three flags tell every variant apart, and no variant is pressed without being focused or checked |
| `Checkbox.VariantFor` | src/widget/checkbox.rs:457-481 | a focused or checked variant has exactly the given flags; otherwise it is `Idle` |
| `Checkbox.EveryVariantShown` | src/widget/checkbox.rs:457-481 | every variant is the one chosen for its own flags |
| `Checkbox.TextureVariantSizeCache.constructor` | src/widget/checkbox.rs:200-207 | an empty cache |
| `Checkbox.TextureVariantSizeCache.Render` | src/widget/checkbox.rs:214-253 | re-renders exactly when the cached texture is missing or of another size; a failure leaves the cache empty |
| `Checkbox.Activate` | src/widget/checkbox.rs:339-343 | the functionality runs once; on success the event is consumed, on failure the frame fails |
| `Checkbox.PressStep` | src/widget/checkbox.rs:320-418 | definition: one event of the press handling; stated by `PressStepFacts`, implemented by `PressAt` |
| `Checkbox.PressRun` | src/widget/checkbox.rs:319-420 | definition: `PressStep` over the frame, stopping at a failure; stated by `PressRunFacts`, `FailureStopsTheFrame`, `ClickActivatesOnce`, `ReturnActivatesOnce`, implemented by `PressLoop` |
| `Checkbox.PressRunFacts` | src/widget/checkbox.rs:319-420 | only press-related events are consumed, the focus moves only to this widget, and pressed stays set |
| `Checkbox.PressStepFacts` | src/widget/checkbox.rs:320-418 | one event: only a press-related event is consumed and the focus moves only to this widget |
| `Checkbox.FailureStopsTheFrame` | src/widget/checkbox.rs:339-342 | once the functionality has failed no further event is looked at |
| `Checkbox.ClickActivatesOnce` | src/widget/checkbox.rs:366-417 | a left press and release inside focus the widget, set pressed, consume both and run the functionality once |
| `Checkbox.ReturnActivatesOnce` | src/widget/checkbox.rs:321-346 | Return pressed and released while focused sets pressed, consumes both and runs the functionality once |
| `Checkbox.FocusPressUpdate` | src/widget/checkbox.rs:309-314 | without a pixel position nothing is pressed anew and nothing runs |
| `Checkbox.NoPressEventNoPress` | src/widget/checkbox.rs:319-420 | a frame with no press-related events changes nothing |
| `Checkbox.NoFailureSucceeds` | src/widget/checkbox.rs:299-422 | functionality that never fails leaves the update successful |
| `Checkbox.RunAfterFailure` | src/widget/checkbox.rs:339-342 | after a failure the rest of the events are passed through untouched |
| `Checkbox.FocusPressUpdateImpl` | src/widget/checkbox.rs:299-422 | `focus_press_update_implementation` computes the specified events, pressed flag, focus and calls |
| `Checkbox.PressLoop` | src/widget/checkbox.rs:317-421 | the loop computes the press fold in place and stops at a failure |
| `Checkbox.PressAt` | src/widget/checkbox.rs:320-418 | one event in place, as the step says |
| `Checkbox.Run` | src/widget/checkbox.rs:339-343 | running the functionality in place, as `Activate` says |
| `Checkbox.Cell.constructor` | src/widget/checkbox.rs:257 | the shared checked cell holds its value |
| `Checkbox.CheckBoxSizing` | src/widget/checkbox.rs:425-431 | minimum and maximum are both the box's size, without a link |
| `Checkbox.PlacedAtItsSize` | src/widget/checkbox.rs:425-431 | a check box is always placed at exactly its size |
| `Checkbox.CheckBox.constructor` | src/widget/checkbox.rs:274-295 | unpressed, size 30, every cache empty |
| `Checkbox.CheckBox.Sizing` | src/widget/checkbox.rs:425-431 | the check box's sizing answers |
| `Checkbox.CheckBox.Update` | src/widget/checkbox.rs:433-440 | the press handling with the toggle as functionality: the value flips once per activation and the update succeeds |
| `Checkbox.CheckBox.Draw` | src/widget/checkbox.rs:442-503 | the variant for focus, press and value is rendered through its own cache at the position's size and copied there; on a miss that cache holds the new texture iff both creating and drawing it succeeded, and nothing otherwise; no other cache changes |
| `Button.VariantFor` | src/widget/button.rs:222-259 | `Idle` without the focus, otherwise pressed or not |
| `Button.ColorsTellVariantsApart` | src/widget/button.rs:67-71 | the three variants are drawn in three different colours |
| `Button.CornerMarks` | src/widget/button.rs:59-112 | nothing when a side is at most 5; otherwise four corner marks |
| `Button.CornerMarksShape` | src/widget/button.rs:75-112 | each mark lies on the texture, bends at a corner and has two axis-aligned arms of 5 pixels |
| `Button.Button.CachesDistinct` | src/widget/button.rs:133-143 | the three variant caches are three different objects |
| `Button.Button.constructor` | src/widget/button.rs:146-162 | unpressed, every cache empty |
| `Button.Button.Update` | src/widget/button.rs:212-220 | the check box's press handling with the button's functionality |
| `Button.Button.Draw` | src/widget/button.rs:222-259 | the variant for focus and press is rendered through its own cache at the position's size and copied there; on a miss that cache holds the new texture iff both creating and drawing it succeeded, and nothing otherwise; no other cache changes |
| `Checkbox.CheckBox.CachesDistinct` | src/widget/checkbox.rs:264-270 | the seven variant caches are seven different objects |
| `Shuffle.SwapIndex` | src/util/shuffle.rs:42-43 | the LCG step picks an index no greater than `i` |
| `Shuffle.Swap` | src/util/shuffle.rs:44 | the two entries trade places and nothing else changes |
| `Shuffle.SwapIsPermutation` | src/util/shuffle.rs:44 | a swap keeps the same elements |
| `Shuffle.NextSeed` | src/util/shuffle.rs:42 | definition: the LCG step `seed * 6364136223846793005 + 1` wrapping mod 2^64; pinned by `KnownVector` |
| `Shuffle.ShuffleFrom` | src/util/shuffle.rs:41-45 | definition: the passes from `i` down to 1; stated by `ShuffleFromIsPermutation` |
| `Shuffle.ShuffleFromIsPermutation` | src/util/shuffle.rs:40-46 | each remaining pass of the shuffle keeps the length and the elements |
| `Shuffle.Shuffled` | src/util/shuffle.rs:40-46 | definition: the whole shuffle; stated by `ShuffledIsPermutation`, `ShortUnchanged`, `KnownVector`, implemented by `Shuffle` |
| `Shuffle.ShuffledIsPermutation` | src/util/shuffle.rs:40-46 | the shuffled vector is a permutation of the input |
| `Shuffle.ShortUnchanged` | src/util/shuffle.rs:5-24 | an empty or one-element vector is unchanged |
| `Shuffle.KnownVector` | src/util/shuffle.rs:26-35 | `[1, 2, 3, 4, 5]` with seed 42 shuffles to the vector the source's test expects |
| `Shuffle.Shuffle` | src/util/shuffle.rs:40-46 | the in-place loop computes the specified shuffle, a permutation of the input |
| `Shuffle.SwapElements` | src/util/shuffle.rs:44 | `swap` in place |
| `TextInput.DefaultSingleLineTextEditState.constructor` | src/widget/single_line_text_input.rs:28-32 | the text state holds its text |
| `TextInput.DefaultSingleLineTextEditState.Get` | src/widget/single_line_text_input.rs:34-39 | returns the text without changing it |
| `TextInput.DefaultSingleLineTextEditState.Set` | src/widget/single_line_text_input.rs:41-43 | replaces the text |
| `TextInput.SetThenGet` | src/widget/single_line_text_input.rs:22-43 | a `get` after a `set` returns what was set, twice |
| `TextInput.Play` | src/widget/single_line_text_input.rs:220-260 | a sound is appended, and the frame fails if that is the call that fails; nothing else changes |
| `TextInput.Pop` | src/widget/single_line_text_input.rs:497 | removes the last character, or nothing from an empty text |
| `TextInput.FrameUpdate` | src/widget/single_line_text_input.rs:384-546 | without a manager nothing changes; the focused-last-frame flag becomes the final focus unless the frame failed, when it is kept |
| `TextInput.BackspaceEdits` | src/widget/single_line_text_input.rs:473-501 | Backspace is consumed; it clears the text with Ctrl, otherwise drops its last character; a failed sound leaves the text |
| `TextInput.TextInputAppends` | src/widget/single_line_text_input.rs:504-525 | typed text is consumed and appended; a failed sound leaves the text |
| `TextInput.SoundAllowed` | src/widget/single_line_text_input.rs:480-485 | definition: `checked_sub(..).unwrap_or(50) >= 50`; stated by `LimiterDecidesSound` |
| `TextInput.LimiterDecidesSound` | src/widget/single_line_text_input.rs:479-519 | a sound plays and the timestamp is recorded exactly when 50 ms have passed (or time went backwards), and for Backspace only on a non-empty text |
| `TextInput.ReturnRunsFunctionality` | src/widget/single_line_text_input.rs:450-471 | a repeated Return is consumed and ignored; otherwise the Enter sound plays, then the functionality runs unless the sound failed |
| `TextInput.InputRunEvents` | src/widget/single_line_text_input.rs:413-541 | only the widget's input events are consumed, and consumed events stay as they were |
| `TextInput.InputRun` | src/widget/single_line_text_input.rs:413-541 | definition: `InputStep` over the frame in order; stated by `InputRunEvents`, `InputRunFacts`, `UnfocusedEditsNothing`, `RunAfterFailure`, implemented by `SingleLineTextInput.EventLoop` |
| `TextInput.InputRunFacts` | src/widget/single_line_text_input.rs:413-541 | a failed frame changes nothing more, and sounds and calls only accumulate |
| `TextInput.InputStep` | src/widget/single_line_text_input.rs:414-540 | definition: the focus rule, then `FocusedStep` while focused; stated by `InputStepFacts`, `UnfocusedStep`, implemented by `SingleLineTextInput.EventAt` |
| `TextInput.FocusedStep` | src/widget/single_line_text_input.rs:432-540 | definition: the focus sound on the first focused event, then `Edit`; implemented by `SingleLineTextInput.FocusedAt` |
| `TextInput.InputStepFacts` | src/widget/single_line_text_input.rs:413-540 | one event: consumed events pass unchanged, and only input events are newly consumed |
| `TextInput.Edit` | src/widget/single_line_text_input.rs:447-530 | definition: one key or text event while focused; stated by `EditFacts`, `BackspaceEdits`, `TextInputAppends`, `LimiterDecidesSound`, `ReturnRunsFunctionality`, implemented by `SingleLineTextInput.EditKey` |
| `TextInput.EditFacts` | src/widget/single_line_text_input.rs:447-530 | an edit consumes only input events, leaves the focus alone and plays at most one sound |
| `TextInput.UnfocusedEditsNothing` | src/widget/single_line_text_input.rs:425-430 | a frame in which the widget never gets the focus edits nothing, plays nothing and consumes nothing |
| `TextInput.UnfocusedStep` | src/widget/single_line_text_input.rs:425-430 | one event that leaves the widget unfocused changes nothing else |
| `TextInput.FocusSoundOnRisingEdge` | src/widget/single_line_text_input.rs:403-436 | the focus sound plays first when the widget was not focused last frame, and never when it was |
| `TextInput.RunAfterFailure` | src/widget/single_line_text_input.rs:538-540 | after a failure the rest of the events are passed through untouched |
| `TextInput.RunFinished` | src/widget/single_line_text_input.rs:413-541 | once every event is handled or a sound failed, the frame's events and state are those of the whole fold |
| `TextInput.FocusRule` | src/widget/single_line_text_input.rs:414-423 | definition: the per-event focus rule, as `default_widget_focus_behavior` does it; implemented by `FocusRuleAt` |
| `TextInput.FocusRuleAt` | src/widget/single_line_text_input.rs:414-423 | the per-event focus behaviour in place, as the step says |
| `TextInput.ChooseCaret` | src/widget/single_line_text_input.rs:616-666 | the caret is at the left exactly for an empty text or a zero-height texture; otherwise after the text when the scaled text fits, else at the right |
| `TextInput.CaretWithinBox` | src/widget/single_line_text_input.rs:688-692 | the caret's x always lies inside the box |
| `TextInput.ShownWidth` | src/widget/single_line_text_input.rs:642-659 | the part of the texture shown when it is cut off is never wider than the texture, so the source's subtraction cannot underflow |
| `TextInput.PointSize` | src/widget/single_line_text_input.rs:563-566 | the height as the point size, saturating at 65535 |
| `TextInput.StyleCache.constructor` | src/widget/single_line_text_input.rs:161-168 | an empty cache with no text used |
| `TextInput.StyleCache.Render` | src/widget/single_line_text_input.rs:175-217 | reused iff both the size and the text match; otherwise re-rendered with the text recorded, or left empty on failure |
| `TextInput.SingleLineTextInput.constructor` | src/widget/single_line_text_input.rs:319-349 | not focused last frame, timestamp 0, no caches, default sizing |
| `TextInput.SingleLineTextInput.Sizing` | src/widget/single_line_text_input.rs:355-382 | a lax width and the configured height limits, policies and portions |
| `TextInput.SingleLineTextInput.Update` | src/widget/single_line_text_input.rs:384-546 | `update` records the position and computes the specified events, text, timestamp, focus, sounds and result; the sizing, label cache and render type are kept |
| `TextInput.SingleLineTextInput.RunFrame` | src/widget/single_line_text_input.rs:403-541 | the focus sound and the event loop, as the frame function says |
| `TextInput.SingleLineTextInput.EventLoop` | src/widget/single_line_text_input.rs:413-541 | the loop computes the input fold in place and stops at a failure |
| `TextInput.SingleLineTextInput.EventAdvance` | src/widget/single_line_text_input.rs:413-541 | handling the next event extends the input fold by one event and leaves the later events alone |
| `TextInput.SingleLineTextInput.EventAt` | src/widget/single_line_text_input.rs:414-540 | one event in place, as the step says |
| `TextInput.SingleLineTextInput.FocusedAt` | src/widget/single_line_text_input.rs:432-540 | one event while focused, as the focused step says, and the key handling never moves the focus |
| `TextInput.SingleLineTextInput.EditKey` | src/widget/single_line_text_input.rs:447-530 | one edit on the shared text, as `Edit` says |
| `TextInput.SingleLineTextInput.UpdateAdjustPosition` | src/widget/single_line_text_input.rs:548-551 | the draw position moves by the delta; nothing else changes |
| `TextInput.SingleLineTextInput.Draw` | src/widget/single_line_text_input.rs:553-698 | the label is reused iff text, point size and render type match, and is kept iff it was reused or rendered and, unless the caret is at the left, copied; the caret follows the label shown; on a miss the style cache for the focus state holds the texture for that size, text and caret iff creating and drawing it succeeded; the other cache never changes; success iff label, style and final copy all succeed; the render type and the sound limiter's timestamp are unchanged |
| `TextInput.SingleLineTextInput.DrawLabel` | src/widget/single_line_text_input.rs:553-663 | the label half of `draw`: the label cache and the caret as above, the text unchanged |
| `TextInput.SingleLineTextInput.DrawStyle` | src/widget/single_line_text_input.rs:665-698 | the style half of `draw`: a hit reuses the cache of the focus state, a miss re-renders it, the other cache is untouched, and success iff the style texture exists and the copy succeeds |

## Left out

- I/O: SDL rendering (textures, `draw_lines`, `copy`, `fill_rect`), fonts, sounds and the user's functionality are parameters saying whether, or at which call, they fail; no pixels are modelled.
- Colours: `interpolate_color` and the bevel and gradient colour ramps are not modelled (f32-to-u8 casts); only the paths drawn are.
- Floating point: f32 is `real`, so NaN, infinities and rounding error are not modelled, except that the zero-weight division is exhibited under "## Findings".
- Fallible sizing queries: `min`, `max` and the link queries of a child never return `Err` in the model; a child widget is the record of its sizing answers.
- `Linear.DistributeExcess`, `Linear.TakeDeficit`: model `RUN_OFF_SIZING_AMOUNT = Some(15)`; the `None` branch (one round per child) is not modelled. Both share with the corrected zero-weight rule of "## Findings" (`Linear.Share`, exhibited by `Linear.ZeroWeightShareCorrected`), not the 0 / 0 division as written.
- `Scroller.Scroller.Update`: offsets are unbounded integers, so i32 overflow of `x + drag_diff` and of the wheel step is not modelled; the two shared `Cell<i32>` offsets are fields of the scroller, so aliasing them with other widgets is not modelled.
- `TextInput.SingleLineTextInput.Update`: with no focus manager the source hits a `debug_assert!` and returns `Ok`; the release behaviour is modelled.
- `TextInput.SingleLineTextInput.Update`: the per-event focus rule of `mod.rs` (`WidgetEventFocusSubset`) is modelled by `FocusRule`, which follows `default_widget_focus_behavior` of `util/focus.rs` for one event; the window id is ignored.
- `TextInput.SingleLineTextInput.Draw`: the shaded background `fill_rect` and its failure are not modelled; the font's rendered size is a parameter.
- `Checkbox.CheckBox.Update`: the toggles are applied after the press handling as a parity of the activation count, rather than inside the loop; the resulting value is the same.
- `Button.Button.Update`: the style's label sizing, forwarded by every sizing query of the button, is a constant record of answers.
- `Button.CornerMarks`: the label update and draw inside `DefaultButtonStyle::draw` are not modelled.
- The default check box style's drawing (`DefaultCheckBoxStyle::draw`) is not modelled beyond its success or failure.
- The Option-taking `frect_to_rect` called by `util/focus.rs:89`, `widget/button.rs:223` and `widget/border.rs:402` is not part of this model (`util/length.rs:251` only defines the `FRect`-taking one, used by `layout/scroller.rs`); all three call sites use `Into<Option<Rect>>` of `util/rect.rs` lifted over a missing position (`Rects.ToRectOpt`).
- `Length.FrectToRect`, `Rects.ToRect`: the saturating `as i32` casts of the rounded position (`util/length.rs:252`, `util/rect.rs:65-72`) are not modelled, positions being unbounded integers; the `as u32` length casts and the length clamp of `Rect::new` are not bounded above (`u32::MAX`, `i32::MAX`); only the lower end (zero, then one pixel in `FrectToRect`) is modelled.
- The i32 casts in `util/render.rs` are not modelled; points are unbounded integers.
- Concurrency, window ids and multi-window routing are out of scope.

## Findings

| source | as written | input that shows it | evidently intended | confidence | as-written member | corrected member |
|---|---|---|---|---|---|---|
| src/layout/horizontal_layout.rs:253-259 | with the children's max policies, the width fold starts at `MaxLen::LAX` under `combined` and the height fold at `MaxLen(0.)` under `strictest`, so the answer is `LAX` wide and 0 high whatever the children | two children at most 10 x 50 and 20 x 50 answer `LAX` x 0 | the seeds swapped, as in `vertical_layout.rs`: the width fold starts at 0 (sum of widths) and the height fold at `LAX` (strictest height), giving 30 x 50 | high, not executed | `HorizontalLayout.MaxAsWrittenIgnoresChildren` | `HorizontalLayout.MaxOfChildren` |
| src/layout/horizontal_layout.rs:343-353 | `distribute_excess` (and `take_deficit`, 382-392, and both in `vertical_layout.rs`) divides each portion by the summed portions of the children still able to move; when all of those have portion 0 it computes 0 / 0 | children with portions 1 and 0, at most 10 and `f32::MAX` long, in a parent of 100: the first child is capped at 10 and the 90 left over is shared with `0 / 0`, a NaN width | share equally among the children able to move, as `weighted_portion` does for a zero sum | medium, not executed | `Linear.ZeroWeightShareAsWritten` | `Linear.ZeroWeightShareCorrected` |
