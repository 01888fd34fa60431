# unigui layout core in Dafny

unigui is a small Rust GUI toolkit. Every widget reports a size constraint, a
`WidgetSize` that holds a minimum, a preferred value and a maximum for each axis.
Containers ask their children for these constraints and then choose where each
child goes. This project models that layout core in two versions:

- the current crate (`src/`), where sizes are `f32`:
  - the `WidgetSize` setters and `Rect::sized`;
  - the `Flexbox` measuring and placing pass (`allocate_area`), which covers
    wrapping, horizontal shrinking, vertical shrinking, `align-content`,
    `justify-content` and `align-items`;
  - `render`'s pairing of children with their subareas;
  - the `Div` container, which lays block and inline children out in lines.
- the older integer crate (`fgui/`), where sizes are `usize`:
  - `WidgetSize`, and `Rect::sized` with its `isize` arithmetic;
  - the `Flexbox` render handshake (`accept_render`);
  - the two measuring passes, one without wrapping and one with it;
  - the unfinished `WrapReverse` and `render`.

Operations are pure functions over immutable datatypes. A Rust panic (an
inverted `clamp`, a `todo!()`, a `usize` underflow) becomes the `Panic` arm of
`Faults.Result`. Children, the area allocator and `Div`'s fitting methods
become function-valued inputs. The repository's unit tests are restated as
lemmas about the model: `FlexboxExamples`, `DivExamples` and
`FgFlexboxExamples`.

Modules, by source file:

| module | file(s) | source |
|---|---|---|
| Faults, Numeric | faults.dfy, numeric.dfy | `Result`/`Option`, f32 `max`/`min`/`clamp`, the `as usize` and `as isize` casts |
| Sizes, Geometry | widget_size.dfy, rect.dfy | src/widget.rs, src/rect.rs |
| FlexRows, FlexShrink, FlexVertical, FlexAlign, FlexPlace, Flexbox | flex_*.dfy, flexbox.dfy | src/containers/flexbox.rs |
| StableOrder | stable_order.dfy | `sort_by_key` (a stable sort) in both flexboxes |
| Div | div.dfy | src/containers/div.rs |
| FgSizes, FgGeometry | fg_widget.dfy, fg_rect.dfy | fgui/src/widget.rs, fgui/src/rect.rs |
| FgShrink, FgFlexbox | fg_shrink.dfy, fg_flexbox.dfy | fgui/src/containers/flexbox.rs |
| FlexboxExamples, DivExamples, FgFlexboxExamples | *_examples.dfy | the `#[cfg(test)]` modules of the three containers |

## Model

| member | source | states |
|---|---|---|
| Numeric.Max | src/containers/flexbox.rs:7-13 | the result is one of the two arguments and is at least both |
| Numeric.Min | src/containers/flexbox.rs:15-21 | the result is one of the two arguments and is at most both |
| Numeric.ToUsize | src/containers/flexbox.rs:61 | `as usize` on a float gives 0 for a negative value, the whole part (the floor) up to `usize::MAX`, and saturates at `usize::MAX` above it |
| Numeric.TruncToIsize | src/containers/flexbox.rs:137 | `as isize` rounds towards zero on both sides of 0 within the `isize` range, and saturates at `isize::MIN` below it and at `isize::MAX` above it |
| Sizes.SetWidth | src/widget.rs:19-21 | the width is clamped into [min_width, max_width] (kept, raised to the minimum or lowered to the maximum) and no other field changes |
| Sizes.SetHeight | src/widget.rs:23-25 | the height is clamped into [min_height, max_height] and no other field changes |
| Sizes.SetSize | src/widget.rs:14-17 | the result is in range, only width and height change, and an in-range request is kept exactly |
| Sizes.FitWidth | src/widget.rs:34-39 | the width is clamped into the restriction first and then into the widget's own bounds, which win when the two disagree |
| Sizes.FitHeight | src/widget.rs:27-32 | the same two-step clamp for the height |
| Sizes.SettersIdempotent | src/widget.rs:14-25 | applying a setter twice equals applying it once, and `set_size` to its own width and height changes nothing when in range |
| Sizes.SettersCommute | src/widget.rs:14-25 | `set_width` and `set_height` commute, so `set_size` does not depend on their order |
| Geometry.Sized | src/rect.rs:8-14 | the min corner is (x, y), the extent is width x height, and the corners are ordered exactly when both extents are non-negative |
| Geometry.SizedRoundTrip | src/rect.rs:8-22 | rebuilding a rect from its min corner, `width()` and `height()` gives back the same rect |
| FgSizes.SetWidth | fgui/src/widget.rs:23-25 | `Ord::clamp` of the width into the bounds; nothing else changes |
| FgSizes.SetHeight | fgui/src/widget.rs:19-21 | `Ord::clamp` of the height into the bounds; nothing else changes |
| FgSizes.SetSize | fgui/src/widget.rs:14-17 | the result is in range and an in-range request is kept |
| FgSizes.SetSizeInSteps | fgui/src/widget.rs:14-25 | `set_size` equals `set_width` then `set_height`, in either order; it is idempotent; it changes nothing exactly when the size is already in range |
| FgGeometry.AsIsize | fgui/src/rect.rs:11 | `width as isize` keeps values up to `isize::MAX` and wraps larger ones by 2^64 |
| FgGeometry.AsIsizeRoundTrip | fgui/src/rect.rs:11 | the wrapping cast is undone modulo 2^64, and it is non-negative exactly up to `isize::MAX` |
| FgGeometry.Offset | fgui/src/rect.rs:11 | `x + width as isize` succeeds exactly when the sum stays in the `isize` range, and otherwise it is an overflow panic |
| FgGeometry.Sized | fgui/src/rect.rs:8-13 | it succeeds exactly when neither coordinate sum overflows; the top-left is (x, y); the corners are ordered exactly when the extents fit in `isize` |
| FgGeometry.SizedRoundTrip | fgui/src/rect.rs:8-13 | an ordered rect is rebuilt from its top-left corner and its extents |
| FlexRows.NoWrapRows | src/containers/flexbox.rs:56-68 | without wrapping there is exactly one row, holding every child in order, with its width and height measured |
| FlexRows.WrapRowsCorrect | src/containers/flexbox.rs:69-89 | the rows concatenate to the children in order; a row breaks only when adding the next child would strictly pass `max_width`; the first row is empty exactly when there is no child or the first child alone is too wide |
| FlexShrink.Factor | src/containers/flexbox.rs:109 | the factor lies in [0, 1] and equals overflow / capacity whenever that ratio is already in [0, 1] |
| FlexShrink.ShrinkRow | src/containers/flexbox.rs:97-118 | a row that fits is left alone; otherwise only the widths change, each stays between the child's minimum and its old width, and the row width is re-summed |
| FlexShrink.ShrinkRowUniform | src/containers/flexbox.rs:97-118 | every child of an overflowing row loses the same fraction min(1, overflow / capacity) of its shrink capacity |
| FlexShrink.ShrinkRowAbsorbs | src/containers/flexbox.rs:97-118 | when the capacity covers the overflow, the shrunk row is exactly `max_width` wide |
| FlexShrink.ShrinkRowSaturates | src/containers/flexbox.rs:97-118 | when the capacity does not cover the overflow, every child ends at its minimum width |
| FlexShrink.FactorAsWritten | src/containers/flexbox.rs:109 | under `f32` the factor is NaN exactly when the overflow is already NaN or both overflow and capacity are 0; otherwise it is `Factor`, in [0, 1] |
| FlexShrink.ShrinkWidthsAsWritten | src/containers/flexbox.rs:107-116 | the `f32` loop writes one width per child, and once the overflow is NaN every later width is NaN |
| FlexShrink.SumAsWritten | src/containers/flexbox.rs:115 | the `f32` row width is NaN exactly when some child's width is |
| FlexShrink.AsWrittenAgrees | src/containers/flexbox.rs:97-118 | wherever the `f32` loop still holds a number, it equals the width the model's loop computes |
| FlexShrink.NaNOnOrdinaryRow | src/containers/flexbox.rs:97-118 | on children (50, min 40) and (50, min 50) in a row 95 wide, the `f32` loop gives widths [45, NaN] and a NaN row width, while the model gives [45, 50] and exactly 95 |
| StableOrder.SortPermutes | src/containers/flexbox.rs:137 | the sort returns a permutation of its input (equal multisets) |
| StableOrder.OrderIsStableSort | src/containers/flexbox.rs:137 | the visiting order covers every index once, in ascending key order, with ties in their original order |
| StableOrder.OrderOfAscendingKeys | src/containers/flexbox.rs:137 | keys that are already ascending are visited in place |
| FlexVertical.ShrinkVertical | src/containers/flexbox.rs:120-152 | rows that fit in `max_height` are left alone, and the number of rows never changes |
| FlexVertical.VerticalNeverOvershoots | src/containers/flexbox.rs:126-152 | the vertical pass never takes off more than the overflow: the rows stay at least `max_height` tall in total |
| FlexVertical.VerticalKeepsRowMinimum | src/containers/flexbox.rs:130-151 | no row is lowered below the tallest minimum height of its children |
| FlexVertical.VerticalAbsorbs | src/containers/flexbox.rs:126-152 | when the truncated sort keys are pairwise distinct and the slack covers the overflow, the rows end exactly `max_height` tall |
| FlexVertical.VerticalInRowOrder | src/containers/flexbox.rs:137-151 | when the keys already ascend, row i is lowered by the i-th share min(slack, remaining overflow / remaining rows) |
| FlexVertical.TruncatedKeyLeavesOverflow | src/containers/flexbox.rs:137 | two rows whose slacks differ by less than 1/1000 share one key, are visited in the wrong order, and leave overflow although their slack would cover it |
| FlexAlign.JustifyFills | src/containers/flexbox.rs:235-266 | for a row that fits, the start offset and gap of each `justify-content` mode are non-negative, keep the row inside, and put it at the start, the end, the centre, or spread it evenly as the mode names |
| FlexAlign.JustifyOverflowing | src/containers/flexbox.rs:235-266 | for a row that overflows, the gap is 0; FlexEnd and Center (and SpaceBetween with one child) start left of the container; the other modes start at 0 |
| FlexAlign.DistributeFills | src/containers/flexbox.rs:164-232 | `align-content` gives non-negative offsets; it gives none when the rows overflow; otherwise it places the stack as each mode names |
| FlexAlign.StretchFills | src/containers/flexbox.rs:215-231 | Stretch shares the free height equally, so the rows fill the height exactly, and it adds nothing when the rows overflow |
| FlexAlign.PlaceInsideRow | src/containers/flexbox.rs:270-289 | each `align-items` mode puts a child that fits inside its row, at the top, bottom or centre; Stretch gives it the row's height when its bounds allow |
| FlexAlign.PlacePanics | src/containers/flexbox.rs:286-288 | placing a child panics exactly under Stretch with inverted height bounds (`f32::clamp`) |
| FlexPlace.PlaceRowAt | src/containers/flexbox.rs:268-297 | child k of a row starts at the row's start plus the widths of the k children before it plus k gaps |
| FlexPlace.RowDisjoint | src/containers/flexbox.rs:268-297 | with a non-negative gap, consecutive children of a row do not overlap |
| FlexPlace.RowInside | src/containers/flexbox.rs:234-297 | under any `justify-content`, every child of a row that fits lies horizontally inside the container |
| FlexPlace.TopsAt | src/containers/flexbox.rs:233-299 | row i starts at the first row's top plus the heights of the rows before it plus i row gaps |
| Flexbox.Envelope | src/containers/flexbox.rs:41-51 | the envelope is the allocator's answer, or else 0..container in each axis with a zero preferred size |
| Flexbox.Measure | src/containers/flexbox.rs:58-62 | every child is measured, in order, against the same offered size (the envelope's maximum cast to `usize`) |
| Flexbox.Form | src/containers/flexbox.rs:53-93 | the rows hold every child in order, and there is at least one row |
| Flexbox.Widest | src/containers/flexbox.rs:155-160 | the final width is the widest row (0 when no row is wider than 0) |
| Flexbox.StretchRow | src/containers/flexbox.rs:223-228 | a stretched row grows by the share; each child's height is set to the row height, clamped into that child's bounds |
| Flexbox.StretchFillsHeight | src/containers/flexbox.rs:215-231 | after Stretch the rows are max(content height, container height) tall |
| Flexbox.Render | src/containers/flexbox.rs:304-314 | render pairs child i with subarea i, and the `debug_assert_eq!` fails exactly when the counts differ |
| Flexbox.LayoutPanics | src/containers/flexbox.rs:35-302 | the pass panics exactly for WrapReverse, for inverted envelope bounds, or for a child with inverted height bounds under Stretch |
| Flexbox.LayoutCoversChildren | src/containers/flexbox.rs:233-314 | a finished pass produces one subarea per child, so render's assertion holds |
| Flexbox.LayoutValue | src/containers/flexbox.rs:154-161 | the size returned is the envelope after `set_size(widest row, total height)` of the final rows |
| Flexbox.LayoutSize | src/containers/flexbox.rs:154-161 | only width and height differ from the envelope; each equals the content's extent whenever that extent is within bounds |
| Flexbox.FreeHeightFromMinimum | src/containers/flexbox.rs:154-161 | the reported height exceeds the content only when the envelope's minimum does, and then it is that minimum |
| Flexbox.AllocatePanics | src/containers/flexbox.rs:35-93 | without an allocator the pass panics exactly for WrapReverse or a child with inverted height bounds under Stretch |
| Flexbox.AllocateThenRender | src/containers/flexbox.rs:233-314 | render never fails after a finished `allocate_area` |
| Div.Measure | src/containers/div.rs:73-74 | each child is measured against the container size, keeping its inline flag |
| Div.Step | src/containers/div.rs:73-96 | a child joins the last line exactly when a line exists, it and the child before it are both inline, and it fits (non-strictly); an inline first child that fits opens the first line as measured; any other child opens a new line, fitted into the envelope; earlier lines never change |
| Div.LinesShaped | src/containers/div.rs:70-96 | every line is non-empty, as wide as its children side by side and as tall as the tallest; each child after a line's first was let in only while the line stayed at most `max_width` wide |
| Div.FlowItems | src/containers/div.rs:70-96 | the lines hold every child once, in order, each either as measured or as fitted into the envelope; a block child is always fitted |
| Div.BlockOnOwnLine | src/containers/div.rs:75-94 | every block child sits alone on a line of its own, fitted into the envelope |
| Div.LinesExtent | src/containers/div.rs:98-112 | each subarea has exactly its child's width and height |
| Div.SubareaAt | src/containers/div.rs:98-112 | child k of line i sits at x = the widths before it on its line and y = the heights of the lines above |
| Div.AllocatePanics | src/containers/div.rs:52-116 | the div panics exactly when the envelope's bounds are inverted, and never without an allocator |
| Div.AllocateCovers | src/containers/div.rs:52-116 | one subarea per child; each takes the child's measured size or its fitted size, and a block child always takes its fitted size |
| Div.AllocateSize | src/containers/div.rs:98-115 | the size is the envelope with width = clamp(widest line) and height = clamp(total height) |
| Div.AllocateThenRender | src/containers/div.rs:118-128 | render's assertion holds after a finished `allocate_area` |
| FgShrink.Capacities | fgui/src/containers/flexbox.rs:86-89 | `width - min_width` exists for every child exactly when no child is below its minimum, and it underflows otherwise |
| FgShrink.CapacitiesTotal | fgui/src/containers/flexbox.rs:86-89 | the capacities and the minimum widths add up to the row width |
| FgShrink.CutsWithin | fgui/src/containers/flexbox.rs:94-101 | no child gives up more than its own capacity |
| FgShrink.CutsWithinOverflow | fgui/src/containers/flexbox.rs:94-101 | the cuts never add up to more than the overflow |
| FgShrink.CutsAbsorb | fgui/src/containers/flexbox.rs:82-101 | with capacities visited in ascending order, the integer cuts min(capacity, overflow / remaining) absorb the whole overflow whenever the capacity covers it |
| FgShrink.CutsExhaust | fgui/src/containers/flexbox.rs:82-101 | when the capacity does not cover the overflow, every child gives up all of its capacity |
| FgShrink.NarrowLoopPermuted | fgui/src/containers/flexbox.rs:94-101 | applying the cuts in the sorted order changes only widths, keeps each child at or above its minimum, and lowers the total by the sum of the cuts |
| FgFlexbox.FirstAccepting | fgui/src/containers/flexbox.rs:24-29 | the first child that accepts is found; none exists exactly when no child accepts |
| FgFlexbox.AcceptRender | fgui/src/containers/flexbox.rs:19-30 | a pending render is consumed and accepted without polling; otherwise the children are polled in order up to the first that accepts, and the answer is whether any does |
| FgFlexbox.Envelope | fgui/src/containers/flexbox.rs:37-47 | the allocator's answer, or else 0..container in each axis with a zero preferred size |
| FgFlexbox.Measure | fgui/src/containers/flexbox.rs:49-53 | every child is measured against the envelope's maximum, in order |
| FgFlexbox.Tallest | fgui/src/containers/flexbox.rs:73-78 | the tallest child's height, or 0 for no child |
| FgFlexbox.ShrunkNarrows | fgui/src/containers/flexbox.rs:82-112 | if no child is below its minimum, shrinking changes only widths, keeps each between its minimum and its old width, and brings the row to max(max_width, sum of minimums) |
| FgFlexbox.NoWrapPanics | fgui/src/containers/flexbox.rs:70-116 | the pass panics exactly when the envelope's bounds are inverted or an overflowing row holds a child below its minimum width |
| FgFlexbox.NoWrapMeasures | fgui/src/containers/flexbox.rs:70-116 | a row that fits is kept; an overflowing one is narrowed to max(max_width, sum of minimums); the size is `set_size(row width, tallest)` |
| FgFlexbox.WrapLinesFit | fgui/src/containers/flexbox.rs:118-130 | no line is wider than `max_width` or taller than `max_height` |
| FgFlexbox.WrapLinesShareWidths | fgui/src/containers/flexbox.rs:118-130 | when every width is within the envelope's bounds, the lines' widths add up to the children's widths |
| FgFlexbox.WrapOneLine | fgui/src/containers/flexbox.rs:118-130 | children that fit together make one line: their summed width and the clamped tallest height |
| FgFlexbox.Wrap | fgui/src/containers/flexbox.rs:118-141 | the wrapping pass panics exactly when the envelope's bounds are inverted, and otherwise returns an in-range size |
| FgFlexbox.WrapAgreesWithNoWrap | fgui/src/containers/flexbox.rs:118-141 | when the children fit on one line, wrapping gives the same result as not wrapping |
| FgFlexbox.WrapWithinEnvelope | fgui/src/containers/flexbox.rs:132-141 | the width returned is max(min_width, widest line), covers every line and stays within `max_width` |
| FgFlexbox.AllocatePanics | fgui/src/containers/flexbox.rs:32-62 | without an allocator the pass panics exactly for WrapReverse, or without wrapping when an overflowing row holds a child below its minimum |
| FgFlexbox.Render | fgui/src/containers/flexbox.rs:64-66 | render is unfinished (`todo!()`), so it always panics |
| FlexboxExamples.NoWrapFits | src/containers/flexbox.rs:441-471 | `test_flexbox_no_wrap`, plenty of room: size 150 x 20 and three side-by-side subareas |
| FlexboxExamples.NoWrapShrinks | src/containers/flexbox.rs:472-502 | resizing: the buttons shrink to 40 x 15, and the size is clamped to 100 x 15 |
| FlexboxExamples.NoWrapOverflows | src/containers/flexbox.rs:503-516 | overflow: the size is clamped to 10 x 10 |
| FlexboxExamples.NoWrapAllocator | src/containers/flexbox.rs:517-555 | a custom allocator: the size is clamped into its answer |
| FlexboxExamples.NoWrapUnderflows | src/containers/flexbox.rs:556-577 | an allocator whose minimum exceeds the content: the size is that minimum |
| FlexboxExamples.WrapFits | src/containers/flexbox.rs:587-617 | `test_flexbox_size_wrap`, plenty of room: the same result as without wrapping |
| FlexboxExamples.WrapBreaks | src/containers/flexbox.rs:618-648 | the third button wraps onto a second row: 100 x 40 |
| FlexboxExamples.WrapShrinks | src/containers/flexbox.rs:649-679 | one button per row, each shrunk to 45: 45 x 60 |
| FlexboxExamples.WrapOverflows | src/containers/flexbox.rs:680-710 | one button per row at minimum size; the size is clamped to 10 x 10 |
| FlexboxExamples.WrapAllocator | src/containers/flexbox.rs:711-749 | an allocator 55 wide: one unshrunk button per row |
| FlexboxExamples.WrapUnderflows | src/containers/flexbox.rs:750-771 | an allocator whose minimum exceeds the content: the size is that minimum |
| DivExamples.Basic | src/containers/div.rs:195-230 | `test_div_basic`: two block lines and one line of three inline buttons |
| DivExamples.Wrapping | src/containers/div.rs:232-267 | `test_div_wrapping`: the last inline button wraps onto a fourth line |
| DivExamples.Resizing | src/containers/div.rs:269-303 | `test_div_resizing`, first call: every button alone on its line, 45 wide |
| DivExamples.ResizingSmaller | src/containers/div.rs:305-330 | `test_div_resizing`, second call: every button alone at 40 wide; the size is clamped to 35 x 50 |
| DivExamples.CustomAllocator | src/containers/div.rs:333-376 | `test_div_custom_allocator`: the layout of the basic test, with the allocator's fixed size |
| FgFlexboxExamples.NoWrapSimple | fgui/src/containers/flexbox.rs:247-258 | `test_flexbox_size_no_wrap`, plenty of room: 150 x 20 |
| FgFlexboxExamples.NoWrapResizing | fgui/src/containers/flexbox.rs:261-272 | the buttons shrink: 100 x 15 |
| FgFlexboxExamples.NoWrapOverflow | fgui/src/containers/flexbox.rs:275-286 | too small even for the minimums: clamped to 10 x 10 |
| FgFlexboxExamples.NoWrapCustomAllocator | fgui/src/containers/flexbox.rs:289-308 | a custom allocator: 150 x 20 within its answer |
| FgFlexboxExamples.NoWrapUnderflow | fgui/src/containers/flexbox.rs:311-330 | an allocator whose minimum exceeds the row: the size is that minimum |
| FgFlexboxExamples.WrapSimple | fgui/src/containers/flexbox.rs:342-353 | `test_flexbox_size_wrap`, plenty of room: 150 x 20 |
| FgFlexboxExamples.WrapWrapping | fgui/src/containers/flexbox.rs:356-367 | the third button wraps: 100 x 40 |
| FgFlexboxExamples.WrapResizing | fgui/src/containers/flexbox.rs:370-381 | one button per line, clamped to 45: 45 x 60 |
| FgFlexboxExamples.WrapOverflow | fgui/src/containers/flexbox.rs:384-395 | the lines overflow: clamped to 10 x 10 |
| FgFlexboxExamples.WrapCustomAllocator | fgui/src/containers/flexbox.rs:398-417 | an allocator 50 wide: 50 x 60 |
| FgFlexboxExamples.WrapUnderflow | fgui/src/containers/flexbox.rs:420-437 | an allocator whose minimum exceeds the content: the size is that minimum |

## Left out

- Floating point. Every `f32` of `src/` is a Dafny `real`, so there is no rounding, no infinity and no NaN. The one exception is `FlexShrink.F32`, which keeps the NaN of the shrink loop (see "## Findings").
  The layout lemmas are exact statements about real arithmetic.
- FlexShrink.Factor: with zero total capacity, Rust's `(overflow / total).clamp(0.0, 1.0)` (src/containers/flexbox.rs:109) divides by zero.
  A positive overflow gives infinity, which clamps to 1, and the model gives 1 as well.
  Zero divided by zero gives NaN, which `f32::clamp` passes through; the model gives 0 there, and the rest of the model builds on that.
  This is not harmless: it happens on ordinary rows, whenever the earlier children absorb the overflow exactly and a later child sits at its minimum width.
  That child's width, its row's width and, through the crate's `max`, the flexbox's reported width then become NaN.
  The NaN behaviour is modelled separately (see "## Findings").
- FlexAlign.Justify: an empty row (the leading row the wrap loop opens when the first child is too wide) divides by zero under SpaceAround (src/containers/flexbox.rs:250-252). SpaceBetween takes its `row.len() <= 1` branch there, which divides only by 2.
  The model uses a gap of 0 there. No child is placed on that row, so nothing observable depends on it.
- Widgets and allocators. A `dyn Widget` child and the `FnMut` area allocator are not modelled as objects.
  A child becomes a pure measuring function, and the allocator becomes its answer, passed in as an `Option`.
  A child that answers differently on a second call, or keeps state, is outside the model.
  The `src/` children (`Flexbox.Child`, `Div.Entry`) do not receive the screen size. No `src/` layout decision reads it; the fgui children do receive it.
- Div.Fitters: `Div` calls `fit_width_in` and `fit_height_in`, which `src/widget.rs` does not define.
  Their effect is therefore a function-valued parameter. `Sizes.FitWidth` and `Sizes.FitHeight` model the `fit_width` and `fit_height` the file does define.
  The div examples state, as a hypothesis, what the fitting does to a button.
- Div.AllocatePanics: the fitters are total functions here. `fit_width_in` and `fit_height_in` (called at src/containers/div.rs:91-92) are not defined in `src/widget.rs`; their analogues `fit_width` and `fit_height` (src/widget.rs:27-39) call `f32::clamp`, which panics when a child's own bounds are inverted.
  That panic is not modelled, so the if-and-only-if covers only the div's own clamp of its envelope.
- WrapReverse is `todo!()` in both flexboxes. Both AllocateArea functions return `Panic(Unimplemented)` for it.
- FgFlexbox.Render: fgui's `render` is `todo!()`, so it is modelled as a function that always panics. Nothing is drawn.
- Flexbox.Render and Div's render: drawing into an `Area` (`area.subarea`, `widget.render`) is left out, because `src/area.rs` is not part of this model.
  Render is modelled as the pairing of children with subareas, and the `debug_assert_eq!` is checked.
- FgGeometry.Offset: `x + width as isize` is modelled with the debug-build overflow panic. A release build wraps silently (fgui/src/rect.rs:11), and that is not modelled.
- FgFlexbox.NoWrapPanics: sizes are unbounded naturals. The debug-build `usize` overflow panics of the sums are therefore not modelled:
  - `flexbox_width += size.width` (fgui/src/containers/flexbox.rs:74, 107);
  - `last_line_size.0 + size.width` (:123, 127);
  - `flexbox_height += line_size.1` (:136).

  The if-and-only-if holds only while those sums stay at or below `usize::MAX`. Above that, the real program panics where the model returns a size.
- FgFlexbox.AllocatePanics: same as above. The `usize` overflow panics of the width and height sums in both passes are not among the panics it characterises.
- FlexVertical.VerticalAbsorbs: exact absorption is proved only when the truncated sort keys `(amount * 1000.0) as isize` are pairwise distinct.
  With ties, the program can visit rows out of slack order and leave overflow; `FlexVertical.TruncatedKeyLeavesOverflow` shows this on two rows.
  The model keeps the truncated key as written.
- Builders and debugging: the `new`, `add`, `push_block`, `push_inline`, `set_*` and `Default` constructors only store fields, so they are left out.
  The `Debug` implementations only format text, so they are left out too.
- `update`, the event loop, the backends and the graphics module are outside the layout core.

## Findings

| source | as written | input that shows it | evidently intended | confidence | as-written member | corrected member |
|---|---|---|---|---|---|---|
| src/containers/flexbox.rs:107-116 | once the overflow is absorbed, a later child with no shrink capacity left computes `(0.0 / 0.0).clamp(0.0, 1.0)`, which is NaN, and `0.0 * NaN` makes its width and the row width NaN | one row of two children, (width 50, min 40) then (width 50, min 50), with `max_width` 95 | a child with nothing left to cut keeps its width, so the widths become 45 and 50 and the row is exactly 95 wide | not executed; follows from IEEE 754 rules for 0/0, `f32::clamp` and `0 * NaN` | FlexShrink.NaNOnOrdinaryRow | FlexShrink.ShrinkRowUniform |
