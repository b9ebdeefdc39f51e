# ebitenui core logic in Dafny

This project models five small pieces of pure logic from the ebitenui widget toolkit and its demo program, and proves properties about them:

- **Row layout** (`widget/rowlayout.go`). Children are placed one after another along a horizontal or vertical axis, separated by a spacing and inset by a padding. Per-child `*RowLayoutData` can stretch a child across the row, cap its size and align it on the cross axis. A dirty flag gates `Layout`. `PreferredSize` runs the same placement loop speculatively and takes the union of the rectangles.
- **Checkbox** (`widget/checkbox.go`). The three-state machine driven by clicks (`Advance`), guarded `SetState` with its changed events, the graphic chosen for a state, and the one-shot `init.Do()` gate that builds the inner button.
- **Drag and drop** (`demorun/gui/dnd.go`). Source and target registration, and the recursive parent-chain search behind `IsSource`/`IsTarget`. Also the decisions of `Create` (no drag widget unless the widget is a source) and `Update` (which label is shown).
- **Tooltips** (`demorun/gui/tooltip.go`). The identity-keyed tip map, the time allow-list, `Create`'s nil/line-count decision and `Update`'s label assignment.
- **Hex colours** (`hexToColor` in `demorun/gui/resources.go`). `strconv.ParseUint(h, 16, 0)` followed by masks and shifts into an opaque `color.RGBA`.

Modules:

| module | file | contents |
|---|---|---|
| `Wrappers` | wrappers.dfy | `Option` |
| `Geometry` | geometry.dfy | Go `image.Point`/`image.Rectangle` (with `image.Rect` canonicalisation and `Union`), `Insets`, Go's truncating division |
| `RowLayout` | rowlayout.dfy | the row layout state, options, placement loop, `PreferredSize`, `Layout` |
| `RowLayoutProofs` | rowlayout_proofs.dfy | the dirty-flag protocol, where every child goes, layout-data effects, the preferred size of a plain row |
| `DeferredInit` | deferred_init.dfy | the `MultiOnce` gate as a once-flag with a run counter |
| `Checkbox` | checkbox.dfy | states, `Advance`, `SetState`, entry points, clicks |
| `CheckboxProofs` | checkbox_proofs.dfy | click cycles, event logs, build-once |
| `WidgetTree` | widgettree.dfy | parent map with a rank witnessing finite chains; the ancestor search |
| `DragAndDrop` | dnd.dfy | `DragContents` and its operations |
| `DragAndDropProofs` | dnd_proofs.dfy | the ancestor characterisation and its use in `Create`/`Update` |
| `ToolTip` | tooltip.dfy | `ToolTipContents` and its operations |
| `ToolTipProofs` | tooltip_proofs.dfy | call sequences and the size of the built tooltip |
| `Bits` | bits.dfy | Go's `&`, `<<`, `>>` and `uint8(...)` on naturals, related to division and remainder |
| `HexColor` | hexcolor.dfy | `ParseUint` in base 16 and `hexToColor` |
| `HexColorProofs` | hexcolor_proofs.dfy | which strings parse, the channel values, the six-digit round trip |

Modelling choices:

- State is threaded through pure functions. A Go method that mutates its receiver returns the new record here.
- Events fired by the checkbox are an appended log of `(checkbox id, state)`.
- A panic in the source is a precondition:
  - `SetState(Greyed)` on a two-state checkbox;
  - `hexToColor` on a string that does not parse;
  - `Update` of a drag or tooltip whose labels were never created.
- Go's `/` on ints truncates toward zero. The centring of a child uses `Geometry.TruncDiv`, because its numerator is negative when the child is larger than the row.
- Go's `&` and `>>` have the same precedence and associate left, so `u & 0xff0000 >> 16` is `(u & 0xff0000) >> 16`. The model uses that grouping.
- Go's `image.Rect(0, 0, w, h)` swaps negative extents. `Geometry.MakeRect` does the same.
- `Insets` (widget/insets.go) is not part of this model. Its `Dx`, `Dy` and `Apply` are taken as:
  - `Dx` is `Left + Right`;
  - `Dy` is `Top + Bottom`;
  - `Apply` moves `Min` by `(Left, Top)` and `Max` by `(-Right, -Bottom)`.
- `Widget.Parent()` (widget/widget.go) is not part of this model. The widget tree is a finite parent map. A rank map that decreases toward the root witnesses that parent chains end, which the source relies on for the recursion of `IsSource`/`IsTarget` to terminate.

## Model

| member | source | states |
|---|---|---|
| RowLayout.NewRowLayout | widget/rowlayout.go:33-59 | a new layout is clean; without a direction, padding or spacing option it is horizontal, unpadded and unspaced |
| RowLayoutProofs.NewRowLayoutLastOptionWins | widget/rowlayout.go:33-59 | when several options set the same field, the last one of its kind decides |
| RowLayout.MarkDirty | widget/rowlayout.go:186-188 | sets the dirty flag and changes nothing else |
| RowLayout.Layout | widget/rowlayout.go:69-81 | a clean layout places nothing; a dirty one places the full arrangement; afterwards the layout is clean with its configuration unchanged |
| RowLayout.Walk | widget/rowlayout.go:91-112 | the loop places only locateable children, at most one per child, in strictly increasing child order |
| RowLayoutProofs.OffsetStep | widget/rowlayout.go:107-111 | one turn of the loop's offset update (`x += ww + spacing`, or `y` for a vertical row) takes the closed-form offset of child `i` to that of child `i + 1`: the earlier extents plus `i` spacings along the axis, 0 across it |
| RowLayoutProofs.FreshLayoutPlacesNothing | widget/rowlayout.go:33-41 | a freshly built layout places nothing until it is marked dirty |
| RowLayoutProofs.SecondLayoutPlacesNothing | widget/rowlayout.go:69-76 | a second `Layout` without `MarkDirty` assigns no location and leaves the layout as it was |
| RowLayoutProofs.MarkDirtyThenLayout | widget/rowlayout.go:69-81 | `MarkDirty` then `Layout` gives the placements of the configuration and returns to the same clean layout |
| RowLayoutProofs.WalkIgnoresDirty | widget/rowlayout.go:83-113 | the placement loop reads the configuration, never the dirty flag |
| RowLayout.Arrange | widget/rowlayout.go:83-86 | `layout` with no children calls the location callback for nothing |
| RowLayoutProofs.EmptyRow | widget/rowlayout.go:61-66 | with no children nothing is placed and `PreferredSize` is exactly the padding |
| RowLayoutProofs.PreferredSizeCoversPadding | widget/rowlayout.go:61-66 | `PreferredSize` (the `Union` fold `UnionAll` over the speculative placements, plus padding) is never smaller than the padding, whatever sizes the children report |
| RowLayoutProofs.SlotRectExtents | widget/rowlayout.go:101-103 | the rectangle handed to the callback (`SlotRect`) has the magnitudes of the child's extents, since `image.Rect` orders its corners |
| RowLayoutProofs.PlacesEveryLocateableChild | widget/rowlayout.go:83-113 | every locateable child is placed once, in order, and nothing else is. Child `i`'s rectangle is its slot at the closed-form offset: the earlier children's final extents (locateable or not) plus the spacings |
| RowLayoutProofs.ChildRectGeometry | widget/rowlayout.go:88-111 | child `i`'s rectangle has the child's extents and starts at the padded origin plus the earlier extents plus `i * spacing` on the primary axis |
| RowLayoutProofs.ThreeChildrenExample | widget/rowlayout.go:83-124 | three children without a preferred size (so 50x50), spacing 10, get x offsets 0, 60 and 120 |
| RowLayoutProofs.OnlyRowDataPointerHonoured | widget/rowlayout.go:93-124 | in the loop body (`ChildSlot`), layout data other than `*RowLayoutData` is ignored; `preferredSizeWidget` (`PreferredSizeOf`) gives the reported size, or 50x50 without one |
| RowLayoutProofs.StretchThenClamp | widget/rowlayout.go:126-164 | in `ApplyLayoutData` (`ApplyStretch`, then `ApplyMaxSize`): stretch (only when positioning) takes the padded cross extent, then a positive maximum caps each extent; the primary extent is never stretched |
| RowLayoutProofs.CrossAlignment | widget/rowlayout.go:166-184 | alignment (`ApplyPosition`) moves a child only across the axis: none for Start, the free room for End, half of it truncated toward zero for Center |
| RowLayoutProofs.PlainRowPreferredSize | widget/rowlayout.go:61-66 | for locateable positive-size children without row data and non-negative spacing: the sum of the extents plus `spacing * (n-1)` along the axis, the largest extent across it, each plus the padding |
| DeferredInit.Do | widget/checkbox.go:92-94 | after `Do` the gate is done; a done gate is left alone |
| DeferredInit.StepsRunAtMostOnce | widget/checkbox.go:92-118 | however many times `Do` is called, the steps run once if it was called at all, never otherwise |
| Checkbox.NewCheckbox | widget/checkbox.go:50-64 | a new checkbox is Unchecked, unbuilt, and has fired nothing |
| Checkbox.Advance | widget/checkbox.go:151-165 | a click always moves to another declared state, and to Greyed only when tri-state; every state other than Unchecked and Checked (Greyed, or any undeclared value) goes to Unchecked |
| Checkbox.GraphicImage | widget/checkbox.go:167-177 | the Checked graphic exactly for Checked, the Greyed graphic exactly for Greyed, Unchecked otherwise |
| Checkbox.SetState | widget/checkbox.go:136-149 | the same state changes nothing and fires nothing; a new state is recorded with exactly one event; a two-state checkbox stays out of Greyed |
| Checkbox.Enter | widget/checkbox.go:92-130 | every entry point opens the gate; the first builds the button with the Unchecked graphic; `Render` shows the graphic of the state; state and events are untouched |
| Checkbox.Click | widget/checkbox.go:120-130 | a click on the built button changes the state to a declared one, never Greyed for two-state, and fires exactly one event |
| CheckboxProofs.OnePeriod | widget/checkbox.go:151-165 | 2 clicks (two-state) or 3 clicks (tri-state) return to the starting state |
| CheckboxProofs.ClicksCycle | widget/checkbox.go:151-165 | the state after `n` clicks depends only on `n` modulo the period, and no shorter positive number of clicks returns |
| CheckboxProofs.ClicksFireOneEventEach | widget/checkbox.go:125-148 | `n` clicks fire exactly `n` events, the `i`-th carrying the state after `i+1` clicks, keep earlier events, and never reach Greyed on a two-state checkbox |
| CheckboxProofs.SetStateIdempotent | widget/checkbox.go:136-149 | setting a state twice is the same as once, and fires at most one event |
| CheckboxProofs.InnerButtonBuiltOnce | widget/checkbox.go:92-130 | any sequence of entry points builds the inner button exactly once if non-empty, and changes neither the state nor the events |
| CheckboxProofs.TwoStateScenario | widget/checkbox.go:112-165 | render then two clicks go Unchecked, Checked, Unchecked with two events; re-setting Unchecked fires none |
| CheckboxProofs.TriStateScenario | widget/checkbox.go:151-165 | three clicks on a tri-state checkbox fire Checked, Greyed, Unchecked |
| WidgetTree.Contains | demorun/gui/dnd.go:54-58 | the identity scan answers true exactly for members of the list |
| WidgetTree.RegisteredIffAncestorListed | demorun/gui/dnd.go:53-66 | the recursive search (`RegisteredAncestorOrSelf`, the body of `IsSource`/`IsTarget`) answers true exactly when the widget or one of its ancestors is registered |
| WidgetTree.EmptyListFindsNothing | demorun/gui/dnd.go:53-66 | with nothing registered, the search answers false for every widget, after walking to the root |
| WidgetTree.RegisterOneMore | demorun/gui/dnd.go:45-66 | registering one more widget adds exactly that widget's descendants-or-self to those found |
| DragAndDrop.AddSource | demorun/gui/dnd.go:45-47 | appends to the sources; targets and label untouched |
| DragAndDrop.AddTarget | demorun/gui/dnd.go:49-51 | appends to the targets; sources and label untouched |
| DragAndDrop.Create | demorun/gui/dnd.go:16-35 | a drag widget exactly when the widget is a source; then the label reads "Drag Me!", otherwise nothing changes |
| DragAndDrop.Update | demorun/gui/dnd.go:37-43 | "* DROP ME! *" exactly over a non-nil target, "Drag Me!" otherwise; the lists are untouched |
| DragAndDropProofs.SourceMeansListedAncestor | demorun/gui/dnd.go:53-81 | `IsSource` (`IsTarget`) holds exactly when it or an ancestor was registered as one |
| DragAndDropProofs.AddSourceCoversDescendants | demorun/gui/dnd.go:45-66 | after `AddSource(s)` the sources are the earlier ones plus `s` and its descendants; targets are unchanged |
| DragAndDropProofs.AddTargetCoversDescendants | demorun/gui/dnd.go:49-81 | the same for `AddTarget` |
| DragAndDropProofs.CreateThenUpdate | demorun/gui/dnd.go:16-43 | a created drag comes from a registered ancestor-or-self, leaves a label, and `Update` shows the drop label exactly over a target or its descendant |
| DragAndDropProofs.DragWidgetStretchIgnoredByRows | demorun/gui/dnd.go:23-25 | the drag widget's `RowLayoutData{Stretch: true}` is passed by value, so a row layout treats it as having no layout data |
| DragAndDropProofs.NestedSourceExample | demorun/gui/dnd.go:53-66 | registering a container makes its grandchild a source but not its sibling |
| ToolTip.ToolTipLayoutShape | demorun/gui/tooltip.go:27-31 | the options passed to `NewRowLayout` give a vertical row with the tooltip padding, spacing 2, and a clean flag |
| ToolTip.CanShowTime | demorun/gui/tooltip.go:66-73 | true exactly when the widget is in the time allow-list |
| ToolTip.Set | demorun/gui/tooltip.go:52-54 | the widget's tip becomes `s`, overwriting; every other tip is kept and no key is lost |
| ToolTip.Create | demorun/gui/tooltip.go:20-50 | no tooltip exactly when the widget has no tip (an empty tip counts); two lines exactly when `ShowTime && CanShowTime` (`ShowsTime`), one otherwise |
| ToolTip.Update | demorun/gui/tooltip.go:56-64 | the text becomes the widget's tip or "" when absent; the time line changes only when shown for the widget |
| ToolTipProofs.CreateEnablesUpdate | demorun/gui/tooltip.go:20-64 | after a successful `Create`, `Update` on the same widget is defined and shows its tip, with the time when shown |
| ToolTipProofs.SetThenShow | demorun/gui/tooltip.go:20-64 | after `Set(w, s)` a tooltip for `w` exists and shows `s`; other widgets' tooltips are unaffected |
| ToolTipProofs.OneLineToolTipSize | demorun/gui/tooltip.go:25-49 | the tooltip's row layout prefers, for one text line, the line's size plus the padding |
| ToolTipProofs.TwoLineToolTipSize | demorun/gui/tooltip.go:25-49 | the tooltip's row layout prefers, for a text line and a time line, the wider line's width and both heights plus 2, each plus the padding |
| HexColor.ParseUint16 | demorun/gui/resources.go:687 | the empty string is a syntax error, and a parsed value fits in a 64-bit `uint` |
| HexColor.Scan | demorun/gui/resources.go:687 | the digit loop of `ParseUint` never yields a value above `2^64 - 1` |
| HexColor.HexToColor | demorun/gui/resources.go:686-698 | alpha is always 255 |
| HexColorProofs.ParseUint16Agrees | demorun/gui/resources.go:687-690 | the parse succeeds exactly on non-empty hex-digit strings whose value fits in 64 bits, returns that value, and a too-large digit string is a range error |
| HexColorProofs.ChannelsAreBytes | demorun/gui/resources.go:692-697 | R, G and B are the bytes of the parsed value at bits 16, 8 and 0; higher bits are dropped |
| HexColorProofs.SixDigitChannels | demorun/gui/resources.go:686-698 | for `rrggbb`, each channel is the value of its digit pair |
| HexColorProofs.HexRoundTrip | demorun/gui/resources.go:686-698 | writing a colour as six hex digits and converting it back gives the colour, made opaque |
| HexColorProofs.BackgroundColor | demorun/gui/resources.go:14 | "131a22" is the colour (0x13, 0x1a, 0x22, 0xff) |
| Bits.ByteAt | demorun/gui/resources.go:693-694 | `uint8((a & (0xff << j)) >> j)` is the byte of `a` at bit `j` |
| Geometry.Union | widget/rowlayout.go:62-65 | the union ignores an empty operand; otherwise it is the bounding box of both |
| Geometry.TruncDiv | widget/rowlayout.go:170-172 | Go's division: the remainder has the dividend's sign and is smaller than the divisor |

## Left out

- Rendering, input layers, images, fonts and the visual containers built by `Create`. Only the decisions that choose what is shown are modelled.
- The `event.Event` and `MultiOnce` internals are not part of this model. Events are an appended log and the gate is a once-flag. Handler lists and deferred firing are not modelled.
- Button options and the checkbox image (`WithButtonOpts`, `WithImage`, `WithChangedHandler`). A nil image would panic in the source; the model has the three graphic variants only.
- `Checkbox.State`: modelled as a plain accessor, with no contract of its own. It reads the state without opening the gate.
- The time text of a tooltip: `time.Now().Local().Format(...)` is a parameter `now` of `ToolTip.Update`.
- The anchor layout, background and padding of the drag widget built by `DragAndDrop.Create`. Only its row layout data is kept.
- `demorun/main.go`, `demorun/gui/fonts.go`, `demorun/gui/sizedpanel.go` and the rest of `demorun/gui/resources.go`: bootstrapping, file I/O and resource loading.
- RowLayout.Walk: coordinates are unbounded integers, so Go's 64-bit `int` overflow in the running offset is not modelled.
- Undeclared alignments: `RowLayoutPosition` values other than the three declared ones fall through the source's `switch` and behave as Start. The model has only the three.
- RowLayoutProofs.PlainRowPreferredSize: proved for rows of locateable, positive-size children without `*RowLayoutData` and with non-negative spacing. Other rows are covered by `PlacesEveryLocateableChild` and the single-child lemmas, not by a size formula.
- HexColor.ParseUint16: bit size 0 means the platform's `uint` width; the model fixes it at 64 bits. On a 32-bit platform Go rejects values above `2^32 - 1` with a range error (and `hexToColor` panics), which the model does not.
- HexColor.DigitValue: Go's `ParseUint` works on bytes. The model reads characters, so a non-ASCII character is simply not a digit.
- HexColorProofs.ParseUint16Agrees: a string with a non-digit fails, but which error it gets (syntax, or range when an overflow comes first) is not characterised.
