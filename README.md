# FingerPaint core in Dafny

A model of the logic behind the FingerPaint Android finger-painting app, with
proofs about it. It covers:

- **Colour space** (`ColorSpace`, colorspace.dfy). This models CMYColor.java.
  - A packed colour is the 32 bits of a Java `int`, read as the unsigned number `0..2^32-1`.
  - `fromRGB` maps each 8-bit channel to `1 - channel/255`.
  - `toRGB` maps a CMY triple back. Each channel is the truncating Java `(int)` cast of `(1 - component) * 255`, packed by `Color.rgb`.
  - The mutable `CMYColor` object is a class of three reals.
- **Stroke recorder** (`Strokes`, strokes.dfy). This models PaintAreaView.java and its inner `PaintPath`.
  - A stroke keeps its point list and its smoothed path. The path is a move-to, then one quadratic segment per further point, ending at the midpoint.
  - The drawing surface filters jitter per axis, appends finished strokes to `paths`, and draws a one-point stroke as a dot.
- **Palette** (`Palette`, palette.dfy). This models PaletteView.java.
  - Every `CustomPaintView` ever created is a record `(color, selected)` in `views`, identified by its position. The view created by the n-th add is `n`.
  - `customPaintViews` and `selectedCustomPaintViews` are sequences of such identities, so aliasing is kept exactly.
  - The selection is a list, not a set. `List.remove` removes the first occurrence only, so duplicates and deselected views can stay in it.
  - Modelled behaviour: add, remove, the click listener, mix mode, N-way subtractive mixing, save, and all three restore loops.
- **Primary-colour slider** (`PrimaryPaint`, primary_paint.dfy). This models PrimaryPaintView.java: a percentage clipped to [0,1], moved by vertical drags, and an `editable` gate.

Floats are exact reals. Listener callbacks are modelled as the value the listener would receive, returned by the method that calls it.

Two behaviours of the code that a reader might not expect, and that the model keeps:
- `toRGB` (CMYColor.java:56-58) truncates each channel with Java's `(int)` cast and does not clamp it to 0..255. The model truncates with `JavaInt` and requires components in [0,1] (see Left out).
- `mixColors` of an empty selection returns white (PaletteView.java:502-513). `Palette.Mix` states this.

## Model

Source paths are relative to the repository root; every one lies under `FingerPaint/src/main/java/com/avery/fingerpaint/`.

| member | source | states |
|---|---|---|
| ColorSpace.FromRgb | FingerPaint/src/main/java/com/avery/fingerpaint/CMYColor.java:66-76 | each CMY component of a packed colour lies in [0,1] |
| ColorSpace.ToRgb | FingerPaint/src/main/java/com/avery/fingerpaint/CMYColor.java:53-61 | the result is opaque; red, green and blue are the truncated `(1 - component) * 255` of c, m, y; each lies in 0..255 |
| ColorSpace.RoundTrip | FingerPaint/src/main/java/com/avery/fingerpaint/CMYColor.java:53-76 | in exact arithmetic, `toRGB(fromRGB(col))` keeps the red, green and blue of `col` and is `col` made opaque (float rounding breaks this for some channels; see Left out) |
| ColorSpace.ToRgbAntitone | FingerPaint/src/main/java/com/avery/fingerpaint/CMYColor.java:56-58 | a larger component never gives a larger channel |
| ColorSpace.ChannelRange | FingerPaint/src/main/java/com/avery/fingerpaint/CMYColor.java:56-58 | a component in [0,1] gives a channel in 0..255; component 0 gives 255 and component 1 gives 0 |
| ColorSpace.ChannelAntitone | FingerPaint/src/main/java/com/avery/fingerpaint/CMYColor.java:56-58 | the truncating cast of `(1 - k) * 255` never increases as k increases, for any reals |
| ColorSpace.JavaIntMonotone | FingerPaint/src/main/java/com/avery/fingerpaint/CMYColor.java:56-58 | Java's float-to-int cast preserves order |
| ColorSpace.ChannelOfComponent | FingerPaint/src/main/java/com/avery/fingerpaint/CMYColor.java:56-73 | in exact arithmetic, a channel comes back unchanged after `fromRGB` and then `toRGB` |
| ColorSpace.RgbChannels | FingerPaint/src/main/java/com/avery/fingerpaint/CMYColor.java:60 | `Color.rgb` packs three channels so that `Color.red/green/blue` read them back, with alpha 255 |
| ColorSpace.RgbOfChannels | FingerPaint/src/main/java/com/avery/fingerpaint/CMYColor.java:60 | repacking the channels of any colour gives that colour with its alpha bits set |
| ColorSpace.CmyColor.constructor | FingerPaint/src/main/java/com/avery/fingerpaint/CMYColor.java:13 | a new object holds zero in every component |
| ColorSpace.CmyColor.SetC | FingerPaint/src/main/java/com/avery/fingerpaint/CMYColor.java:15-18 | sets c; m and y are unchanged |
| ColorSpace.CmyColor.SetM | FingerPaint/src/main/java/com/avery/fingerpaint/CMYColor.java:20-23 | sets m; c and y are unchanged |
| ColorSpace.CmyColor.SetY | FingerPaint/src/main/java/com/avery/fingerpaint/CMYColor.java:25-28 | sets y; c and m are unchanged |
| ColorSpace.CmyColor.GetC | FingerPaint/src/main/java/com/avery/fingerpaint/CMYColor.java:30-33 | returns the stored cyan component, the value the last `setC` stored |
| ColorSpace.CmyColor.GetM | FingerPaint/src/main/java/com/avery/fingerpaint/CMYColor.java:35-38 | returns the stored magenta component, the value the last `setM` stored |
| ColorSpace.CmyColor.GetY | FingerPaint/src/main/java/com/avery/fingerpaint/CMYColor.java:40-43 | returns the stored yellow component, the value the last `setY` stored |
| ColorSpace.CmyColor.GetRgb | FingerPaint/src/main/java/com/avery/fingerpaint/CMYColor.java:45-48 | gives the opaque colour whose channels `toRGB` computes from the current fields |
| Strokes.Geometry | FingerPaint/src/main/java/com/avery/fingerpaint/PaintAreaView.java:211-229 | the path a point list determines, built from scratch: one element per point, starting with a move-to the first point |
| Strokes.GeometryShape | FingerPaint/src/main/java/com/avery/fingerpaint/PaintAreaView.java:211-229 | a path has one element per point; it starts with a move-to the first point; segment i has control point i and ends at the midpoint of points i and i+1 |
| Strokes.GeometryAppend | FingerPaint/src/main/java/com/avery/fingerpaint/PaintAreaView.java:222-229 | one more point extends the path by exactly one segment, built from the old last point and the new one |
| Strokes.ScaleCommutes | FingerPaint/src/main/java/com/avery/fingerpaint/PaintAreaView.java:252-260 | the scale transform is linear: the drawn path of a stroke equals the smoothed path of its points scaled to the surface |
| Strokes.PaintPath.constructor | FingerPaint/src/main/java/com/avery/fingerpaint/PaintAreaView.java:211-220 | a new stroke has the given colour, exactly the given point, and a path that is only a move-to it |
| Strokes.PaintPath.AddPoint | FingerPaint/src/main/java/com/avery/fingerpaint/PaintAreaView.java:222-229 | appends the point and one quadratic segment from the previous last point to the midpoint; keeps the point list non-empty and the path equal to the one the points determine |
| Strokes.PaintPath.Draw | FingerPaint/src/main/java/com/avery/fingerpaint/PaintAreaView.java:231-260 | the dot branch is taken if and only if the stroke has one point; otherwise the scaled path is drawn in the stroke's colour |
| Strokes.PaintAreaView.constructor | FingerPaint/src/main/java/com/avery/fingerpaint/PaintAreaView.java:67-72 | no finished strokes and no stroke in progress |
| Strokes.PaintAreaView.SetPaintColor | FingerPaint/src/main/java/com/avery/fingerpaint/PaintAreaView.java:86-89 | sets the colour of later strokes only |
| Strokes.PaintAreaView.Clear | FingerPaint/src/main/java/com/avery/fingerpaint/PaintAreaView.java:91-96 | empties `paths` and changes nothing else |
| Strokes.PaintAreaView.OnTouchDown | FingerPaint/src/main/java/com/avery/fingerpaint/PaintAreaView.java:153-158 | starts a fresh one-point stroke in `curColor` and records the touch point |
| Strokes.Moved | FingerPaint/src/main/java/com/avery/fingerpaint/PaintAreaView.java:162-165 | a sample passes the jitter filter exactly when it lies more than THRESHOLD (3) pixels from the last sample along either axis |
| Strokes.PaintAreaView.OnTouchMove | FingerPaint/src/main/java/com/avery/fingerpaint/PaintAreaView.java:160-171 | a sample beyond the threshold on either axis is appended and becomes the last sample; otherwise nothing changes; a moved sample with no stroke is a null dereference |
| Strokes.PaintAreaView.OnTouchUp | FingerPaint/src/main/java/com/avery/fingerpaint/PaintAreaView.java:173-180 | the stroke in progress is appended to `paths`, earlier entries unchanged, and no stroke remains in progress; without a stroke, a null dereference |
| Strokes.JitterScenario | FingerPaint/src/main/java/com/avery/fingerpaint/PaintAreaView.java:153-180 | on a 300 x 300 surface, a sample 0.003 pixels from the last one is dropped and one beyond the threshold is kept; the finished stroke holds the two kept points and one segment ending at their midpoint |
| Palette.RemoveFirst | FingerPaint/src/main/java/com/avery/fingerpaint/PaletteView.java:105 | `List.remove` shortens the list by one exactly when the element occurs |
| Palette.RemoveFirstMultiset | FingerPaint/src/main/java/com/avery/fingerpaint/PaletteView.java:105 | removal takes away exactly one occurrence |
| Palette.RemoveFirstDistinct | FingerPaint/src/main/java/com/avery/fingerpaint/PaletteView.java:105 | removal from a duplicate-free list keeps it duplicate-free |
| Palette.RemoveFirstGone | FingerPaint/src/main/java/com/avery/fingerpaint/PaletteView.java:105 | in a duplicate-free list, the removed element no longer occurs |
| Palette.RemoveEachMultiset | FingerPaint/src/main/java/com/avery/fingerpaint/PaletteView.java:119-123 | removing each of a list of views once takes away exactly one occurrence of each, where there is one |
| Palette.DeselectedFacts | FingerPaint/src/main/java/com/avery/fingerpaint/PaletteView.java:119-123 | a deselect loop keeps every colour, clears the flag of every listed view but the kept one, and leaves every other record alone |
| Palette.DeselectLoop | FingerPaint/src/main/java/com/avery/fingerpaint/PaletteView.java:119-123 | the loop computes the deselected records and removes each other listed view once from the selection |
| Palette.Clamp | FingerPaint/src/main/java/com/avery/fingerpaint/PaletteView.java:516-519 | the result is at most 1, and values up to 1 are kept |
| Palette.Mix | FingerPaint/src/main/java/com/avery/fingerpaint/PaletteView.java:498-514 | the mix is opaque; mixing no colours gives white |
| Palette.MixColors | FingerPaint/src/main/java/com/avery/fingerpaint/PaletteView.java:498-514 | the accumulating loop computes the converted, clamped sum of the selection's CMY components |
| Palette.MixPermutation | FingerPaint/src/main/java/com/avery/fingerpaint/PaletteView.java:498-514 | the mix does not depend on the order of the selection list |
| Palette.SumCmyPermutation | FingerPaint/src/main/java/com/avery/fingerpaint/PaletteView.java:505-510 | the channel sums are the same for any reordering |
| Palette.MixSingle | FingerPaint/src/main/java/com/avery/fingerpaint/PaletteView.java:498-514 | in exact arithmetic, mixing one colour gives back its red, green and blue |
| Palette.MixDarkens | FingerPaint/src/main/java/com/avery/fingerpaint/PaletteView.java:498-519 | adding a colour to the mix never lightens any channel |
| Palette.MixPrimaries | FingerPaint/src/main/java/com/avery/fingerpaint/PaletteView.java:498-519 | pure red, green and blue mix to opaque black |
| Palette.AddPaint | FingerPaint/src/main/java/com/avery/fingerpaint/PaletteView.java:117-129 | an add on a list with room: every listed view deselected, each removed once from the selection, and a new selected view of colour 0 appended to both lists |
| Palette.CoherentAfterAdd | FingerPaint/src/main/java/com/avery/fingerpaint/PaletteView.java:117-129 | an add on a list with room keeps the palette invariant: references in range, list duplicate-free and at most 11 long, a current view once any exists |
| Palette.OnlyNewSelected | FingerPaint/src/main/java/com/avery/fingerpaint/PaletteView.java:119-126 | after the add loop, the new view is the only listed view whose flag is set |
| Palette.OnlyClickedSelected | FingerPaint/src/main/java/com/avery/fingerpaint/PaletteView.java:164-172 | after a click outside mix mode, the clicked view is the only listed view whose flag is set |
| Palette.PaletteView.constructor | FingerPaint/src/main/java/com/avery/fingerpaint/PaletteView.java:53-63 | visible, not in mix mode, with empty lists |
| Palette.PaletteView.AddCustomPaintView | FingerPaint/src/main/java/com/avery/fingerpaint/PaletteView.java:112-129 | a full list (11) gives null and changes nothing; otherwise every listed view is deselected and removed once from the selection, and the new view is appended to both lists, selected, current, and the only selected listed view |
| Palette.PaletteView.OnCustomPaintClick | FingerPaint/src/main/java/com/avery/fingerpaint/PaletteView.java:131-181 | in mix mode, the current view stays selected and nothing changes; another view has its flag toggled and is appended to or removed once from the selection, and the listener gets the mix; outside mix mode, the view becomes current and the only selected listed view, is appended to the selection, and the listener gets its colour |
| Palette.PaletteView.ToggleInMix | FingerPaint/src/main/java/com/avery/fingerpaint/PaletteView.java:138-158 | the mix-mode branch of the click listener, as above |
| Palette.PaletteView.SelectOnly | FingerPaint/src/main/java/com/avery/fingerpaint/PaletteView.java:160-179 | the branch outside mix mode, as above |
| Palette.PaletteView.DeselectOthers | FingerPaint/src/main/java/com/avery/fingerpaint/PaletteView.java:164-171 | the loop deselects every listed view but the kept one and removes each of them once from the selection; the list, the current view and the flags are unchanged, and the invariant is kept |
| Palette.PaletteView.SetInMixMode | FingerPaint/src/main/java/com/avery/fingerpaint/PaletteView.java:194-224 | sets the mode and the button. Leaving mix mode with more than one selection entry: the current view gets the mix of the old selection; it is a new view when there is room, else the old current view; every other listed view is deselected. In all other cases the lists are unchanged |
| Palette.PaletteView.MixIntoNewPaint | FingerPaint/src/main/java/com/avery/fingerpaint/PaletteView.java:204-222 | with room, the added view becomes current with the mixed colour; the others are deselected |
| Palette.PaletteView.PaintCurrent | FingerPaint/src/main/java/com/avery/fingerpaint/PaletteView.java:213-222 | the current view gets the colour; every other listed view is deselected and removed once from the selection |
| Palette.PaletteView.RemoveCustomPaintView | FingerPaint/src/main/java/com/avery/fingerpaint/PaletteView.java:101-110 | succeeds exactly outside mix mode, for a non-current view, with more than two listed; never leaves fewer than two; otherwise nothing changes |
| Palette.PaletteView.TogglePaletteVisible | FingerPaint/src/main/java/com/avery/fingerpaint/PaletteView.java:249-269 | flips visibility; the mix button is clickable exactly when the palette is visible |
| Palette.SelectedIndexesFacts | FingerPaint/src/main/java/com/avery/fingerpaint/PaletteView.java:404-412 | the saved indexes are exactly the positions of listed views found in the selection, increasing |
| Palette.CurrentIndexFacts | FingerPaint/src/main/java/com/avery/fingerpaint/PaletteView.java:403-412 | the saved index names the current view when it is listed, and is 0 otherwise |
| Palette.PaletteView.MySaveInstanceState | FingerPaint/src/main/java/com/avery/fingerpaint/PaletteView.java:399-425 | saves the listed colours in order (at most 11), the selected indexes and the current index, with the two facts above |
| Palette.DropFront | FingerPaint/src/main/java/com/avery/fingerpaint/PaletteView.java:444-450 | the first restore loop leaves the last `n` listed views |
| Palette.PaletteView.TrimViews | FingerPaint/src/main/java/com/avery/fingerpaint/PaletteView.java:444-450 | the same on the palette, keeping its invariant |
| Palette.PaletteView.ClearSelection | FingerPaint/src/main/java/com/avery/fingerpaint/PaletteView.java:451 | empties the selection and changes nothing else |
| Palette.PaletteView.BeginRestore | FingerPaint/src/main/java/com/avery/fingerpaint/PaletteView.java:427-451 | restores the flags, makes the mix button unclickable only when the palette is hidden, trims the list, clears the selection |
| Palette.RestoreColors | FingerPaint/src/main/java/com/avery/fingerpaint/PaletteView.java:453-468 | the second restore loop: listed views get the saved colours, with views added past the end. Each add makes its view current and the only one selected, so when views were added the selection is just the last one and it is current; otherwise the view at the saved index is current |
| Palette.PaletteView.RestorePaints | FingerPaint/src/main/java/com/avery/fingerpaint/PaletteView.java:453-468 | the same on the palette, keeping its invariant |
| Palette.SelectLoop | FingerPaint/src/main/java/com/avery/fingerpaint/PaletteView.java:472-485 | the third restore loop: each listed view is flagged exactly when its index was saved as selected; it is appended to the selection, or removed once from it |
| Palette.PaletteView.RestoreSelection | FingerPaint/src/main/java/com/avery/fingerpaint/PaletteView.java:472-485 | the same on the palette, keeping its invariant |
| Palette.PickedFacts | FingerPaint/src/main/java/com/avery/fingerpaint/PaletteView.java:472-485 | the views the third loop adds are duplicate-free, listed, and exactly those of saved indexes |
| Palette.ReselectFresh | FingerPaint/src/main/java/com/avery/fingerpaint/PaletteView.java:472-485 | with no listed view already selected, the third loop appends exactly those views |
| Palette.ReselectKeepsHead | FingerPaint/src/main/java/com/avery/fingerpaint/PaletteView.java:472-485 | an entry at the front that no unselected index removes stays at the front |
| Palette.PaletteView.MyRestoreInstanceState | FingerPaint/src/main/java/com/avery/fingerpaint/PaletteView.java:427-490 | restores the flags, the saved colour of every listed view, and each listed view's flag exactly from the saved indexes; gives the selection list and the current view as the loops leave them; returns the mix of the selection |
| Palette.RestoreRepeatsLastAdded | FingerPaint/src/main/java/com/avery/fingerpaint/PaletteView.java:451-485 | when restore adds views and the last one's index was saved as selected, that view is in the selection twice |
| Palette.SingleSavedSelectionDoubled | FingerPaint/src/main/java/com/avery/fingerpaint/PaletteView.java:451-485 | with only the last, added view saved as selected, the selection is that view twice |
| Palette.DoubledGreyMix | FingerPaint/src/main/java/com/avery/fingerpaint/PaletteView.java:498-514 | grey 0xFF808080 mixes to itself, but mixed with itself gives 0xFF010101 |
| Palette.FreshSelection | FingerPaint/src/main/java/com/avery/fingerpaint/PaletteView.java:472-485 | started on an empty selection, the third loop selects each saved index's view exactly once, in list order |
| Palette.PaletteView.MyRestoreInstanceStateFixed | FingerPaint/src/main/java/com/avery/fingerpaint/PaletteView.java:427-490 | restore with the selection cleared again before the third loop: as above, and the selection holds exactly the views of saved indexes, once each |
| PrimaryPaint.Clip | FingerPaint/src/main/java/com/avery/fingerpaint/PrimaryPaintView.java:124-129 | the result lies in [0,1]; values in [0,1] are kept |
| PrimaryPaint.ClipMonotone | FingerPaint/src/main/java/com/avery/fingerpaint/PrimaryPaintView.java:124-129 | clipping preserves order |
| PrimaryPaint.AfterMove | FingerPaint/src/main/java/com/avery/fingerpaint/PrimaryPaintView.java:108-113 | a move leaves the percentage in [0,1]; it is the old one plus the drag over twice the height whenever that sum is in range |
| PrimaryPaint.DragDirection | FingerPaint/src/main/java/com/avery/fingerpaint/PrimaryPaintView.java:108-114 | from a percentage in [0,1], dragging up never lowers it and dragging down never raises it |
| PrimaryPaint.DragsCompose | FingerPaint/src/main/java/com/avery/fingerpaint/PrimaryPaintView.java:108-114 | two drags that do not hit an end of the range equal one drag over the whole distance |
| PrimaryPaint.PrimaryPaintView.constructor | FingerPaint/src/main/java/com/avery/fingerpaint/PrimaryPaintView.java:41-43 | a new slider is editable and opaque |
| PrimaryPaint.PrimaryPaintView.SetColorPercent | FingerPaint/src/main/java/com/avery/fingerpaint/PrimaryPaintView.java:62-66 | stores the value unclipped and changes nothing else |
| PrimaryPaint.PrimaryPaintView.SetEditable | FingerPaint/src/main/java/com/avery/fingerpaint/PrimaryPaintView.java:73-81 | sets the flag; alpha is 1 when editable, 0.2 otherwise |
| PrimaryPaint.PrimaryPaintView.OnTouchMove | FingerPaint/src/main/java/com/avery/fingerpaint/PrimaryPaintView.java:108-122 | the percentage becomes the clipped move and lies in [0,1]; `lastY` follows the touch; an upward drag never lowers a percentage in range; the listener gets the new percentage |
| PrimaryPaint.PrimaryPaintView.OnTouchEvent | FingerPaint/src/main/java/com/avery/fingerpaint/PrimaryPaintView.java:84-106 | a locked slider consumes every event and changes nothing; a down event sets only `lastY`; a move event is handled by `onTouchMove` and notifies the listener; other actions go to the toolkit unchanged |

## Left out

- Layout, animation and rendering: `onLayout` trigonometry, `animatePalette`, `onDraw`, `onSizeChanged`, and Canvas/Bitmap pixel output. `Strokes.PaintPath.Draw` returns the draw command instead of painting it.
- Bundle, Parcelable and Externalizable mechanics. The palette state is the plain record `SavedPalette`; the saved stroke shape is the ghost `Strokes.PaintAreaView.Finished`. PaintAreaView's own save and restore of `paths` is not modelled.
- The palette's `rotationAngle` and `offsetY` fields, written by save and read by restore, belong to the layout and are not modelled.
- The mix button's alpha, set to 0 by restore when the palette is hidden, is not modelled. Its `setActive` and `setClickable` are the fields `mixButtonActive` and `mixButtonClickable`.
- Listeners are modelled as present: the value a listener would receive is returned. `MotionEvent` decoding and hit-testing are left out, and touch coordinates are inputs.
- Float rounding: components and coordinates are exact reals, where the source computes in 32-bit floats.
- ColorSpace.RoundTrip, ColorSpace.ChannelOfComponent and Palette.MixSingle: these hold for exact reals only. In float arithmetic a channel can come back one lower: for channel 1, `1f - 1/255f` rounds to 0.99607843 and `(1 - c) * 255` to 0.99999994, which the cast truncates to 0. Worked by hand, about 95 of the 256 channel values (1 to 64 and the even values 66 to 126) are affected.
- Strokes.PaintAreaView.OnTouchMove and Strokes.Moved: require a positive width and height. The source accepts a zero size and gets an infinite threshold, which reals cannot represent; a view of zero size receives no touches, so it does not arise.
- `removeView`/`addView` child management is left out. Removed views keep their record in `views`, which is how the selection can still refer to them.
- `setCurColor`, `isInMixMode` and the `set…View` wiring setters of PaletteView are not part of this model. `getCurColor` appears only as the colour the click listener reports.
- MainActivity.java, SelectorView.java, MixButtonView.java and CustomPaintView.java are not part of this model. The state of a CustomPaintView is the `(color, selected)` record.
- ColorSpace.ToRgb: requires components in [0,1]. Outside that range the source's cast can give channels outside 0..255; `Color.rgb` would then mix bits of neighbouring channels, which is not modelled. Every caller in the core passes components in range.
- ColorSpace.CmyColor.GetRgb: requires the documented [0,1] range of the fields, for the same reason; the setters themselves do not enforce it.
- Palette.PaletteView.OnCustomPaintClick: requires that the clicked view is listed. Only listed views are attached to the palette and can receive clicks; a removed view is detached by `removeView`.
- Palette.PaletteView.MyRestoreInstanceState: requires at most 11 saved colours, which is all a save produces. With more, `addCustomPaintView` would return null and `setColor` would dereference it.
- Palette.PaletteView.MyRestoreInstanceState: the current-index round trip is not claimed. When restore adds views, each add makes its own view current, so the saved index is only honoured when no view was added. The ensures state what the code does instead.
- PrimaryPaint.PrimaryPaintView.OnTouchMove: requires a positive height. A zero height divides a float by zero and gives infinity or NaN, which reals cannot represent.
- PrimaryPaint.PrimaryPaintView.OnTouchEvent: requires a positive height for the same reason. The toolkit's default handling of other actions is reported as `Delegated`, not modelled.

## Findings

| source | as written | input that shows it | evidently intended | confidence | as-written member | corrected member |
|---|---|---|---|---|---|---|
| FingerPaint/src/main/java/com/avery/fingerpaint/PaletteView.java:451-489 | The selection is cleared before the second restore loop. Each `addCustomPaintView` there leaves its new view in the selection, so the last added view is still in it when the third loop appends the views of saved indexes. That view is then in the selection twice, and the listener gets a mix counting its colour twice. | The app starts with 7 paints before restoring. Restore a saved palette of 8 paints with only index 7 selected, where paint 7 is grey 0xFF808080 (for instance the paint added last, which is selected). The selection becomes `[v, v]` and the listener receives 0xFF010101 instead of 0xFF808080. | Clear the selection again after the second loop, so that it holds exactly the views of saved indexes, once each, and the listener receives their mix. | not executed | Palette.PaletteView.MyRestoreInstanceState, Palette.SingleSavedSelectionDoubled, Palette.RestoreRepeatsLastAdded, Palette.DoubledGreyMix | Palette.PaletteView.MyRestoreInstanceStateFixed, Palette.FreshSelection |
