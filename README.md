# Portfolio page script: a verified model of its interaction logic

The page script `script.js` animates a personal portfolio page. It draws a
trail of cursor markers behind the pointer and runs a draggable or clickable
dark-mode switch that it persists in local storage. It also opens and closes
an "about" panel and places a thumbnail preview next to the pointer over
project items. This project lifts the integer-shaped logic out of the DOM
and proves properties about it in Dafny:

- `CursorTrail` (`cursor_trail.dfy`) covers the pointer history, the
  pending-frame flag and the trail renderer. The history is a buffer: each
  move pushes a sample, and one shift follows whenever the length passes
  72, which is `TRAIL_LENGTH * 6`. The flag means at most one animation
  frame is requested at a time. The renderer shows marker `i` on sample
  `L - 1 - 5i` or hides it. The class `Pointer` holds the script's
  module-level variables. Its fixed set of twelve marker elements is an
  `array`, and each method is proved against a pure step function
  (`Move`, `Frame`, `Rendered`) on the `Motion` value.
- `DarkMode` (`dark_mode.dfy`) covers the dark-mode switch. The class
  `DarkModeToggle` holds the handlers' closure variables, the two class
  flags (`active` on the switch, `dark-mode` on the body), the stored
  `darkMode` value and a count of storage writes. Its handlers are proved
  against pure transitions (`Load`, `UpdateMode`, `Click`, `PressThumb`,
  `MovePointer`, `ReleasePointer`) on the `Toggle` value. The mouse and
  touch handlers (script.js:222-271 and 274-320) are the same code; they
  differ only in where the x coordinate is read. So they are modelled once:
  `OnPress`, `OnMove` and `OnRelease` take that coordinate as a parameter.
- `About` (`about_toggle.dfy`) covers the about panel. One click flips two
  class flags together.
- `HoverPreview` (`hover_preview.dfy`) covers the preview panel: where it
  goes on one axis, and the single panel's visibility.
- `Wrappers` (`wrappers.dfy`) holds the `Option` type.

DOM-derived quantities are parameters: the pointer coordinates, the
track's width, the thumb's and track's centres, and the viewport size. So
is the clock value stored in each sample. Local storage is an
`Option<string>` field (absent or a string) plus a write counter.
Coordinates are `int`.

Observations the proofs make explicit:

- `ClickAfterReleaseFlips`: the click handler's `!isDragging` guard never
  suppresses a click that follows a release. The release handler has
  already cleared `isDragging`. So a drag that ends inside the switch, and
  so also raises a click event, is decided by the release and then flipped
  once more by the click. Whether the browser raises that click is outside
  the model.
- The click writes thumb offset 21 when turning on (script.js:211). The
  release snaps to 23 (script.js:264, 313). The model keeps both constants
  as written.
- The comment at script.js:361 says the preview is kept within the
  viewport. The code only flips to -350, and the model follows the code.
  `PreviewFitsWhenRoom` states when the panel fits. `PreviewCanLeaveViewport`
  gives a viewport narrower than 700 where the flipped panel starts at a
  negative coordinate.
- Two clicks give back the mode, but not always the stored value. They
  write the value twice, so they restore it only when it already matched the
  mode (`ClickTwiceRestores`). After a load with nothing stored, two clicks
  leave `"false"` where there was no value (`ClickTwiceFromEmptyStorage`).

## Model

| member | source | states |
|---|---|---|
| `CursorTrail.Record` | script.js:150-159 | the new sample is last; below capacity the old history is kept whole with the sample appended; at capacity the sample is pushed and then the oldest entry is dropped; a history within the bound stays within it |
| `CursorTrail.RecordAllKeepsNewest` | script.js:150-159 | recording any run of moves into a bounded history gives exactly the newest 72 samples of the old history followed by the moves |
| `CursorTrail.HistoryBound` | script.js:150-159 | from an empty history, any run of moves leaves at most 72 samples, and they are the newest 72 |
| `CursorTrail.SampleIndex` | script.js:64-66 | the guarded index exists iff `5i < L`; it is then below `L` and equals `L - 1 - 5i`, so the guard's upper half never rejects |
| `CursorTrail.Render` | script.js:64-74 | a marker is visible iff `5i < L`; a visible marker sits on sample `L - 1 - 5i`; a hidden one keeps its previous position |
| `CursorTrail.Rendered` | script.js:62-75 | one marker per old marker, each the `Render` of its old style at its own index |
| `CursorTrail.VisibleMarkersArePrefix` | script.js:62-75 | the number of visible markers is `min(markers, ceil(L/5))`, and no hidden marker comes before a visible one |
| `CursorTrail.TenSamplesShowTwoMarkers` | script.js:64-74 | with 10 samples only markers 0 and 1 show, on samples 9 and 4 |
| `CursorTrail.InitialMarker` | script.js:49-53 | a created marker has no translation and is visible exactly for indices up to 6, where `1 - 0.15i` is positive |
| `CursorTrail.Start` | script.js:5-53 | pointer at 0,0, empty history, no frame pending (line 26), markers created at 0,0 with indices up to 6 visible (lines 49-53); within the bound |
| `CursorTrail.Move` | script.js:146-168 | the pointer becomes the move's position; the sample is appended, with the oldest dropped at capacity; a frame is pending; markers untouched; the bound is kept |
| `CursorTrail.Frame` | script.js:163-167 | the flag clears; marker `i` becomes visible iff `5i < L`, placed on sample `L - 1 - 5i`; history and pointer untouched |
| `CursorTrail.FramesAreCoalesced` | script.js:162-167 | along any event sequence the platform can deliver, requests plus the initial pending frame equal delivered frames plus the final pending frame |
| `CursorTrail.BurstRequestsOneFrame` | script.js:162-167 | a burst of moves requests exactly one frame if none was pending and none otherwise, and leaves a frame pending |
| `CursorTrail.RunKeepsNewest` | script.js:145-169 | moves and frames in any order keep the history bound and the twelve markers, and the history is the newest 72 of all samples seen |
| `CursorTrail.FrameShowsLatest` | script.js:146-167 | the frame after a move draws marker 0 on that move's position and clears the pending flag |
| `CursorTrail.Pointer.constructor` | script.js:45-53 | empty history, no frame pending, pointer at 0,0, twelve markers created, those with positive initial opacity visible |
| `CursorTrail.Pointer.HandleMouseMove` | script.js:145-169 | the state becomes `Move` of the old state; a frame is requested iff none was pending; the bound is kept |
| `CursorTrail.Pointer.UpdateCursorTrail` | script.js:59-76 | the marker array becomes `Rendered` of its old contents and the history |
| `CursorTrail.Pointer.OnAnimationFrame` | script.js:163-167 | the markers are redrawn from the history and the pending flag is cleared |
| `DarkMode.BoolString` | script.js:197-198 | the stored string is `"true"` exactly for true and `"false"` for false |
| `DarkMode.Load` | script.js:177-185 | dark iff the stored value is exactly `"true"`; the flags agree, a reload agrees, nothing is written, no drag is under way, and the drag origin is 0,0 with no inline thumb offset or transition |
| `DarkMode.UpdateMode` | script.js:190-200 | an equal request changes nothing; a differing one sets `active` to the request, flips the body flag and writes `BoolString` of the new body flag once; drag fields and thumb untouched |
| `DarkMode.UpdateSameIsNoOp` | script.js:190-200 | requesting the current state changes nothing and writes nothing |
| `DarkMode.UpdateOtherFlips` | script.js:194-199 | requesting the other state flips both flags and writes the new body flag once; the drag fields are unchanged |
| `DarkMode.UpdateReachesRequest` | script.js:190-200 | on a consistent switch the result is the requested state, still consistent; storage is written, with the new value, exactly when the state changed |
| `DarkMode.Click` | script.js:203-219 | during a drag nothing changes; otherwise both flags flip, the new body flag is written once, the thumb goes to 21 when turning on and 0 when turning off, and the drag fields and transition are kept |
| `DarkMode.ClickWhileDraggingIsNoOp` | script.js:203-205 | a click during a drag changes nothing |
| `DarkMode.ClickFlips` | script.js:203-219 | a click outside a drag flips the mode with one write of the new value and moves the thumb to 21 or 0 |
| `DarkMode.ClickTwiceRestores` | script.js:203-219 | two clicks restore the mode and the body flag, with two writes; they leave the thumb at the click offset of the original mode (21 on, 0 off), so they restore it only when it was there already, not after the 23 a release snaps to or before any offset was written; a stored value that matched the mode is restored too |
| `DarkMode.ClickTwiceFromEmptyStorage` | script.js:177-219 | from a load with nothing stored, two clicks restore the mode but leave `"false"` stored where nothing was |
| `DarkMode.PressThumb` | script.js:222-227 | a drag starts at the pointer's x from offset 21 when on and 0 when off; mode, storage and thumb untouched |
| `DarkMode.ClampThumb` | script.js:241 | the result is never negative and never past a travel that is not negative; it is the wanted offset when that is in range, 0 below it and the travel above it |
| `DarkMode.MovePointer` | script.js:229-246 | with no drag nothing changes; during a drag the thumb offset becomes `ClampThumb(startLeft + (x - startX), trackWidth - 20)`, the transition is switched off, and nothing else changes |
| `DarkMode.DragStaysInTrack` | script.js:229-246 | during a drag on a track at least 20 wide, the thumb offset lies in `[0, trackWidth - 20]` and equals `startLeft + (x - startX)` when that is in range; the mode and storage are untouched |
| `DarkMode.MoveWithoutDragIsNoOp` | script.js:229-230 | a pointer move with no drag under way changes nothing |
| `DarkMode.ReleaseWithoutDragIsNoOp` | script.js:248-249 | a release with no drag under way changes nothing |
| `DarkMode.ReleasePointer` | script.js:248-271 | with no drag nothing changes; otherwise the drag ends, the transition is back, the thumb snaps to 23 or 0 by `thumbCenter > trackCenter`; the mode changes iff that differs from it, and only then does the body flag flip and `BoolString` of it get written, once; otherwise the stored value is kept; the drag origin is kept |
| `DarkMode.ReleaseSettles` | script.js:248-271 | a release ends the drag; the mode becomes `thumbCenter > trackCenter`; storage is written with the new mode only if the mode changed and is kept otherwise; the thumb snaps to 23 or 0 |
| `DarkMode.DragFromOff` | script.js:222-271 | after a fresh load with nothing stored, a drag released left of the midpoint stays off and writes nothing; released right of it, the mode turns on with one write of `"true"` |
| `DarkMode.StepKeepsInvariant` | script.js:190-320 | every gesture keeps the flags in agreement and storage in step with the mode, and writes exactly when the mode changes; presses and drag moves never change mode or storage |
| `DarkMode.ReplayKeepsInvariant` | script.js:175-321 | after any gestures the flags agree, reloading restores the mode, and the writes are at most one per gesture |
| `DarkMode.ClickAfterReleaseFlips` | script.js:203-251 | a click right after a release is not suppressed and flips the mode the release settled on |
| `DarkMode.DarkModeToggle.constructor` | script.js:177-185 | the initial state is `Load` of the stored value |
| `DarkMode.DarkModeToggle.UpdateDarkMode` | script.js:190-200 | the state becomes `UpdateMode` of the old state |
| `DarkMode.DarkModeToggle.OnClick` | script.js:203-219 | the state becomes `Click` of the old state, keeping the invariant |
| `DarkMode.DarkModeToggle.OnPress` | script.js:222-227 | the state becomes `PressThumb`: dragging, origin at the pointer, start offset 21 if on else 0; the touch handler at 274-279 is this method |
| `DarkMode.DarkModeToggle.OnMove` | script.js:229-246 | the state becomes `MovePointer` of the old state; the touch handler at 281-296 is this method |
| `DarkMode.DarkModeToggle.OnRelease` | script.js:248-271 | the state becomes `ReleasePointer` of the old state, keeping the invariant; the touch handler at 298-320 is this method |
| `About.Toggle` | script.js:336-340 | a click flips the panel flag and the button flag |
| `About.ClicksFromClosed` | script.js:327-340 | starting closed, panel and button always agree, and the panel is open exactly after an odd number of clicks |
| `About.ClickTwiceRestores` | script.js:336-340 | two clicks restore the disclosure |
| `About.AboutToggle.constructor` | script.js:331-334 | starts closed with the glyph `"+"` |
| `About.AboutToggle.OnClick` | script.js:336-340 | the state becomes `Toggle` of the old state; the glyph is unchanged |
| `HoverPreview.PreviewCoord` | script.js:384-392 | the coordinate is pointer + 50 exactly when a 300 panel there fits before the viewport edge, otherwise pointer - 350 |
| `HoverPreview.PreviewAvoidsPointer` | script.js:358-366 | the panel never covers the pointer: it starts at least 50 after it or ends at least 50 before it |
| `HoverPreview.PreviewFitsWhenRoom` | script.js:384-392 | for a pointer inside the viewport with 350 of room on either side, the panel lies wholly inside the viewport |
| `HoverPreview.PreviewCanLeaveViewport` | script.js:361-367 | in a 400 viewport with the pointer at 200, the flipped panel starts at -150 |
| `HoverPreview.Place` | script.js:384-392 | on each axis the panel is at pointer + 50 exactly when a 300 panel fits there, otherwise at pointer - 350 |
| `HoverPreview.Preview.constructor` | script.js:23 | the panel starts hidden with no position written |
| `HoverPreview.Preview.OnEnter` | script.js:351-371 | the one panel becomes visible, placed from the last recorded pointer position, whatever it showed before |
| `HoverPreview.Preview.OnLeave` | script.js:378-380 | the panel is hidden and its position kept |
| `HoverPreview.Preview.OnMove` | script.js:382-396 | the panel is re-placed from the event's position and its visibility kept |

## Left out

- Eye tracking (`updatePupilPosition`, `updateEyes`, script.js:89-136): square roots, `atan2`, `cos` and `sin` over floating point. The frame callback's call to it is not modelled.
- Marker opacity values `1 - 0.15i` and `1 - 0.08i` (script.js:51, 70): only visible versus hidden is modelled. A created marker counts as visible when `1 - 0.15i > 0`, that is `15i < 100`.
- DOM plumbing: element lookups, element creation, `translate(...)` style strings, `preventDefault`, and the transition string (kept as one boolean, `transitionOff`).
- The start-up wiring (script.js:404-458): cursor enforcement, timers, resize, the first `updateEyes` at the viewport centre, and `DOMContentLoaded`.
- `Date.now()`, `requestAnimationFrame`, real storage and window size: modelled as parameters and fields. A pending `animationFrameId` is a boolean because the ids the platform returns are never zero.
- Storage failures: the model assumes every storage access succeeds. In a browser that blocks storage, `getItem` (script.js:177) throws. That aborts `initDarkMode` and `init()`, so the about toggle, the project hovers and the pointer listeners (script.js:428-434) are never registered. A `setItem` that throws (script.js:198) leaves both class flags flipped but the stored value unchanged, and `ReloadAgrees` then fails. Neither exception path is modelled.
- Initial pointer position: `init()` (script.js:437-439) sets `mouseX`/`mouseY` to the viewport centre, possibly fractional, before any move arrives. So the handlers first see that position, not the 0,0 that `Pointer`'s constructor gives, and a `mouseenter` before any move places the preview from the centre.
- Thumbnail image loading: it is only a commented-out TODO (script.js:373-375).
- Measurements: track widths and thumb and track centres from bounding boxes are fractional in the browser; here they are integers.
- The initial class flags and the preview's initial state come from the page markup and style sheet, which are not part of this model. The model assumes the markup starts with no `active`, `dark-mode` or `visible` class.
