# Slider media actions in Dafny

This project models the decision logic of `src/media.c` in Slider, a PDF
presentation tool. When the presenter calls `action(cmd)`, the code:

1. collects the annotations of the current page and converts their
   rectangles to screen coordinates, honouring the aspect-lock setting;
2. selects one annotation, either by the 1-based index after the first
   blank of the command, or interactively with the next click (a key
   press cancels);
3. dispatches the annotation by kind. A link is matched against the
   page's link mapping and its action jumps to a page, spawns a helper, does
   nothing, or is reported. A movie spawns its file. A sound does nothing.
   Any other kind is reported.
4. expands the configured command template of the spawned kind (`%s`,
   `%x`, `%y`, `%w`, `%h`, `%%`) into the command line given to the shell.

Poppler and Xlib are replaced by plain data. The page is a `Flow.Page`
holding its size, annotations, link mapping and named destinations. The X
event queue is a sequence of `Selection.XEvent`. The result of the
invocation is a value (`Flow.Outcome`) rather than a side effect.

Modules:

- `Numeric`: C's `(int)` cast, the `(int)(v + 0.5)` rounding, `%d` text and `atoi`.
- `Geometry`: scaling, the vertical flip and the screen transform.
- `Template`: the expander of `spawn`.
- `Search`: the first-match scan.
- `Selection`: command argument, index choice, hit test and the event queue.
- `Dispatch`: the handler table, `media_link` and `media_movie`.
- `Flow`: `action` end to end.

Behaviour of the source worth noting:

- An escape `%c` whose character the switch does not list produces
  nothing. Both characters are consumed, because `i++` runs after every
  escape.
- A command that ends in blanks after the verb has an empty argument.
  `atoi` reads it as 0, so nothing is selected; there is no interactive
  selection.
- `(int)(v + 0.5)` truncates toward zero. Below -0.5 it therefore rounds
  toward zero rather than to the nearest integer: -1.2 and even -1.0 become
  0 (`Numeric.RoundNegativeTowardZero`).
- `XPutBackEvent` returns a key press to the front of the queue, so the
  next wait sees it first.

## Model

| member | source | states |
|---|---|---|
| Numeric.TruncBounds | src/media.c:242 | The `(int)` cast drops the fractional part toward zero: floor for non-negative values, ceiling for negative ones |
| Numeric.RoundBounds | src/media.c:242-251 | From -0.5 upward, `(int)(v + 0.5)` is the nearest integer, with halves rounding up; below -0.5 it is the smallest integer not below `v + 0.5` |
| Numeric.RoundOfNatural | src/media.c:242 | Rounding a non-negative whole number gives it back |
| Numeric.RoundNegativeTowardZero | src/media.c:242 | The idiom maps -1.2 and -1.0 to 0, and -1.5 to -1 |
| Numeric.Digits | src/media.c:242-243 | The `%d` digits are at least one decimal digit, with no leading zero except for 0 itself |
| Numeric.ValueOfDigits | src/media.c:242-243 | The digits printed for n denote n |
| Numeric.DecimalTextShape | src/media.c:242-243 | `%d` text starts with a minus sign exactly for negative numbers; after it come the digits of the magnitude |
| Numeric.AtoiOfDecimalText | src/media.c:116 | `atoi` reads back the number `%d` printed, whatever white space precedes it and whatever non-digit follows |
| Numeric.AtoiNonzeroHasDigit | src/media.c:116 | A nonzero `atoi` result needs a digit in the text |
| Geometry.ComputeScaling | src/media.c:87-92 | Without lock: page stretched onto the display, no offsets. With lock: both scales are the minimum of the two ratios; the page is centred along the axis with spare room, the y axis on a tie |
| Geometry.LockedOffsetsNonNegative | src/media.c:89-92 | With lock on a non-empty display, the centring offsets and the scale are non-negative |
| Geometry.Flip | src/media.c:102-104 | The flipped rectangle's y1 is the page height minus the original y2 and its y2 is the page height minus the original y1. The x values and the height are kept, and a rectangle is well formed exactly when its flip is |
| Geometry.FlipInvolution | src/media.c:102-104 | Flipping twice about the same page height gives the original rectangle back |
| Geometry.ToScreenSize | src/media.c:102-108 | The screen width and height are the document ones times the scales; with positive scales, well-formedness is kept in both directions |
| Geometry.PointRoundTrip | src/media.c:105-108 | The point transform and its inverse undo each other, both ways round |
| Geometry.ScreenRoundTrip | src/media.c:102-108 | The document rectangle is recovered exactly from its screen rectangle |
| Geometry.ContainsOnScreen | src/media.c:102-108 | With positive scales, a point is strictly inside a rectangle exactly when its screen image is strictly inside the screen rectangle |
| Geometry.PageOnScreen | src/media.c:105-108 | The page itself maps to the rectangle from the offsets to the offsets plus the scaled page size |
| Geometry.PageImageStretched | src/media.c:87-108 | Without lock, the page maps exactly onto the whole display |
| Geometry.PageImageCentred | src/media.c:87-108 | With aspect lock on a non-empty display, the page image lies inside the display and its centre is the display's centre on both axes |
| Template.EscapeText | src/media.c:238-253 | `%%` gives one `%`, `%s` gives the payload verbatim, and an escape the switch does not list gives nothing |
| Template.NumberEscapeReadsBack | src/media.c:241-252 | `%x`, `%y`, `%w` and `%h` in either case print the rounded x1, y1, width and height; read back, the text gives those numbers |
| Template.Expand | src/media.c:236-260 | A template without `%` is copied unchanged |
| Template.BuildCommand | src/media.c:236-260 | The index loop of `spawn`, which consumes two characters per escape and one otherwise, builds exactly the expansion |
| Template.TokenizeRoundTrip | src/media.c:236-260 | Splitting a template into copied characters and escapes loses nothing. The pieces have no copied `%` except in the last position |
| Template.TokenizeUnique | src/media.c:236-260 | Every such piece sequence is the split of its own spelling, so the split is unique |
| Template.ExpandByTokens | src/media.c:236-260 | The expansion is the concatenation of the pieces' outputs, in template order |
| Template.ExpandConcat | src/media.c:236-260 | Expansion distributes over concatenation when the first part does not end inside an escape |
| Template.ExpandEscapeInContext | src/media.c:237-254 | An escape contributes its own text between the expansions of its surroundings |
| Template.ExpandTrailingPercent | src/media.c:256-260 | A `%` in the last position is copied |
| Template.PayloadOnlyThroughEscape | src/media.c:240 | A template with no `%s` escape expands the same whatever the payload |
| Template.ExampleExpansion | src/media.c:236-260 | `open %s @%x,%y %wx%h` with payload `foo.mp4` and rectangle (10.4, 20.6)-(110.4, 70.6) expands to `open foo.mp4 @10,21 100x50` |
| Template.Spawn | src/media.c:230-234 | Without a template for the kind there is no command. With one, the command is the template's expansion |
| Template.SpawnByTokens | src/media.c:230-260 | A spawned command is the kind's template read piece by piece: each copied character as itself, each escape as its own text |
| Template.SpawnIgnoresPayload | src/media.c:230-260 | When the kind's template has no `%s`, the spawn result is the same for every payload |
| Search.FirstIndex | src/media.c:213-220 | The scan returns the lowest matching index, with nothing matching before it; it returns none exactly when nothing matches |
| Selection.FirstBlank | src/media.c:113 | The first blank is found exactly when the command has one, and nothing before it is a blank |
| Selection.SkipBlanks | src/media.c:114 | Only leading blanks are dropped, and the rest does not start with one |
| Selection.ParseSelection | src/media.c:113-119 | Interactive exactly when the command has no blank. A nonzero `atoi` of the argument selects by that index. Zero selects nothing |
| Selection.ParseIndexCommand | src/media.c:113-116 | A verb, blanks and the `%d` text of a nonzero n select index n |
| Selection.ParseTrailingBlanks | src/media.c:114-119 | A verb followed only by blanks selects nothing and does not wait for a click |
| Selection.ChooseByIndex | src/media.c:116 | Index n picks entry n-1 exactly when 1 <= n <= count; any other n is reported out of range |
| Selection.FirstHit | src/media.c:213-220 | The hit is the lowest-index rectangle strictly containing the point, and no earlier one contains it; there is none exactly when no rectangle contains it |
| Selection.FindHit | src/media.c:213-220 | The hit-test loop returns the first strictly containing rectangle |
| Selection.MouseSelect | src/media.c:206-224 | The selection waits exactly when the queue holds no key or button event |
| Selection.KeyPressPutBack | src/media.c:209-210 | A key press picks nothing. The queue afterwards is the key press followed by the other events in their order, so the next wait returns it again |
| Selection.ButtonPressPicks | src/media.c:211-221 | A button press is removed from the queue, the other events keep their order, and it picks the first annotation containing its position |
| Selection.Select | src/media.c:113-119 | A chosen index is always in range. Selection by index never touches the queue. It blocks only when interactive with no key or button queued |
| Dispatch.FindLinkAction | src/media.c:142-150 | An action is found only from a mapping whose area equals the document rectangle; no equal area means no action |
| Dispatch.FirstLinkWins | src/media.c:142-149 | The first mapping with an equal area decides, even when later mappings have the same area |
| Dispatch.ResolveNamed | src/media.c:155-161 | A named destination jumps to its page minus one when it resolves, and does nothing otherwise |
| Dispatch.ResolveAction | src/media.c:153-192 | Named destinations jump when they resolve, and direct ones always jump, to page - 1. URI, movie and rendition actions spawn with the screen rectangle. Launch does nothing. Other types are reported |
| Dispatch.NamedLikeNamedDest | src/media.c:155-173 | A named action behaves exactly like a goto to the same named destination |
| Dispatch.SpawnKindOfAction | src/media.c:177-188 | URI spawns kind Link with the URI, movie spawns kind Movie with the movie file, rendition spawns kind Sound with the media file |
| Dispatch.HandleLink | src/media.c:141-152 | No matching mapping (or no action) does nothing; otherwise the found action decides; only unrecognised action types are reported |
| Dispatch.HandleAnnotation | src/media.c:121-124 | A "no handler" report is produced exactly for kinds other than Link, Sound and Movie. Sound does nothing, Movie spawns its file, and only a Link can jump |
| Dispatch.LinkDispatch | src/media.c:142-152 | For a link annotation, the outcome is that of the first mapping with its area |
| Flow.Collect | src/media.c:94-109 | One entry per annotation in order, keeping the document rectangle, kind and movie file and adding the screen rectangle |
| Flow.CollectLoop | src/media.c:94-109 | The collecting loop, which flips, scales and offsets in place, builds the same entries |
| Flow.CollectKeepsDocumentRect | src/media.c:96-108 | Each entry's document rectangle is recovered from its screen rectangle |
| Flow.Perform | src/media.c:226-234 | A spawn runs a command exactly when the kind has a template; without one, the missing template is reported. A jump goes to the page it names and is the only way to change the page. A report passes its diagnostic through |
| Flow.RunAction | src/media.c:78-131 | Aborts exactly when the document cannot be opened. A command with a blank never waits and leaves the queue alone. A zero argument does nothing |
| Flow.LinkJumpTarget | src/media.c:153-173 | For a chosen link: a direct destination moves to its page minus one; a named destination or named action moves to the resolved page minus one when the name resolves and stays otherwise; every other action stays on the current page |
| Flow.OnlyLinksMovePages | src/media.c:121-173 | If the current page changes, the selection chose an annotation in range and that annotation is a Link |
| Flow.RunActionByClick | src/media.c:206-224 | Interactive selection with a button press first: the press leaves the queue, and the first annotation whose screen rectangle contains it is dispatched, or nothing happens when none does |
| Flow.IndexCommand | src/media.c:113-116 | `verb n` with n nonzero selects index n |
| Flow.RunActionByIndex | src/media.c:116 | Selection by index dispatches entry n-1, or reports the index, with the queue unchanged |
| Flow.IndexedChoice | src/media.c:113-116 | `verb n` with n nonzero takes the index path for n and leaves the queue alone |
| Flow.RunActionOfChoice | src/media.c:121-125 | Once a choice is made, the outcome is that choice dispatched, with the queue the selection left |
| Flow.ChosenUriLink | src/media.c:177-179 | A chosen link whose first matching mapping opens a URI runs the link template with the URI and the screen rectangle |
| Flow.IndexedUriLinkRunsTemplate | src/media.c:116-179 | A command selecting index a+1, where annotation a is a link whose first matching mapping opens a URI, runs the link template expanded with the URI and the annotation's screen rectangle, and leaves the queue alone |
| Flow.IndexOutOfRangeReported | src/media.c:116 | An index outside the annotations is reported and nothing else happens |
| Flow.KeyPressDoesNothing | src/media.c:209-210 | In interactive selection a key press does nothing and stays queued in front |
| Flow.ClickSelectsAnnotationUnderCursor | src/media.c:213-220 | A click selects the first annotation whose document rectangle strictly contains the document point under the cursor |

## Left out

- Poppler calls are not modelled: opening the document, reading the page size, the annotation and link mappings, `poppler_document_find_dest`, and the movie and media file names. Their results are parameters: `Flow.Page`, its `dests` map and the file names carried by annotations and actions.
- Xlib is not modelled: cursor definition, `XFlush` and `draw(None)` are display effects. `XMaskEvent` is modelled as taking the first key or button event from the event sequence. With none queued, the result is `Pending` instead of blocking.
- `system()` and `fprintf` are left out. The command line and each diagnostic are returned as values; the message texts and the `atypes` name table that fills them are not modelled.
- The 256-byte command buffer and the 8-byte number buffer are not modelled. Strings are unbounded, and no length bound is claimed.
- Doubles are idealised as exact `real` arithmetic. IEEE rounding and division by a zero page size are not modelled. `Flow.ValidPage` requires a positive page size.
- C `int` range is not modelled: `atoi` overflow and the cast of out-of-range doubles.
- Template.Expand: a template is a sequence of characters, not of C bytes. A character that UTF-8 encodes in several bytes differs after a `%`. For `%é` (bytes 25 C3 A9) the source drops `%` and 0xC3 and copies 0xA9; the model drops the whole escape and gives the empty string. Templates of single-byte characters expand the same in both.
- Geometry.ComputeScaling: a page of zero width or height, where the source divides by zero, is excluded by the precondition.
- Selection.ChooseByIndex: the source indexes the annotation array without a bounds check. The model reports an index outside 1..count as `IndexOutOfRange` instead of reading out of bounds.
- Dispatch.HandleAnnotation: the `media_handler` table has `POPPLER_ANNOT_3D` entries, so looking up the 3D kind reads past its end. The model treats 3D like every other kind without a handler.
- `realloc` and `free` of the annotation array and freeing the Poppler mappings are memory management, not behaviour.
- The commented-out `action_launch` and the commented-out argument splitting after the expansion loop are not part of the program. A Launch action does nothing.
- `media_sound` has an empty body, so a Sound annotation has no effect.
