# Verified models of the CHDK bending build

This project models the parts of a camera firmware (CHDK with the "rewired optics" data-path bends) in
which a small slip goes unnoticed until a photograph is ruined, and proves what those parts promise. Code
that changes arrays, linked blocks or fields in place is modelled by methods over arrays and classes with
the same branches; each is proved to compute a specification function, and the promises are proved of that
function. Code made of expressions is modelled by functions. What the code and its specification both use, such
as the table of character places or the banding of rows, has a law of its own that says what it is without it.

`dafny verify dfyconfig.toml` checks everything.

| files | what they model |
|---|---|
| `Bakery` | the ticket lock between the six GPS tasks, every shared read and write a step of its own |
| `Regression` | the sliding-window regression of the GPS tracker: ring buffer, running sums, fitted line |
| `DrawLine` | the line rasteriser |
| `Layouts`, `SquareRoot`, `Spans` | frame layouts: integer square root, chord of a disc, run-length spans of a row |
| `FatDir`, `FatReader` | the directory reader: the long-name protocol as a parser, the cached reader that runs it |
| `Bend`, `BendCompile`, `Bits` | the routing matrix of a bend, its gate, its compiled form, inversion by XOR |
| `Frame`, `RowRotation`, `InPlace`, `Stride` | in-place passes over whole frames: merge, rotation, echo, line memory, stride |
| `Pixels`, `Packed`, `PixelRows`, `Cfa` | the packed 10- and 12-bit frame as an array of pixels, and the colour-filter shift |
| `Runs`, `Counting`, `RunSort` | the pixel sort: what it should do to a row, and the histogram that does it |
| `Shoot`, `ActionStack` | the shoot protocol as a state machine, and the word-stack interpreter that runs it |
| `StackPool` | the pool of action stacks: active list, free list, a pass over all stacks |
| `ConfFile` | the configuration file, written under one table and read under another |
| `ShotRecord` | the record of a shot's state, with the gates its pieces pass when it is read |
| `TagText`, `Tag`, `TagBuffer`, `TornTag` | the record as a comment in the photograph: prose, hex, search, torn writes |
| `Arith`, `Words`, `Options` | arithmetic, bytes and little-endian words, values that may be missing |

## What turned out not to hold

Where a promise fails, the code is modelled as it is, the exact condition is proved, and an input is given.

* `bend_sanitize` is not idempotent. A bend whose width is out of range is replaced by one that routes all
  sixteen bits straight through; on a camera with fewer than sixteen bits a second pass rewires the upper
  ones (`Bend.SanitizeTwice`, with an input in `Bend.SanitizeTwiceExample`). So a gated bend need not be one
  the gate leaves alone (`Bend.SanitizedIsUsable`), and a record or a comment gives back what was put in it
  exactly when every piece is (`ShotRecord.ShotRoundTrip`, `Tag.TagRoundTrip`; `ShotRecord.ResetNotKept` is
  the state of a camera that has been reset). What a gated state loses is never read: only routes above a
  bend's own width change (`Tag.TagKeepsLines`, `BendCompile.SameLinesSameCode`).
* The circle layout leaves out the rightmost pixel of every chord (`Regions.DiscWithoutRightEdge`, with an
  input in `Regions.CircleExample`).
* A file is not always listed. A short record behind an unfinished long-name block is dropped
  (`FatNames.FileNotListed`), and a complete block behind one loses its long name
  (`FatNames.LongNameLost`). `FatNames.ListsDirectory` says when a directory is listed as it should be.
* A pass over the action stacks skips a stack that another one finishes while it is still to come, and only
  then (`StackPool.Pool.ProcessAll`, with a script in `StackPool.SkippedStack`).
* The comment above `bt_append` says that a short write leaves bytes that carry no mark. The mark is the
  first thing in the text, so from its last byte on the picture counts as tagged and is never tagged again
  (`TornTag.TornTagStays`, with a picture in `TornTag.TornExample`). It is true that it reads back as
  untagged (`TornTag.TornTagReads`).
* `bx_stride` fetches original bytes only until the fetch runs off the end of the frame and wraps; from
  there on it can meet rows it has already bent (`Stride.StrideExample`). `Stride.Stride` says which, and
  `Stride.BentIsUnique` that this determines the frame.

`config_save` recognises a string by its size, so that any 100-byte item would be cut at its first NUL
(`ConfFile.SavedWhole`). No entry of today's tables is harmed: every one of that size is a string.

## Model

| member | source | states |
|---|---|---|
| Bakery.StepInv | chdk-src/core/gps.c:179-202 | Every single shared read or write of any of the six tasks keeps the invariant, including the step between the two reads of a ticket in the maximum scan |
| Bakery.RunInv | chdk-src/core/gps.c:179-202 | The invariant holds after every step of every interleaving |
| Bakery.MutualExclusion | chdk-src/core/gps.c:179-202 | In no reachable state are two tasks both between lock and unlock |
| Bakery.StaysAhead | chdk-src/core/gps.c:182-197 | A task that held a ticket when another set entering stays ahead of it for that round until it unlocks |
| Bakery.FirstComeFirstServed | chdk-src/core/gps.c:182-202 | If j held its ticket when k set entering, k is in its critical section only after j has gone through unlock |
| Bakery.BoundedOvertaking | chdk-src/core/gps.c:182-202 | While a task holds a ticket, no other one leaves its critical section and enters it again: each overtakes it at most once |
| Bakery.TicketAboveOlder | chdk-src/core/gps.c:186-190 | The ticket a task writes is above every ticket that was out when it set entering and still is, although each is read twice |
| Bakery.TicketKept | chdk-src/core/gps.c:182-202 | A ticket keeps its value until its owner unlocks |
| Bakery.NoDeadlock | chdk-src/core/gps.c:182-202 | Whenever a task is inside lock or its critical section, some task that is not idle can move on |
| LeastSquares.RingSlides | chdk-src/core/gps_math.c:305-338 | Writing at the ring index and stepping it slides the window by one: the oldest point goes, the newest comes last |
| LeastSquares.RunLeavesSuffix | chdk-src/core/gps_math.c:305-338 | After any run of additions the window is the last min(count, size) points |
| LeastSquares.SumsSlide | chdk-src/core/gps_math.c:309-337 | Subtracting the oldest point and adding the newest keeps the running sums equal to the sums over the window |
| LeastSquares.DetZeroIffSameX | chdk-src/core/gps_math.c:351-354 | The determinant is never negative, and zero exactly when all x of the window are equal |
| LeastSquares.NormalEquations | chdk-src/core/gps_math.c:356-357 | The computed slope and intercept satisfy both normal equations |
| LeastSquares.LeastSquaresLine | chdk-src/core/gps_math.c:344-359 | When not all x are equal, the computed line has a smaller sum of squared errors over the window than every other line |
| Regression.ControlBlock.constructor | chdk-src/core/gps_math.c:273-277 | A new block has an empty window |
| Regression.ControlBlock.Reset | chdk-src/core/gps_math.c:283-299 | Empties the window, whatever the block held |
| Regression.ControlBlock.Add | chdk-src/core/gps_math.c:305-338 | Slides the window by the new point, with the sums of the new window |
| Regression.ControlBlock.Compute | chdk-src/core/gps_math.c:344-359 | Marks the fit as impossible exactly when all x of the window are equal |
| Regression.ControlBlock.FittedLine | chdk-src/core/gps_math.c:344-359 | Once computed, the line is the best one for the window, or zero when there is none |
| Regression.ControlBlock.Actual | chdk-src/core/gps_math.c:365-368 | The fitted y at the newest x of the window |
| Regression.ControlBlock.Forecast | chdk-src/core/gps_math.c:374-377 | The fitted y at any x |
| Regression.ControlBlock.Reverse | chdk-src/core/gps_math.c:383-386 | The x at which the fitted line has the value y; 1e9 for a level line |
| Regression.ControlBlock.Change | chdk-src/core/gps_math.c:392-395 | The slope of the fitted line |
| DrawLine.ClimbDraws | chdk-src/core/gui_draw_shapes.c:9-39 | Steps whose accumulated error stays within half the run draw the line in any octant |
| DrawLine.Draw | chdk-src/core/gui_draw_shapes.c:9-39 | Between any two endpoints: max(abs dx, abs dy) + 1 connected pixels, both endpoints among them, each within half a pixel of the true line on the minor axis |
| SquareRoot.RootIsUnique | chdk-src/core/bend.c:757-776 | A number has only one floor square root |
| SquareRoot.Isqrt | chdk-src/core/bend.c:757-776 | The bit-at-a-time loop gives the floor square root of every 32-bit value, and nothing in it leaves 32 bits |
| SquareRoot.Chord | chdk-src/core/bend.c:778-783 | The horizontal distances inside the circle at a height are exactly those up to the chord; a row that misses or only touches it has none |
| SquareRoot.ChordIsWidest | chdk-src/core/bend.c:778-783 | The floor root of r*r - dy*dy bounds exactly the distances inside the circle |
| Regions.OneSpanCovers | chdk-src/core/bend.c:1105-1124 | In a row of strictly increasing spans every pixel before the end is covered by exactly one of them |
| Regions.AtCovering | chdk-src/core/bend.c:1306-1316 | The region found for a pixel is that of the span that covers it |
| Regions.EmitPaints | chdk-src/core/bend.c:1111-1124 | Appending a span keeps the row tiled and right for every pixel so far, through dropped, merged and clipped spans, up to a full array |
| Regions.ChordCutsDisc | chdk-src/core/bend.c:1160-1166 | Exactly the pixels from cx - chord up to cx + chord have both edges on the disc |
| Regions.DiscWithoutRightEdge | chdk-src/core/bend.c:1160-1166 | In every row, region 0 of the circle is the disc (x-cx)^2 + (y-cy)^2 <= r^2 without the pixel at cx + chord, and nothing else is missing; a row that touches the circle loses its only pixel |
| Regions.CircleExample | chdk-src/core/bend.c:1160-1166 | In a frame of ten by ten, (9, 2) is on the full circle and not in its region, (1, 2) is in it |
| Regions.CircleMap | chdk-src/core/bend.c:1160-1166 | The pixel map of the circle is cut exactly at cx - chord and cx + chord |
| Regions.RingsMap | chdk-src/core/bend.c:1168-1183 | The pixel map of the rings is cut at the two chords, and the inner disc lies inside the outer one |
| Regions.FewCells | chdk-src/core/bend.c:1230-1258 | A row of bars or squares never has more than 36 cells, so the array has room |
| Regions.DiagCompares | chdk-src/core/bend.c:1185-1195 | A pixel is below the diagonal exactly when (x+1)*h <= w*y: without a division |
| Regions.WedgeCompares | chdk-src/core/bend.c:1197-1212 | The four triangles, by comparing (x+1)*h with w*y for the falling diagonal and w*y with (w-x)*h for the rising one |
| Regions.RadiusIs | chdk-src/core/bend.c:1160-1176 | The radius is size percent of half the short side, rounded down |
| Regions.BandIs | chdk-src/core/bend.c:1214-1228 | A band is a quarter of size percent of the height, rounded down, at least one row |
| Regions.BarIs | chdk-src/core/bend.c:1230-1243 | A bar is a quarter of size percent of the width or an eighteenth of it, whichever is more, at least one pixel |
| Regions.CellIs | chdk-src/core/bend.c:1245-1258 | The same of a cell, by the short side |
| Regions.StepIs | chdk-src/core/bend.c:963-969 | A row of w pixels is sampled at the finest distance its features ask for, at least one pixel |
| Regions.RegionsMet | chdk-src/core/bend.c:683-708 | Every region a layout counts is met in some frame, so the counts are exact |
| Layouts.CodesAre | chdk-src/include/bend.h:118-142 | Every layout is read from its code, and an unknown code is Off |
| Spans.Emit | chdk-src/core/bend.c:1111-1124 | The array entries after the call are the row with the span emitted, with unsigned char and unsigned short storage |
| Spans.CutCircle | chdk-src/core/bend.c:1160-1166 | At most three spans, equal to the circle's pixel map over the whole row |
| Spans.CutRings | chdk-src/core/bend.c:1168-1183 | At most five spans, equal to the rings' pixel map |
| Spans.CutBars | chdk-src/core/bend.c:1230-1243 | At most 36 spans, equal to the bars' pixel map |
| Spans.CutChecker | chdk-src/core/bend.c:1245-1258 | At most 36 spans, equal to the checker's pixel map |
| Spans.CutPattern | chdk-src/core/bend.c:1260-1291 | As many spans as the sampled figure has runs along the row, up to 192; they show the sampled pixel map exactly when there are at most 192 |
| Spans.CutWedge | chdk-src/core/bend.c:1197-1212 | At most three spans, equal to the four triangles about the centre |
| Spans.CutStraight | chdk-src/core/bend.c:1141-1158 | Off, halves, quarters, diagonal and bands: at most two spans, equal to the pixel map |
| Spans.SpansOf | chdk-src/core/bend.c:1126-1304 | For every layout code, size and row, and 0 < w < 65536: strictly increasing spans that end at w, fit the array and name regions the layout has; they show its pixel map exactly when the array has room, that is always but for a pattern layout whose figure has more than 192 runs along the row, and then only the last span is wrong |
| Spans.SegAt | chdk-src/core/bend.c:1306-1316 | The region is one the layout has; when the array has room for the row, it is that of the pixel map at the nearest pixel of the row |
| FatNames.TableIs | chdk-src/core/chdk-dir.c:131-131 | Character c of a long-name record is the little-endian word at byte 1+2c for c < 5, 14+2(c-5) for c < 11, 28+2(c-11) for the last two |
| FatNames.ChecksumTurns | chdk-src/core/chdk-dir.c:222-229 | With every byte the checksum turns right by one bit and the byte is added, modulo 256, from zero |
| FatNames.PrependReads | chdk-src/core/chdk-dir.c:149-167 | A record read back to front puts its part of the name in front of what was read, skipping padding, or gives up at a character that is not allowed |
| FatNames.SkipsBlock | chdk-src/core/chdk-dir.c:243-283 | A long-name block that is not being read is passed over up to its short record, which is then listed by its short name |
| FatNames.ReadsBlock | chdk-src/core/chdk-dir.c:220-269 | A complete block read down to record i lists the long name if it is usable, else the short one, and leaves the rest of the directory |
| FatNames.ReadsLong | chdk-src/core/chdk-dir.c:169-290 | A complete long-name block is consumed as a whole, giving the long name if its characters, its length and the checksum allow it |
| FatNames.ListsDirectory | chdk-src/core/chdk-dir.c:169-290 | Any mix of short entries, complete long-name blocks, pieces of blocks, erased entries and labels, told by the bytes of their records, is listed as told item by item; that is exactly the names it should show, in order, if and only if no file stands behind an open piece of a block that drops it, renames it or costs it its long name |
| FatNames.PassesOrphan | chdk-src/core/chdk-dir.c:243-283 | Records a block begins with, without their short one: the program is left in the middle of that block exactly when it is not too long and the part of the name read so far is allowed and short enough; behind another such piece they are skipped |
| FatNames.SpoilsLong | chdk-src/core/chdk-dir.c:245-255 | A complete block that comes while another is open is listed by its short name: its first record is taken for an error |
| FatNames.ShownIfNoneSpoiled | chdk-src/core/chdk-dir.c:169-290 | A listing with spoiled items is never the one to be shown: an item that is not listed is not made up for by another |
| FatNames.NoOrphanNoHarm | chdk-src/core/chdk-dir.c:169-290 | A directory without such pieces has no spoiled item, and so is listed as it should be |
| FatNames.FileNotListed | chdk-src/core/chdk-dir.c:280-283 | A directory of which the one file is not listed |
| FatNames.LongNameLost | chdk-src/core/chdk-dir.c:247-255 | A directory of which the one file, with a complete block, is listed by its short name |
| FatReader.Reader.constructor | chdk-src/core/chdk-dir.c:86-116 | An opened directory is about to read its first record |
| FatReader.Reader.Read | chdk-src/core/chdk-dir.c:62-66 | read() fills the cache with any number of whole records, none only at the end of the file |
| FatReader.Reader.ReadNextEntry | chdk-src/core/chdk-dir.c:57-79 | The next 32-byte record of the file, whatever the cache boundaries; short only at the end |
| FatReader.Reader.RewindEntry | chdk-src/core/chdk-dir.c:81-84 | The record just read is the next one again |
| FatReader.Reader.CheckFnChar | chdk-src/core/chdk-dir.c:133-147 | A character is kept, ends the name, or is refused |
| FatReader.Reader.ReadLfnEntry | chdk-src/core/chdk-dir.c:149-167 | Filling the buffer backwards reads the record's characters in front of the name so far, or ends the block |
| FatReader.Reader.ReadShort | chdk-src/core/chdk-dir.c:197-218 | The short name: base, and dot and extension if there is one |
| FatReader.Reader.ContinueBlock | chdk-src/core/chdk-dir.c:245-263 | A record inside a block continues it only with the same checksum, no start flag and the next ordinal, and within 99 characters |
| FatReader.Reader.StartBlock | chdk-src/core/chdk-dir.c:264-278 | A record outside a block starts one exactly if it has the start flag and at most eight records follow |
| FatReader.Reader.ShortRecord | chdk-src/core/chdk-dir.c:195-242 | A record that is not a long-name one gives a name or ends the block, as the parser does |
| FatReader.Reader.ShortChecksum | chdk-src/core/chdk-dir.c:222-229 | The loop over the eleven bytes gives their checksum |
| FatReader.Reader.FinishBlock | chdk-src/core/chdk-dir.c:220-242 | The long name is listed exactly if the checksum of the short one matches and it is not too long; otherwise the record is to be read again |
| FatReader.Reader.NextRecord | chdk-src/core/chdk-dir.c:179-283 | One turn of the loop is one step of the parser, and lessens (records left, islfn) in spite of the rewind |
| FatReader.Reader.ReadDir | chdk-src/core/chdk-dir.c:169-290 | One call returns the parser's next name and leaves the parser's rest |
| FatReader.Reader.ListAll | chdk-src/core/chdk-dir.c:169-290 | Calling until nothing is returned gives the parser's list of the records ahead |
| FatReader.ListDirectory | chdk-src/core/chdk-dir.c:86-290 | Opening a directory and calling until nothing is returned lists the same, however read() fills the cache: exactly the names to be shown if and only if no item is spoiled |
| Bend.Cell.Sanitize | chdk-src/core/bend.c:100-154 | The in-place gate computes the sanitized recipe |
| Bend.SanitizedKeepsUsable | chdk-src/core/bend.c:100-154 | The gate leaves a bend alone exactly when its width, routes and dividers are usable |
| Bend.SanitizedIsUsable | chdk-src/core/bend.c:82-154 | What comes out of the gate is usable exactly when the bend's width was in range, or the camera's is sixteen |
| Bend.SanitizeTwice | chdk-src/core/bend.c:82-154 | A second pass changes nothing under exactly that condition |
| Bend.SanitizeTwiceExample | chdk-src/core/bend.c:82-154 | On a ten-bit camera the second pass rewires bit 15 of a replaced bend |
| Bend.SanitizedRoutes | chdk-src/core/bend.c:100-154 | Out of the gate, every line within the authored width has a usable route |
| Bend.SanitizedAgain | chdk-src/core/bend.c:82-154 | A second pass changes at most routes above the bend's own width |
| BendMeaning.RouteBytes | chdk-src/include/bend.h:20-38 | What each byte of a route stands for: pin, inverted pin, the two rails, bus, inverted bus |
| BendMeaning.InvertTwice | chdk-src/core/bend.c:392-406 | Inverting a source twice restores it, except that a tie keeps only which rail it is on; usable routes stay usable |
| BendMeaning.XorFlipsWires | chdk-src/core/bend.c:408-418 | The mask flips the polarity of exactly the lines it names, at whatever width the bend is used |
| BendMeaning.XorTwice | chdk-src/core/bend.c:408-418 | The same mask twice restores every bend whose lines are usable, which every gated bend is; the lines stay usable |
| BendMeaning.PresetXor | chdk-src/core/bend.c:408-418 | The in-place loop computes the masked recipe |
| BendCompile.ParityIsOdd | chdk-src/core/bend.c:265-272 | Four foldings give the parity of sixteen bits |
| BendCompile.Patch | chdk-src/core/bend.c:197-231 | One source sets exactly the masks and the pin of the wire it stands for |
| BendCompile.Route | chdk-src/core/bend.c:178-232 | After the loop the masks and pins stand for the wires of all lines, each in one mask |
| BendCompile.Tabulate | chdk-src/core/bend.c:234-250 | Every bit of every table entry is what its pin or rail gives, and zero on bus lines |
| BendCompile.Compile | chdk-src/core/bend.c:158-261 | The compiled form stands for the wires of the recipe at the target width, and its two flags are set accordingly |
| BendCompile.BusValBit | chdk-src/core/bend.c:274-296 | All buses gathered on one line give the signal of the one it is wired to |
| BendCompile.EvalBit | chdk-src/core/bend.c:298-311 | Bus lines take the bus value in its polarity, the others the table's bit |
| BendCompile.CompilerIsCorrect | chdk-src/core/bend.c:65-311 | For every recipe authored at one width and compiled to any other, every bit of the evaluation is what the route of that bit means: remapped pin, inverted pin, rail, bus, inverted bus, straight through when not authored |
| BendCompile.WiderKeepsTop | chdk-src/core/bend.c:65-311 | A bend of pins and rails compiled to a bus that is d bits wider does to the word without its low d bits what it does at its own width, and those come through unchanged |
| BendCompile.NarrowerKeepsTop | chdk-src/core/bend.c:65-311 | Compiled to a bus that is d bits narrower it does there what it does to the upper part at its own width, if the routes of that part are rails and pins of it |
| BendCompile.IdentityIsIdentity | chdk-src/core/bend.c:252-260 | A pure bend is flagged as the identity exactly when its table is the identity |
| BendCompile.XorComposes | chdk-src/core/bend.c:408-418 | For every bend whose lines are usable, which every gated bend is: compiling after XOR with a mask evaluates to the original result with the masked bits flipped, on every pixel and all bus inputs; at the bend's own width it is XOR of the two words |
| BendCompile.XorAtWidth | chdk-src/core/bend.c:408-418 | At any other width the result is the original one XOR the mask, moved up or down by the difference |
| BendCompile.ResetIsIdentity | chdk-src/core/bend.c:82-98 | The reset bend of any camera, compiled to any width, is pure, is flagged as the identity and gives every word back |
| BendCompile.SameLinesSameCode | chdk-src/core/bend.c:158-261 | Routes above the bend's own width are never read: bends that differ only there compile to the same at every width |
| Frame.OnIsBand | chdk-src/core/bendx.c:230-235 | A row is on exactly if it lies in a band of even number, with bands of rowmod rows; rowmod 0 and 1 leave none out |
| Frame.BandsAlternate | chdk-src/core/bendx.c:230-235 | The first rowmod rows are on, and row y + rowmod is on exactly if row y is not |
| Frame.MergeBit | chdk-src/core/bendx.c:181-216 | The lines in the mask take the mix of old and new bit, the others keep the old one |
| Frame.MergeReplaces | chdk-src/core/bendx.c:181-216 | Replace on all lines writes the new value |
| Frame.BlendBit | chdk-src/core/bendx.c:181-216 | Every bit of a merged row: the chosen lanes take the mix, all of them when none is chosen, the others stay |
| Frame.BlendRow | chdk-src/core/bendx.c:647-652 | A row is merged in place with the new one, and no byte outside it changes |
| RowRotation.RotatedBit | chdk-src/core/bendx.c:624-645 | Place k of the rotated row has the bit that was `bits` places on, round a circle of 8*len, most significant bit first |
| RowRotation.RotationsAdd | chdk-src/core/bendx.c:624-645 | Rotations compose by addition |
| RowRotation.WholeTurn | chdk-src/core/bendx.c:624-645 | Whole turns change nothing |
| RowRotation.RotationUndone | chdk-src/core/bendx.c:624-645 | Every rotation has one that undoes it |
| RowRotation.Rot | chdk-src/core/bendx.c:624-645 | The byte loop rotates a row of any length by any number of bits |
| RowRotation.Slip | chdk-src/core/bendx.c:713-729 | Every row that is on is merged with itself rotated by the same amount; the others stay |
| RowRotation.Tear | chdk-src/core/bendx.c:731-751 | Row y that is on is merged with itself rotated by an amount that grows with y, counted over all rows |
| RowRotation.RotatedInBand | chdk-src/core/bendx.c:713-751 | Of a frame that slips or tears, a row in a band is merged with itself rotated, any other row comes out unchanged |
| RowRotation.FirstBands | chdk-src/core/bendx.c:713-751 | Rows 0 to rowmod - 1 are treated, and rows rowmod to 2*rowmod - 1 come out unchanged |
| RowRotation.SlipRotates | chdk-src/core/bendx.c:713-729 | With Replace on all lanes every row in a band is the original row rotated by 8*reach + amount + 1 |
| RowRotation.TearRotates | chdk-src/core/bendx.c:731-751 | With Replace on all lanes every row in a band is the original row rotated by 8*reach + (y+1)*(amount+1) |
| InPlace.EchoOne | chdk-src/core/bendx.c:906-943 | One row is merged with the byte stream d earlier, from the row before where it reaches back |
| InPlace.Echo | chdk-src/core/bendx.c:906-943 | Every row is the original one merged with the original bytes d earlier in the stream, across row boundaries, although rows are overwritten on the way |
| InPlace.EchoInBand | chdk-src/core/bendx.c:906-943 | In a band every byte is merged with the original byte amount + 1 + 64*reach bytes earlier in the stream, a row length at most; all other bytes stay |
| InPlace.LatchedIsClocked | chdk-src/core/bendx.c:948-973 | The row a held row presents lies before it and is not held itself |
| InPlace.LineMem | chdk-src/core/bendx.c:948-973 | Every held row presents the original latched row, although the pass works in place |
| InPlace.LineMemInBand | chdk-src/core/bendx.c:948-973 | In a band the last min(reach + 1, amount + 1) rows of every period of amount + 2 present the original row before them; all other rows stay |
| InPlace.HeldRowsRepeat | chdk-src/core/bendx.c:948-973 | With Replace on all lanes the held rows of a period that lie in bands all repeat the same original row |
| Stride.Stride | chdk-src/core/bendx.c:835-865 | Byte i of row y is merged with the byte fetched round the end of the frame: the original one, unless that row was bent already, then the bent one |
| Stride.SourceIsOriginal | chdk-src/core/bendx.c:835-865 | Before the wrap every row in a band is merged with original bytes, from y*(len + amount + 1 + 64*reach) into the frame; the others stay |
| Stride.SourceWraps | chdk-src/core/bendx.c:835-865 | Anywhere: the byte from that place modulo the length of the frame, the original one unless it lies in an earlier row |
| Stride.BentIsUnique | chdk-src/core/bendx.c:835-865 | Only one frame meets that description |
| Stride.StrideExample | chdk-src/core/bendx.c:835-865 | In a frame of three rows of one byte the third row gets a byte that was bent before |
| Pixels.GroupSetGet | chdk-src/core/bendx.c:114-169 | In a group at either depth, a pixel that is set is read back and the others of the group keep their values |
| Pixels.GroupDetermined | chdk-src/core/bendx.c:114-169 | The pixels of a group determine its bytes: no bit belongs to none |
| Packed.GetGroup | chdk-src/core/bendx.c:114-141 | The case split by position reads the group's pixel |
| Packed.SetGroup | chdk-src/core/bendx.c:143-169 | The case split by position patches that pixel and no byte outside the group |
| Packed.GetPixel | chdk-src/core/bendx.c:114-141 | Reads pixel x of a row of a frame |
| Packed.SetPixel | chdk-src/core/bendx.c:143-169 | Sets pixel x of a row of a frame and changes nothing outside the row |
| Packed.SetGet | chdk-src/core/bendx.c:114-169 | For any row and indices: what was set is read back, every other pixel keeps its value |
| Packed.SetElsewhere | chdk-src/core/bendx.c:143-169 | Bytes outside the pixel's group are unchanged |
| Packed.SetPixels | chdk-src/core/bendx.c:143-169 | As a list of pixels the row changes at one place, and the bytes behind the last whole group stay |
| Packed.RowDetermined | chdk-src/core/bendx.c:104-141 | A row is its pixels and the bytes behind them |
| Packed.PixelIsStream | chdk-src/core/bendx.c:114-141 | Pixel x is bits x*n to x*n+n of the row's bit stream with its bytes swapped in pairs, top bit first |
| Cfa.ShiftRow | chdk-src/core/bendx.c:1108-1148 | A row is repainted from the pixels of another, or of a copy of itself, round its end |
| Cfa.Cfa | chdk-src/core/bendx.c:1108-1148 | Every row y that is on and has a source takes the original pixels of row y + reach; the others stay |
| Cfa.PlanesBit | chdk-src/core/bendx.c:220-225 | The lanes choose among the top eight planes; without any, all planes are chosen |
| Cfa.CfaInBand | chdk-src/core/bendx.c:1108-1148 | In a band and with a source, pixel i is merged with pixel i + amount of the original row y + reach, round its end, by one pixel when both knobs are zero; all other pixels stay |
| Cfa.CfaMovesRows | chdk-src/core/bendx.c:1108-1148 | With Replace on all planes such a row is the original row y + reach, moved round by amount pixels |
| Runs.KnobsAre | chdk-src/core/bendx.c:1285-1292 | The threshold is amount eighteenths of the largest value; the shortest run is 8 to 64 pixels by the low bits of reach, and its top bit turns the order over |
| Runs.OrderedIs | chdk-src/core/bendx.c:1332-1352 | The specification's order is sorted and has the same values |
| Runs.OneOrder | chdk-src/core/bendx.c:1332-1352 | There is only one sorted order of the same values |
| Runs.InARun | chdk-src/core/bendx.c:1313-1318 | Every pixel above the threshold lies in one maximal run of its phase |
| Runs.TargetInRun | chdk-src/core/bendx.c:1313-1352 | Its new value is that of its place in the run's order if the run is long enough, else its own |
| Runs.RunIsSorted | chdk-src/core/bendx.c:1280-1360 | With Replace on all planes a run of at least minrun pixels becomes the sorted permutation of itself, ascending or descending |
| Runs.SameRuns | chdk-src/core/bendx.c:1280-1360 | The sorted row is above the threshold at the same places |
| Runs.SortTwice | chdk-src/core/bendx.c:1280-1360 | Sorting a sorted row changes nothing |
| Counting.FlatSorts | chdk-src/core/bendx.c:1332-1352 | Each value as often as it was counted, from the lowest to the highest or back, is the run in order |
| Counting.Drain | chdk-src/core/bendx.c:1339-1341 | Writes a value as often as it was counted, and leaves its bucket at 0xffff |
| RunSort.Tally | chdk-src/core/bendx.c:1323-1330 | The histogram of the run, and bounds that all its values lie in |
| RunSort.WriteBack | chdk-src/core/bendx.c:1335-1352 | The run's pixels are merged with the run's order, two apart |
| RunSort.Clear | chdk-src/core/bendx.c:1353-1354 | Clearing the buckets the run touched leaves the histogram all zero |
| RunSort.SortRun | chdk-src/core/bendx.c:1320-1354 | A run is sorted from an all-zero histogram to an all-zero histogram |
| RunSort.NextRun | chdk-src/core/bendx.c:1316-1317 | Finds where the next run begins, with nothing to sort before it |
| RunSort.EndOfRun | chdk-src/core/bendx.c:1318-1318 | Finds the end of the maximal run that begins there |
| RunSort.SortRow | chdk-src/core/bendx.c:1305-1358 | Both phases of a row: every pixel has its new value |
| RunSort.TooShort | chdk-src/core/bendx.c:1295-1295 | A row that is left out because it is short has nothing to sort |
| RunSort.Sort | chdk-src/core/bendx.c:1280-1360 | Every row that is on is sorted, the others and the bytes behind the pixels stay, and the histogram ends all zero |
| RunSort.SortedInBand | chdk-src/core/bendx.c:1280-1360 | A row in a band is sorted, any other row stays |
| RunSort.SortFrameTwice | chdk-src/core/bendx.c:1280-1360 | With Replace on all planes, sorting a sorted frame changes no byte of it |
| Shoot.StepKeepsInv | chdk-src/core/action_stack.c:209-462 | Every action, whatever the camera shows, keeps the protocol's invariant |
| Shoot.RunKeepsInv | chdk-src/core/action_stack.c:312-462 | The invariant holds in every run |
| Shoot.AtMostOneReport | chdk-src/core/action_stack.c:312-429 | In every run at most two attempts and one report; exactly one report once the stack is empty, of the kind that ended it, with every full press released |
| ActionStack.SeventeenWords | chdk-src/core/action_stack.c:312-429 | No run ever holds more than 17 of the 48 words |
| ActionStack.SeventeenReached | chdk-src/core/action_stack.c:366-402 | Some run holds 17 |
| ActionStack.MarkOnTop | chdk-src/core/action_stack.c:181-201 | The function mark is on top whenever anything is on the stack, with the top action's function below it |
| ActionStack.LessWork | chdk-src/core/action_stack.c:435-462 | An action that is done leaves less to do, so processing ends |
| ActionStack.Stack.constructor | chdk-src/core/action_stack.c:62-103 | A new stack holds the shoot action and its mark |
| ActionStack.Stack.PopFunc | chdk-src/core/action_stack.c:170-186 | Pops exactly the top action's words and returns its first parameter |
| ActionStack.Stack.PushDelay | chdk-src/core/action_stack.c:209-260 | Pushes a delay and nothing else |
| ActionStack.Stack.PushClick | chdk-src/core/action_stack.c:263-305 | Pushes a press and a release, each with its delay, so that the press runs first |
| ActionStack.Stack.PushShoot | chdk-src/core/action_stack.c:406-418 | Pushes the wait for the camera and the half press, and counts the attempt |
| ActionStack.Stack.AsSleep | chdk-src/core/action_stack.c:209-260 | The delay starts on the first look, and is popped once its time has come |
| ActionStack.Stack.AsWaitFlash | chdk-src/core/action_stack.c:354-362 | Waits for the flash, then goes |
| ActionStack.Stack.AsShoot | chdk-src/core/action_stack.c:420-429 | Gives way to a first attempt |
| ActionStack.Stack.AsWaitInProgress | chdk-src/core/action_stack.c:366-402 | Gives way to the full press once the camera is ready, or to a report when the time is up |
| ActionStack.Stack.AsWaitDone | chdk-src/core/action_stack.c:312-351 | After the shot, a report, or a second attempt when the first failed |
| ActionStack.Stack.Call | chdk-src/core/action_stack.c:435-462 | Running the function on top takes one look at the camera, is one step of the protocol at that look, and answers whether the action was done |
| ActionStack.Stack.Process | chdk-src/core/action_stack.c:435-462 | Processing a stack takes at least one look; at every look but the last the action on top was done; at the last one it was not, or the stack is empty and finished. The state is the one the protocol reaches with these looks |
| StackPool.Pool.constructor | chdk-src/core/action_stack.c:34-38 | An empty pool |
| StackPool.Pool.Create | chdk-src/core/action_stack.c:62-103 | At the front of the active list a block from the free list, or a new one, with a new id; -1 and no change when there are five |
| StackPool.Pool.Unlink | chdk-src/core/action_stack.c:111-127 | Takes one block out of the active list and leaves the order of the others |
| StackPool.Pool.Finish | chdk-src/core/action_stack.c:106-139 | Moves the block from the active to the free list, once |
| StackPool.Pool.Find | chdk-src/core/action_stack.c:143-155 | Finds the active block with an id, if there is one |
| StackPool.Pool.IsFinished | chdk-src/core/action_stack.c:45-56 | A stack has finished exactly when no active one has its id |
| StackPool.Pool.Kill | chdk-src/core/action_stack.c:143-155 | Finishes the stack with this id, and does nothing when there is none |
| StackPool.Pool.ProcessAll | chdk-src/core/action_stack.c:465-480 | Whatever the actions start and stop, the pool stays valid and no block is lost; the stacks that run are those active at the start, each once and in order, exactly if none was finished by another before its turn, and the pass then ends, with exactly the identifiers that turn after turn leaves: of those there were, the ones whose turn did not empty them and that nothing has finished. Otherwise one of the stacks has not run |
| StackPool.WhoIsLeft | chdk-src/core/action_stack.c:435-480 | After a pass a stack is still active exactly if its turn has not emptied it and no operation has finished it; every other active one is new, and those given out in the pass are active unless an operation has finished them |
| StackPool.StartsWithRoom | chdk-src/core/action_stack.c:62-103 | A pass gives out at most one identifier for each start, and one for each while there is room for all |
| StackPool.SkippedStack | chdk-src/core/action_stack.c:465-480 | Two stacks of which the first to run kills the other: the other never runs |
| StackPool.OwnOnlyIsClean | chdk-src/core/action_stack.c:465-480 | Actions that finish no stack but their own meet that condition |
| ConfFile.FileHead | chdk-src/core/conf.c:919-925 | A file begins with the bytes "AG 3" and a word, low byte first |
| ConfFile.ItemHead | chdk-src/core/conf.c:927-950 | An item is its id and its size, low byte first, and the saved variable |
| ConfFile.SavedTwice | chdk-src/core/conf.c:939-942 | Clearing the space behind a string is idempotent |
| ConfFile.SavedWhole | chdk-src/core/conf.c:939-942 | A variable is saved whole unless it has the size of a string and something behind its first NUL, whatever its type |
| ConfFile.Save | chdk-src/core/conf.c:887-956 | The buffer of the computed size receives exactly the file |
| ConfFile.Restore | chdk-src/core/conf.c:993-1043 | Reading any file in place sets the variables as the specification reads it, and ends |
| ConfFile.RestoreOther | chdk-src/core/conf.c:993-1043 | A file written under any table is read under any other item by item to its end: unknown ids do not put it out of step |
| ConfFile.PutAllAt | chdk-src/core/conf.c:1017-1036 | Also with repeated ids: a line has the value of the last item that was restored into it, or its own |
| ConfFile.SchemaEvolution | chdk-src/core/conf.c:887-1043 | Exactly the variables whose id and size are in the file are set, to their saved values; all others are left alone |
| ConfFile.SaveRestore | chdk-src/core/conf.c:887-1043 | Under the same table every variable comes back as saved, and saving again gives the same file |
| ConfFile.TornItems | chdk-src/core/conf.c:1005-1039 | Of items cut off anywhere, exactly the whole ones are restored |
| ConfFile.TornFile | chdk-src/core/conf.c:993-1043 | The same of a whole file cut off anywhere behind its header |
| ShotRecord.HolesClosed | chdk-src/core/bendx.c:465-482 | Removing the items that are off leaves a usable chain, and a usable chain alone |
| ShotRecord.HolesInOrder | chdk-src/core/bendx.c:455-541 | Closing the holes keeps the locked items that do something, in order, and the live one behind them |
| ShotRecord.ChainKept | chdk-src/core/bendx.c:397-482 | The chain's gate gives a usable chain, and leaves a chain alone exactly when it is usable |
| ShotRecord.SegsKept | chdk-src/core/bend.c:723-750 | The segments' gate leaves them alone exactly when they are usable |
| ShotRecord.ChainCell.SanitizeItem | chdk-src/core/bendx.c:397-411 | One item of the chain is gated in place |
| ShotRecord.ChainCell.RemoveItem | chdk-src/core/bendx.c:522-541 | An item is taken out, the later ones and the live slot move down, the last slot is reset |
| ShotRecord.ChainCell.Sanitize | chdk-src/core/bendx.c:465-482 | The loop that removes while it walks computes the gated chain |
| ShotRecord.BendRoundTrip | chdk-src/include/bend.h:82-97 | A bend's 32 bytes give the bend back |
| ShotRecord.ChainRoundTrip | chdk-src/include/bendx.h:94-104 | A chain's 52 bytes give the chain back |
| ShotRecord.SegsRoundTrip | chdk-src/include/bend.h:194-212 | The segments' 104 bytes give them back |
| ShotRecord.RecordLayout | chdk-src/include/bend_shot.h:44-62 | Where every field of the header, the matrix, the chain and the segments is in the 204 bytes |
| ShotRecord.UpgradeKeepsOrder | chdk-src/core/bend_shot.c:45-63 | Of the 24 old effects the five retired ones are turned off, and the others keep their order within the nineteen there are now |
| ShotRecord.UpgradeReaches | chdk-src/core/bend_shot.c:45-63 | Every effect there is now was one of them |
| ShotRecord.Pack | chdk-src/core/bend_shot.c:67-91 | The buffer receives the 204 bytes of the record, or nothing when it is too small |
| ShotRecord.ShotRoundTrip | chdk-src/core/bend_shot.c:67-152 | Any state is unpacked as its pieces come out of their gates, so as it was exactly when each is one its gate leaves alone; the two switches come back in any case |
| ShotRecord.GatedRoundTrip | chdk-src/core/bend_shot.c:67-152 | A state whose pieces have passed their gates comes back with at most routes above a bend's own width changed |
| ShotRecord.ResetNotKept | chdk-src/core/bend_shot.c:67-152 | The reset bend of a ten-bit camera comes back with bit 15 rewired |
| TagText.DigitsSay | chdk-src/core/bend_tag.c:47-56 | The digits of a number, read in base ten, give it back, without a leading zero |
| TagText.ProseIsFine | chdk-src/core/bend_tag.c:60-122 | What is said of any state that can be described begins with the mark, is plain text, has at most 334 characters and holds nothing that could be taken for the record |
| TagText.GatedDescribable | chdk-src/core/bend_tag.c:60-122 | Every state that has passed the gates can be described: its trash name is in the table and its addresses fit a word |
| Tag.UnhexIs | chdk-src/core/bend_tag.c:434-440 | A digit of either case is read as its value, and no other character is |
| Tag.HexRoundTrip | chdk-src/core/bend_tag.c:434-506 | Bytes written as hex digits are decoded again, whatever follows |
| Tag.RecordAt | chdk-src/core/bend_tag.c:494-499 | The search for the record finds it behind the prose and nowhere before |
| Tag.TextIs | chdk-src/core/bend_tag.c:151-166 | The record always fits behind the prose, and the text has no NUL |
| Tag.MarkAt | chdk-src/core/bend_tag.c:477-491 | The search for the mark finds the comment's text behind its header, not the header and not the picture |
| Tag.WholeInWindow | chdk-src/core/bend_tag.c:442-475 | The tail of the file that is searched holds any comment whole, up to 1024 characters and the header |
| Tag.TagRoundTrip | chdk-src/core/bend_tag.c:136-514 | Any state that can be described, appended to any picture whose tail holds no earlier mark, is read back as its pieces come out of their gates: the same matrix, chain, segments and switches exactly when each piece is one its gate leaves alone |
| Tag.TagKeepsLines | chdk-src/core/bend_tag.c:136-514 | For every state that has passed the gates, also a reset one, what is read back differs at most in routes above a bend's own width |
| Tag.TaggedOnce | chdk-src/core/bend_tag.c:204-258 | A complete picture counts as tagged after it has been tagged |
| TagBuffer.PutStr | chdk-src/core/bend_tag.c:41-45 | Appends as much of a string as there is room for |
| TagBuffer.PutNum | chdk-src/core/bend_tag.c:47-56 | Appends the decimal digits of any number of up to twelve digits, with its sign |
| TagBuffer.Describe | chdk-src/core/bend_tag.c:60-130 | The buffer holds the prose of the state, as far as it fits |
| TagBuffer.Queue | chdk-src/core/bend_tag.c:136-172 | The buffer holds the comment's text, with its NUL |
| TagBuffer.PutHex | chdk-src/core/bend_tag.c:157-163 | Appends the hex digits of the record |
| TagBuffer.Append | chdk-src/core/bend_tag.c:266-291 | The file is the picture with the comment segment behind it |
| TagBuffer.Decode | chdk-src/core/bend_tag.c:499-506 | Decodes pairs of digits until one is not, or the record is full |
| TagBuffer.Read | chdk-src/core/bend_tag.c:442-514 | What the specification reads from any file |
| TornTag.TornTagReads | chdk-src/core/bend_tag.c:266-291 | However many bytes of the comment reached the card, the picture reads as tagged with the whole gated state or as untagged: as tagged exactly when at most the final newline is missing |
| TornTag.TornTagStays | chdk-src/core/bend_tag.c:204-291 | A complete picture with m bytes of a comment behind it is taken as ready for m = 0, as unfinished up to the mark's last byte, and as tagged from there on |
| TornTag.TornExample | chdk-src/core/bend_tag.c:284-286 | An empty picture with 19 bytes of a comment behind it counts as tagged and reads as untagged |
| Words.Word16 | chdk-src/core/bend_shot.c:31-42 | A 16-bit word is its low byte and 256 times its high one, and is read back |
| Words.Word32 | chdk-src/core/conf.c:919-925 | The same of a 32-bit word |

## Left out

- Bakery.MutualExclusion: tickets are unbounded integers: the wrap-around of the 32-bit ticket is not modelled; each of the six slots is used by one task, and memory is sequentially consistent.
- Regression.ControlBlock.Add: doubles are real numbers: rounding and cancellation in the running sums are not modelled.
- 32-bit wrap-around of ticks, identifiers and of products such as y*(len + d) is not modelled.
- Spans.SpansOf: the figures of the six pattern layouts (noise, sine and hash) are a parameter that answers yes or no at each sample; everything proved holds for every such figure, but whether one of the program's own figures has more than 192 runs along a row is not told.
- RunSort.Sort: a row has at most 2*0xffff pixels, since the histogram's counters are 16 bits wide; a longer row could overflow one.
- FatReader.Reader.Read: read() returns whole records and no error; plain char is unsigned, as on the camera's processor.
- ConfFile.Restore: entries of type CONF_STRUCT_PTR, the callback for restored items and file handles; a file shorter than its eight-byte header is read as one without the mark.
- ConfFile.Save: strlen of a 100-byte string without a NUL is taken to stop at the end of the variable.
- TagBuffer.Queue: the state is one the description is defined for: the trash name of a bend that is on is looked up without a check, and the address of an effect is shifted by its amount, so the first must be in the table and the second below 32, as both are in every gated state. The path and the tick that are stored with the text are left out.
- The chain's line in the prose is that of the experimental build; other builds leave it out.
- The record's older versions 1 and 2 are read by the specification function (effects renumbered, segments off), but no round trip is stated for them, since nothing writes them any more.
- Injecting the comment while the camera writes the picture, and when the tagging is attempted again, are left out: they depend on the camera's file writer and its clock.
- StackPool.Pool.ProcessAll: what the actions of a stack do to the pool is a script of starts and stops, one turn for each stack; what they do otherwise is the subject of ActionStack. A pass in which a stack is finished before its turn may run a stack twice or go on without end, since a block that is finished and used again leads back to the head of the list; the model follows it for as many turns as the script has.
- ActionStack.Stack.Process: the camera is a sequence of what it shows at each look; key presses are recorded, not sent, and delays that come from the configuration are parameters.
- Allocation never fails.
- The other effects of the chain (address, endian, refresh, field, bus, clock, clamp, bloom, lock, noise), random recipes and mutations are left out: they add no state or ordering problem that the modelled passes do not have.
- Menus, drawing other than lines, displays, file dialogs and stored presets are left out.
- The GPS tasks' files, bitmaps and beeps, trigonometry and number formatting are left out.
