# land15 core in Dafny

land15 is a small island simulation.

- **The island generator.** `Land15::InitState` builds a square-grid island.
  - It takes a land mask and opens it morphologically (an erosion followed by a dilation).
  - It classifies each land square as beach (Sand) or Grass.
  - It scatters Rock and Trees at random, then grows them with a two-buffer cellular automaton.
- **The PRNG.** Every random draw comes from a per-thread xorshift128+ generator (`rnd`, `rndd`, `srnd`).
- **The graphics layer.** It draws text from an atlas of 8-by-8 glyphs: one-line labels and word-wrapped paragraphs. It blits textures with an optional source rectangle and a blend mode.

This project models those three pieces and proves what they compute.

Modules:

- `Grid`: row-major indexing of a board of `w` columns, and which cells are interior. It also holds the invariant `Done` of a pass that has reached a given index.
- `IslandSpec`: each pass of `InitState` as a function of the previous board, with the lemmas the passes promise:
  - the opening never adds land and is idempotent;
  - no Grass square touches Water;
  - Water and the border are never changed;
  - Sand never becomes Trees within a seeding pass or a growth cycle;
  - the island shape survives growth;
  - the final buffer copy discards the last generation.
- `Island`: the class `Land15`, with the board as an `array<Lulc>`. Each pass of `InitState` is a method with the source's nested row/column loops, proved equal to its specification function. Random numbers are an oracle `draw: nat -> real` plus a stream position `k`. Each method returns the position after the draws the source's `rndd()` calls would take.
- `Random`: the class `XorShiftP` with its two state words. `Step`, `Seed`, `rnd`, `rndd`, `rndd(start, end)` and `srnd` are proved against functions on the state. It proves:
  - a step is a bijection on states;
  - seeding forgets the earlier state, and distinct seeds give distinct states;
  - the all-zero state is stuck.
- `GfxSpec`: the glyph cell, the anchoring of a text line, the line break and line loop of a paragraph, the blend table and the blit rectangle. Each is a function. The line break, the paragraph and the blit are each given both as written and as evidently intended.
- `Gfx`: the loops of `InternalTextLine`, `InternalTextParagraph` and `InternalPut`, as methods. Each returns the glyph copies (or the blit plan) it would hand to SDL.
- `Wrappers`: `Option` and `Result`.

## Model

| member | source | states |
|---|---|---|
| IslandSpec.LulcOf | dev/src/main.cc:46-58 | An integer names an enumerator exactly when it is 0..10, and that enumerator has that integer as its value. |
| IslandSpec.LulcValueRoundTrip | dev/src/main.cc:46-58 | The enum numbering is one-to-one: each enumerator's value gives that enumerator back. |
| Grid.Nbr | dev/src/main.cc:146-150 | Each direction vector gives one of the four neighbour indices: north, east, south or west. |
| Grid.NbrDirections | dev/src/main.cc:146-150 | Together the four direction vectors reach exactly the north, east, south and west neighbour indices. |
| Grid.CellIndex | dev/src/main.cc:143-144 | Index `y*w + x` lies on the board, and it is interior exactly when 1 <= x <= w-2 and 1 <= y <= h-2, the ranges the passes loop over. |
| Island.Land15.constructor | dev/src/main.cc:40-44 | The board has `w*h` squares, all Water, so its border is Water. |
| Island.LandAround | dev/src/main.cc:146-152 | The neighbour loop with its early exit decides whether all four neighbours are land. |
| Island.AnyAround | dev/src/main.cc:166-174 | The neighbour loop with its early exit decides whether some neighbour is in the eroded mask. |
| Island.CountAround | dev/src/main.cc:228-240 | The counts are the numbers of Trees and Rock neighbours, and together they are at most 4. |
| Island.BuildMask | dev/src/main.cc:85-139 | The mask starts all false, and only interior squares receive the land test. The result is `LandMask(raw)`, whose border is false. |
| Island.MaskRow | dev/src/main.cc:109-138 | One row of the generation loop writes the land test at interior squares and skips border squares. |
| Island.Erode | dev/src/main.cc:142-157 | The fresh temporary mask is true exactly at interior squares that are land together with all four neighbours. |
| Island.ErodeRow | dev/src/main.cc:144-156 | One row of the erosion extends the pass invariant over that row. |
| Island.Dilate | dev/src/main.cc:159-179 | Each interior square becomes land exactly when it or a neighbour is in the eroded mask. Border squares keep their value. |
| Island.DilateRow | dev/src/main.cc:160-178 | One row of the dilation extends the pass invariant over that row. |
| IslandSpec.OpenedShrinks | dev/src/main.cc:141-179 | The opening never adds land. It keeps every border square, and a mask with a false border keeps it false. |
| IslandSpec.OpenedCellShrinks | dev/src/main.cc:141-179 | Per square: land after the opening was land before. |
| IslandSpec.OpenedKeepsCore | dev/src/main.cc:141-179 | A land square whose four neighbours are land survives, and so do those neighbours. |
| IslandSpec.OpenedRemovesSpeck | dev/src/main.cc:141-179 | A land square with no land neighbour is removed. |
| IslandSpec.OpenIdempotent | dev/src/main.cc:141-179 | Opening an opened mask changes nothing. |
| Island.Land15.ClassifyBeach | dev/src/main.cc:181-200 | Interior land squares become Grass, or Sand when a neighbour is not land. Every other square keeps its state, and the border stays Water. |
| Island.Land15.BeachRow | dev/src/main.cc:184-199 | One row of the classification extends the pass invariant over that row. |
| IslandSpec.BeachRing | dev/src/main.cc:183-200 | From the all-Water board, with a false-border mask: Water is exactly the non-land squares, and only Water, Sand and Grass occur. No Grass square has a Water neighbour. Sand marks the land squares that have a non-land neighbour. |
| IslandSpec.SeedCell | dev/src/main.cc:206-212 | Seeding one square keeps Water exactly, and a square that changes becomes Rock or Trees. A first draw below `rock_prob` gives Rock. Trees come exactly from a non-Water, non-Sand square whose first draw is not below `rock_prob` and whose second draw is below `tree_prob` (or from a square that was already Trees). Rock comes only from a first draw below `rock_prob` (or from a square that was already Rock); with a first draw not below it, the square keeps its state unless it becomes Trees. |
| IslandSpec.SeedDraws | dev/src/main.cc:206-209 | A square takes at most two draws, and none exactly when it is Water. A non-Water square takes the second draw exactly when its first draw is not below `rock_prob`. |
| IslandSpec.SeedCursor | dev/src/main.cc:203-214 | The seeding pass takes at most two draws per square before index `n`. |
| IslandSpec.SeedCursorSkip | dev/src/main.cc:203-204 | Border squares take no draw. |
| IslandSpec.SeededAt | dev/src/main.cc:205-213 | At an interior square, the seeded state is `SeedCell` of the draws at the current stream position, which then advances by `SeedDraws`. |
| IslandSpec.SeededCells | dev/src/main.cc:203-214 | Seeding keeps Water exactly. It changes only interior squares, and only to Rock or Trees. Sand never becomes Trees. |
| IslandSpec.SeededAllRock | dev/src/main.cc:207-208 | If every draw is below `rock_prob`, every interior non-Water square becomes Rock. |
| Island.Land15.SeedRocksAndTrees | dev/src/main.cc:202-214 | The board becomes the seeded board and keeps its Water border. The returned position counts exactly the draws taken. |
| Island.Land15.SeedRow | dev/src/main.cc:204-213 | One row of seeding extends the pass invariant and the stream position over that row. |
| Island.Land15.SeedStep | dev/src/main.cc:205-213 | Seeding one interior square extends the pass invariant and the stream position past it. |
| Island.Land15.SeedSquare | dev/src/main.cc:205-213 | The square becomes `SeedCell` of the draws at the position, and the position advances by `SeedDraws`. No other square changes. |
| Island.SeedPassStart | dev/src/main.cc:203-204 | Before the first interior square, nothing is written and no draw is taken. |
| Island.SeedRowEnd | dev/src/main.cc:203-204 | The two border squares between rows write nothing and take no draw. |
| Island.SeedPassEnd | dev/src/main.cc:203-214 | After the last interior row, the board equals the seeded board and takes no further draw. |
| IslandSpec.NbrCount | dev/src/main.cc:230-240 | A count over the first `d` neighbours is at most `d`. |
| IslandSpec.NbrCountsDisjoint | dev/src/main.cc:235-239 | A neighbour is counted as Trees or as Rock, never both, so the counts sum to at most 4. |
| IslandSpec.NbrCountZero | dev/src/main.cc:230-240 | A count is zero exactly when no neighbour has that state. |
| IslandSpec.GrowCell | dev/src/main.cc:224-253 | One square of a cycle keeps Water exactly, and otherwise stays, becomes Trees or becomes Rock. Trees need a Trees majority and a square that is not Sand. Rock needs no Trees majority. A change needs the draw below count/4 for the adopted state. Conversely, a non-Water, non-Sand square facing a Trees majority with the draw below trees/4 becomes Trees, and a non-Water square facing no Trees majority with the draw below rocks/4 becomes Rock. |
| IslandSpec.GrowDraws | dev/src/main.cc:226-252 | A square takes exactly one draw when it is not Water and is not Sand facing a Trees majority, and none otherwise. |
| IslandSpec.GrowCursor | dev/src/main.cc:222-255 | A cycle takes at most one draw per square before index `n`. |
| IslandSpec.GrowCursorSkip | dev/src/main.cc:222-223 | Border squares take no draw in a cycle. |
| IslandSpec.GrowCycleAt | dev/src/main.cc:224-253 | At an interior square, the new state is `GrowCell` of the draw at the current position, which then advances by `GrowDraws`. |
| IslandSpec.GrowCycleCells | dev/src/main.cc:222-255 | A cycle keeps Water exactly. It changes only interior squares, and only to Trees or Rock. Sand never becomes Trees within one cycle. |
| IslandSpec.GrowCycleQuietCell | dev/src/main.cc:251-252 | With non-negative draws, a square with no Trees or Rock neighbour keeps its state, because its adoption probability is 0. |
| IslandSpec.Grown | dev/src/main.cc:221-257 | Every generation has as many squares as the seeded board. |
| IslandSpec.Cycles | dev/src/main.cc:221 | The loop `i < island_grow_cycles` runs the least natural number of times not below the float bound. |
| IslandSpec.GrownCells | dev/src/main.cc:221-257 | After any number of cycles, Water is exactly where it was and the border is unchanged. A square that differs from the seeded board is Trees or Rock. |
| IslandSpec.ZeroCyclesErasesIsland | dev/src/main.cc:217-258 | With no growth cycle, the final copy replaces every square with Water, so a board with land is lost. |
| IslandSpec.OneCycleIsDiscarded | dev/src/main.cc:256-258 | With one cycle, the final copy gives back the seeded board unchanged, although that cycle's draws were taken. |
| IslandSpec.IntendedGrowthKeepsIsland | dev/src/main.cc:216-258 | Keeping the last generation computed preserves land and Water for every cycle count, zero included. |
| IslandSpec.SeededIslandShape | dev/src/main.cc:141-214 | After opening, classification and seeding, the board has the island shape: Water is exactly the complement of the opened mask, and the border is Water. Only Water, Sand, Grass, Rock and Trees occur, and no Grass square touches Water. |
| IslandSpec.ShapeKept | dev/src/main.cc:216-257 | A board that keeps Water and the border, and changes squares only to Trees or Rock, keeps the island shape. |
| IslandSpec.GrowthKeepsShape | dev/src/main.cc:216-257 | Any number of growth cycles keeps the island shape. |
| IslandSpec.InitStateCover | dev/src/main.cc:141-258 | From the constructor's board, with at least one cycle, the board `InitState` leaves has the island shape over the opened mask. |
| Island.Land15.InitState | dev/src/main.cc:84-258 | The board and the stream position are exactly `InitStateResult`: the mask built, opened, classified, seeded and grown, with the final copy as written. The Water border is kept. |
| Island.Land15.GrowRocksAndTrees | dev/src/main.cc:216-258 | With an all-Water temporary buffer, the board ends as the buffer the final `board = cur_board` reads, given by `AfterGrowth`. The position is the one after the last cycle. |
| Island.GrowCycles | dev/src/main.cc:219-257 | The cycle loop, with the two buffers trading roles each cycle, ends with the `cur_board` buffer holding `AfterGrowth`. |
| Island.GrowNext | dev/src/main.cc:222-256 | One cycle writes generation `i+1` into the buffer that held generation `i-1`, or the all-Water buffer when `i` is 0. |
| Island.GrowCycleInto | dev/src/main.cc:222-255 | One cycle makes the current buffer the next generation of the previous one, and returns the position after its draws. |
| Island.GrowRow | dev/src/main.cc:223-254 | One row of a cycle extends the pass invariant and the stream position over that row. |
| Island.GrowSquare | dev/src/main.cc:224-253 | The square becomes `GrowCell` of the draw at the position, and the position advances by `GrowDraws`. No other square changes. |
| Island.GrownBorder | dev/src/main.cc:217-223 | Every generation keeps the Water border. |
| Island.AfterGrowthBorder | dev/src/main.cc:258 | The buffer copied back keeps the Water border. |
| Island.GrowPassStart | dev/src/main.cc:222-223 | Before the first interior square, a cycle writes nothing and takes no draw. |
| Island.GrowPassEnd | dev/src/main.cc:222-255 | After the last interior row, the current buffer is the whole next generation, because both buffers have a Water border. |
| Random.Next | dev/src/common/random.cc:20-22 | A step moves the old `state[1]` into `state[0]`. |
| Random.UnmixMix | dev/src/common/random.cc:24-26 | The three xor-shift statements can be undone from the new word and the old `state[1]`. |
| Random.MixUnmix | dev/src/common/random.cc:24-26 | Every word arises from the three statements. |
| Random.StepBijective | dev/src/common/random.cc:19-31 | A step can be undone and redone: it is a bijection on states. |
| Random.NextInjective | dev/src/common/random.cc:19-28 | Distinct states step to distinct states. |
| Random.IterateInjective | dev/src/common/random.cc:33-37 | Distinct states stay distinct after any number of steps. |
| Random.ZeroStuck | dev/src/common/random.cc:19-31 | The all-zero state never leaves itself and outputs 0 forever. |
| Random.SeededDistinct | dev/src/common/random.cc:33-37 | Distinct seeds leave distinct states, and no seed leaves the stuck all-zero state. |
| Random.XorShiftP.Step | dev/src/common/random.cc:19-31 | The state becomes `Next` of the old state. The result is the new `state[1]` plus the old `state[1]`, modulo 2^64. |
| Random.XorShiftP.Seed | dev/src/common/random.cc:33-37 | Afterwards the state is `(s, 0x5ea34222ef71888b)` advanced 16 times. It depends on `s` alone. |
| Random.XorShiftP.constructor | dev/src/common/random.cc:14-16 | A new generator is in the state seeded by its thread hash. |
| Random.Rnd | dev/src/common/random.cc:43 | `rnd()` takes exactly one step and returns its output. |
| Random.Rndd | dev/src/common/random.cc:45-47 | `rndd()` takes exactly one step and returns its output over UINT64_MAX. |
| Random.RnddRange | dev/src/common/random.cc:49-51 | `rndd(start, end)` takes exactly one step and maps that unit draw affinely onto `[start, end]`. |
| Random.Srnd | dev/src/common/random.cc:53 | `srnd(s)` leaves the state seeded by `s`, whatever the state before. |
| Random.UnitOf | dev/src/common/random.cc:45-47 | A unit draw lies in [0, 1], and equals 1 exactly when `rnd()` returned UINT64_MAX. |
| Random.Scaled | dev/src/common/random.cc:49-51 | A unit draw in [0, 1] maps into `[start, end]`, and 1 maps to `end`. |
| Random.RnddReachesOne | dev/src/common/random.cc:45-51 | From a concrete state the next `rnd()` is UINT64_MAX, so `rndd()` returns 1 and `rndd(start, end)` returns `end`. |
| Random.UnitBelowOne | dev/src/common/random.cc:45-47 | A unit draw made from the top 53 bits lies in [0, 1). |
| Random.ScaledBelowEnd | dev/src/common/random.cc:49-51 | With such a draw, `rndd(start, end)` lies in `[start, end)` for every word, over reals. |
| GfxSpec.GlyphCell | dev/src/gfx/gfx.cc:366-368 | The atlas cell is glyph-aligned and inside the 32-column atlas. It determines the character (`(y/8)*32 + x/8 == c`). Negative (high-byte) characters select rows above the atlas. |
| GfxSpec.Row | dev/src/gfx/gfx.cc:366-373 | Drawing `text[lo..hi]` gives one glyph per character, in order, at that character's cell on row `y`. The first glyph is at `x`, and each later one 8 pixels right of the one before. |
| GfxSpec.Place | dev/src/gfx/gfx.cc:413-424 | Code 0 puts the extent at the start of the span and code 2 at its end. Code 1 leaves equal margins on both sides. |
| GfxSpec.LineOrigin | dev/src/gfx/gfx.cc:334-361 | The anchoring fails exactly on an unknown alignment code, reporting the horizontal one first. Left/top keep `p`, and right/bottom end the `n*8`-by-8 box at `p`. Centre puts `p` at the middle. |
| GfxSpec.TextLineLayout | dev/src/gfx/gfx.cc:334-373 | With valid codes, a text line draws every character once, in order, at its own cell. The glyphs sit on one row 8 pixels apart, starting at `p.x` when left-aligned and ending at `p.x` when right-aligned. |
| Gfx.TextLine | dev/src/gfx/gfx.cc:325-373 | The method's alignment switches and glyph loop produce exactly `TextLineGlyphs`. |
| GfxSpec.SwapQuirk | dev/src/gfx/gfx.cc:296-297 | The corner swap as written orders the y coordinates. It agrees with `Normalize` whenever the x coordinates are already ordered. |
| GfxSpec.Normalize | dev/src/gfx/gfx.cc:296-297 | The corners of the same rectangle, top-left first: each axis keeps its two coordinates and orders them. |
| GfxSpec.SdlBlendMode | dev/src/gfx/gfx.cc:255-268 | The four blend codes give four SDL constants, and any other code fails. |
| GfxSpec.BlendModeRoundTrip | dev/src/gfx/gfx.cc:255-268 | The table is one-to-one: a constant gives its code back, and a code gives its constant back. |
| GfxSpec.PutAsWritten | dev/src/gfx/gfx.cc:270-304 | A blit fails exactly on a bad blend code, and its destination is placed at `p`. A -1 corner coordinate selects the whole source and the source's dimensions; otherwise the destination takes the source rectangle's size. With the x coordinates ordered, the blit is the intended one. |
| GfxSpec.PutIntended | dev/src/gfx/gfx.cc:289-304 | The source rectangle is the smallest inclusive rectangle holding both corners, at least 1 by 1. |
| GfxSpec.PutSwapsWrongCorner | dev/src/gfx/gfx.cc:296 | For corners (5,0) and (2,9), the code as written blits a rectangle of width -6 that misses `b.y`. The intended rectangle is (2,0) 4 by 10. |
| Gfx.Put | dev/src/gfx/gfx.cc:270-304 | The method's blend lookup, corner test and swaps produce exactly `PutAsWritten`. |
| GfxSpec.LinesHeight | dev/src/gfx/gfx.cc:408-409 | The largest multiple of 8 not above the box height. |
| GfxSpec.ScanEnd | dev/src/gfx/gfx.cc:433-436 | The scan for a line stops between `cursor` and the end of the text. |
| GfxSpec.ScanEndWindow | dev/src/gfx/gfx.cc:433-436 | Every offset scanned fits the box. The scan stops at the end of the text or at the first offset wider than the box. |
| GfxSpec.LastSpace | dev/src/gfx/gfx.cc:437 | The remembered line end is `cursor` or a space inside the window after `cursor`. |
| GfxSpec.LastSpaceIsLast | dev/src/gfx/gfx.cc:437 | No space follows the remembered one within the window. |
| GfxSpec.BreakAsWritten | dev/src/gfx/gfx.cc:430-442 | A successful break ends the line after `cursor`, skips nothing or one character, and stays within the text. |
| GfxSpec.BreakAsWrittenFails | dev/src/gfx/gfx.cc:439-441 | The break reads past the end of the text exactly when the rest of the text fits the window and holds no space after `cursor`. |
| Gfx.BreakLine | dev/src/gfx/gfx.cc:430-442 | The scan loop and break decision produce exactly `BreakAsWritten`. |
| GfxSpec.LinesAsWritten | dev/src/gfx/gfx.cc:428-471 | The lines from `cursor` on draw at most one glyph per remaining character. |
| GfxSpec.LinesFail | dev/src/gfx/gfx.cc:429-442 | A break that reads past the end aborts the whole paragraph. |
| GfxSpec.LinesStep | dev/src/gfx/gfx.cc:429-470 | The paragraph from `cursor` is this line's glyphs followed by the lines from `term + skip`, one glyph row lower. |
| GfxSpec.LinesAdvance | dev/src/gfx/gfx.cc:459-470 | Drawing a line moves its glyphs from the lines still to come to those already drawn. |
| GfxSpec.ParagraphAsWritten | dev/src/gfx/gfx.cc:400-471 | A paragraph draws at most one glyph per character. |
| GfxSpec.ParagraphEarlyExits | dev/src/gfx/gfx.cc:400-424 | A box narrower or shorter than one glyph draws nothing, whatever the codes. A box of at least one glyph with an unknown vertical code fails with `InvalidVAlign`. |
| GfxSpec.ParagraphLines | dev/src/gfx/gfx.cc:402-428 | With a box of at least one glyph and a valid vertical code, the paragraph is the line loop from the placed first row. |
| Gfx.TextParagraph | dev/src/gfx/gfx.cc:391-471 | The method's corner swaps, size test, vertical switch and line loop produce exactly `ParagraphAsWritten`. |
| Gfx.DrawLines | dev/src/gfx/gfx.cc:428-471 | The line loop draws exactly `LinesAsWritten` from cursor 0. |
| Gfx.DrawLine | dev/src/gfx/gfx.cc:429-469 | One pass of the loop fails exactly when the break does. Otherwise it returns the line's glyphs, placed by `v`, and the next cursor `term + skip`. |
| Gfx.DrawRow | dev/src/gfx/gfx.cc:459-467 | The glyph loop draws exactly `Row` of the line. |
| GfxSpec.BreakIntended | dev/src/gfx/gfx.cc:430-442 | The intended break always makes progress, never exceeds the box width, and takes the whole rest when it fits. It skips only a space. A hard break comes only at the box width. |
| GfxSpec.BreakIntendedMaximal | dev/src/gfx/gfx.cc:430-442 | A space break is at the last space that fits. A hard break happens only when no space follows `cursor` within the box. |
| GfxSpec.SpansIntended | dev/src/gfx/gfx.cc:428-471 | Every intended line lies within the text and fits the box. |
| GfxSpec.SpansTile | dev/src/gfx/gfx.cc:428-470 | The intended lines tile the text: they are non-empty and consecutive, with at most one skipped space between them. The first starts at `cursor` and the last reaches the end, and there are none only for empty text. |
| GfxSpec.GlyphsInsideBox | dev/src/gfx/gfx.cc:444-467 | Every glyph of lines that fit, placed by a valid code, lies between the box's left and right edges. |
| GfxSpec.ParagraphIntendedInsideBox | dev/src/gfx/gfx.cc:400-471 | With valid codes the intended paragraph never fails, and every glyph lies horizontally inside the normalised box. |
| GfxSpec.ParagraphReadsPastEnd | dev/src/gfx/gfx.cc:439-441 | For "hi" in a 16-pixel box, the code reads `text[2]`. The intended break takes the whole text. |
| GfxSpec.FittingTextSplit | dev/src/gfx/gfx.cc:433-442 | "ab cd" fits a 100-pixel box, yet the code breaks it after "ab". The intended break keeps it on one line. |
| GfxSpec.UnbreakableRunOverflows | dev/src/gfx/gfx.cc:433-442 | For "abc" in an 8-pixel box, the code's first line is two glyphs, 16 pixels wide. The intended line is one glyph. |
| GfxSpec.ParagraphPlacedByVAlign | dev/src/gfx/gfx.cc:444-457 | Left- and bottom-aligned "ab " in a 100-pixel box is drawn right-aligned at x = 84. The intended paragraph starts it at x = 0. |

## Left out

- Land-mask synthesis (dev/src/main.cc:87-132) is left out: the river, the harmonics, `cosf`/`sinf`/`powf` and `glm::length` are floating-point. Its result per square is the input `raw` of `Island.Land15.InitState`. The draws it takes are the starting stream position `k0`.
- `InitFields` (dev/src/main.cc:267-316) and the height relaxation are left out: the body does not compile, and the relaxation is only a commented sketch. The other `Square` fields are not modelled; only `state` is.
- Island.Land15.constructor: it only allocates the all-Water board. The source constructor goes on to call `InitializeBoard` (main.cc:318-328), which runs `InitState` and `InitFields`; here `InitState` is a separate call.
- The island passes draw from an oracle `draw: nat -> real`, not from `XorShiftP`. The model does not state that `draw(k)` is `rndd()` after `k` steps. Comparisons against `island_rock_prob`, `island_tree_prob` and `count / 4.0f` are on reals, without float rounding.
- `std::swap` of the two vectors (main.cc:256) is modelled as the two array references trading roles. The final `board = cur_board` is modelled as an element-wise copy. Both leave the same contents as the source.
- The thread-local generator (random.cc:39) and its seeding by a hash of the thread id are left out. The hash is the constructor's parameter.
- Random.UnitOf: `rndd()` is modelled as the exact quotient. The rounding of `static_cast<double>` and of the division is left out. In doubles, more words than UINT64_MAX round to 1.0.
- Random.Scaled: `rndd(start, end)` is modelled as the exact affine map over reals. The rounding of the double multiply-add at random.cc:50 is left out.
- Random.ScaledBelowEnd: the bound below `end` holds over reals only. In doubles the multiply-add can round up to `end`, for example for the draw (2^53-1)/2^53 with start 1 and end 1+2^-52.
- Screen coordinates are reals without float rounding. This includes the centre-alignment halves of `InternalTextParagraph` and the `dst_rect` advances. In `InternalTextLine` the centre shifts are whole numbers, because the box is a multiple of 8 wide.
- SDL calls are left out: render targets, colour and alpha mods, `SDL_RenderTexture` and their error `CHECK`s. A call returns the glyph copies or blit plan it would submit.
- The public `TextLine`/`TextParagraph`/`Put` wrappers and `CheckInit` are left out.
- Integer widths are unbounded. The model does not cover overflow of `w*h`, of `text.size()*8` or of the box arithmetic.
- GfxSpec.GlyphCell: `char` is modelled as signed. C++ leaves its sign to the platform; where `char` is unsigned (Linux on arm64, for example), bytes above 0x7f give atlas rows 4 to 7 from `c >> 5` at gfx.cc:368 and gfx.cc:462, not rows -4 to -1.
- An enum variable holding an unlisted value is modelled by passing alignment and blend codes as `int`. A `CHECK(false)` becomes a `Fault`.

## Findings

| source | as written | input that shows it | evidently intended | confidence | as-written member | corrected member |
|---|---|---|---|---|---|---|
| dev/src/gfx/gfx.cc:296 | `std::swap(src_a.x, src_b.y)` exchanges an x with a y (the paragraph box at gfx.cc:400 repeats it) | corners (5,0) and (2,9): source rectangle at (9,0) with width -6 | swap `src_a.x` with `src_b.x`, giving (2,0) 4 by 10 | not executed; high | GfxSpec.PutSwapsWrongCorner | GfxSpec.PutIntended |
| dev/src/gfx/gfx.cc:444 | horizontal line placement switches on `v_align` | "ab ", box (0,0)-(99,7), left, bottom: drawn at x = 84 | switch on `h_align`: drawn at x = 0 | not executed; high | GfxSpec.ParagraphPlacedByVAlign | GfxSpec.ParagraphIntendedInsideBox |
| dev/src/gfx/gfx.cc:441 | `text[line_s]` is read with `line_s == text.size()` | "hi" in a 16-pixel-wide box | the line ends at the end of the text | not executed; high | GfxSpec.ParagraphReadsPastEnd | GfxSpec.BreakIntended |
| dev/src/gfx/gfx.cc:437-442 | text that fits is still broken at its last space | "ab cd" in a 100-pixel-wide box: the first line ends after "ab" (the second line, "cd", then reaches the read past the end at gfx.cc:441) | a rest that fits is one line | not executed; medium | GfxSpec.FittingTextSplit | GfxSpec.BreakIntended |
| dev/src/gfx/gfx.cc:433-441 | the scan admits offset `box_w / 8`, so a hard break takes one glyph too many | "abc" in an 8-pixel-wide box: a 16-pixel line | a line never wider than the box | not executed; medium | GfxSpec.UnbreakableRunOverflows | GfxSpec.BreakIntended |
| dev/src/main.cc:258 | `board = cur_board` copies the buffer holding the generation before the last cycle | `island_grow_cycles` = 0: every square becomes Water; = 1: the seeded board comes back | keep the last generation computed | not executed; high | IslandSpec.ZeroCyclesErasesIsland | IslandSpec.IntendedGrowthKeepsIsland |
| dev/src/common/random.cc:46 | `rnd() / UINT64_MAX` can equal 1, against the documented `[0, 1)` of random.h:13 | generator state (0x07e07ff03fffe000, 0): next `rnd()` is UINT64_MAX | a draw strictly below 1, e.g. the top 53 bits over 2^53, a quotient that is exact in doubles | not executed; high | Random.RnddReachesOne | Random.UnitBelowOne |
