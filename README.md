# Conway's Game of Life on the JY-MCU 3208 display — a Dafny model

The firmware runs Conway's Game of Life on a 32 x 8 LED matrix. The display
buffer `leds` holds 32 column bytes: byte `x` is column `x`, and bit `y` of it
is row `y`. Both directions wrap around, so the grid is a torus.

The main loop waits for messages. On each timer message it computes one
generation and sends the buffer to the display. The left and right keys change
the generation interval in steps of 50 within [50, 1000]. The middle key
cycles through five seed patterns and reseeds the grid with the new one.

The model has three modules.

- `Patterns` (`patterns.dfy`) holds the seed table of `life.h`.
- `Life` (`life.dfy`) is the engine. It contains:
  - the 3x3 `count` as a pure function;
  - its characterisation as the population of the toroidal block, and the
    proof that the step's rule is exactly B3/S23;
  - a still-life result;
  - `write_offset` and the timer step as methods over the `array<bv8>`
    buffer, proved against the pure `Stamp` and `Generation`.
- `MainLoop` (`mainloop.dfy`) has two layers:
  - the dispatch of `main` as a pure transformer over (grid, interval,
    pattern), which also returns the calls made to the display and to the
    timer service as a list of effects;
  - the imperative loop (`Handle`, `RunLoop`) over the buffer, proved to
    follow the pure transformer.

The rule the step implements is sometimes described as a nonstandard "3/4"
variant. The code in `life.c` counts the centre cell together with its eight
neighbours. It sets a cell when that count is 3, and keeps a live cell when the
count is 4. That is exactly B3/S23 (`Life.RuleIsB3S23`), and the model follows
the code.

A key repeat is handled exactly like a key press, through the same switch
(life.c:116-117). So a repeating middle key also advances the pattern.

## Model

| member | source | states |
|---|---|---|
| Patterns.Table | life.h:12-28 | the five seed patterns in the order the middle key cycles through them: glider, lightweight spaceship, R-pentomino, diehard and acorn, each a sequence of column bytes copied from the source arrays |
| Patterns.TableShape | life.h:12-28 | the table holds five patterns, the first is the glider `{0x8, 0x4, 0x1c}`, and the widths are 3, 5, 3, 8 and 8 |
| Patterns.TableBounds | life.h:12-20 | every pattern is one to eight columns wide, and no byte exceeds 0x1c (so none exceeds 0x3f) |
| Life.BitsDetermine | life.c:61-71 | two column bytes that agree on all eight rows are equal |
| Life.BitOfOr | life.c:107 | or-ing in `1 << j` lights row `j` and leaves every other row as it was |
| Life.MasksAreRemainders | life.c:62-71 | the source's `& 0x1f` and `& 7` on `x ± 1` and `y ± 1` give the neighbouring column and row, wrapping 0 to 31 and 31 to 0, 0 to 7 and 7 to 0 |
| Life.ColumnMasks | life.c:65-71 | the column half of `MasksAreRemainders` |
| Life.RowMasks | life.c:62-63 | the row half of `MasksAreRemainders` |
| Life.Count | life.c:59-72 | `count(x, y)` is at most 9 |
| Life.CountIsBlockPopulation | life.c:59-72 | `count(x, y)` equals the number of live cells of the whole grid that lie in the 3x3 toroidal block around `(x, y)`, the centre included |
| Life.ColumnInBlock | life.c:61-71 | one column's contribution to that population is its rows `y - 1`, `y` and `y + 1` when it is one of the block's columns, and nothing otherwise |
| Life.ColumnsInBlock | life.c:61-71 | summed over the columns, only the three columns of the block contribute |
| Life.CountIsNeighboursPlusCentre | life.c:61-71 | the count is the number of live neighbours among the eight around the cell, plus one when the cell itself is live |
| Life.NearColumn | life.c:65-71 | a column is in the block exactly when it is `x`, `x + 1` or `x - 1` modulo 32 |
| Life.NearRow | life.c:61-63 | a row is in the block exactly when it is `y`, `y + 1` or `y - 1` modulo 8 |
| Life.LitAfterSet | life.c:61 | setting one dead cell changes each count term only at that cell |
| Life.CountAfterSet | life.c:59-72 | making a dead cell live raises by one the count of exactly the blocks containing it, and leaves every other count unchanged |
| Life.CountEmpty | life.c:59-72 | the empty grid counts 0 everywhere |
| Life.CountWraps | life.c:62-71 | a live cell in column 31 is counted at column 0 and one in column 0 at column 31; likewise rows 7 and 0 |
| Life.NextCell | life.c:105-109 | the step's rule for one cell: live next when its 3x3 count is 3, or when the count is 4 and the cell is live now; pinned down by `RuleIsB3S23` |
| Life.RuleIsB3S23 | life.c:105-109 | live next exactly when born with three neighbours or surviving with two or three; a dead cell whose count is 4 stays dead |
| Life.Pack | life.c:103-110 | the packed column byte has row `y` lit exactly when `rows[y]` holds |
| Life.Generation | life.c:102-112 | the next grid has every cell decided by the step's rule from the old grid alone |
| Life.GenerationIsB3S23 | life.c:101-112 | every cell of the next generation follows B3/S23 on its eight neighbours in the old grid |
| Life.GridsEqual | life.c:112 | grids that agree cell by cell are the same buffer |
| Life.BlockCells | life.c:103-110 | the lone 2x2 block is live at exactly its four cells, wrapping at the edges |
| Life.BlockCount | life.c:59-72 | the count around any cell of that grid is the number of the block's four cells inside its 3x3 block |
| Life.NearBothColumns | life.c:65-71 | only the two columns of a pair are adjacent to both |
| Life.NearBothRows | life.c:62-63 | only the two rows of a pair are adjacent to both |
| Life.BlockCellNext | life.c:105-109 | every cell of the lone block grid keeps its state under the rule |
| Life.BlockIsStillLife | life.c:101-112 | a solid 2x2 block with dead surroundings, anywhere on the torus, is unchanged by one generation |
| Life.Shifted | life.c:78 | `bitmap[n] << offset` stored into a byte: every row `y` moves to row `y + offset`, rows pushed past row 7 are dropped, and rows 0 to `offset - 1` are left empty |
| Life.Stamp | life.c:74-79 | the buffer after `write_offset` as a value: column `line + 1 + n` holds `bitmap[n]` shifted, all other columns keep their value, and the result is again a 32-column grid; its frame and round trip are `StampFrame` |
| Life.ShiftedRoundTrip | life.c:78 | a byte that loses no rows in the shift reads back after shifting down again |
| Life.StampFrame | life.c:74-79 | stamping leaves column `line` and every column outside `line + 1 .. line + columns` unchanged, and when no byte loses rows the pattern reads back from those columns |
| Life.WriteOffset | life.c:74-79 | the backwards pointer walk leaves the buffer equal to the stamp: column `line + 1 + n` takes `bitmap[n] << offset` truncated to 8 bits, and nothing else changes |
| Life.LowMaskStep | life.c:104-110 | adding row `j` to the rows decided so far is or-ing in that row's bit or nothing |
| Life.LowMaskEnds | life.c:104 | before the inner loop no row is decided, and after it all eight are |
| Life.ColumnStep | life.c:106-109 | one pass of the inner loop's branches adds row `y` of the wanted column to the rows already decided |
| Life.DecideRow | life.c:105-109 | one inner-loop pass over `leds` produces the next column's rows up to and including `y` |
| Life.StepColumn | life.c:104-110 | the inner loop sets `next_grid[x]` to the rule's column `x` and touches no other column |
| Life.Step | life.c:101-112 | the timer branch (clear `next_grid`, fill it from `leds`, copy it back) leaves `leds` equal to the next generation of the old buffer |
| MainLoop.SeedGrid | life.c:136-137 | the seed buffer is a full 32-column grid |
| MainLoop.Reseed | life.c:135-140 | the `init` block: the grid becomes the seed of the current pattern, interval and pattern are unchanged, and the calls are "send the screen" then "restart the timer with the interval" |
| MainLoop.Start | life.c:89-97 | start-up: interval 150 and pattern 0, then the `init` block without advancing the pattern; the state satisfies the loop invariant |
| MainLoop.OnKey | life.c:118-141 | the key switch: left and right move the interval by 50 within the bounds, restarting the timer exactly when it changed; middle advances the pattern modulo 5 and runs `init`; other keys do nothing |
| MainLoop.Dispatch | life.c:100-143 | the message switch: a timer message replaces the grid with its next generation and sends it, a press and a repeat go to the key switch alike, anything else does nothing; the grid stays 32 columns and at most two calls are made |
| MainLoop.Poll | life.c:99 | one poll of the queue: an empty queue changes nothing, a message is dispatched |
| MainLoop.Run | life.c:98-145 | any run of queue polls from a good state ends in a good state |
| MainLoop.StartSeedsGlider | life.c:89-97 | start-up seeds pattern 0 (the glider) with the interval at 150, sends the screen and starts the timer with 150 |
| MainLoop.DispatchPreserves | life.c:99-143 | every message keeps the interval a multiple of 50 in [50, 1000] and the pattern index below five |
| MainLoop.PollPreserves | life.c:99 | an empty poll or a message keeps that invariant |
| MainLoop.RunFromStart | life.c:85-146 | every state reached from start-up satisfies it |
| MainLoop.LeftKey | life.c:116-124 | left, pressed or repeating, at 50 changes nothing and calls nothing; above 50 it lowers the interval by exactly 50 and restarts the timer with the new value; grid and pattern are unchanged |
| MainLoop.RightKey | life.c:126-131 | right, pressed or repeating, at 1000 changes nothing and calls nothing; below 1000 it raises the interval by exactly 50 and restarts the timer with the new value |
| MainLoop.MiddleKey | life.c:133-140 | middle, pressed or repeating, advances the pattern and wraps 4 to 0. It reseeds the grid, which then holds only the pattern, readable back from the columns after 10, with every other column clear. It then sends the screen and restarts the timer with the unchanged interval |
| MainLoop.SeedReadsBack | life.c:135-139 | seeding pattern `k` writes only columns 11 to 10 + width, at most column 18, and no row is lost in the shift by 2 |
| MainLoop.FitsBelow40 | life.c:137 | a byte below 0x40 loses no rows when shifted up by 2 |
| MainLoop.MiddleCycle | life.c:134 | five middle presses return to the same pattern, interval and seeded grid |
| MainLoop.TimerStep | life.c:101-114 | a timer message replaces the grid with its next generation, whose every cell follows B3/S23, sends it, and keeps interval and pattern |
| MainLoop.Ignored | life.c:99-143 | key releases, unknown keys, other events and an empty queue change nothing and call nothing |
| MainLoop.Clear | life.c:136 | `memset` leaves the buffer all zero |
| MainLoop.Seed | life.c:135-140 | the `init` block on the buffer gives the pure reseeded state and its two calls |
| MainLoop.HandleKey | life.c:118-141 | the key switch on the buffer and locals gives exactly the pure key reaction |
| MainLoop.Handle | life.c:100-143 | one trip through the message switch gives exactly the pure dispatch |
| MainLoop.RunLoop | life.c:85-146 | `main` over a finite run of polls ends in the state and with the calls of start-up followed by the pure run |

## Left out

- `initialise` and `set_up_timers` (life.c:21-50) only write AVR port and timer registers. The ISR (life.c:53-57) exists for interrupt-driven key and timer polling, with preemption. All of these are hardware and concurrency.
- The message queue, the decoding of a message into event and key, the software timers, `init_timers` and key debouncing are not part of this model; `mq.h`, `timers.h` and `io.h` are not part of it either. A message is an abstract `Message`, and a poll of the queue is an `Option<Message>`, where `None` means the queue was empty. Key codes are abstract: a key other than left, right and middle is `OtherKey`.
- The display driver calls (`HTpinsetup`, `HTsetup`, `HTbrightness`) are hardware I/O and are left out. `HTsendscreen` is recorded as a `SendScreen` effect carrying the buffer it would send.
- `set_timer(interval, 0, true)` is recorded as `RestartTimer(interval)`: the other two arguments are the same constants at every call.
- `main` never returns. `RunLoop` covers start-up followed by any finite sequence of polls.
- `interval` is a `uint16_t` in the source and a `nat` here: it stays within [50, 1000], so no wrap-around can occur.
- WriteOffset: requires the stamped columns to lie inside the 32-byte buffer (`line + columns < 32`). The source does not check this, and writing past the buffer is undefined behaviour in C. The only call site satisfies it (`SeedReadsBack`).
- Shifted: the model gives 0 for any offset of 8 or more. The only call passes 2 (life.c:137). On the 16-bit target a shift by 16 or more, or by 8 to 15 when it overflows `int`, is undefined in C, and the model does not capture that.
- A pattern's `columns` is taken to be the length of its bitmap. `character.h`, which defines `CHARDEF`, is not part of this model.
- The glider has no "golden" lemma showing that it moves one cell diagonally after four generations. Evaluating four concrete generations of the 256-cell grid is too heavy for the verifier here. Still life (`BlockIsStillLife`) is proved instead.
