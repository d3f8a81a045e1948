# term3d raycaster core, in Dafny

A model of the discrete core of term3d, a first-person raycaster that draws
into a raw terminal. There are three parts:

- **`game.dfy`, module `Game`**: the renderer of `src/old/game.rs`.
  - The framebuffer is a `CharBuffer` holding an `array<char>`. `DrawScene` resizes it and then overwrites it in place through the row-major `Grid` index `x + width * y`.
  - Each column runs the ray march (`MarchRay`), computes the wall band (`WallBand`), picks the fog texture (`Texture`) and runs three fill loops (`FillColumn`, `FillRows`).
  - Last, the debug mark `'a'` goes on cell (0, 0).
  - `DrawScene` is proved to leave exactly `Frame(...)` in the buffer. `Frame` is a specification function, and `FrameAt` spells out what it holds at each cell.
- **`term.dfy`, module `Terminal`**: the raw terminal session of `src/term.rs`.
  - The process-wide state is the `Console` class:
    - the `TERM_EXISTS` flag;
    - the append-only log of bytes written to standard output;
    - the bytes typed and not yet read;
    - the installed termios settings;
    - what `isatty` and the window-size ioctl report.
  - Each libc call is replaced by its return value, passed in as a parameter.
  - `New` and `Drop` are `Term::new` and `Drop for Term`. `RawSettings` is the raw-mode bit-mask update. `TerminalSize` is `terminal_size`. `GetInputBuffer` is the chunked read loop. The `Put*` methods are the output calls.
- **`frameloop.dfy`, module `FrameLoop`**: one iteration of `curse_main` in `src/old/main.rs`.
  - `HandleInput` is the per-byte key dispatch. It is proved equal to the specification `AfterInput`, and lemmas about `ApplyKeys` give quit, pause parity, net rotation and last-velocity-key-wins.
  - After the dispatch comes the paused-frame skip, then the padded header rows (`Padding`, `Screen`), then the chain of six writes joined by `?` (`PutScreen`, with `Emit` and `ChainOk`).
  - `PlayerInWall` is the `blocks[x][y]` lookup of `player_in_wall`.
  - `Iteration` puts these pieces together.
- **`common.dfy`, module `Common`**: bytes, `Result`, and ASCII literals.

Modelling choices:

- **Distances** are exact reals. The march adds the 0.02 step to a running distance. Step k has distance `k * 0.02`, so the `distance >= 6.0` exit comes after at most 300 steps.
- **Ray trajectories** come from an oracle. The cosine and sine stepping of a ray is a function `rays: nat -> Ray`. For each column it names the cell (floor x, floor y) the ray point is in at every step. In the frame loop, the oracle is a function of the player.
- **Angles** are whole ticks of PI/90. `h` or `j` adds one tick and `l` or `k` subtracts one.
- **Velocity** is `Stopped` or `Moving(heading)`, and the speed factor 0.4 is implicit:
  - `w` and `s` both move along the heading, as the source does;
  - `d` moves a quarter turn (45 ticks) clockwise of the heading, and `a` a quarter turn anticlockwise;
  - space stops.
- **`write` results**: a return value of -1 is the only error. Any other value hands a prefix of the bytes to the terminal, and a short write counts as success, as `stdout_write` does. `Written` and `WriteStatus` state this.
- **Termios** has the Linux layout and flag values: 32 control characters, `VTIME` = 5, `VMIN` = 6.

The read loop of `get_input_buffer` stops at its first short read (`if size < 8 { break }`, src/term.rs:142). That test only makes sense if the loop is meant to read 8-byte chunks until the pending input runs out. As written, it returns at most 8 bytes per call (see Findings). `GetInputBufferAsWritten` models the loop as written. `GetInputBuffer` is the corrected loop, and the frame loop uses it.

## Model

| member | source | states |
|---|---|---|
| Game.GridIndex | src/old/game.rs:41-52 | the row-major index `x + width * y` of `Grid::index` and `index_mut`; GridIndexInBounds, GridIndexInjective and GridIndexOnto state that it maps the cells of a width x height grid one-to-one onto 0 .. width * height - 1 |
| Game.GridIndexInBounds | src/old/game.rs:41-43 | for x < width and y < height the row-major index is below width * height |
| Game.GridIndexInjective | src/old/game.rs:50-52 | distinct cells of the grid have distinct indices |
| Game.GridIndexOnto | src/old/game.rs:41-43 | every index below width * height is the index of cell (i % width, i / width), with that cell inside the grid |
| Game.MarchRay | src/old/game.rs:75-93 | the march loop returns the ray distance of its column, which lies in [0, 6] |
| Game.RayHitsWall | src/old/game.rs:82-85 | a ray whose first non-open cell is a wall at step k reports k * 0.02 |
| Game.RayLeavesField | src/old/game.rs:78-81 | a ray that leaves the field before meeting a wall reports TOO_FAR_WALL = 6 |
| Game.RayRunsOut | src/old/game.rs:87-92 | a ray that stays in open cells until the running distance reaches 6 reports 6 |
| Game.WallBand | src/old/game.rs:97-99 | for distance >= 0, top <= bottom <= height, and the band straddles the middle row |
| Game.WallBandAtZero | src/old/game.rs:97-99 | a wall at distance 0 fills the whole column |
| Game.WallBandShrinks | src/old/game.rs:97-99 | a farther wall's band lies inside a nearer wall's band |
| Game.Texture | src/old/game.rs:100-106 | the near glyph exactly when distance <= 2, the middle glyph exactly when 2 < distance <= 4, the far glyph exactly when distance > 4 |
| Game.MissedWallLook | src/old/game.rs:97-106 | a ray that sees no wall is drawn with the far glyph and a band of height / 7 rows |
| Game.FrameAt | src/old/game.rs:108-124 | cell (x, y) of the view is ceiling above the band, texture inside it, ground below it, and the mark at (0, 0) |
| Game.Resized | src/old/game.rs:56 | Vec::resize: length n, the old prefix kept, the rest filled |
| Game.CharBuffer.constructor | src/old/main.rs:47-48 | a fresh buffer of n copies of the fill character |
| Game.CharBuffer.Resize | src/old/game.rs:56 | the buffer's contents become the resized old contents |
| Game.FillRows | src/old/game.rs:109-119 | one fill loop writes its rows of column x with the band's glyph and touches nothing else |
| Game.FillColumn | src/old/game.rs:108-119 | every row of column x gets its ceiling, texture or ground glyph; no other column changes |
| Game.DrawScene | src/old/game.rs:55-125 | the buffer has length width * height and holds exactly the rendered frame, mark included |
| Terminal.RawSettings | src/term.rs:105-111 | the raw-mode update of the copied settings; RawSettingsSpec states which bits and control characters it changes and RawSettingsIdempotent that it is idempotent |
| Terminal.RawSettingsSpec | src/term.rs:105-111 | raw mode clears IXON, ICRNL, ISTRIP, OPOST, ECHO, ICANON, ISIG, IEXTEN, zeroes VTIME and VMIN, and keeps every other bit and field |
| Terminal.RawSettingsIdempotent | src/term.rs:105-111 | applying raw mode to raw settings changes nothing |
| Terminal.WriteStatus | src/term.rs:18-29 | stdout_write fails exactly when write returns -1 |
| Terminal.Written | src/term.rs:20 | a write hands over a prefix of its bytes: none on error, all on a full write, ret bytes on a short one |
| Terminal.TerminalSize | src/term.rs:31-54 | success exactly when stdout is a tty, the ioctl succeeds and both dimensions are non-zero; then (cols, rows) in that order; each failure gives its own error |
| Terminal.ReadAll | src/term.rs:124-148 | the intended read loop: on success it returns every pending byte in order and leaves none; on failure the unread bytes are a suffix |
| Terminal.ReadAllSucceedsIff | src/term.rs:130-139 | the read loop succeeds exactly when none of its n / 8 + 1 reads returns -1 |
| Terminal.ReadAsWrittenStopsAtOneChunk | src/term.rs:140-144 | as written, more than 8 pending bytes give exactly the first 8, unlike the intended loop |
| Terminal.NineBytesWaiting | src/term.rs:140-144 | as written, 9 pending bytes return bytes 1 to 8 and leave byte 9 unread |
| Terminal.Console.constructor | src/term.rs:56 | no session exists, nothing has been written yet |
| Terminal.Console.Write | src/term.rs:18-29 | the terminal receives the written prefix; the status follows the -1 rule |
| Terminal.Console.CursorReset | src/term.rs:150-153 | writes ESC [ H |
| Terminal.Console.PutBuffer | src/term.rs:155-158 | writes ESC [ H, then s unless the first write failed |
| Terminal.Console.PutUtf8Buffer | src/term.rs:160-163 | put_buffer of the encoded characters |
| Terminal.Console.PutPartialBuffer | src/term.rs:165-167 | writes s only |
| Terminal.Console.PutPartialUtf8Buffer | src/term.rs:169-172 | put_partial_buffer of the encoded characters |
| Terminal.Console.New | src/term.rs:80-122 | fails with AlreadyExists and writes nothing if a session exists; otherwise emits the enter sequence first; each later failure returns its own error; the flag stays set in every case; settings are replaced by RawSettings only once tcsetattr succeeds; on success the saved settings are the unmodified tcgetattr result and the size is terminal_size's |
| Terminal.Console.Drop | src/term.rs:64-77 | emits the leave sequence, then restores the saved settings and clears the flag; a failing write or tcsetattr panics first; clearing an already clear flag panics with the double-restore error |
| Terminal.Console.GetInputBuffer | src/term.rs:124-148 | the intended loop: its result and the bytes left unread are those of ReadAll; on success every pending byte is returned |
| Terminal.Console.GetInputBufferAsWritten | src/term.rs:124-148 | the loop as written: its result and the bytes left unread are those of ReadAsWritten |
| Terminal.ExclusiveSession | src/term.rs:79-87 | open, a refused second open, close, reopen and close: the original settings are back and exactly two enter/leave pairs were written |
| FrameLoop.KeyVelocity | src/old/main.rs:62-85 | w and s move along the heading, d a quarter turn clockwise, a a quarter turn anticlockwise; only space stops |
| FrameLoop.HandleInput | src/old/main.rs:53-89 | the dispatch loop ends in AfterInput: the keys applied in order, then the batch recorded as last input when non-empty |
| FrameLoop.ApplyKeysAppend | src/old/main.rs:53-86 | applying a batch in two parts has the effect of applying it whole |
| FrameLoop.QuitIff | src/old/main.rs:53-55 | the loop goes on exactly when it was going on and the batch holds no q |
| FrameLoop.PauseParity | src/old/main.rs:56-57 | the pause flag flips exactly when the batch holds an odd number of p |
| FrameLoop.NetRotation | src/old/main.rs:58-61 | the heading changes by (#h + #j) - (#l + #k) ticks |
| FrameLoop.KeysKeepPosition | src/old/main.rs:53-86 | keys never move the player, nor touch the last input or the frame counter |
| FrameLoop.NoVelocityKeyKeepsVelocity | src/old/main.rs:62-85 | a batch without velocity keys leaves the velocity as it was |
| FrameLoop.LastVelocityKeyWins | src/old/main.rs:62-85 | the last velocity key of a batch sets the velocity, along the heading the player had when that key came |
| FrameLoop.UnrecognisedByteIgnored | src/old/main.rs:53-86 | a byte that is not a key changes nothing, wherever it comes in the batch |
| FrameLoop.BackMovesForward | src/old/main.rs:62-71 | s does exactly what w does |
| FrameLoop.Padding | src/old/main.rs:134-135 | header plus padding is exactly the terminal width, and the padding is all spaces |
| FrameLoop.Screen | src/old/main.rs:133-147 | a frame writes six pieces, starting with cursor home and ending with the encoded view |
| FrameLoop.ScreenCoversTerminal | src/old/main.rs:24 | the two padded header rows and the view of height - 2 rows fill exactly width * height cells |
| FrameLoop.ChainOkIff | src/old/main.rs:136-147 | a chain of writes succeeds exactly when no write returns -1 |
| FrameLoop.EmitIsPrefix | src/old/main.rs:136-147 | with no short write, the terminal has received a prefix of the intended bytes however the chain ends |
| FrameLoop.EmitComplete | src/old/main.rs:136-147 | when every write is complete, the terminal receives all the bytes of the frame |
| FrameLoop.PutHead | src/old/main.rs:136 | put_buffer of the first header: cursor home and header, as the first two links of the chain |
| FrameLoop.PutPiece | src/old/main.rs:137 | one put_partial_buffer link of the chain |
| FrameLoop.PutView | src/old/main.rs:147 | the put_partial_utf8_buffer link of the chain |
| FrameLoop.PutScreen | src/old/main.rs:133-147 | the terminal receives Emit of the six pieces; the frame's output succeeds exactly when no write returns -1 |
| FrameLoop.PlayerCell | src/old/main.rs:156 | the player's cell is (floor x, floor y), with negative coordinates saturating to 0 as `as usize` does |
| FrameLoop.PlayerInWall | src/old/main.rs:155-157 | the `blocks[floor x][floor y] == '#'` test of player_in_wall, indexing the cell PlayerCell gives; InWallIffZeroDistance relates it to the ray distance |
| FrameLoop.InWallIffZeroDistance | src/old/main.rs:155-157 | for a player inside the field, player_in_wall holds exactly when a ray from the player's cell has distance 0 |
| FrameLoop.RenderedInWallIffZeroDistance | src/old/game.rs:67-68 | for rays that start in the player's cell, as every ray the frame loop casts does, a player inside the field sees distance 0 in a column exactly when it stands in a wall |
| FrameLoop.InitialFieldSound | src/old/main.rs:32-46 | the starting field is a 5 x 5 rectangle and the player starts in open cell (1, 1) |
| FrameLoop.NewViewBuffer | src/old/main.rs:47-48 | the loop's framebuffer starts as width * (height - 2) marks |
| FrameLoop.Iteration | src/old/main.rs:50-150 | for rays that start at the player and a physics step that keeps the angle: a failed read ends the loop with ReadFailed, drops from the pending input the chunks read before the failing read, and leaves the output and the buffer unchanged; a paused state skips physics, rendering, output and the frame counter; otherwise the buffer holds the frame for the moved player, the terminal receives the frame's writes, success means no write returned -1, and the frame counter goes up by one |

## Left out

- Floating-point numerics are left out. This covers the cosine and sine ray stepping, the per-column angle sweep (src/old/game.rs:62-71, 121) and the fps computation. The ray oracle stands in for the stepping, and the header text is a parameter.
- The physics step is a parameter `physics: Player -> Player` of `Iteration`. This covers velocity integration, the collision re-application and the friction decay (src/old/main.rs:95-124). It is floating-point work over wall-clock time.
- The Ctrl-C handler and the shared `AtomicBool` (src/old/main.rs:11-15) are left out. They exist only for asynchronous signalling, so `should_go` is a plain boolean field.
- The unbounded `while should_go` loop itself is left out, and so is the `Instant` timing. `Iteration` models one pass of the loop body, entered with `should_go` set.
- The text of the two headers (`format!`) is passed in as bytes. The UTF-8 encoding of the view is an opaque function `encode`.
- `libc` calls (`read`, `write`, `ioctl`, `isatty`, `tcgetattr`, `tcsetattr`) are left out. They are represented by their return values, passed as parameters.
- FrameLoop.Iteration: reads the input through the corrected `GetInputBuffer`, so one pass dispatches every pending byte. `curse_main` calls `get_input_buffer` as written (src/old/main.rs:52), which hands over at most 8 bytes per frame and leaves the rest for later frames. With `wwwwwwwwq` pending, the source dispatches eight `w` in this frame and the `q` in the next, while the model dispatches all nine at once.
- FrameLoop.Iteration: requires each header to be no wider than the terminal and the terminal to have more than 2 rows. Otherwise the source's `usize` subtractions underflow, or `draw_scene` panics on an empty view.
- FrameLoop.PlayerInWall: requires the player's cell to be inside the field. Outside it, the source's indexing panics.
- FrameLoop.LoopState: the frame counter is an unbounded `nat`. The source's `u64` would overflow only after 2^64 frames.
- Game.WellFormed: the model assumes a non-empty rectangular field, and `DrawScene` requires it. `draw_scene` itself needs only a first row (`blocks[0]` at src/old/game.rs:60) and rows long enough for the cells the rays visit. Fields of ragged rows are not modelled.
- Game.DrawScene: requires `width > 0 && height > 0`. `draw_scene` writes cell (0, 0) unconditionally (src/old/game.rs:124), which panics on an empty framebuffer.

## Findings

| source | as written | input that shows it | evidently intended | confidence | as-written member | corrected member |
|---|---|---|---|---|---|---|
| src/term.rs:140-141 | `buffer.resize(size)` followed by `full_buffer.append(&mut buffer)` leaves `buffer` empty. The next `read` asks for 0 bytes, returns 0 and ends the loop, so one call returns at most 8 bytes. | 9 bytes waiting and no read failing: the call returns the first 8 and leaves the 9th for the next frame | read 8-byte chunks until a short read, returning every pending byte | high; not executed | Terminal.Console.GetInputBufferAsWritten, Terminal.NineBytesWaiting | Terminal.Console.GetInputBuffer, Terminal.ReadAllSucceedsIff |
