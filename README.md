# JunkDrawer core, modelled in Dafny

JunkDrawer is a collection of small terminal programs. This project models and proves the core of eight of them.

- **LifeGame.c** is Conway's Game of Life on an unbounded plane stored sparsely. The plane is split into 32×32 chunks. Each chunk keeps its cells in a bitmap of 32-bit words and keeps a live count. A generation does four things in turn:
  - it gathers the candidate cells around every live cell;
  - it sorts them with `pair_compare` and removes duplicates;
  - it evaluates Conway's rule (B3/S23) on each;
  - it commits the resulting updates.

  Modules: `LifeChunk` (bitmaps), `LifeCoords` (chunk keys, local coordinates and the pair comparison), `LifeWorld` (the world as a map from chunk key to chunk, and the generation as functions), `LifeCells` (the cell-level effect of `set_cell` and the live-count invariant), `LifeGeneration` (sorting and collapsing candidates), `LifeRule` (the rule on sets of cells, with still lifes and oscillators), `LifeTheorems` (a generation of the engine is one step of the rule) and `LifeEngine` (the `GameState` class whose methods mirror the C functions loop for loop).
- **LifeGame.cpp** is a dense variant on a double-buffered screen-sized grid, with a design mode and a command mode. It is the `LifeGrid` module. Its `GameState` class keeps the two grids as `array2<bool>`.
- **wanzixixunchagailv.py** analyses evening inspection records. Each record is a teacher's name and a time of day. The program parses the records, keeps those inside an analysis window (which may wrap past midnight) and cuts the window into fixed-length segments. This is the `Inspection` module. `PyText` and `Decimal` hold Python's `strip`, `lower` and `split` and decimal printing.
- **TermPreview.py** parses colour arguments and checks an image crop rectangle. This is the `TermPreview` module.
- **CodeSyncAssistant.py** adds and removes indentation, parses A/B code blocks and aligns the indentation of B to A. This is the `CodeSync` module.
- **srf.cpp** is a pinyin input method sitting in front of a child terminal. It has a dictionary loaded from `key=word word ...` lines, a typed buffer, a candidate list with pages and a selected index. This is the `Ime` module. Its keystroke handler is a function `Step`, and the `InputMethod` class follows the C globals method by method.
- **TUXmod.cpp** is a file manager's permission dialog and its cached directory listing. Modules: `TuxPermissions` (mode bits and the `rwx` string), `TuxDialog` (focus movement, toggling and the mode applied) and `TuxListing` (directory order and cache expiry).
- **MiGong.cpp** generates a maze by depth-first carving on a 15×30 grid and lets a player walk it. The maze is regenerated after each move. This is the `Maze` module. `GenerateMaze` keeps the C loop over an explicit stack and is proved to produce a maze in which every open cell is reachable from the start, the exit included.

Random choices are taken as parameters: the direction shuffles of the maze and the coin flips of `rand`. So are the current time, the directory contents, the file lines and the name chosen from a user or group list.

## Model

| member | source | states |
|---|---|---|
| LifeChunk.EmptyChunk | LifeGame.c:141-145 | a zeroed chunk has every cell dead, live count 0 and is not dirty |
| LifeChunk.ChunkGetBit | LifeGame.c:291-296 | the bit read is the cell at `y*32+x` of the chunk's bitmap; positions outside the chunk read as dead |
| LifeChunk.ChunkGetBitCells | LifeGame.c:291-296 | for every in-chunk (x, y) the bit read is exactly the bitmap cell |
| LifeChunk.ChunkSetBit | LifeGame.c:299-316 | writing a value that differs flips exactly that cell, marks the chunk dirty and moves the live count by ±1, keeping it equal to the popcount; writing the same value or an out-of-range position changes nothing |
| LifeChunk.FlipFacts | LifeGame.c:302-314 | setting or clearing the masked bit in word `pos/32` changes exactly cell `pos` and moves the popcount by one |
| LifeChunk.MaskBit | LifeGame.c:303-312 | `w & mask` tests the bit, `w \| mask` sets it and `w & ~mask` clears it |
| LifeChunk.SetWordFacts | LifeGame.c:308-313 | a word update sets the addressed bit to the value and keeps the other 31 |
| LifeChunk.CountTrueUpdate | LifeGame.c:310-313 | flipping one cell changes the number of live cells by exactly one |
| LifeChunk.SetBitMeansLive | LifeGame.c:291-296 | a chunk with a set bit has a positive live count |
| LifeChunk.OffsetValue | LifeGame.c:295 | the shift amount `pos % 32` as a bit-vector has the value `pos % 32` |
| LifeCoords.ChunkKey | LifeGame.c:393-394 | C's truncating division: for x ≥ 0 the key is the floor of x/32, for x < 0 the ceiling |
| LifeCoords.CRem | LifeGame.c:474-475 | C's `%`: `x == key*32 + r`, and r has the sign of x |
| LifeCoords.LocalCoord | LifeGame.c:474-478 | the corrected local coordinate lies in 0..31 and equals the Euclidean remainder |
| LifeCoords.ReportedCoord | LifeGame.c:534-542 | rebuilding `key*32 + local` gives x back for x ≥ 0 or a multiple of 32, and x + 32 otherwise |
| LifeCoords.NonNegativeCellsDistinct | LifeGame.c:393-394 | for non-negative coordinates, (key, local) identifies the coordinate: equal pairs iff equal coordinates |
| LifeCoords.ReportedRoundTrip | LifeGame.c:534-542 | a cell reported from chunk k at local l maps back to chunk k and local l |
| LifeCoords.NegativeCoordinatesAlias | LifeGame.c:474-478 | x = -1 and x = 31 land on the same chunk and the same local coordinate |
| LifeCoords.FloorKey | LifeGame.c:393-394 | the rounded-down chunk key brackets the coordinate, and agrees with the truncating one for non-negative coordinates |
| LifeCoords.FloorCellsDistinct | LifeGame.c:474-478 | with the rounded-down key every coordinate is reported at itself and two coordinates share a cell only when equal |
| LifeCoords.ChunkRangeInsidePeekRange | LifeGame.c:466-468 | the set_cell range (±INT_MAX/2) lies inside the peek_cell range |
| LifeCoords.PairCompare | LifeGame.c:513-518 | the corrected comparison is negative, zero or positive exactly when the pairs are lexicographically less, equal or greater |
| LifeCoords.PairCompareC | LifeGame.c:513-518 | the comparison as written returns an `int` congruent to the true difference modulo 2^32, and 0 exactly for equal pairs |
| LifeCoords.Wrap32 | LifeGame.c:516-517 | the 32-bit result of a subtraction lies in the int range and is congruent to the exact difference |
| LifeCoords.PairCompareCAgrees | LifeGame.c:513-518 | inside the chunk range, the comparison as written (with 32-bit wrap-around) agrees with the corrected one |
| LifeCoords.PairCompareOverflow | LifeGame.c:516-517 | outside the chunk range the comparison as written is not an order: b < a lexicographically yet compare(a, b) < 0, with a > c > b around c = (0, 0) |
| LifeWorld.GetChunkIfExists | LifeGame.c:387-409 | a chunk is found iff the coordinates are in the ±INT_MAX/2 range and their chunk key is present, and it is that chunk |
| LifeWorld.GetChunk | LifeGame.c:412-462 | in range, returns the existing chunk or inserts a zeroed one under the key and returns it; out of range, returns nothing and leaves the world alone; existing chunks are untouched |
| LifeWorld.PeekCell | LifeGame.c:465-481 | a cell reads live iff it is in range, its chunk exists and the chunk's bit at the local coordinates is set |
| LifeWorld.SetCell | LifeGame.c:484-510 | every chunk of the world stays consistent (live count = popcount); its cell-level effect is stated by LifeCells.SetCellEffect and LifeCells.SetCellPeek |
| LifeWorld.Candidates | LifeGame.c:544-549 | each live cell contributes 9 candidate positions, its 8 neighbours and itself |
| LifeWorld.Enumerate | LifeGame.c:555-566 | the sorted, duplicate-free list of a candidate set is strictly increasing, has the same members and has one entry per member |
| LifeWorld.MinimumExists | LifeGame.c:513-518 | every non-empty set of positions has a least element in the lexicographic order |
| LifeWorld.PairLessTransitive | LifeGame.c:513-518 | the lexicographic order is transitive |
| LifeWorld.NeighborsBelow | LifeGame.c:573-579 | after j of the 8 offsets the neighbour count lies in 0..j |
| LifeWorld.Evaluate | LifeGame.c:581-590 | a candidate records at most one update, for its own position, and the update flips the cell's state |
| LifeWorld.Transitions | LifeGame.c:568-591 | the evaluation loop records at most one update per candidate, and every update changes its cell's state in the world read |
| LifeWorld.TransitionsStep | LifeGame.c:568-591 | evaluating one more candidate appends exactly that candidate's updates |
| LifeWorld.ApplyUpdates | LifeGame.c:593-595 | committing the updates keeps every chunk consistent |
| LifeWorld.NextGeneration | LifeGame.c:521-596 | compute_generation keeps every chunk consistent (live count = popcount) |
| LifeCells.GetChunkThenLookup | LifeGame.c:387-462 | after get_chunk, get_chunk_if_exists finds the same chunk; on a key already present get_chunk changes nothing; a missing in-range key is created empty |
| LifeCells.SetCellEffect | LifeGame.c:484-510 | set_cell changes the live cell count by ±1 and appends the chunk key to the dirty list exactly when the cell's state changes; it creates the chunk if missing; out of range it changes nothing |
| LifeCells.SetCellPeek | LifeGame.c:484-510 | after set_cell, peek reads the new value at every position sharing the cell's chunk and local coordinates, and the old value everywhere else |
| LifeCells.SetCellPeekNonNegative | LifeGame.c:484-510 | for non-negative coordinates set_cell changes exactly the addressed cell |
| LifeCells.SetCellAliases | LifeGame.c:493-497 | setting cell (-1, 0) makes cell (31, 0) read live |
| LifeCells.SumLiveUpdate | LifeGame.c:503-504 | replacing one chunk changes the world's total by the difference of the two live counts |
| LifeCells.SetCellKeepsInv | LifeGame.c:484-510 | set_cell keeps `live_cell_count` equal to the sum of the chunks' live counts |
| LifeCells.SetCellCount | LifeGame.c:499-504 | in range, the counter after set_cell equals the total of live cells |
| LifeCells.ApplyUpdatesKeepsInv | LifeGame.c:593-595 | committing any list of updates keeps the live-count invariant |
| LifeCells.SumLiveAtLeast | LifeGame.c:522 | the world's live total is at least any one chunk's live count |
| LifeCells.NoLiveCells | LifeGame.c:522 | when the invariant holds and `live_cell_count` is 0, no cell reads live, so the early return loses nothing |
| LifeGeneration.PairLessTotal | LifeGame.c:513-518 | the lexicographic order is strict and total |
| LifeGeneration.Insert | LifeGame.c:555-556 | inserting into a sorted list gives a sorted permutation with the element added |
| LifeGeneration.SortPairs | LifeGame.c:555-556 | sorting gives a sorted permutation of the candidates |
| LifeGeneration.CollapseSorted | LifeGame.c:558-566 | removing adjacent duplicates from a sorted list gives a strictly increasing list with the same members and the same last element |
| LifeGeneration.HeadIsLeast | LifeGame.c:555-566 | the first of a strictly sorted list is below every other member |
| LifeGeneration.StrictlySortedUnique | LifeGame.c:555-566 | two strictly sorted lists with the same members are equal |
| LifeGeneration.SortCollapseEnumerates | LifeGame.c:555-566 | sort then collapse yields the enumeration of the candidate set, whatever order the candidates were gathered in |
| LifeGeneration.DeadRowNoCandidates | LifeGame.c:537-539 | a row of a dead chunk contributes no candidates |
| LifeGeneration.EmptyChunkNoCandidates | LifeGame.c:532 | a chunk with live count 0 contributes no candidates, so skipping it loses nothing |
| LifeGeneration.CollectMembers | LifeGame.c:527-553 | a position is gathered iff some visited chunk contributes it |
| LifeGeneration.CollectAll | LifeGame.c:527-553 | visiting every chunk gathers exactly the candidate set |
| LifeEngine.ClampSpeed | LifeGame.c:243-252 | the speed is clamped into 1..10; in range it is unchanged; below or above it becomes the nearer bound |
| LifeEngine.TargetFrameTime | LifeGame.c:1118-1119 | `1000 / (speed*2)` is undefined exactly at speed 0; otherwise the frame time is at least 10 ms |
| LifeEngine.FrameTimeInRange | LifeGame.c:1118-1119 | for speeds 1..10 the frame time lies in 50..500 ms |
| LifeEngine.LoadedSpeedZero | LifeGame.c:786-789 | a loaded speed of 0, which is never clamped, makes the frame-time division undefined; any clamped speed is safe |
| LifeEngine.ResizeArray | LifeGame.c:255-263 | capacity never shrinks and is unchanged while there is room |
| LifeEngine.ResizeMakesRoom | LifeGame.c:255-263 | when realloc succeeds there is room for one more element |
| LifeEngine.ResizeFailureLeavesNoRoom | LifeGame.c:258-259 | when realloc fails on a full array, the array stays full, so the following write is out of bounds |
| LifeEngine.GameState.constructor | LifeGame.c:319-330 | an empty world, zero counts, empty arrays, default speed 5 |
| LifeEngine.GameState.AdjustSpeed | LifeGame.c:243-252 | the speed becomes the clamped sum and the frame skip resets; nothing else changes |
| LifeEngine.GameState.AddToDirtyChunks | LifeGame.c:266-271 | appends the chunk key to the dirty list; nothing else changes |
| LifeEngine.GameState.AddToPositions | LifeGame.c:274-279 | appends the position to the candidate list; nothing else changes |
| LifeEngine.GameState.AddToUpdates | LifeGame.c:282-288 | appends the update; nothing else changes |
| LifeEngine.GameState.GetChunk | LifeGame.c:412-462 | the new world and the result are those of LifeWorld.GetChunk; nothing else changes |
| LifeEngine.GameState.SetCell | LifeGame.c:484-510 | the new state is LifeWorld.SetCell of the old one, and the live-count invariant is kept |
| LifeEngine.GameState.AddCellCandidates | LifeGame.c:541-549 | appends the 9 candidates of one live cell |
| LifeEngine.GameState.AddRowCandidates | LifeGame.c:538-550 | the x loop appends the candidates of one chunk row's live cells, left to right |
| LifeEngine.GameState.AddChunkCandidates | LifeGame.c:537-551 | the y loop appends the candidates of all of a chunk's live cells |
| LifeEngine.GameState.CollectCandidates | LifeGame.c:527-553 | after the loop over chunks, the candidate list holds exactly the old list plus the candidate set of the world |
| LifeEngine.GameState.GatherCandidates | LifeGame.c:524-566 | resetting, gathering, sorting and collapsing leave the candidate list equal to the enumeration of the candidate set |
| LifeEngine.GameState.CollapseInPlace | LifeGame.c:558-566 | the in-place compaction leaves the list with adjacent duplicates removed |
| LifeEngine.GameState.CountNeighbors | LifeGame.c:571-579 | the neighbour loop counts the live cells among the 8 offsets |
| LifeEngine.GameState.EvaluateCell | LifeGame.c:581-590 | a live cell with fewer than 2 or more than 3 neighbours gets a death update, a dead cell with 3 gets a birth update, otherwise nothing is appended |
| LifeEngine.GameState.EvaluateCandidates | LifeGame.c:568-591 | the evaluation loop appends the updates of every candidate, all read from the unchanged world |
| LifeEngine.GameState.CommitUpdates | LifeGame.c:593-595 | the state after committing is the updates applied in order to the state before |
| LifeEngine.GameState.ComputeGeneration | LifeGame.c:521-596 | the new state is the next generation of the old one; with no live cells nothing changes, the candidate and update buffers included; otherwise the candidates are the enumerated candidate set and the updates are their transitions; the live-count invariant is kept |
| LifeRule.Alive | LifeGame.c:576-578 | a neighbour adds 1 exactly when it is live |
| LifeRule.NeighborsIn | LifeGame.c:573-579 | the neighbour count lies in 0..8 |
| LifeRule.StepMembership | LifeGame.c:581-590 | a cell is live in the next generation iff it is live with 2 or 3 neighbours, or dead with exactly 3 |
| LifeRule.NeighborInAround | LifeGame.c:544-549 | any cell with a live neighbour is among the candidates |
| LifeRule.AroundNear | LifeGame.c:544-549 | every candidate is within one step of a live cell |
| LifeRule.BlockIsStill | LifeGame.c:581-590 | a 2×2 block is a still life |
| LifeRule.BlinkerOscillates | LifeGame.c:581-590 | a blinker alternates between vertical and horizontal with period 2 |
| LifeTheorems.QuadrantCell | LifeGame.c:534-542 | in the non-negative quadrant a cell and its (chunk key, local coordinates) determine each other |
| LifeTheorems.LiveSetBit | LifeGame.c:291-296 | a cell is in the live set iff its chunk's bit is set |
| LifeTheorems.PeekIsLive | LifeGame.c:465-481 | peek_cell reads exactly membership in the live set |
| LifeTheorems.RowCandidatesMembers | LifeGame.c:537-549 | a row's candidates are exactly the 9 positions around each of its live cells |
| LifeTheorems.CandidateSetIsAround | LifeGame.c:527-553 | the gathered candidate set is the neighbourhood of the live set |
| LifeTheorems.NeighborCountIsNeighborsIn | LifeGame.c:573-579 | the peek-based neighbour count equals the count over the live set |
| LifeTheorems.LastWriteAppend | LifeGame.c:593-595 | for each cell, the last write in a concatenation comes from the second part if it writes that cell, else from the first |
| LifeTheorems.EvaluateShape | LifeGame.c:581-590 | a candidate produces one update exactly when the rule changes its state, carrying the new state |
| LifeTheorems.EvaluateIsRule | LifeGame.c:581-590 | a candidate's updates write the rule's change to that cell and to no other cell |
| LifeTheorems.TransitionsLastWrite | LifeGame.c:568-591 | over all candidates, the last write to a cell is the rule's change if the cell is a candidate, else none |
| LifeTheorems.TransitionsTargets | LifeGame.c:568-591 | every update targets a candidate |
| LifeTheorems.SetCellBit | LifeGame.c:484-510 | set_cell sets exactly the addressed bit of the addressed chunk |
| LifeTheorems.ApplyUpdatesBit | LifeGame.c:593-595 | after committing, each bit holds the last value written to it, or its old value if none |
| LifeTheorems.GenerationCommits | LifeGame.c:521-596 | committing the transitions of the enumerated candidates writes every changed cell and no other |
| LifeTheorems.CommittedIsStep | LifeGame.c:581-595 | such a commit leaves exactly the next generation of the live set |
| LifeTheorems.GenerationIsStep | LifeGame.c:521-596 | away from the coordinate limits, compute_generation turns the live set into exactly its next generation under B3/S23 |
| LifeTheorems.GenerationRule | LifeGame.c:521-596 | each cell's next state is the rule applied to its current state and peek-counted neighbours |
| LifeTheorems.GenerationKeepsInv | LifeGame.c:521-596 | compute_generation keeps the live-count invariant |
| LifeTheorems.BlockStaysPut | LifeGame.c:521-596 | the engine leaves a block unchanged |
| LifeTheorems.BlinkerTurns | LifeGame.c:521-596 | the engine turns a blinker by 90 degrees |
| LifeTheorems.BlinkerPeriodTwo | LifeGame.c:521-596 | two engine generations bring a vertical blinker back |
| LifeGrid.LiveCellsMember | LifeGame.cpp:66-67 | a grid cell is in the live set iff it is true |
| LifeGrid.NeighborsIsRule | LifeGame.cpp:58-73 | the bounded neighbour count equals the count over the live set, which lies in 0..8 |
| LifeGrid.GridStep | LifeGame.cpp:76-88 | inside the grid the clipped next generation agrees with the unbounded one, and it has no cell outside the grid |
| LifeGrid.EvolvedIsGridStep | LifeGame.cpp:76-88 | a grid whose every cell follows the rule holds the next generation clipped to the grid |
| LifeGrid.SparseAgreesWithGrid | LifeGame.cpp:76-88 | when the neighbourhood fits inside the grid, the sparse engine's generation equals the grid's |
| LifeGrid.MoveCursor | LifeGame.cpp:163-174 | arrows move the cursor one step, never off the grid; other keys leave it |
| LifeGrid.ClampRect | LifeGame.cpp:223-230 | the corners are clamped into the grid and ordered; an in-grid ordered rectangle is unchanged |
| LifeGrid.SpaceRun | LifeGame.cpp:220-221 | the whitespace prefix that `%d` skips is maximal |
| LifeGrid.DigitRun | LifeGame.cpp:220-221 | the digit prefix that `%d` reads is maximal |
| LifeGrid.ScanInt | LifeGame.cpp:220-221 | a successful `%d` consumes input |
| LifeGrid.ScanRand | LifeGame.cpp:218-221 | a rectangle is read only from a command starting with "rand" |
| LifeGrid.ScanShowInt | LifeGame.cpp:220-221 | `%d` reads back any printed integer, with or without a leading space |
| LifeGrid.ScanIntsSpaced | LifeGame.cpp:220-221 | reading k integers from k space-separated printed integers returns them |
| LifeGrid.ScanRandShow | LifeGame.cpp:218-221 | "rand y1 x1 y2 x2" parses to that rectangle |
| LifeGrid.RandTarget | LifeGame.cpp:218-230 | a rand command is accepted iff it scans, and the target rectangle lies in the grid |
| LifeGrid.GameState.constructor | LifeGame.cpp:30-50 | two fresh dead grids of the terminal's size, the cursor centred, design mode, the `-z` flag recorded |
| LifeGrid.GameState.SwapBuffers | LifeGame.cpp:53-55 | current and next are exchanged |
| LifeGrid.GameState.CountNeighbors | LifeGame.cpp:58-73 | the loop counts the in-grid live neighbours, which is the rule's count, in 0..8 |
| LifeGrid.GameState.UpdateRow | LifeGame.cpp:77-86 | one row of the next grid gets the rule applied to the current grid; other rows are untouched |
| LifeGrid.GameState.ComputeGeneration | LifeGame.cpp:76-88 | after the swap, every cell of the current grid is the rule applied to the old grid, so its live set is the clipped next generation |
| LifeGrid.GameState.DesignKey | LifeGame.cpp:150-181 | q/Q stops; c/C enters command mode with an empty command; y/Y enters play; arrows move the cursor; Enter or space toggles exactly the cursor cell |
| LifeGrid.GameState.RandomRect | LifeGame.cpp:222-237 | inside the clamped rectangle each cell takes its coin flip; outside nothing changes |
| LifeGrid.GameState.CommandKey | LifeGame.cpp:213-252 | ESC and Enter return to design mode; Enter on a scannable rand command fills the rectangle with coin flips; backspace drops a character; printable characters are appended |
| PyText.LStrip | wanzixixunchagailv.py:107 | `lstrip` gives a suffix with no leading whitespace |
| PyText.RStrip | wanzixixunchagailv.py:107 | `rstrip` gives a prefix with no trailing whitespace |
| PyText.Strip | wanzixixunchagailv.py:107 | `strip` leaves no whitespace at either end |
| PyText.StripClean | wanzixixunchagailv.py:170 | stripping a string already stripped changes nothing |
| PyText.LowerChar | TermPreview.py:35 | lowering changes exactly the upper-case ASCII letters and keeps whitespace |
| PyText.Lower | TermPreview.py:35 | `lower` maps each character |
| PyText.LowerTwice | TermPreview.py:35 | lowering is idempotent and fixes strings without capitals |
| PyText.LowerStripped | TermPreview.py:35 | lowering a stripped string keeps it stripped |
| PyText.IndexOf | srf.cpp:86 | `find` returns the first occurrence |
| PyText.Split | CodeSyncAssistant.py:37 | `split` always returns at least one part |
| PyText.SplitParts | CodeSyncAssistant.py:37 | no part contains the separator |
| PyText.JoinSplit | CodeSyncAssistant.py:39 | joining the parts of a split gives the string back |
| PyText.SplitJoined | CodeSyncAssistant.py:39 | splitting a join of separator-free parts gives the parts back |
| PyText.SplitJoin | TermPreview.py:115 | a separator after a separator-free prefix splits it off |
| Inspection.RemoveQuotes | wanzixixunchagailv.py:123 | the result has every character of the name except single quotes, and none of those |
| Inspection.Field | wanzixixunchagailv.py:129-132 | a `%H`/`%M`/`%S` field of one or two digits never exceeds its maximum |
| Inspection.Strptime | wanzixixunchagailv.py:126-134 | a time parsed as HH:MM or HH:MM:SS is a valid clock time |
| Inspection.StrptimeShow | wanzixixunchagailv.py:128-129 | a printed HH:MM time parses back to itself |
| Inspection.MatchRecord | wanzixixunchagailv.py:110-115 | a match yields a non-empty, single-line name |
| Inspection.Teacher | wanzixixunchagailv.py:120-123 | names that lower to unknown/unknow/未知 become "unknown"; other names lose their single quotes |
| Inspection.FromString | wanzixixunchagailv.py:105-140 | a parsed record has a valid time and a teacher without quotes |
| Inspection.FromStringShow | wanzixixunchagailv.py:105-140 | the line "name HH:MM" parses to that teacher and time |
| Inspection.MatchShow | wanzixixunchagailv.py:110 | the regex splits "name HH:MM" at the last space run |
| Inspection.ShowRecord | wanzixixunchagailv.py:117-140 | a matched name and printed time build the record |
| Inspection.InRange | wanzixixunchagailv.py:195-207 | the window holds its own start and end minutes, and a window whose ends agree holds that minute only |
| Inspection.InRangeIsWindow | wanzixixunchagailv.py:195-207 | a time is in range iff, unwrapped past midnight when the window wraps, it lies between start and end inclusive |
| Inspection.ClockOf | wanzixixunchagailv.py:224-236 | the minute count is turned into a valid clock time, with 24 hours subtracted past midnight |
| Inspection.Bounds | wanzixixunchagailv.py:222-239 | every segment is non-empty, lies inside the window and is at most the segment length |
| Inspection.BoundsContiguous | wanzixixunchagailv.py:222-239 | the segments start at the window start, end at its end and follow each other without gaps |
| Inspection.BoundsCover | wanzixixunchagailv.py:222-239 | every minute of the window lies in some segment |
| Inspection.BoundsDisjoint | wanzixixunchagailv.py:222-239 | no minute lies in two segments |
| Inspection.Segments | wanzixixunchagailv.py:209-241 | the segments are the minute bounds converted to clock times |
| Inspection.SegmentsFromStep | wanzixixunchagailv.py:222-239 | each loop turn emits one segment from the current minute to the next bound |
| Inspection.InSegment | wanzixixunchagailv.py:247-259 | a segment never holds its end minute, holds its start minute unless empty, and holds only times its closed window holds |
| Inspection.SegmentHolds | wanzixixunchagailv.py:247-259 | a time lies in a segment iff its unwrapped minute lies in the segment's half-open bounds |
| Inspection.SegmentsPartitionWindow | wanzixixunchagailv.py:209-259 | every in-range time except the end minute lies in exactly one segment; other times in none |
| Inspection.SegmentsContiguous | wanzixixunchagailv.py:209-241 | the segments are empty iff start equals end, and otherwise run from start to end without gaps |
| Inspection.KeptLine | wanzixixunchagailv.py:170-184 | a line contributes its record iff it parses and its time is in range |
| Inspection.KeptMembers | wanzixixunchagailv.py:161-193 | a record is loaded iff some line parses to it and its time is in range |
| Inspection.LabelInterval | wanzixixunchagailv.py:342-354 | the label interval is at least 1 |
| Inspection.LabelIntervalMonotone | wanzixixunchagailv.py:342-354 | more segments never give a smaller interval |
| Inspection.FontSize | wanzixixunchagailv.py:357-368 | the font size lies in 6..10 |
| Inspection.FontSizeMonotone | wanzixixunchagailv.py:357-368 | more segments never give a larger font |
| Inspection.ParseTimeString | wanzixixunchagailv.py:151-159 | a parsed window bound is a valid clock time |
| Inspection.InspectionDataProcessor.constructor | wanzixixunchagailv.py:145-149 | stores the segment length and the window, with no records |
| Inspection.InspectionDataProcessor.LoadData | wanzixixunchagailv.py:161-193 | the records are exactly the kept lines, in order; the load fails iff none was kept |
| Inspection.InspectionDataProcessor.CreateTimeSegments | wanzixixunchagailv.py:209-241 | the loop produces the segments of the window |
| TermPreview.HexDigitValue | TermPreview.py:46-59 | a hex digit has a value below 16, below 10 iff it is a decimal digit |
| TermPreview.ValueOfDecimal | TermPreview.py:62-65 | base-10 value of digits agrees with the decimal reading |
| TermPreview.ReadSigned | TermPreview.py:46-65 | `int()` gives a negative value only for a leading minus |
| TermPreview.PyIntDigits | TermPreview.py:62-65 | `int()` reads a signed decimal digit string to its value |
| TermPreview.PyIntShow | TermPreview.py:115 | `int()` reads back any printed integer |
| TermPreview.DoubledDigit | TermPreview.py:46-51 | `int(c*2, 16)` succeeds iff c is a hex digit, giving 17 times its value |
| TermPreview.LookupEntry | TermPreview.py:38-39 | a name lookup returns a table entry for that name, and fails only when no entry has it |
| TermPreview.NamesTable | TermPreview.py:16-32 | the colour names are lower-case words and their colours are in 0..255 |
| TermPreview.NamesAreWords | TermPreview.py:38-39 | a string with a non-letter is never a colour name |
| TermPreview.NamedLookup | TermPreview.py:38-39 | each name in the table finds its own colour |
| TermPreview.NamesDistinct | TermPreview.py:16-32 | the table has no duplicate names |
| TermPreview.NamedColors | TermPreview.py:35-39 | any spelling whose stripped, lowered form is a name parses to that colour |
| TermPreview.HexComponent | TermPreview.py:46-59 | with the range check, an accepted two-character component lies in 0..255 |
| TermPreview.RgbTriple | TermPreview.py:62-68 | the colour is in range, and a string that is not three fields of one to three digits gives black |
| TermPreview.ParseColorNormalized | TermPreview.py:35 | parsing depends only on the stripped, lowered argument |
| TermPreview.ParseClean | TermPreview.py:35 | a plain lower-case argument is parsed as it stands |
| TermPreview.ShortHex | TermPreview.py:46-51 | "#rgb" parses iff all three are hex digits, giving 17 times each digit |
| TermPreview.LongHex | TermPreview.py:54-59 | "#rrggbb" with hex digits parses to the three pair values |
| TermPreview.Hex2 | TermPreview.py:54-59 | two lower-case hex digits print any byte |
| TermPreview.LongHexShow | TermPreview.py:54-59 | a printed "#rrggbb" parses back to its colour |
| TermPreview.RgbForm | TermPreview.py:62-68 | "r,g,b" of up to three digits each gives that colour when all are at most 255, else black |
| TermPreview.RgbSplit | TermPreview.py:62-63 | "p,q,u" splits into its three fields |
| TermPreview.NamedInRange | TermPreview.py:16-39 | a named colour is in range |
| TermPreview.ParseColor | TermPreview.py:7-68 | parse_color fails (int() raising) only on a `#` form with three or six characters after stripping and lower-casing |
| TermPreview.ParseColorOutcomes | TermPreview.py:7-68 | the parse fails only on a malformed "#rgb"/"#rrggbb"; every colour it returns other than by "#rrggbb" is in range |
| TermPreview.ParseColorBlack | TermPreview.py:62-68 | a string that is not a name, not `#` plus three or six characters and not `r,g,b` with one to three digits per field parses as black |
| TermPreview.NegativeComponent | TermPreview.py:54-59 | as written, "#-dxxxx" parses with red = minus the digit, out of 0..255 when the digit is not 0 |
| TermPreview.NegativeExample | TermPreview.py:54-59 | as written, "#-10000" parses to (-1, 0, 0) |
| TermPreview.ParseColorStrictInRange | TermPreview.py:42-59 | the corrected parser returns only in-range colours, and agrees with the original wherever it accepts |
| TermPreview.SelectCrop | TermPreview.py:109-146 | an accepted crop passes every range and order check |
| TermPreview.CheckCrop | TermPreview.py:129-146 | the checks pass iff 0 ≤ start ≤ end < size on both axes |
| TermPreview.ParseCoords | TermPreview.py:113-126 | a pair that reads is two comma-free fields joined by one comma, and the coordinates are what int() makes of the fields |
| TermPreview.CoordsShow | TermPreview.py:113-126 | a printed "x,y" pair parses back |
| TermPreview.SelectCropShow | TermPreview.py:109-146 | printed coordinates are accepted iff they form an in-image ordered rectangle, and then give that rectangle |
| TermPreview.WholeImage | TermPreview.py:109-110 | without -f and -t the crop is the whole image, rejected only for an empty image |
| CodeSync.Spaces | CodeSyncAssistant.py:36 | the indent is n spaces |
| CodeSync.LStripEmpty | CodeSyncAssistant.py:132 | `lstrip` empties a line iff it is all whitespace |
| CodeSync.HasTextIff | CodeSyncAssistant.py:38 | `line.strip()` is truthy iff the line has a non-whitespace character |
| CodeSync.SpacesKeepText | CodeSyncAssistant.py:38 | indenting a line with text keeps it a line with text |
| CodeSync.LStripSpaces | CodeSyncAssistant.py:148 | stripping an indent off a text line gives the text |
| CodeSync.IndentLines | CodeSyncAssistant.py:38 | each line with text gets the indent and blank lines stay as they are |
| CodeSync.UnindentLines | CodeSyncAssistant.py:50-54 | each line starting with the indent loses it and other lines stay |
| CodeSync.RemoveIndentation | CodeSyncAssistant.py:41-56 | the loop builds the unindented text |
| CodeSync.AddIndentation | CodeSyncAssistant.py:31-39 | the indented text has as many lines as the text; each line with text gets the indent in front, each blank line stays as it was |
| CodeSync.RemoveIndentationLines | CodeSyncAssistant.py:41-56 | the lines of the unindented text are the unindented lines |
| CodeSync.LineRoundTrip | CodeSyncAssistant.py:31-56 | removing the indent undoes adding it on a line, unless it is a blank line that already started with the indent |
| CodeSync.RoundTrip | CodeSyncAssistant.py:31-56 | remove_indentation(add_indentation(t)) == t under the same condition on every line |
| CodeSync.GetAvgIndent | CodeSyncAssistant.py:128-135 | the loop computes the floor mean of the positive indents of text lines |
| CodeSync.IndentsFrom | CodeSyncAssistant.py:130-134 | every collected indent is positive, and there are no more than lines |
| CodeSync.AvgIndent | CodeSyncAssistant.py:128-135 | the average is 0 iff no line has text with a positive indent |
| CodeSync.AvgIndentUniform | CodeSyncAssistant.py:128-135 | when every text line has indent k > 0, the average is k |
| CodeSync.AlignLines | CodeSyncAssistant.py:141-148 | alignment keeps the number of lines |
| CodeSync.SmartAlign | CodeSyncAssistant.py:117-150 | A always comes back as it was; B comes back unchanged when either is empty, the averages agree or A's average is 0 |
| CodeSync.IndentOneLine | CodeSyncAssistant.py:144 | add_indentation on a single text line prefixes four spaces |
| CodeSync.AlignedLine | CodeSyncAssistant.py:143-148 | each B line is indented by four more if A's average is 4, re-indented to A's average otherwise, and kept if blank |
| CodeSync.SmartAlignLines | CodeSyncAssistant.py:117-150 | when alignment happens, the output lines are the aligned B lines, one for one |
| CodeSync.SmartAlignReachesAverage | CodeSyncAssistant.py:141-148 | when A's average is not 4, the aligned B has A's average indent |
| CodeSync.NeedsIndentation | CodeSyncAssistant.py:103-105 | the original needs indenting iff it is non-empty and remove_indentation(·, 4) would leave each of its lines with text unchanged |
| CodeSync.IndentationSettles | CodeSyncAssistant.py:103-109 | after adding four spaces the indentation check no longer fires |
| CodeSync.Chosen | CodeSyncAssistant.py:73-97 | both blocks worked on are stripped: neither starts nor ends with white space |
| CodeSync.AdvancedParse | CodeSyncAssistant.py:58-115 | both blocks are indented exactly when the chosen A block needs indentation (non-empty, no line with text starting with four spaces), and otherwise come back as captured with needs_indentation false; the returned A block never needs indentation again; without a file name the name is unknown.py |
| CodeSync.AdvancedParseUndo | CodeSyncAssistant.py:100-112 | when indentation was added, remove_indentation(·, 4) of the returned blocks gives back the captured blocks (provided none of their blank lines already starts with four spaces); otherwise the blocks are returned as captured |
| CodeSync.AdvancedParseSources | CodeSyncAssistant.py:73-97 | with text in the fenced A block the unfenced captures do not affect the result; once the unfenced blocks are used, the fenced captures do not |
| Ime.WordAt | srf.cpp:94-98 | `>>` reads the maximal non-space prefix |
| Ime.WordsAreWords | srf.cpp:93-98 | every word read is non-empty and contains no space |
| Ime.WordsJoin | srf.cpp:93-98 | reading the words of space-joined words gives them back |
| Ime.ReadWords | srf.cpp:93-98 | the stream loop collects exactly the words of the string |
| Ime.ParseLine | srf.cpp:84-98 | a line that parses is not empty, not a comment, and starts with its key followed by the first `=`; the key holds no `=` |
| Ime.Loaded | srf.cpp:77-102 | loading the configuration never removes a dictionary entry |
| Ime.ParseLineShow | srf.cpp:84-100 | a line "key=w1 w2 ..." yields that key and those words |
| Ime.LoadedUntouched | srf.cpp:77-102 | a key no line defines keeps its old entry, or stays absent |
| Ime.LoadedLast | srf.cpp:77-102 | the last line defining a key decides its candidates |
| Ime.InitialValid | srf.cpp:364-365 | the initial state is Chinese mode with pages of 8 and a valid selection |
| Ime.Update | srf.cpp:105-115 | update_candidates changes only the candidates, the selection and the page, and leaves a valid state for a positive page size |
| Ime.UpdateShows | srf.cpp:105-115 | the candidates become the buffer's dictionary entry, or none, with selection and page reset |
| Ime.Step | srf.cpp:171-287 | only Ctrl+Z switches the language, no key changes the page size, and a key sends at most two strings |
| Ime.StepValid | srf.cpp:171-287 | every key keeps the page size and keeps the selection on a whole page and, with candidates, inside the list |
| Ime.Arrow | srf.cpp:241-275 | the arrows move only the selection and the page: mode, buffer, candidates and page size stay |
| Ime.ArrowValid | srf.cpp:241-275 | every arrow keeps the state valid |
| Ime.PageStep | srf.cpp:244-261 | moving a page up or down keeps the page start a multiple of the page size |
| Ime.ToggleAndEnglish | srf.cpp:174-187 | Ctrl+Z flips the mode and clears the buffer and candidates; in English mode every other key is passed through |
| Ime.TypingAndBackspace | srf.cpp:200-205 | a letter extends the buffer and refreshes candidates; backspace drops the last letter and refreshes, or does nothing on an empty buffer |
| Ime.Selection | srf.cpp:206-234 | space commits the selected candidate or sends a space; digits 1-9 and 0 commit the candidate at that page position when it exists |
| Ime.Enter | srf.cpp:190-199 | Enter sends the buffer (when not empty) and a carriage return, and clears the input |
| Ime.Paging | srf.cpp:241-275 | up/down move by a page when possible and select its first entry; right/left move the selection by one when possible |
| Ime.RightArrowWithoutCandidates | srf.cpp:258-259 | with no candidates, right arrow still advances the selection, because `size() - 1` wraps to the largest unsigned value |
| Ime.InputMethod.constructor | srf.cpp:364-365 | the initial state, an empty dictionary, nothing sent |
| Ime.InputMethod.LoadConfig | srf.cpp:77-102 | the dictionary becomes the lines loaded over the old one; nothing else changes |
| Ime.InputMethod.UpdateCandidates | srf.cpp:105-115 | the state becomes Update of the old one |
| Ime.InputMethod.SendToChild | srf.cpp:118-122 | the string is appended to what the child received |
| Ime.InputMethod.CommitCandidate | srf.cpp:208-233 | the word is sent and the buffer and candidates are cleared |
| Ime.InputMethod.HandleArrow | srf.cpp:241-275 | the state becomes Arrow of the old one |
| Ime.InputMethod.HandleInput | srf.cpp:171-287 | the new state and the text sent are those of Step |
| TuxPermissions.NewMode | TUXmod.cpp:779-788 | the applied mode has only the nine permission bits, and reading them back gives the checkboxes |
| TuxPermissions.NewModeOfFlags | TUXmod.cpp:549-557 | rebuilding the mode from the flags read from a mode gives its low nine bits, dropping setuid, setgid and sticky |
| TuxPermissions.PermString | TUXmod.cpp:518-528 | the string has ten characters: 'd' iff directory, then r/w/x iff each bit is set |
| TuxPermissions.PermStringRoundTrip | TUXmod.cpp:757-767 | reading the permission string back gives the directory flag and the permissions |
| TuxPermissions.PermStringUnique | TUXmod.cpp:757-767 | only one string reads back to given permissions |
| TuxDialog.BoxesRoundTrip | TUXmod.cpp:549-557 | the nine checkboxes hold the nine permission flags |
| TuxDialog.Focus | TUXmod.cpp:655-696 | focus always stays on one of the 13 items |
| TuxDialog.FocusInverse | TUXmod.cpp:655-696 | down then up, up then down, left then right and right then left return to the item wherever the move is possible |
| TuxDialog.Toggle | TUXmod.cpp:697-709 | space flips the focused checkbox and no other, and does nothing on the other items |
| TuxDialog.ToggleFlips | TUXmod.cpp:697-709 | space flips exactly the focused checkbox, nothing on the other items, and twice is no change |
| TuxDialog.PermissionDialog.constructor | TUXmod.cpp:510-557 | the checkboxes read the file's mode, the focus is on the first item, user and group are the owner's |
| TuxDialog.PermissionDialog.HandleKey | TUXmod.cpp:654-743 | focus moves per Focus; space toggles; Enter on user or group takes a non-empty pick; Enter on apply applies; Enter on cancel or ESC cancels |
| TuxDialog.PermissionDialog.AppliedMode | TUXmod.cpp:779-788 | the mode passed to chmod has only permission bits and they match the checkboxes |
| TuxListing.NameLessOrder | TUXmod.cpp:127 | string `<` is a strict total order |
| TuxListing.Before | TUXmod.cpp:124-128 | the comparator never puts a file before a directory, and no entry before one of the same kind and name |
| TuxListing.NotAfterOrder | TUXmod.cpp:124-128 | the comparator gives a total preorder |
| TuxListing.InsertPerm | TUXmod.cpp:124-128 | insertion adds the entry and nothing else |
| TuxListing.InsertSorted | TUXmod.cpp:124-128 | insertion keeps the list sorted |
| TuxListing.SortEntries | TUXmod.cpp:124-128 | sorting gives a sorted permutation |
| TuxListing.Listing | TUXmod.cpp:95-128 | the listing is a sorted arrangement of ".", ".." and the entries |
| TuxListing.ListingOrder | TUXmod.cpp:95-128 | the listing holds "." and ".." and the entries, directories first, each group by name |
| TuxListing.Recent | TUXmod.cpp:61-67 | cleaning keeps part of the cache: every entry accessed within 300 seconds, unchanged, and no other |
| TuxListing.RecentKeeps | TUXmod.cpp:61-67 | a cache entry survives iff it was accessed within 300 seconds, unchanged; cleaning twice is cleaning once |
| TuxListing.DirectoryCache.constructor | TUXmod.cpp:57-69 | an empty cache never cleaned |
| TuxListing.DirectoryCache.CleanOldCache | TUXmod.cpp:57-69 | within 300 seconds of the last clean nothing changes; otherwise stale entries go and the clean time is now |
| TuxListing.DirectoryCache.ReadDirectory | TUXmod.cpp:82-137 | after cleaning, a fresh cached listing is returned, else the directory is listed and sorted; either way the path's entry is refreshed with the files returned, which form a listing |
| Maze.Put | MiGong.cpp:51-52 | writing a cell changes that cell only |
| Maze.Walls | MiGong.cpp:20 | the maze starts as all walls |
| Maze.StepShape | MiGong.cpp:46-51 | from a room, a carve target is a room, the cell between is a door, and the three are adjacent in a line |
| Maze.Carve | MiGong.cpp:41-57 | the first carvable direction in the shuffled order is carved (the door and the room); if none is carvable the maze is unchanged |
| Maze.CarvingStart | MiGong.cpp:20-32 | the start room opened on a wall grid satisfies the carving invariant |
| Maze.CarvingPush | MiGong.cpp:45-55 | carving and pushing a new room keeps the invariant, and the room is new |
| Maze.CarvingPop | MiGong.cpp:59-61 | popping a room with nothing left to carve keeps the invariant |
| Maze.ClosedHoldsRooms | MiGong.cpp:37-62 | a visited set containing the start and closed under carving steps holds every room |
| Maze.PathTo | MiGong.cpp:37-62 | every carved room has an open path from the start |
| Maze.WellFormedMaze | MiGong.cpp:19-69 | a generated maze has its exit reachable from the start and is playable from the start |
| Maze.GenerateMaze | MiGong.cpp:19-69 | the result has walls all round, the start open, the exit marked once, every room open, and every open cell reachable from the start |
| Maze.DoorConnected | MiGong.cpp:51 | an open door between connected rooms is connected |
| Maze.Clamp | MiGong.cpp:160-163 | the coordinate is clamped into the grid and kept if already inside |
| Maze.Target | MiGong.cpp:148-163 | an arrow aims at an adjacent in-grid cell or, at the edge, the cell itself |
| Maze.OpenPlayerCell | MiGong.cpp:189-191 | opening the player's cell in a new maze keeps it playable |
| Maze.ConnectedMono | MiGong.cpp:189-191 | opening a cell keeps every connection |
| Maze.Playable | MiGong.cpp:173 | in a playable maze both the player and the exit are reachable from the start |
| Maze.Game.constructor | MiGong.cpp:121-125 | the player is at the start of a well-formed maze and the game is running |
| Maze.Game.HandleKey | MiGong.cpp:133-196 | q stops; other keys do nothing; an arrow moves to the clamped target unless it is a wall; reaching the exit wins and stops with the maze kept; otherwise a new maze is generated and the game stays valid |
| Maze.Game.Regenerate | MiGong.cpp:186-196 | the regenerated maze is playable from the unchanged player position; the branch that restores the exit (MiGong.cpp:194-196) is proved unreachable |

## Left out

- Terminal drawing, colours, ncurses set-up, sleeping and timing loops of every program are not modelled. The ncurses key codes become a small key datatype or the constants used for them.
- LifeGame.c keeps the world as nested singly linked lists of rows and chunks. The model uses a map from chunk key to chunk. List order affects only the order of gathered candidates, and sorting removes that order (LifeGeneration.SortCollapseEnumerates).
- LifeGame.c's `malloc`/`calloc` failures in `get_chunk` are not modelled: the chunk is always created.
- LifeGame.c's command-line parsing, save and load of world files (except the loaded speed), viewport, play and design modes, and the 64-bit chunk variants are not modelled.
- The growable arrays of LifeGame.c are sequences in the class; their realloc growth is modelled separately by LifeEngine.ResizeArray and its lemmas.
- LifeWorld.SetCell: its own contract states only that chunks stay consistent; its effect on cells, the count and the dirty list is in LifeCells.SetCellEffect and LifeCells.SetCellPeek.
- LifeTheorems.GenerationIsStep: proved for live sets kept two cells inside the non-negative quarter plane, where chunk keys and local coordinates cannot alias and the 32-bit sums cannot overflow.
- LifeGame.cpp's play mode, the precompute loading screen and the `%d` overflow of `sscanf` are not modelled. `rand()` is a coin-flip parameter.
- wanzixixunchagailv.py: `\d` and `lower()` are modelled for ASCII only. A `ValueError` becomes an error result. The constructor takes already parsed times. The data frames, plots and probability estimates are not modelled.
- Inspection.InspectionDataProcessor.CreateTimeSegments: requires a positive segment length; with 0 the Python loop never ends.
- TermPreview.py: `int()` is modelled without `_` digit separators and non-ASCII digits, and `lower()` for ASCII only. Image loading, scaling, rendering and `sys.exit` are not modelled; a rejected crop returns which check failed.
- CodeSyncAssistant.py: the regular-expression matches of `advanced_parse` are parameters (the captured groups), not a regex engine. The clipboard, git, file I/O and `input()` prompts are not modelled. A `None` argument is not modelled.
- srf.cpp: the pty, child process, termios, poll loop and signal handlers are not modelled, nor `draw_ime`. An unopenable configuration file behaves as one with no lines. `send_to_child` is modelled as always writing. The two bytes read after ESC are a parameter. The `int` overflow of `selected_index` after 2^31 right arrows is not modelled.
- TUXmod.cpp: `stat`, `chmod`, `chown`, `getpwent`, the file selector and the list picker are not modelled; the picked name is a parameter. The two `time()` calls in `read_directory` are one `now` parameter, and the directory's contents and mtime are parameters. The nine permission booleans are a sequence of nine checkboxes.
- MiGong.cpp: `random_device` and `mt19937` are replaced by a parameter giving each shuffled direction order. Non-blocking `getch` becomes a key input.

## Findings

| source | as written | input that shows it | evidently intended | confidence | as-written member | corrected member |
|---|---|---|---|---|---|---|
| LifeGame.c:516-517 | `pair_compare` returns `pa->first - pb->first` in 32-bit `int`, which overflows for coordinates outside ±INT_MAX/2 | a = (INT_MAX/2 + 1, 0), b = (INT_MIN/2 - 1, 0): b < a lexicographically yet compare(a, b) < 0, and a > (0, 0) > b | a lexicographic comparison that never overflows, such as `(x > y) - (x < y)` on each component | not executed; such candidates arise only from cells next to the ±INT_MAX/2 limit | LifeCoords.PairCompareOverflow | LifeCoords.PairCompare |
| LifeGame.c:393-394 | the chunk key `world_x / CHUNK_SIZE` truncates toward zero, while the local offset (LifeGame.c:474-478) adds CHUNK_SIZE to a negative remainder, as for a rounded-down key | x = -1 and x = 31 both select chunk 0, local offset 31, so a cell at -1 is stored on the cell at 31 | a rounded-down chunk key, with which every coordinate has a cell of its own; the generation theorem LifeTheorems.GenerationIsStep is proved where the two keys agree | not executed | LifeCoords.NegativeCoordinatesAlias | LifeCoords.FloorCellsDistinct |
| TermPreview.py:54-59 | `int(color_str[1:3], 16)` accepts a sign, so "#-10000" gives red = -1 | "#-10000" parses to (-1, 0, 0) | components limited to 0..255, with a sign rejected | not executed | TermPreview.NegativeExample | TermPreview.ParseColorStrictInRange |
