# Hoppers, river crossing and strings puzzles — a verified model

This project models the rules of three puzzles written for a common breadth-first puzzle solver:

- **Hoppers.** Frogs on a board of lily pads hop over green frogs.
- **River crossing.** Pups and wolves are ferried across a river.
- **Strings.** One string is turned into another a letter at a time.

It also models the interactive move selection of the Hoppers game.

Each puzzle configuration answers two questions for the solver: is it a solution, and which configurations are one move away (its neighbours).

## Modules

- `HoppersRules` (`hoppers_rules.dfy`) states the Hoppers rules on board values (`Grid = seq<seq<char>>`):
  - the eight hop directions and when a hop is possible;
  - what a hop changes;
  - the neighbour relation;
  - the goal test;
  - the move validator a player's clicks go through;
  - counts of green and red frogs.
- `Hoppers` (`hoppers_config.dfy`) holds the class `HoppersConfig`.
  - It keeps its board in an `array2<char>`, as the source keeps a `char[][]`.
  - The copy constructor, `findFrog`, `makeHop`, `isSolution` and `equals` are loops over that array.
  - `makeHopMove` and `setBoard` update it in place.
  - Every method and function is proved against `HoppersRules`, applied to `Cells()`, the value the array holds.
  - `GetNeighbors` has no `modifies` clause. So building the neighbours never changes the board, because each neighbour is made on a fresh copy.
- `HoppersGame` (`hoppers_model.dfy`) holds the class `HoppersModel`.
  - Its fields are the configuration being played and the pending-selection buffer `firstCoord`.
  - `Select` is the two-click state machine.
  - The message the source sends to its observers is `Select`'s return value.
  - `SelectStep` is the reference definition `Select` is proved against. The lemmas beside it tie each selection to the board rules.
- `Crossing` (`crossing_config.dfy`) is value-based, as the source is.
  - It defines the configurations, the six guarded successor cases of `getNeighbors`, and the goal test.
  - `Move`, `Enabled` and `Carry` are an independent description of the moves; `getNeighbors` is proved equal to it.
  - It also proves conservation, non-negativity and boat-side parity along any sequence of crossings.
- `Strings` (`strings_config.dfy`) models the configurations of the strings puzzle.
  - `getNeighbors` is its index loop, proved against a set comprehension.
  - The source's 16-bit `char` is `JChar`, with the narrowing cast's wrap-around written out.
  - The records of both `CrossingConfig` and `StringsConfig` are datatypes.
  - `StringsConfig`'s constructor is its datatype constructor. The two constructors of `CrossingConfig` are the functions `Start` and `FromArrays`.

The solver's two totals and the board's two dimensions are static fields in the source.
- In `Crossing` the totals are parameters.
- In `Hoppers` the dimensions are each array's own.
- The neighbour sets are sets of values. Java's `HashSet` also removes duplicates by `equals`. For Hoppers boards and for strings, `equals` agrees with value equality in every set the source builds.

## Model

| member | source | states |
|---|---|---|
| HoppersRules.Frogs | src/puzzles/model/HoppersConfig.java:122-132 | the frogs are exactly the in-bounds cells that hold GREEN or RED |
| HoppersRules.PutAt | src/puzzles/model/HoppersConfig.java:112-114 | writing one cell changes that cell to the value written and leaves every other cell and the dimensions as they were |
| HoppersRules.HopMoveAt | src/puzzles/model/HoppersConfig.java:477-481 | after a hop move the first and second cells are lily pads, the third holds what the first held, and every other cell is unchanged |
| HoppersRules.HopShaped | src/puzzles/model/HoppersConfig.java:90-103 | a board one hop away has the board's dimensions |
| HoppersRules.HopCounts | src/puzzles/model/HoppersConfig.java:153-158 | a hop removes exactly one green frog, keeps the red frogs, and so removes one frog in all |
| HoppersRules.HopsFromAdd | src/puzzles/model/HoppersConfig.java:143-209 | the hops of a set of frogs plus one more frog are the earlier hops together with that frog's hops |
| HoppersRules.HopsTowardAdd | src/puzzles/model/HoppersConfig.java:153-209 | testing one more direction adds that direction's hop exactly when the hop is possible |
| HoppersRules.NeighborCounts | src/puzzles/model/HoppersConfig.java:140-211 | every neighbour is one hop of a frog over a green frog onto a lily pad; it has one green frog fewer, as many red frogs, and one frog fewer |
| HoppersRules.NeighborNotSolved | src/puzzles/model/HoppersConfig.java:153-158 | a board with a neighbour still holds a green frog |
| HoppersRules.SolvedHasNoNeighbors | src/puzzles/model/HoppersConfig.java:332-341 | a board without green frogs has no neighbours |
| HoppersRules.NoGreenIffNoneCounted | src/puzzles/model/HoppersConfig.java:332-341 | no cell is green exactly when the green count is zero |
| HoppersRules.ValidMoveIffHop | src/puzzles/model/HoppersConfig.java:398-465 | the validator returns cell m for a move exactly when some direction's hop is possible, lands on the finish and jumps m |
| HoppersRules.DirectionOf | src/puzzles/model/HoppersConfig.java:401-462 | every displacement the validator accepts (4 along a row or column, or 2 on both axes) is one direction's hop, and the returned cell is its midpoint |
| HoppersRules.DestOfDirection | src/puzzles/model/HoppersConfig.java:401-462 | every direction's hop has an accepted displacement, and its midpoint is the jumped cell |
| HoppersRules.ValidMoveIsNeighbor | src/puzzles/model/HoppersConfig.java:398-465 | a move the validator accepts, made by a frog, yields a neighbour of the board |
| HoppersRules.NeighborIsValidMove | src/puzzles/model/HoppersConfig.java:398-465 | every neighbour of the board is the result of some move the validator accepts |
| Hoppers.HoppersConfig.constructor | src/puzzles/model/HoppersConfig.java:61-83 | the new configuration's fresh array holds the given board, once the file has been read |
| Hoppers.HoppersConfig.Copy | src/puzzles/model/HoppersConfig.java:90-103 | the copy has a fresh array with the same dimensions and the same cells |
| Hoppers.HoppersConfig.SetBoard | src/puzzles/model/HoppersConfig.java:112-114 | the board afterwards is the old board with that one cell written |
| Hoppers.HoppersConfig.TopLeft | src/puzzles/model/HoppersConfig.java:220-225 | the guard holds exactly when the north-west hop stays on the board, jumps a green frog and lands on a lily pad |
| Hoppers.HoppersConfig.TopRight | src/puzzles/model/HoppersConfig.java:234-239 | likewise for the north-east hop |
| Hoppers.HoppersConfig.BottomLeft | src/puzzles/model/HoppersConfig.java:248-253 | likewise for the south-west hop |
| Hoppers.HoppersConfig.BottomRight | src/puzzles/model/HoppersConfig.java:262-267 | likewise for the south-east hop |
| Hoppers.HoppersConfig.Left | src/puzzles/model/HoppersConfig.java:276-281 | likewise for the hop four cells west |
| Hoppers.HoppersConfig.Right | src/puzzles/model/HoppersConfig.java:290-295 | likewise for the hop four cells east |
| Hoppers.HoppersConfig.Up | src/puzzles/model/HoppersConfig.java:304-309 | likewise for the hop four cells north |
| Hoppers.HoppersConfig.Down | src/puzzles/model/HoppersConfig.java:318-323 | likewise for the hop four cells south |
| Hoppers.HoppersConfig.FindFrog | src/puzzles/model/HoppersConfig.java:122-132 | the loop finds exactly the cells holding a frog |
| Hoppers.HoppersConfig.HopCopy | src/puzzles/model/HoppersConfig.java:153-158 | a copy on which the frog has hopped toward the given direction is exactly the hop of the board |
| Hoppers.HoppersConfig.TryHop | src/puzzles/model/HoppersConfig.java:153-158 | one guarded branch adds the direction's hop to the hops so far exactly when its guard is open |
| Hoppers.HoppersConfig.HopsOfFrog | src/puzzles/model/HoppersConfig.java:144-208 | the eight guarded branches for one frog produce exactly that frog's hops |
| Hoppers.HoppersConfig.MakeHop | src/puzzles/model/HoppersConfig.java:140-211 | the loop over the frogs produces exactly the neighbours of the board |
| Hoppers.HoppersConfig.GetNeighbors | src/puzzles/model/HoppersConfig.java:349-353 | the result is the neighbours, each of the board's dimensions with one green frog fewer and as many red frogs |
| Hoppers.HoppersConfig.IsSolution | src/puzzles/model/HoppersConfig.java:332-341 | the scan says solved exactly when no cell is green, that is, when the green count is zero; red frogs do not matter |
| Hoppers.HoppersConfig.CheckCoordinates | src/puzzles/model/HoppersConfig.java:362-364 | true exactly when the cell is on the board |
| Hoppers.HoppersConfig.ContainsLilypad | src/puzzles/model/HoppersConfig.java:373-375 | true exactly when the cell is a lily pad |
| Hoppers.HoppersConfig.ContainsFrog | src/puzzles/model/HoppersConfig.java:385-387 | true exactly when the cell is one of the board's frogs |
| Hoppers.HoppersConfig.IsValidMove | src/puzzles/model/HoppersConfig.java:398-465 | the eight tests return the cell `ValidMove` returns: a cell only for a lily-pad finish at hop distance with a green midpoint, and that midpoint |
| Hoppers.HoppersConfig.MakeHopMove | src/puzzles/model/HoppersConfig.java:477-481 | the third cell gets the first cell's old contents, the second and first become lily pads, nothing else changes |
| Hoppers.HoppersConfig.Equals | src/puzzles/model/HoppersConfig.java:508-518 | the cell-by-cell comparison is true exactly when the two boards are equal |
| HoppersGame.SelectStep | src/puzzles/model/HoppersModel.java:90-123 | every selection keeps the buffer empty or holding one cell of the board, and keeps the board's dimensions |
| HoppersGame.OffBoardChangesNothing | src/puzzles/model/HoppersModel.java:120-122 | a selection off the board reports an invalid selection and changes neither the buffer nor the board |
| HoppersGame.FirstSelection | src/puzzles/model/HoppersModel.java:92-103 | a first selection records the cell exactly when it holds a frog, reports "selected" exactly then, reports "no frog" exactly for a lily pad, reports an invalid selection exactly for a cell that is neither, and never changes the board |
| HoppersGame.SecondSelectionClears | src/puzzles/model/HoppersModel.java:104-118 | any second selection on the board empties the buffer and reports a jump or a refusal |
| HoppersGame.SecondSelectionHops | src/puzzles/model/HoppersModel.java:105-117 | a second selection hops exactly when the pending cell holds a frog and the validator accepts; the hop jumps the returned cell; otherwise the board is unchanged |
| HoppersGame.SelectFollowsRules | src/puzzles/model/HoppersModel.java:105-110 | the board changes exactly when a jump is reported, to a neighbour of the old board with one green frog fewer |
| HoppersGame.HoppersModel.constructor | src/puzzles/model/HoppersModel.java:58-66 | the model plays the given configuration with an empty buffer |
| HoppersGame.HoppersModel.Select | src/puzzles/model/HoppersModel.java:90-123 | the message, the new buffer and the new board are those of `SelectStep` on the old state, and the buffer invariant is kept |
| Crossing.Start | src/puzzles/crossing/CrossingConfig.java:50-55 | the start has the boat on the left, the given totals, and nobody on the right |
| Crossing.FromArraysOfArrays | src/puzzles/crossing/CrossingConfig.java:64-69 | building a configuration from its own arrays gives it back |
| Crossing.FromArrays | src/puzzles/crossing/CrossingConfig.java:64-69 | a configuration built from arrays has the given side and holds the first two entries of each array |
| Crossing.Neighbors | src/puzzles/crossing/CrossingConfig.java:94-146 | every neighbour has the boat on the other bank and the same totals |
| Crossing.NeighborsByMove | src/puzzles/crossing/CrossingConfig.java:97-144 | each of the six guarded additions is the crossing of one move from the boat's bank |
| Crossing.NeighborsAreMoves | src/puzzles/crossing/CrossingConfig.java:94-146 | the neighbours are exactly the crossings of the moves (two pups, one pup, one wolf) that the boat's bank can supply |
| Crossing.NeighborCount | src/puzzles/crossing/CrossingConfig.java:94-146 | there is one neighbour per enabled move, so at most three |
| Crossing.CarryInjective | src/puzzles/crossing/CrossingConfig.java:97-143 | different moves lead to different configurations |
| Crossing.NeighborFlipsSide | src/puzzles/crossing/CrossingConfig.java:97-143 | every neighbour has the boat on the other bank |
| Crossing.NeighborConserves | src/puzzles/crossing/CrossingConfig.java:99-142 | every neighbour has the same total of pups and the same total of wolves |
| Crossing.NeighborNonNegative | src/puzzles/crossing/CrossingConfig.java:99-142 | the guards keep every count non-negative |
| Crossing.IsSolution | src/puzzles/crossing/CrossingConfig.java:82-86 | a solution has the boat on the right and the given totals, and is not the start |
| Crossing.StartIsNotSolution | src/puzzles/crossing/CrossingConfig.java:82-86 | the start is never a solution |
| Crossing.SolutionIsMirrorOfStart | src/puzzles/crossing/CrossingConfig.java:82-86 | a configuration is a solution exactly when it is the start with everyone, the boat included, on the right |
| Crossing.PathInvariant | src/puzzles/crossing/CrossingConfig.java:94-146 | along any sequence of crossings from the start, the totals are kept, no count is negative, the boat is on the right exactly after an odd number of crossings, and a solution is reached only after an odd number |
| Crossing.Equals | src/puzzles/crossing/CrossingConfig.java:172-181 | `equals` holds exactly when the two configurations agree in everything except the boat side; equal configurations have equal totals |
| Crossing.EqualsIgnoresSide | src/puzzles/crossing/CrossingConfig.java:172-193 | `equals` holds between a solution and a configuration that is not one, and these two have different neighbours |
| Crossing.SameStateInterchangeable | src/puzzles/crossing/CrossingConfig.java:191-193 | configurations equal in counts and side are the same value, so agree on the goal and on the neighbours |
| Strings.ToChar | src/puzzles/strings/StringsConfig.java:72-77 | the narrowing cast keeps every value of the 16-bit range, wraps 0x10000 to 0 and wraps -1 to 0xFFFF |
| Strings.Next | src/puzzles/strings/StringsConfig.java:72-84 | the successor always differs from the character; on a capital letter it is a capital letter, one more than the character unless the character is Z |
| Strings.Previous | src/puzzles/strings/StringsConfig.java:72-84 | the predecessor always differs from the character; on a capital letter it is a capital letter, one less than the character unless the character is A |
| Strings.BumpsAt | src/puzzles/strings/StringsConfig.java:70-92 | the two configurations built at position `i` replace that character by its successor and by its predecessor |
| Strings.MovesChange | src/puzzles/strings/StringsConfig.java:72-84 | moving a character up or down always changes it, and the two moves never give the same character |
| Strings.Neighbors | src/puzzles/strings/StringsConfig.java:68-94 | every neighbour keeps start, end and the length of the current string; an empty current string has none |
| Strings.NeighborsBelowStep | src/puzzles/strings/StringsConfig.java:86-93 | one more position adds its two neighbours |
| Strings.StepAddsTwo | src/puzzles/strings/StringsConfig.java:86-93 | the two neighbours made at a position are new, and all made so far agree with the current string after it |
| Strings.GetNeighbors | src/puzzles/strings/StringsConfig.java:66-96 | the loop produces exactly the neighbours, and there are exactly twice as many as characters |
| Strings.NeighborIff | src/puzzles/strings/StringsConfig.java:68-94 | the neighbours are exactly the configurations that keep start and end and change one character of the current string to its successor or its predecessor |
| Strings.NeighborDiffersOnce | src/puzzles/strings/StringsConfig.java:68-93 | every neighbour keeps start, end and the length, and differs from the current string in exactly one position |
| Strings.EmptyHasNoNeighbors | src/puzzles/strings/StringsConfig.java:68-94 | an empty current string has no neighbours |
| Strings.IsSolution | src/puzzles/strings/StringsConfig.java:56-58 | a configuration is a solution exactly when `equals` identifies it with the configuration whose current string is the end |
| Strings.NeighborOfSolution | src/puzzles/strings/StringsConfig.java:56-58 | a neighbour of a solution is not a solution |
| Strings.NextPreviousInverse | src/puzzles/strings/StringsConfig.java:72-84 | on capital letters, successor and predecessor stay among the capitals and undo each other ('A' follows 'Z') |
| Strings.NeighborStaysUpper | src/puzzles/strings/StringsConfig.java:72-84 | a neighbour of an all-capital string is all capitals |
| Strings.NeighborSymmetric | src/puzzles/strings/StringsConfig.java:68-94 | on all-capital strings, the neighbour relation is symmetric |
| Strings.Equals | src/puzzles/strings/StringsConfig.java:116-123 | `equals` holds exactly when the two configurations agree in everything except start and end |
| Strings.EqualsInterchangeable | src/puzzles/strings/StringsConfig.java:116-133 | two configurations that `equals` identifies, with the same end, agree on the goal and have neighbours with the same current strings |

## Left out

- The breadth-first solver and its statistics are not modelled. `hint` and `noSolution` in `HoppersModel`, and the two solver front ends, only call that solver, and its source is not part of this model.
- File parsing is not modelled:
  - The file constructor of `HoppersConfig` reads the board from a file. The model's constructor takes the board the file would give.
  - `HoppersModel`'s constructor first loads a file, and on failure only notifies observers. The model's constructor takes the loaded configuration.
  - `reset` and `load` are not modelled: they read a file. They replace the configuration but leave `firstCoord` as it was. After loading a smaller board, the source's next `select` can index a pending cell off the new board. `PendingOk`'s in-bounds half holds in the model only because these two operations are left out.
- The observer registry and `alertObservers` are not modelled. Each message is `Select`'s result instead. The message wording is reduced to the kind of message and the coordinates it mentions.
- The console front end (`HoppersPTUI`) is not modelled: it is console input and output.
- `toString` and `rowsColsBoard` are not modelled: they are display formatting. The inner loop of `rowsColsBoard` is bounded by the row count where the column count is evidently meant. Since rendering is not modelled, this is not carried further.
- `hashCode` is not modelled as numbers:
  - Only equality is modelled.
  - `StringsConfig.hashCode` hashes only `current`, which `Strings.Equals` compares.
  - `CrossingConfig.hashCode` includes the side, which its `equals` does not (see Findings).
- The cursor fields of `HoppersConfig` are not modelled: no rule reads them. The copy constructor's cursor bookkeeping is therefore dropped.
- Java's 32-bit `int` is not modelled in `Crossing` and in the coordinates: counts and coordinates are unbounded integers.
  - The totals and the board dimensions are assumed small, so `rightSide + 2` and `row + 4` do not overflow. The code that reads the totals, the river-crossing front end, is not part of this model.
  - Java's 16-bit `char` is modelled exactly in `Strings`.
- `getRows`, `getCols`, `getBoard`, `getName` and `getCurrentConfig` are plain accessors. They are visible directly as `Rows()`, `Cols()`, `Cells()`, the datatype field `current` and the class field `currentConfig`.
- The file name and `getFilename` (HoppersModel.java:228-230) are not modelled, with file loading.
- Hoppers.HoppersConfig.Equals: requires the other board to have the same dimensions. The source compares over the shared static dimensions and never compares boards of different sizes.
- Hoppers.HoppersConfig.HopCopy: makes its three writes to the copy through `SetBoard`. The source writes the copy's array directly; the effect is the same.
- Hoppers.HoppersConfig.ContainsLilypad, Hoppers.HoppersConfig.ContainsFrog and Hoppers.HoppersConfig.IsValidMove: require their cells to be on the board. For an off-board cell the source throws an `ArrayIndexOutOfBoundsException`, which is not modelled. `select` calls them only on cells that `checkCoordinates` accepted, or on the pending cell.
- `makeHop` evaluates all eight guards of a frog before building any copy. The model evaluates each guard just before its branch. No branch changes the board, so each guard sees the same board either way.

## Findings

| source | as written | input that shows it | evidently intended | confidence | as-written member | corrected member |
|---|---|---|---|---|---|---|
| src/puzzles/crossing/CrossingConfig.java:172-181 | `equals` compares the four counts but not the boat side, while `hashCode` (lines 191-193) does include the side, so equal objects may hash differently | left = [0, 0], right = [1, 1] with the boat on the left versus on the right: `equals` is true, yet only the second is a solution and only the second has neighbours | two configurations are equal when counts and side all agree, consistent with `hashCode` | not executed; certain from the code, but the effect on the solver depends on how its visited set (not part of this model) treats hash collisions | Crossing.EqualsIgnoresSide | Crossing.SameStateInterchangeable |
