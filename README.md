# Factory floor blocks world, modelled in Dafny

`FactoryFloor` keeps a row of N floor positions and N blocks, with ids
`0..N-1`. Block `i` starts on position `i`, its home position. Each position
holds a stack of blocks, listed bottom to top. The object keeps two structures
in step:

- `blockPosition`, a map from block to position;
- `blocksOnPosition`, the stack on each position.

Two primitives change them:

- `putBlock` pushes a block and records it;
- `takeBlock` pops the top block and forgets it.

Two helpers are built on the primitives:

- `movePosition` moves a block, and everything above it, onto the top of
  another stack, in the same order;
- `resetPosition` sends every block above a given block back to its home.

`move` is the policy behind the four public commands: `moveOnto`, `moveOver`,
`pileOnto` and `pileOver`. It returns false for equal blocks, and fails with
NotFound for unknown ids. It returns false, changing nothing, when the two
blocks already share a position. Otherwise it may reset the source and the
target, then moves the pile and returns true.

The project has five files:

- `floor_spec.dfy` (module `FloorSpec`) describes a floor as values:
  - `Floor` is `seq<seq<int>>` (the stacks) and `Where` is `map<int, int>`
    (`blockPosition`);
  - `Transfer`, `Reset` and `MoveFloor` give the floor after `movePosition`,
    `resetPosition` and `move`;
  - `Consistent` is the invariant of a quiescent floor;
  - `MovePolicy` is the contract of `move`.
- `floor_lemmas.dfy` (module `FloorLemmas`) proves:
  - that construction, `movePosition`, `resetPosition` and `move` keep the
    invariant;
  - what each operation does to every stack and to `blockPosition`.
- `factory_floor.dfy` (module `Factory`) is the class `FactoryFloor`:
  - it has the two fields, updated in place;
  - `PutBlock` and `TakeBlock` are the primitives;
  - `MovePosition` has the source's two loops over a temporary pile;
  - `ResetPosition` has the source's peek-and-break loop;
  - `Move` and the four wrappers call the helpers in the source's order;
  - each method is proved against the functions of `FloorSpec`.
- `floor_scenarios.dfy` (module `FloorScenarios`) holds the worked examples
  of `FactoryFloorTest.java`, as equalities between concrete floors.
- `class_scenarios.dfy` (module `ClassScenarios`) replays those tests against
  the class. Each method makes a test's calls in order, and states each call's
  result and the final stacks.

The invariant `Consistent(st, pos)` has three parts:

- every block `0..N-1` is in exactly one stack, once;
- `blockPosition` records each block at the stack that holds it, and records
  nothing else;
- every non-empty position has its home block at the bottom.

The code never states the third part, but it follows from the code. It is what
makes `resetPosition` terminate: every block it lifts goes to an empty home,
and never back onto the same stack. It also keeps a reset away from the other
side of a move (`ResetSparesOccupied`).

Exceptions are modelled as a `Result` value:

- `newInstance` with a negative count gives `Err(InvalidArgument)`;
- an id outside `[0, N)` gives `Err(NotFound)`.

## Model

| member | source | states |
|---|---|---|
| Factory.FactoryFloor.NewInstance | src/main/java/com/mrsnottypants/factory/FactoryFloor.java:22-26 | Fails with InvalidArgument exactly when the count is negative. Otherwise it returns a fresh, consistent floor where position i holds [i] and block i is recorded at i; a count of 0 gives the empty floor. |
| Factory.FactoryFloor.constructor | src/main/java/com/mrsnottypants/factory/FactoryFloor.java:33-44 | The loop over positions builds Initial(n) and InitialWhere(n), and the result satisfies the invariant. |
| Factory.FactoryFloor.PutBlock | src/main/java/com/mrsnottypants/factory/FactoryFloor.java:53-60 | Records the block at the position and pushes it onto that stack; nothing else changes. |
| Factory.FactoryFloor.TakeBlock | src/main/java/com/mrsnottypants/factory/FactoryFloor.java:68-78 | Returns the top block, pops it off the stack and removes its blockPosition entry; nothing else changes. |
| Factory.FactoryFloor.ConfirmLegal | src/main/java/com/mrsnottypants/factory/FactoryFloor.java:84-88 | Passes exactly when 0 <= id < N, where N is the number of positions; otherwise fails with NotFound. |
| Factory.FactoryFloor.GetBlocksAt | src/main/java/com/mrsnottypants/factory/FactoryFloor.java:96-103 | Fails with NotFound exactly for an illegal position; otherwise returns that position's stack, bottom first. |
| Factory.FactoryFloor.GetBlockPosition | src/main/java/com/mrsnottypants/factory/FactoryFloor.java:110-117 | Fails with NotFound exactly for an illegal block. Otherwise it returns the block's recorded position, which is the one and only stack holding the block. |
| Factory.FactoryFloor.MovePosition | src/main/java/com/mrsnottypants/factory/FactoryFloor.java:224-241 | The stacks become Transfer(old, from, to, block): block and everything above it leave `from` and land, in order, on `to`. Exactly the moved blocks are re-recorded at `to`. If block is absent, the whole stack moves. |
| Factory.FactoryFloor.ResetPosition | src/main/java/com/mrsnottypants/factory/FactoryFloor.java:203-216 | The loop ends with block on top of the position and every block that was above it on its home position (Reset); blockPosition records those blocks at home (ResetWhere). |
| Factory.FactoryFloor.Move | src/main/java/com/mrsnottypants/factory/FactoryFloor.java:171-195 | Keeps the invariant and follows MovePolicy. Equal ids give false with no change, before any validation. An unknown id gives NotFound with no change. Blocks on one position give false with no change. Otherwise the result is true and the floor becomes MoveFloor: optional reset of the source, optional reset of the target, then the transfer. |
| Factory.FactoryFloor.MoveOnto | src/main/java/com/mrsnottypants/factory/FactoryFloor.java:126-128 | move with both resets. On success, blockFrom alone sits directly on blockTo; the source keeps what was below blockFrom. |
| Factory.FactoryFloor.MoveOver | src/main/java/com/mrsnottypants/factory/FactoryFloor.java:137-139 | move with the source reset. On success, blockFrom alone lands on top of the target's whole stack. |
| Factory.FactoryFloor.PileOnto | src/main/java/com/mrsnottypants/factory/FactoryFloor.java:148-150 | move with the target reset. On success, blockFrom and the blocks above it land, in order, directly on blockTo. |
| Factory.FactoryFloor.PileOver | src/main/java/com/mrsnottypants/factory/FactoryFloor.java:158-160 | move with no reset. On success, blockFrom's pile lands, in order, on top of the target's whole stack. |
| FloorSpec.Initial | src/main/java/com/mrsnottypants/factory/FactoryFloor.java:40-43 | The initial floor has n positions, and position i holds exactly [i]. |
| FloorSpec.Cut | src/main/java/com/mrsnottypants/factory/FactoryFloor.java:228-235 | The first loop of movePosition stops at the topmost occurrence of the block; when the block is absent it empties the stack. |
| FloorSpec.InitialWhere | src/main/java/com/mrsnottypants/factory/FactoryFloor.java:40-43 | blockPosition as built, with block i recorded at i. It has no contract of its own; InitialWhereIs states its domain and values. |
| FloorSpec.Consistent | src/main/java/com/mrsnottypants/factory/FactoryFloor.java:10-14 | The invariant over the two fields: every block 0..N-1 is in exactly one stack, once; blockPosition records exactly those blocks, each at its stack; a non-empty position has its home block at the bottom. ExactlyOnce and PositionsDetermined state what it implies. |
| FloorSpec.ResetAbove | src/main/java/com/mrsnottypants/factory/FactoryFloor.java:207-215 | The floor after the loop has sent home every block above the lowest `keep` blocks. Stack p is cut to its first `keep` blocks, and every other stack is unchanged or gains its own home block. |
| FloorSpec.Reset | src/main/java/com/mrsnottypants/factory/FactoryFloor.java:203-216 | resetPosition's floor: stack p is cut back to the stop block, which is then on top, and every other stack is unchanged or gains its own home block. |
| FloorSpec.ResetWhere | src/main/java/com/mrsnottypants/factory/FactoryFloor.java:203-216 | resetPosition's blockPosition: each block above the stop block is recorded at its own id. SendHomeIs states its domain and values. |
| FloorSpec.MoveFloor | src/main/java/com/mrsnottypants/factory/FactoryFloor.java:185-194 | move's floor: the optional resets, then the transfer. Its own contract only keeps the number of positions; MoveFloorEnds and MoveFloorElsewhere state what becomes of every stack. |
| FloorSpec.MovePolicy | src/main/java/com/mrsnottypants/factory/FactoryFloor.java:171-195 | The contract of move, in the source's order. Equal ids give false with no change, before any validation. An unknown id gives NotFound with no change. Blocks on one position give false with no change. Otherwise the result is true, the invariant holds, and the floor is MoveFloor. |
| FloorSpec.Transfer | src/main/java/com/mrsnottypants/factory/FactoryFloor.java:224-241 | movePosition leaves the prefix below the block on `from` and appends the rest, in order, to `to`. Every other stack is unchanged, and moving onto the same position changes nothing. |
| FloorLemmas.CutUnique | src/main/java/com/mrsnottypants/factory/FactoryFloor.java:228-235 | Any index holding the block with no copy of it above is where the popping loop stops. |
| FloorLemmas.TakeThenPut | src/main/java/com/mrsnottypants/factory/FactoryFloor.java:224-241 | Forgetting the moved blocks one by one, then recording them one by one at `to`, re-records exactly those blocks at `to`. |
| FloorLemmas.InitialWhereIs | src/main/java/com/mrsnottypants/factory/FactoryFloor.java:40-43 | After construction blockPosition knows exactly the blocks 0..n-1, and getBlockPosition(i) == i. |
| FloorLemmas.InitialConsistent | src/main/java/com/mrsnottypants/factory/FactoryFloor.java:33-44 | The floor as constructed satisfies the invariant. |
| FloorLemmas.ExactlyOnce | src/main/java/com/mrsnottypants/factory/FactoryFloor.java:10-14 | Under the invariant, each block 0..N-1 occurs exactly once on the whole floor, and no other value occurs. |
| FloorLemmas.PositionsDetermined | src/main/java/com/mrsnottypants/factory/FactoryFloor.java:10-14 | Under the invariant, blockPosition is determined by the stacks alone. |
| FloorLemmas.OnlyPosition | src/main/java/com/mrsnottypants/factory/FactoryFloor.java:110-117 | A legal block is recorded at a stack that holds it, and at no other. |
| FloorLemmas.AwayMeansHomeEmpty | src/main/java/com/mrsnottypants/factory/FactoryFloor.java:203-216 | A block above the bottom of a stack is away from home, and its home position is empty. |
| FloorLemmas.TransferConsistent | src/main/java/com/mrsnottypants/factory/FactoryFloor.java:224-241 | movePosition keeps the invariant when it moves onto an occupied position, or moves a block onto its own empty home. |
| FloorLemmas.ResetStep | src/main/java/com/mrsnottypants/factory/FactoryFloor.java:210-214 | One round of resetPosition's loop: moving the top block onto its home resets the stack one block further down. |
| FloorLemmas.ResetRound | src/main/java/com/mrsnottypants/factory/FactoryFloor.java:207-215 | One round of the loop, on both structures: the floor and blockPosition after movePosition(p, x, x) are those with one more block sent home. |
| FloorLemmas.ResetDone | src/main/java/com/mrsnottypants/factory/FactoryFloor.java:209-211 | The loop breaks exactly when the stop block is on top, and the floor is then the reset floor. |
| FloorLemmas.AwayAbove | src/main/java/com/mrsnottypants/factory/FactoryFloor.java:203-216 | Under the invariant every stack can be reset: it has no repeats, and every block above its bottom is a legal id other than the position's own. |
| FloorLemmas.SendHomeIs | src/main/java/com/mrsnottypants/factory/FactoryFloor.java:203-216 | After a reset, blockPosition records each block sent home at its own id and leaves every other entry alone. |
| FloorLemmas.ResetConsistent | src/main/java/com/mrsnottypants/factory/FactoryFloor.java:203-216 | resetPosition keeps the invariant. |
| FloorLemmas.ResetEffect | src/main/java/com/mrsnottypants/factory/FactoryFloor.java:203-216 | Every block above the stop block lands on its empty home, alone. Every position that is not the reset one and not a home of such a block is unchanged. |
| FloorLemmas.ResetSparesOccupied | src/main/java/com/mrsnottypants/factory/FactoryFloor.java:185-190 | A reset never changes another non-empty stack, so resetting one side of a move never lands a block on the other side. |
| FloorLemmas.ResetOnTop | src/main/java/com/mrsnottypants/factory/FactoryFloor.java:209-211 | A reset to the block already on top leaves the floor unchanged. |
| FloorLemmas.ResetTopIs | src/main/java/com/mrsnottypants/factory/FactoryFloor.java:203-216 | After a reset the stop block is the top of its stack, and the blocks below it are unchanged. |
| FloorLemmas.MoveResettable | src/main/java/com/mrsnottypants/factory/FactoryFloor.java:185-190 | Each stack that move resets can be reset when its turn comes, and blockTo is still on the target after the source has been reset. |
| FloorLemmas.MoveConsistent | src/main/java/com/mrsnottypants/factory/FactoryFloor.java:185-194 | The resets and the final movePosition of a move together keep the invariant. |
| FloorLemmas.MoveFloorEnds | src/main/java/com/mrsnottypants/factory/FactoryFloor.java:185-194 | After a move the source keeps what was below blockFrom. The target is cut back to blockTo when it is reset, and then receives blockFrom alone when the source was reset, or blockFrom's whole pile otherwise. |
| FloorLemmas.MoveFloorElsewhere | src/main/java/com/mrsnottypants/factory/FactoryFloor.java:185-194 | Every other position is unchanged, except that a home position gets its own block back when a reset lifted that block. |
| FloorLemmas.MoveOntoEffect | src/main/java/com/mrsnottypants/factory/FactoryFloor.java:126-128 | After a successful moveOnto, blockFrom is recorded at the target, sits directly on blockTo and is the top of the target. |
| FloorLemmas.MoveOverEffect | src/main/java/com/mrsnottypants/factory/FactoryFloor.java:137-139 | After a successful moveOver, blockFrom alone is appended to the target's whole stack and recorded there. |
| FloorLemmas.PileOntoEffect | src/main/java/com/mrsnottypants/factory/FactoryFloor.java:148-150 | After a successful pileOnto, blockFrom's pile is placed directly on blockTo, in order. |
| FloorLemmas.PileOverEffect | src/main/java/com/mrsnottypants/factory/FactoryFloor.java:158-160 | After a successful pileOver, blockFrom's pile is appended, in order, to the target's whole stack. |
| FloorLemmas.DistinctSplit | src/main/java/com/mrsnottypants/factory/FactoryFloor.java:228-235 | Splitting a stack without repeats gives two parts without repeats that share no block. |
| FloorScenarios.MoveOntoBasic | src/test/java/com/mrsnottypants/factory/FactoryFloorTest.java:61-71 | moveOnto(1, 2) on a new floor of four gives 0: 0, 1: empty, 2: 2 1, 3: 3. |
| FloorScenarios.MoveOntoResetFrom | src/test/java/com/mrsnottypants/factory/FactoryFloorTest.java:74-85 | A following moveOnto(2, 3) first sends 1 home, giving 0: 0, 1: 1, 2: empty, 3: 3 2. |
| FloorScenarios.MoveOntoResetTo | src/test/java/com/mrsnottypants/factory/FactoryFloorTest.java:88-99 | A following moveOnto(3, 2) first sends 1 home, giving 0: 0, 1: 1, 2: 2 3, 3: empty. |
| FloorScenarios.MoveOverKeepsTarget | src/test/java/com/mrsnottypants/factory/FactoryFloorTest.java:166-177 | A following moveOver(3, 2) leaves 1 in place, giving 2: 2 1 3. |
| FloorScenarios.MoveOntoOther | src/test/java/com/mrsnottypants/factory/FactoryFloorTest.java:325-337 | A following moveOnto(3, 0) gives 0: 0 3, 2: 2 1. |
| FloorScenarios.PileOntoResetTo | src/test/java/com/mrsnottypants/factory/FactoryFloorTest.java:245-257 | pileOnto(2, 0) then sends 3 home and puts the pile 2 1 on 0, giving 0: 0 2 1, 3: 3. |
| FloorScenarios.PileOverKeepsTarget | src/test/java/com/mrsnottypants/factory/FactoryFloorTest.java:325-337 | pileOver(2, 0) instead puts the pile 2 1 on top of 3, giving 0: 0 3 2 1. |
| FloorScenarios.PileOverMovesPile | src/test/java/com/mrsnottypants/factory/FactoryFloorTest.java:310-322 | pileOver(1, 0) on 2: 2 1 3 moves 1 together with 3 above it, giving 0: 0 1 3, 2: 2. |
| FloorScenarios.PileOntoCarriesPile | src/test/java/com/mrsnottypants/factory/FactoryFloorTest.java:230-242 | pileOnto(1, 0) on 2: 2 1 3 finds nothing above 0, and moves 1 together with 3, giving 0: 0 1 3, 2: 2. |
| ClassScenarios.MoveOntoResetFromRun | src/test/java/com/mrsnottypants/factory/FactoryFloorTest.java:74-85 | On the class: moveOnto(1, 2) and then moveOnto(2, 3) both return true, and the stacks end as 0: 0, 1: 1, 2: empty, 3: 3 2. |
| ClassScenarios.MoveOntoResetToRun | src/test/java/com/mrsnottypants/factory/FactoryFloorTest.java:88-99 | On the class: moveOnto(1, 2) and then moveOnto(3, 2) both return true, and the stacks end as 0: 0, 1: 1, 2: 2 3, 3: empty. |
| ClassScenarios.MoveOntoNoOpRun | src/test/java/com/mrsnottypants/factory/FactoryFloorTest.java:102-127 | On the class, after moveOnto(1, 2): moveOnto(2, 2) (same block) and moveOnto(2, 1) (same position) both return false, and the stacks stay 0: 0, 1: empty, 2: 2 1, 3: 3. |
| ClassScenarios.PileOntoDontResetFromRun | src/test/java/com/mrsnottypants/factory/FactoryFloorTest.java:230-242 | On the class: moveOnto(1, 2), moveOver(3, 2) and then pileOnto(1, 0) all return true, ending with 0: 0 1 3, 2: 2. |
| ClassScenarios.PileOverDontResetFromRun | src/test/java/com/mrsnottypants/factory/FactoryFloorTest.java:310-322 | On the class: moveOnto(1, 2), moveOver(3, 2) and then pileOver(1, 0) all return true, ending with 0: 0 1 3, 2: 2. |
| ClassScenarios.PileOntoResetToRun | src/test/java/com/mrsnottypants/factory/FactoryFloorTest.java:245-257 | On the class: moveOnto(1, 2), moveOnto(3, 0) and then pileOnto(2, 0) all return true, ending with 0: 0 2 1, 3: 3. |
| ClassScenarios.PileOverDontResetToRun | src/test/java/com/mrsnottypants/factory/FactoryFloorTest.java:325-337 | On the class: moveOnto(1, 2), moveOnto(3, 0) and then pileOver(2, 0) all return true, ending with 0: 0 3 2 1 and the other positions empty. |
| ClassScenarios.SetupRun | src/test/java/com/mrsnottypants/factory/FactoryFloorTest.java:26-39 | On a new floor of eight, getBlocksAt(i) returns [i] and getBlockPosition(i) returns i for every position i, read in a loop like the test's. |
| ClassScenarios.SetupIllegalRun | src/test/java/com/mrsnottypants/factory/FactoryFloorTest.java:42-44 | newInstance(-1) fails with InvalidArgument. |
| ClassScenarios.NoSuchElementRun | src/test/java/com/mrsnottypants/factory/FactoryFloorTest.java:47-57 | On a floor of four, getBlocksAt and getBlockPosition fail with NotFound for -1 and for 4. moveOnto fails with NotFound when either id is -1 or 4, and the stacks stay as built. |

## Left out

- `toString` and `output` only render the floor as text, so they are not modelled.
- `getBlocksAt` returns a live read-only view of the stack in Java. The model
  returns a snapshot of the sequence, so later changes seen through an old view
  are not captured.
- `HashMap` and `Stack` are modelled as a Dafny `map` and sequences. Their
  internals and their exceptions on misuse (popping an empty stack, unboxing a
  missing key) are not modelled.
- Ids are Java `int`s; the model uses unbounded integers. Overflow cannot arise,
  because ids are only compared and used as indices.
- Factory.FactoryFloor.PutBlock: requires the position to exist. The source
  only calls it with such a position and would throw otherwise.
- Factory.FactoryFloor.TakeBlock: requires a non-empty stack. The source only
  calls it inside a loop guarded by the stack's size.
- Factory.FactoryFloor.MovePosition: requires both positions to exist, which
  every caller guarantees.
- Factory.FactoryFloor.ResetPosition: requires that the block is on the
  position and that the stack can be reset (`Resettable`). `move` always
  provides both, and `MoveResettable` proves it. Without them the Java loop
  need not terminate: `movePosition(p, p, p)` pops and re-pushes the same block.
- Factory.FactoryFloor.Move and the four public moves require the invariant
  `Valid()` on entry. NewInstance and the constructor establish it, and Move,
  MoveOnto, MoveOver, PileOnto and PileOver keep it. PutBlock, TakeBlock,
  MovePosition and ResetPosition are private helpers in the source and do not
  keep it on their own: for example, TakeBlock leaves the block it returns
  unrecorded.
- One could expect a reset to drop a block onto the other side of a move. Under
  the invariant this cannot happen: the other side is not empty, and its bottom
  block is the only block whose home it is (`ResetSparesOccupied`).
- The console exercise `moveOntoExercise` in FactoryFloorTest.java only prints
  its result, so it is not among the scenarios. `Exceptions.java` is a test
  helper and is not part of this model.
