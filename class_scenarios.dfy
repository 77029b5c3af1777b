/** The scenarios of FactoryFloorTest.java run against the class FactoryFloor:
    each method builds a floor, makes the test's calls in order and returns
    their results and the final stacks. */
module ClassScenarios {
  import opened FloorSpec
  import opened FloorLemmas
  import opened FloorScenarios
  import opened Factory

  /** Under the invariant, a block found on stack p is recorded at p. */
  lemma RecordedAt(st: Floor, pos: Where, b: int, p: int)
    requires Consistent(st, pos) && 0 <= b < |st| && 0 <= p < |st| && b in st[p]
    ensures b in pos && pos[b] == p
  {
    OnlyPosition(st, pos, b);
  }

  /** A new floor of four, then moveOnto(1, 2): 0: 0 | 1: | 2: 2 1 | 3: 3. */
  method OneOntoTwo() returns (f: FactoryFloor, r: Result<bool>)
    ensures fresh(f) && f.Valid() && r == Ok(true) && f.blocksOnPosition == OneOnTwo()
  {
    f := new FactoryFloor(4);
    InitialWhereIs(4);
    r := f.MoveOnto(1, 2);
    MoveOntoBasic();
  }

  /** testMoveOntoResetFrom: moveOnto(1, 2), then moveOnto(2, 3) sends 1 home first. */
  method MoveOntoResetFromRun() returns (r1: Result<bool>, r2: Result<bool>, floor: Floor)
    ensures r1 == Ok(true) && r2 == Ok(true) && floor == [[0], [1], [], [3, 2]]
  {
    var f;
    f, r1 := OneOntoTwo();
    RecordedAt(f.blocksOnPosition, f.blockPosition, 2, 2);
    RecordedAt(f.blocksOnPosition, f.blockPosition, 3, 3);
    r2 := f.MoveOnto(2, 3);
    MoveOntoResetFrom();
    floor := f.blocksOnPosition;
  }

  /** testMoveOntoResetTo: moveOnto(1, 2), then moveOnto(3, 2) sends 1 home first. */
  method MoveOntoResetToRun() returns (r1: Result<bool>, r2: Result<bool>, floor: Floor)
    ensures r1 == Ok(true) && r2 == Ok(true) && floor == [[0], [1], [2, 3], []]
  {
    var f;
    f, r1 := OneOntoTwo();
    RecordedAt(f.blocksOnPosition, f.blockPosition, 3, 3);
    RecordedAt(f.blocksOnPosition, f.blockPosition, 2, 2);
    r2 := f.MoveOnto(3, 2);
    MoveOntoResetTo();
    floor := f.blocksOnPosition;
  }

  /** testMoveOntoSameBlock and testMoveOntoSamePosition: after moveOnto(1, 2),
      moveOnto(2, 2) and moveOnto(2, 1) return false and change nothing. */
  method MoveOntoNoOpRun() returns (r1: Result<bool>, r2: Result<bool>, r3: Result<bool>, floor: Floor)
    ensures r1 == Ok(true) && r2 == Ok(false) && r3 == Ok(false) && floor == [[0], [], [2, 1], [3]]
  {
    var f;
    f, r1 := OneOntoTwo();
    r2 := f.MoveOnto(2, 2);
    RecordedAt(f.blocksOnPosition, f.blockPosition, 2, 2);
    RecordedAt(f.blocksOnPosition, f.blockPosition, 1, 2);
    r3 := f.MoveOnto(2, 1);
    floor := f.blocksOnPosition;
  }

  /** testMoveOverDontResetTo: after moveOnto(1, 2), moveOver(3, 2) leaves 1 in place. */
  method MoveOverRun() returns (f: FactoryFloor, r1: Result<bool>, r2: Result<bool>)
    ensures fresh(f) && f.Valid() && r1 == Ok(true) && r2 == Ok(true)
    ensures f.blocksOnPosition == [[0], [], [2, 1, 3], []]
  {
    f, r1 := OneOntoTwo();
    RecordedAt(f.blocksOnPosition, f.blockPosition, 3, 3);
    RecordedAt(f.blocksOnPosition, f.blockPosition, 2, 2);
    r2 := f.MoveOver(3, 2);
    MoveOverKeepsTarget();
  }

  /** testPileOntoDontResetFrom: then pileOnto(1, 0) carries 3 along with 1. */
  method PileOntoDontResetFromRun() returns (r1: Result<bool>, r2: Result<bool>, r3: Result<bool>, floor: Floor)
    ensures r1 == Ok(true) && r2 == Ok(true) && r3 == Ok(true) && floor == [[0, 1, 3], [], [2], []]
  {
    var f;
    f, r1, r2 := MoveOverRun();
    RecordedAt(f.blocksOnPosition, f.blockPosition, 1, 2);
    RecordedAt(f.blocksOnPosition, f.blockPosition, 0, 0);
    r3 := f.PileOnto(1, 0);
    PileOntoCarriesPile();
    floor := f.blocksOnPosition;
  }

  /** testPileOverDontResetFrom: then pileOver(1, 0) carries 3 along with 1. */
  method PileOverDontResetFromRun() returns (r1: Result<bool>, r2: Result<bool>, r3: Result<bool>, floor: Floor)
    ensures r1 == Ok(true) && r2 == Ok(true) && r3 == Ok(true) && floor == [[0, 1, 3], [], [2], []]
  {
    var f;
    f, r1, r2 := MoveOverRun();
    RecordedAt(f.blocksOnPosition, f.blockPosition, 1, 2);
    RecordedAt(f.blocksOnPosition, f.blockPosition, 0, 0);
    r3 := f.PileOver(1, 0);
    PileOverMovesPile();
    floor := f.blocksOnPosition;
  }

  /** moveOnto(1, 2), then moveOnto(3, 0): 0: 0 3 | 1: | 2: 2 1 | 3: . */
  method ThreeOntoZero() returns (f: FactoryFloor, r1: Result<bool>, r2: Result<bool>)
    ensures fresh(f) && f.Valid() && r1 == Ok(true) && r2 == Ok(true)
    ensures f.blocksOnPosition == [[0, 3], [], [2, 1], []]
  {
    f, r1 := OneOntoTwo();
    RecordedAt(f.blocksOnPosition, f.blockPosition, 3, 3);
    RecordedAt(f.blocksOnPosition, f.blockPosition, 0, 0);
    r2 := f.MoveOnto(3, 0);
    MoveOntoOther();
  }

  /** testPileOntoResetTo: then pileOnto(2, 0) sends 3 home and puts 2 1 on 0. */
  method PileOntoResetToRun() returns (r1: Result<bool>, r2: Result<bool>, r3: Result<bool>, floor: Floor)
    ensures r1 == Ok(true) && r2 == Ok(true) && r3 == Ok(true) && floor == [[0, 2, 1], [], [], [3]]
  {
    var f;
    f, r1, r2 := ThreeOntoZero();
    RecordedAt(f.blocksOnPosition, f.blockPosition, 2, 2);
    RecordedAt(f.blocksOnPosition, f.blockPosition, 0, 0);
    r3 := f.PileOnto(2, 0);
    PileOntoResetTo();
    floor := f.blocksOnPosition;
  }

  /** testPileOverDontResetTo: then pileOver(2, 0) puts 2 1 on top of 3. */
  method PileOverDontResetToRun() returns (r1: Result<bool>, r2: Result<bool>, r3: Result<bool>, floor: Floor)
    ensures r1 == Ok(true) && r2 == Ok(true) && r3 == Ok(true) && floor == [[0, 3, 2, 1], [], [], []]
  {
    var f;
    f, r1, r2 := ThreeOntoZero();
    RecordedAt(f.blocksOnPosition, f.blockPosition, 2, 2);
    RecordedAt(f.blocksOnPosition, f.blockPosition, 0, 0);
    r3 := f.PileOver(2, 0);
    PileOverKeepsTarget();
    floor := f.blocksOnPosition;
  }

  /** testSetup: on a new floor of eight, position i holds [i] and block i is at i. */
  method SetupRun() returns (blocks: seq<Result<seq<int>>>, positions: seq<Result<int>>)
    ensures |blocks| == 8 && |positions| == 8
    ensures forall i :: 0 <= i < 8 ==> blocks[i] == Ok([i]) && positions[i] == Ok(i)
  {
    var created := FactoryFloor.NewInstance(8);
    var f := created.value;
    InitialWhereIs(8);
    blocks, positions := [], [];
    for position := 0 to 8
      invariant |blocks| == position && |positions| == position
      invariant forall i :: 0 <= i < position ==> blocks[i] == Ok([i]) && positions[i] == Ok(i)
    {
      var b := f.GetBlocksAt(position);
      var p := f.GetBlockPosition(position);
      blocks, positions := blocks + [b], positions + [p];
    }
  }

  /** testSetupIllegal: a negative count is rejected. */
  method SetupIllegalRun() returns (r: Result<FactoryFloor>)
    ensures r == Err(InvalidArgument)
  {
    r := FactoryFloor.NewInstance(-1);
  }

  /** testGetBlocksAtNoSuchPosition, testGetBlockPositionNoSuchBlock and
      testMoveOntoNoSuchElement: ids -1 and 4 of a floor of four are unknown,
      and a failed move changes nothing. */
  method NoSuchElementRun() returns (at: seq<Result<seq<int>>>, of: seq<Result<int>>, moved: seq<Result<bool>>, floor: Floor)
    ensures at == [Err(NotFound), Err(NotFound)] && of == [Err(NotFound), Err(NotFound)]
    ensures moved == [Err(NotFound), Err(NotFound), Err(NotFound), Err(NotFound)]
    ensures floor == [[0], [1], [2], [3]]
  {
    var f := new FactoryFloor(4);
    var a1 := f.GetBlocksAt(-1);
    var a2 := f.GetBlocksAt(4);
    var p1 := f.GetBlockPosition(-1);
    var p2 := f.GetBlockPosition(4);
    at, of := [a1, a2], [p1, p2];
    var m1 := f.MoveOnto(-1, 0);
    var m2 := f.MoveOnto(4, 0);
    var m3 := f.MoveOnto(0, -1);
    var m4 := f.MoveOnto(0, 4);
    moved := [m1, m2, m3, m4];
    floor := f.blocksOnPosition;
  }
}
