/** The factory floor object: two structures kept in step, blockPosition
    (block id -> position) and blocksOnPosition (position -> stack of blocks,
    bottom first), updated in place by the move operations. */
module Factory {
  import opened FloorSpec
  import opened FloorLemmas

  class FactoryFloor {
    /** Where to find each block: block id -> floor position. A block being
        moved has no entry until it is put down again. */
    var blockPosition: Where

    /** The blocks on each floor position, bottom to top. */
    var blocksOnPosition: Floor

    /** The invariant between public operations: every block 0..N-1 is in
        exactly one stack, once, blockPosition agrees with the stacks, and a
        non-empty position has its home block at the bottom. */
    ghost predicate Valid()
      reads this
    {
      Consistent(blocksOnPosition, blockPosition)
    }

    /** A floor of positionCount positions, block i on position i; a negative
        count is rejected. */
    static method NewInstance(positionCount: int) returns (r: Result<FactoryFloor>)
      ensures r.Err? <==> positionCount < 0
      ensures r.Err? ==> r.error == InvalidArgument
      ensures r.Ok? ==> fresh(r.value) && r.value.Valid()
      ensures r.Ok? ==> r.value.blocksOnPosition == Initial(positionCount)
      ensures r.Ok? ==> r.value.blockPosition == InitialWhere(positionCount)
    {
      if positionCount < 0 {
        return Err(InvalidArgument);
      }
      var floor := new FactoryFloor(positionCount);
      return Ok(floor);
    }

    constructor (positionCount: nat)
      ensures Valid()
      ensures blocksOnPosition == Initial(positionCount)
      ensures blockPosition == InitialWhere(positionCount)
    {
      blockPosition := map[];
      blocksOnPosition := [];
      new;
      for position := 0 to positionCount
        invariant blocksOnPosition == Initial(position)
        invariant blockPosition == InitialWhere(position)
      {
        blocksOnPosition := blocksOnPosition + [[]];
        PutBlock(position, position);
        assert [] + [position] == [position];
      }
      InitialConsistent(positionCount);
    }

    /** Records block at position and pushes it onto that position's stack. */
    method PutBlock(position: int, block: int)
      requires 0 <= position < |blocksOnPosition|
      modifies this
      ensures blockPosition == old(blockPosition)[block := position]
      ensures blocksOnPosition == old(blocksOnPosition)[position := old(blocksOnPosition)[position] + [block]]
    {
      blockPosition := blockPosition[block := position];
      blocksOnPosition := blocksOnPosition[position := blocksOnPosition[position] + [block]];
    }

    /** Pops the top block of position and forgets where it was. */
    method TakeBlock(position: int) returns (block: int)
      requires 0 <= position < |blocksOnPosition| && blocksOnPosition[position] != []
      modifies this
      ensures var s := old(blocksOnPosition)[position];
        block == s[|s| - 1] && blocksOnPosition == old(blocksOnPosition)[position := s[..|s| - 1]]
      ensures blockPosition == old(blockPosition) - {block}
    {
      var s := blocksOnPosition[position];
      block := s[|s| - 1];
      blocksOnPosition := blocksOnPosition[position := s[..|s| - 1]];
      blockPosition := blockPosition - {block};
    }

    /** Fails with NotFound unless id names a position (and so a block) of this floor. */
    function ConfirmLegal(id: int): (r: Outcome)
      reads this
      ensures r == Pass <==> Legal(blocksOnPosition, id)
      ensures r != Pass ==> r == Fail(NotFound)
    {
      if id < 0 || id >= |blocksOnPosition| then Fail(NotFound) else Pass
    }

    /** The blocks on position, bottom to top (a snapshot). */
    function GetBlocksAt(position: int): (r: Result<seq<int>>)
      reads this
      ensures r.Err? <==> !Legal(blocksOnPosition, position)
      ensures r.Err? ==> r.error == NotFound
      ensures r.Ok? ==> r.value == blocksOnPosition[position]
    {
      match ConfirmLegal(position)
      case Fail(e) => Err(e)
      case Pass => Ok(blocksOnPosition[position])
    }

    /** The position of block: the one stack that holds it. */
    function GetBlockPosition(block: int): (r: Result<int>)
      requires Valid()
      reads this
      ensures r.Err? <==> !Legal(blocksOnPosition, block)
      ensures r.Err? ==> r.error == NotFound
      ensures r.Ok? ==> block in blockPosition && r.value == blockPosition[block]
      ensures r.Ok? ==> 0 <= r.value < |blocksOnPosition| && block in blocksOnPosition[r.value]
      ensures r.Ok? ==> forall q :: 0 <= q < |blocksOnPosition| && block in blocksOnPosition[q] ==> q == r.value
    {
      match ConfirmLegal(block)
      case Fail(e) => Err(e)
      case Pass =>
        OnlyPosition(blocksOnPosition, blockPosition, block);
        Ok(blockPosition[block])
    }

    /** Moves block and every block above it from `from` onto the top of `to`,
        keeping their order: first they are popped onto a pile, then the pile
        is popped onto `to`. When block is not on `from`, the whole stack moves. */
    method MovePosition(from: int, to: int, block: int)
      requires 0 <= from < |blocksOnPosition| && 0 <= to < |blocksOnPosition|
      modifies this
      ensures blocksOnPosition == Transfer(old(blocksOnPosition), from, to, block)
      ensures var s := old(blocksOnPosition)[from];
        Relocated(blockPosition, old(blockPosition), s[Cut(s, block)..], to)
    {
      ghost var st0, pos0 := blocksOnPosition, blockPosition;
      ghost var s := st0[from];
      // the pile, listed from its top down: the last block taken comes first
      var pile: seq<int> := [];
      assert s[..|s|] == s;
      while |blocksOnPosition[from]| > 0
        invariant |pile| <= |s| && pile == s[|s| - |pile|..]
        invariant blocksOnPosition == st0[from := s[..|s| - |pile|]]
        invariant block !in pile
        invariant blockPosition == Forget(pos0, pile)
      {
        ghost var n := |s| - |pile|;
        var top := TakeBlock(from);
        PopOnto(s, n, pile);
        UpdateTwice(st0, from, s[..n], s[..n - 1]);
        pile := [top] + pile;
        if pile[0] == block {
          break;
        }
      }
      ghost var m := |s| - |pile|;
      if pile != [] && pile[0] == block {
        CutUnique(s, block, m);
      }
      assert Cut(s, block) == m;

      ghost var lifted, moved := blocksOnPosition, pile;
      ghost var placed := 0;
      assert moved[..0] == [] && lifted[to] + [] == lifted[to];
      while |pile| > 0
        invariant placed <= |moved| && pile == moved[placed..]
        invariant blocksOnPosition == lifted[to := lifted[to] + moved[..placed]]
        invariant blockPosition == Record(Forget(pos0, moved), moved[..placed], to)
        decreases |pile|
      {
        var top := pile[0];
        pile := pile[1..];
        PutBlock(to, top);
        PutNext(lifted[to], moved, placed);
        UpdateTwice(lifted, to, lifted[to] + moved[..placed], lifted[to] + moved[..placed + 1]);
        placed := placed + 1;
      }
      assert moved[..placed] == moved;
      TakeThenPut(pos0, moved, to);
    }

    /** Sends every block above block back to its home position, leaving block
        on top of position. Each such block finds its home empty, so every
        round shortens the stack by one. */
    method ResetPosition(position: int, block: int)
      requires 0 <= position < |blocksOnPosition| && block in blocksOnPosition[position]
      requires Resettable(blocksOnPosition, position)
      modifies this
      ensures blocksOnPosition == Reset(old(blocksOnPosition), position, block)
      ensures blockPosition == ResetWhere(old(blocksOnPosition), old(blockPosition), position, block)
    {
      ghost var st0, pos0 := blocksOnPosition, blockPosition;
      ghost var s := st0[position];
      ghost var k := Cut(s, block);
      ResetAboveAll(st0, position);
      // the blocks of the original stack still on it
      ghost var kept := |s|;
      assert s[kept..] == [];
      while |blocksOnPosition[position]| > 0
        invariant k + 1 <= kept <= |s|
        invariant blocksOnPosition == ResetAbove(st0, position, kept)
        invariant blockPosition == SendHome(pos0, s[kept..])
        decreases kept
      {
        var blocks := blocksOnPosition[position];
        var topBlock := blocks[|blocks| - 1];
        if topBlock == block {
          break;
        }
        ghost var before, posB := blocksOnPosition, blockPosition;
        MovePosition(position, topBlock, topBlock);
        ResetRound(st0, pos0, position, kept, before, posB, blocksOnPosition, blockPosition);
        kept := kept - 1;
      }
      // the stack never empties: the loop ends at the break, with block on top
      assert |blocksOnPosition[position]| == kept;
      ResetDone(st0, position, block, kept);
    }

    /** The policy shared by the four public moves; see MovePolicy. */
    method Move(blockFrom: int, blockTo: int, resetPositionFrom: bool, resetPositionTo: bool)
      returns (r: Result<bool>)
      requires Valid()
      modifies this
      ensures Valid()
      ensures MovePolicy(old(blocksOnPosition), old(blockPosition), blocksOnPosition, blockPosition,
                         r, blockFrom, blockTo, resetPositionFrom, resetPositionTo)
    {
      if blockFrom == blockTo {
        return Ok(false);
      }
      var positionFrom := GetBlockPosition(blockFrom);
      if positionFrom.Err? {
        return Err(positionFrom.error);
      }
      var positionTo := GetBlockPosition(blockTo);
      if positionTo.Err? {
        return Err(positionTo.error);
      }
      var pf, pt := positionFrom.value, positionTo.value;
      if pf == pt {
        return Ok(false);
      }
      ghost var st0, pos0 := blocksOnPosition, blockPosition;
      MoveResettable(st0, pos0, blockFrom, blockTo, resetPositionFrom, resetPositionTo);
      if resetPositionFrom {
        ResetPosition(pf, blockFrom);
      }
      if resetPositionTo {
        ResetPosition(pt, blockTo);
      }
      MovePosition(pf, pt, blockFrom);
      MoveConsistent(st0, pos0, blockFrom, blockTo, resetPositionFrom, resetPositionTo, blockPosition);
      return Ok(true);
    }

    /** Moves blockFrom alone directly onto blockTo, first sending home the
        blocks above either of them. */
    method MoveOnto(blockFrom: int, blockTo: int) returns (r: Result<bool>)
      requires Valid()
      modifies this
      ensures Valid()
      ensures MovePolicy(old(blocksOnPosition), old(blockPosition), blocksOnPosition, blockPosition,
                         r, blockFrom, blockTo, true, true)
      ensures r == Ok(true) ==>
        var st, pf, pt := old(blocksOnPosition), old(blockPosition)[blockFrom], old(blockPosition)[blockTo];
        blockPosition[blockFrom] == pt && blocksOnPosition[pf] == st[pf][..Cut(st[pf], blockFrom)] &&
        blocksOnPosition[pt] == st[pt][..Cut(st[pt], blockTo) + 1] + [blockFrom]
    {
      r := Move(blockFrom, blockTo, true, true);
      if r == Ok(true) {
        MoveOntoEffect(old(blocksOnPosition), old(blockPosition), blocksOnPosition, blockPosition, r, blockFrom, blockTo);
      }
    }

    /** Moves blockFrom alone onto the top of blockTo's pile, first sending
        home the blocks above blockFrom. */
    method MoveOver(blockFrom: int, blockTo: int) returns (r: Result<bool>)
      requires Valid()
      modifies this
      ensures Valid()
      ensures MovePolicy(old(blocksOnPosition), old(blockPosition), blocksOnPosition, blockPosition,
                         r, blockFrom, blockTo, true, false)
      ensures r == Ok(true) ==>
        var st, pf, pt := old(blocksOnPosition), old(blockPosition)[blockFrom], old(blockPosition)[blockTo];
        blockPosition[blockFrom] == pt && blocksOnPosition[pf] == st[pf][..Cut(st[pf], blockFrom)] &&
        blocksOnPosition[pt] == st[pt] + [blockFrom]
    {
      r := Move(blockFrom, blockTo, true, false);
      if r == Ok(true) {
        MoveOverEffect(old(blocksOnPosition), old(blockPosition), blocksOnPosition, blockPosition, r, blockFrom, blockTo);
      }
    }

    /** Moves blockFrom and the blocks above it directly onto blockTo, first
        sending home the blocks above blockTo. */
    method PileOnto(blockFrom: int, blockTo: int) returns (r: Result<bool>)
      requires Valid()
      modifies this
      ensures Valid()
      ensures MovePolicy(old(blocksOnPosition), old(blockPosition), blocksOnPosition, blockPosition,
                         r, blockFrom, blockTo, false, true)
      ensures r == Ok(true) ==>
        var st, pf, pt := old(blocksOnPosition), old(blockPosition)[blockFrom], old(blockPosition)[blockTo];
        var kf := Cut(st[pf], blockFrom);
        blockPosition[blockFrom] == pt && blocksOnPosition[pf] == st[pf][..kf] &&
        blocksOnPosition[pt] == st[pt][..Cut(st[pt], blockTo) + 1] + st[pf][kf..]
    {
      r := Move(blockFrom, blockTo, false, true);
      if r == Ok(true) {
        PileOntoEffect(old(blocksOnPosition), old(blockPosition), blocksOnPosition, blockPosition, r, blockFrom, blockTo);
      }
    }

    /** Moves blockFrom and the blocks above it onto the top of blockTo's pile. */
    method PileOver(blockFrom: int, blockTo: int) returns (r: Result<bool>)
      requires Valid()
      modifies this
      ensures Valid()
      ensures MovePolicy(old(blocksOnPosition), old(blockPosition), blocksOnPosition, blockPosition,
                         r, blockFrom, blockTo, false, false)
      ensures r == Ok(true) ==>
        var st, pf, pt := old(blocksOnPosition), old(blockPosition)[blockFrom], old(blockPosition)[blockTo];
        var kf := Cut(st[pf], blockFrom);
        blockPosition[blockFrom] == pt && blocksOnPosition[pf] == st[pf][..kf] &&
        blocksOnPosition[pt] == st[pt] + st[pf][kf..]
    {
      r := Move(blockFrom, blockTo, false, false);
      if r == Ok(true) {
        PileOverEffect(old(blocksOnPosition), old(blockPosition), blocksOnPosition, blockPosition, r, blockFrom, blockTo);
      }
    }
  }
}
