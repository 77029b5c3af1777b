/** Worked examples on a floor of four positions, following the scenarios of
    FactoryFloorTest.java. Each one states the floor that MoveFloor produces
    for a move between the positions the two blocks occupy; by MovePolicy
    this is the floor the class holds after the corresponding call. */
module FloorScenarios {
  import opened FloorSpec
  import opened FloorLemmas

  /** The four stacks of a floor of four positions. */
  predicate Holds(st: Floor, s0: seq<int>, s1: seq<int>, s2: seq<int>, s3: seq<int>) {
    |st| == 4 && st[0] == s0 && st[1] == s1 && st[2] == s2 && st[3] == s3
  }

  /** After moveOnto(1, 2) on a new floor: 0: 0 | 1: | 2: 2 1 | 3: 3. */
  function OneOnTwo(): Floor {
    [[0], [], [2, 1], [3]]
  }

  /** A reset that lifts a single block x sends it home and changes nothing else. */
  lemma ResetSingle(st: Floor, p: int, b: int, x: int)
    requires 0 <= p < |st| && b in st[p] && 0 <= x < |st| && x != p
    requires st[p][Cut(st[p], b) + 1..] == [x]
    ensures Reset(st, p, b) == st[p := st[p][..Cut(st[p], b) + 1]][x := st[x] + [x]]
  {
    var r, e := Reset(st, p, b), st[p := st[p][..Cut(st[p], b) + 1]][x := st[x] + [x]];
    forall q | 0 <= q < |st| ensures r[q] == e[q] {
      assert q in [x] <==> q == x;
    }
  }

  /** resetPosition(2, 2) on 0: 0 | 1: | 2: 2 1 | 3: 3 sends 1 home. */
  lemma OneGoesHome()
    ensures Holds(Reset(OneOnTwo(), 2, 2), [0], [1], [2], [3])
  {
    var st := OneOnTwo();
    assert Cut(st[2], 2) == 0 && st[2][1..] == [1];
    ResetSingle(st, 2, 2, 1);
    assert st[2][..1] == [2] && st[1] + [1] == [1];
  }

  /** resetPosition(0, 0) on 0: 0 3 | 1: | 2: 2 1 | 3: sends 3 home. */
  lemma ThreeGoesHome()
    ensures Holds(Reset([[0, 3], [], [2, 1], []], 0, 0), [0], [], [2, 1], [3])
  {
    var st: Floor := [[0, 3], [], [2, 1], []];
    assert st[0][..1] == [0];
    assert Cut(st[0], 0) == 0 && st[0][1..] == [3];
    ResetSingle(st, 0, 0, 3);
    assert st[3] + [3] == [3];
  }

  /** moveOnto(1, 2) on a new floor of four: neither block has anything above it. */
  lemma MoveOntoBasic()
    ensures MoveFloor(Initial(4), 1, 2, 1, 2, true, true) == OneOnTwo()
  {
    var st := Initial(4);
    assert Holds(st, [0], [1], [2], [3]);
    ResetOnTop(st, 1, 1);
    ResetOnTop(st, 2, 2);
    var r := Transfer(st, 1, 2, 1);
    assert r[1] == [] && r[2] == [2, 1];
  }

  /** The last step of moveOnto(2, 3) once 1 is home: 2 lands on 3. */
  lemma TwoOntoThree(st: Floor)
    requires Holds(st, [0], [1], [2], [3])
    ensures Holds(Transfer(Reset(st, 3, 3), 2, 3, 2), [0], [1], [], [3, 2])
  {
    ResetOnTop(st, 3, 3);
  }

  /** moveOnto(2, 3) after moveOnto(1, 2): 1 goes home before 2 leaves position 2. */
  lemma MoveOntoResetFrom()
    ensures MoveFloor(OneOnTwo(), 2, 3, 2, 3, true, true) == [[0], [1], [], [3, 2]]
  {
    OneGoesHome();
    TwoOntoThree(Reset(OneOnTwo(), 2, 2));
  }

  /** The last step of moveOnto(3, 2) once 1 is home: 3 lands on 2. */
  lemma ThreeOntoTwo(st: Floor)
    requires Holds(st, [0], [1], [2], [3])
    ensures Holds(Transfer(st, 3, 2, 3), [0], [1], [2, 3], [])
  {
  }

  /** moveOnto(3, 2) after moveOnto(1, 2): 1 goes home before 3 lands on 2. */
  lemma MoveOntoResetTo()
    ensures MoveFloor(OneOnTwo(), 3, 2, 3, 2, true, true) == [[0], [1], [2, 3], []]
  {
    var st := OneOnTwo();
    ResetOnTop(st, 3, 3);
    OneGoesHome();
    ThreeOntoTwo(Reset(st, 2, 2));
  }

  /** moveOver(3, 2) after moveOnto(1, 2): 1 stays and 3 lands on top of it. */
  lemma MoveOverKeepsTarget()
    ensures MoveFloor(OneOnTwo(), 3, 2, 3, 2, true, false) == [[0], [], [2, 1, 3], []]
  {
    var st := OneOnTwo();
    ResetOnTop(st, 3, 3);
    var r := Transfer(st, 3, 2, 3);
    assert r[2] == [2, 1, 3] && r[3] == [];
  }

  /** moveOnto(3, 0) after moveOnto(1, 2): 3 lands on 0. */
  lemma MoveOntoOther()
    ensures MoveFloor(OneOnTwo(), 3, 0, 3, 0, true, true) == [[0, 3], [], [2, 1], []]
  {
    var st := OneOnTwo();
    ResetOnTop(st, 3, 3);
    ResetOnTop(st, 0, 0);
    var r := Transfer(st, 3, 0, 3);
    assert r[0] == [0, 3] && r[3] == [];
  }

  /** The last step of pileOnto(2, 0) once 3 is home: the pile 2 1 lands on 0. */
  lemma PileOntoZero(st: Floor)
    requires Holds(st, [0], [], [2, 1], [3])
    ensures Holds(Transfer(st, 2, 0, 2), [0, 2, 1], [], [], [3])
  {
    assert Cut(st[2], 2) == 0;
  }

  /** pileOnto(2, 0) on 0: 0 3 | 1: | 2: 2 1 | 3: — 3 goes home, the pile 2 1 lands on 0. */
  lemma PileOntoResetTo()
    ensures MoveFloor([[0, 3], [], [2, 1], []], 2, 0, 2, 0, false, true) == [[0, 2, 1], [], [], [3]]
  {
    ThreeGoesHome();
    PileOntoZero(Reset([[0, 3], [], [2, 1], []], 0, 0));
  }

  /** pileOver(2, 0) on 0: 0 3 | 1: | 2: 2 1 | 3: — the pile 2 1 lands on 3. */
  lemma PileOverKeepsTarget()
    ensures MoveFloor([[0, 3], [], [2, 1], []], 2, 0, 2, 0, false, false) == [[0, 3, 2, 1], [], [], []]
  {
    var st: Floor := [[0, 3], [], [2, 1], []];
    assert Cut(st[2], 2) == 0;
    var r := Transfer(st, 2, 0, 2);
    assert r[0] == [0, 3, 2, 1] && r[2] == [];
  }

  /** pileOnto(1, 0) on 0: 0 | 1: | 2: 2 1 3 | 3: — nothing is above 0, and 1
      carries 3 with it. */
  lemma PileOntoCarriesPile()
    ensures MoveFloor([[0], [], [2, 1, 3], []], 2, 0, 1, 0, false, true) == [[0, 1, 3], [], [2], []]
  {
    var st: Floor := [[0], [], [2, 1, 3], []];
    ResetOnTop(st, 0, 0);
    assert st[2][..2] == [2, 1];
    assert Cut(st[2], 1) == 1;
    var r := Transfer(st, 2, 0, 1);
    assert r[0] == [0, 1, 3] && r[2] == [2];
  }

  /** pileOver(1, 0) on 0: 0 | 1: | 2: 2 1 3 | 3: — 1 and 3 above it move together. */
  lemma PileOverMovesPile()
    ensures MoveFloor([[0], [], [2, 1, 3], []], 2, 0, 1, 0, false, false) == [[0, 1, 3], [], [2], []]
  {
    var st: Floor := [[0], [], [2, 1, 3], []];
    assert st[2][..2] == [2, 1];
    assert Cut(st[2], 1) == 1;
    var r := Transfer(st, 2, 0, 1);
    assert r[0] == [0, 1, 3] && r[2] == [2];
  }
}
