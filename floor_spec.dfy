/** Value-level description of a factory floor in the blocks world.

    A floor of size N has positions 0..N-1 and blocks 0..N-1; block b starts
    on position b, which stays its home position. `Floor` is the contents of
    every position as a bottom-to-top stack, `Where` records the position of
    each block. The functions below say what each step of a move does to a
    floor; the class in module Factory is proved to do exactly that. */
module FloorSpec {

  /** The two kinds of failure: a negative floor size, and an id outside [0, N). */
  datatype Error = InvalidArgument | NotFound

  datatype Result<T> = Ok(value: T) | Err(error: Error)

  datatype Outcome = Pass | Fail(error: Error)

  /** blocksOnPosition: st[p] is the stack on position p, bottom first. */
  type Floor = seq<seq<int>>

  /** blockPosition: block id -> floor position. */
  type Where = map<int, int>

  /** Block and position ids share one range, [0, N) with N the number of positions. */
  predicate Legal(st: Floor, id: int) {
    0 <= id < |st|
  }

  // ---------------------------------------------------------------------------
  // The invariant of a quiescent floor

  /** blockPosition knows exactly the blocks [0, N), and b is recorded at p
      exactly when b is on stack p. */
  ghost predicate Placed(st: Floor, pos: Where) {
    (forall b :: b in pos <==> 0 <= b < |st|) &&
    (forall b :: b in pos ==> 0 <= pos[b] < |st| && b in st[pos[b]]) &&
    (forall p, i :: 0 <= p < |st| && 0 <= i < |st[p]| ==> st[p][i] in pos && pos[st[p][i]] == p)
  }

  /** No block occurs twice in s. */
  ghost predicate Distinct(s: seq<int>) {
    forall x :: multiset(s)[x] <= 1
  }

  ghost predicate NoRepeats(st: Floor) {
    forall p :: 0 <= p < |st| ==> Distinct(st[p])
  }

  /** A stack that is not empty has its home block at the bottom: a block
      can only be stacked on an occupied position, or sent home to an empty one. */
  ghost predicate HomeAtBottom(st: Floor) {
    forall p :: 0 <= p < |st| && st[p] != [] ==> st[p][0] == p
  }

  /** Every block is in exactly one stack, once, and blockPosition agrees with the stacks. */
  ghost predicate Consistent(st: Floor, pos: Where) {
    Placed(st, pos) && NoRepeats(st) && HomeAtBottom(st)
  }

  /** Number of times block b occurs on the whole floor. */
  function Occurrences(st: Floor, b: int): nat {
    if st == [] then 0 else Occurrences(st[..|st| - 1], b) + multiset(st[|st| - 1])[b]
  }

  // ---------------------------------------------------------------------------
  // Construction

  /** The floor as built: position i holds block i alone. */
  function Initial(n: nat): (st: Floor)
    ensures |st| == n && forall i :: 0 <= i < n ==> st[i] == [i]
  {
    if n == 0 then [] else Initial(n - 1) + [[n - 1]]
  }

  /** blockPosition as built: block i is recorded at position i. */
  function InitialWhere(n: nat): Where {
    if n == 0 then map[] else InitialWhere(n - 1)[n - 1 := n - 1]
  }

  // ---------------------------------------------------------------------------
  // movePosition

  /** How many blocks stay on stack s when blocks are popped down to and
      including b: the index of the topmost b, or 0 when b is absent (then
      the whole stack is taken). */
  function Cut(s: seq<int>, b: int): (k: nat)
    ensures k <= |s|
    ensures b in s ==> k < |s| && s[k] == b && b !in s[k + 1..]
    ensures b !in s ==> k == 0
  {
    if s == [] then 0
    else if s[|s| - 1] == b then |s| - 1
    else
      assert s == s[..|s| - 1] + [s[|s| - 1]];
      Cut(s[..|s| - 1], b)
  }

  /** Floor after movePosition(from, to, b): b and everything above it leave
      `from` and land, bottom-to-top order kept, on top of `to`. */
  function Transfer(st: Floor, from: int, to: int, b: int): (r: Floor)
    requires 0 <= from < |st| && 0 <= to < |st|
    ensures |r| == |st|
    ensures from != to ==> r[from] == st[from][..Cut(st[from], b)]
    ensures from != to ==> r[to] == st[to] + st[from][Cut(st[from], b)..]
    ensures from == to ==> r == st
    ensures forall q :: 0 <= q < |st| && q != from && q != to ==> r[q] == st[q]
  {
    var s := st[from];
    var k := Cut(s, b);
    var lifted := st[from := s[..k]];
    assert s[..k] + s[k..] == s;
    lifted[to := lifted[to] + s[k..]]
  }

  /** Blockpositions after movePosition: every moved block is now recorded at `to`. */
  ghost predicate Relocated(pos': Where, pos: Where, moved: seq<int>, to: int) {
    (forall x :: x in pos' <==> x in pos || x in moved) &&
    (forall x :: x in pos' ==> pos'[x] == if x in moved then to else pos[x])
  }

  /** blockPosition after takeBlock has removed the blocks xs. */
  function Forget(pos: Where, xs: seq<int>): Where {
    if xs == [] then pos else Forget(pos, xs[1..]) - {xs[0]}
  }

  /** blockPosition after putBlock has recorded the blocks xs, in order, at `to`. */
  function Record(pos: Where, xs: seq<int>, to: int): Where {
    if xs == [] then pos else Record(pos, xs[..|xs| - 1], to)[xs[|xs| - 1] := to]
  }

  // ---------------------------------------------------------------------------
  // resetPosition

  /** What resetPosition(p, _) relies on: stack p holds no block twice, and
      every block above its bottom is away from home, so it can be moved
      onto its home position. */
  ghost predicate Resettable(st: Floor, p: int) {
    0 <= p < |st| && Distinct(st[p]) &&
    forall i :: 1 <= i < |st[p]| ==> 0 <= st[p][i] < |st| && st[p][i] != p
  }

  /** Floor after every block above the lowest `keep` blocks of stack p has
      been pushed onto its home position. */
  function ResetAbove(st: Floor, p: int, keep: nat): (r: Floor)
    requires 0 <= p < |st| && keep <= |st[p]|
    ensures |r| == |st| && r[p] == st[p][..keep]
    ensures forall q :: 0 <= q < |st| && q != p ==> r[q] == st[q] || r[q] == st[q] + [q]
  {
    seq(|st|, q requires 0 <= q < |st| =>
      if q == p then st[p][..keep]
      else if q in st[p][keep..] then st[q] + [q]
      else st[q])
  }

  /** Floor after resetPosition(p, b): b is left on top of p, each block that
      was above it is back on its home position. */
  function Reset(st: Floor, p: int, b: int): (r: Floor)
    requires 0 <= p < |st| && b in st[p]
    ensures |r| == |st| && r[p] == st[p][..Cut(st[p], b) + 1] && r[p][|r[p]| - 1] == b
    ensures forall q :: 0 <= q < |st| && q != p ==> r[q] == st[q] || r[q] == st[q] + [q]
  {
    ResetAbove(st, p, Cut(st[p], b) + 1)
  }

  /** blockPosition after the blocks xs have been sent home, each recorded
      at its own id. */
  function SendHome(pos: Where, xs: seq<int>): Where {
    if xs == [] then pos else SendHome(pos, xs[1..])[xs[0] := xs[0]]
  }

  /** blockPosition after resetPosition(p, b): each block above b is
      recorded at its home. */
  function ResetWhere(st: Floor, pos: Where, p: int, b: int): Where
    requires 0 <= p < |st| && b in st[p]
  {
    SendHome(pos, st[p][Cut(st[p], b) + 1..])
  }

  // ---------------------------------------------------------------------------
  // move

  /** Floor after the mutating part of move: the optional resets of the source
      and target positions, then the transfer of blockFrom's pile. */
  function MoveFloor(st: Floor, pf: int, pt: int, bf: int, bt: int, resetFrom: bool, resetTo: bool): (r: Floor)
    requires 0 <= pf < |st| && 0 <= pt < |st| && pf != pt
    requires bf in st[pf] && bt in st[pt]
    ensures |r| == |st|
  {
    var st1 := if resetFrom then Reset(st, pf, bf) else st;
    var st2 := if resetTo then Reset(st1, pt, bt) else st1;
    Transfer(st2, pf, pt, bf)
  }

  /** The policy of move(blockFrom, blockTo, resetFrom, resetTo) on a consistent
      floor (st, pos), ending in (st', pos') with result r. Equal ids are a
      no-op before any validation; then both ids are validated; blocks that
      already share a position are a no-op; otherwise the move happens. */
  ghost predicate MovePolicy(st: Floor, pos: Where, st': Floor, pos': Where, r: Result<bool>,
                             blockFrom: int, blockTo: int, resetFrom: bool, resetTo: bool)
    requires Consistent(st, pos)
  {
    if blockFrom == blockTo then
      r == Ok(false) && st' == st && pos' == pos
    else if !Legal(st, blockFrom) || !Legal(st, blockTo) then
      r == Err(NotFound) && st' == st && pos' == pos
    else if pos[blockFrom] == pos[blockTo] then
      r == Ok(false) && st' == st && pos' == pos
    else
      r == Ok(true) && Consistent(st', pos') &&
      st' == MoveFloor(st, pos[blockFrom], pos[blockTo], blockFrom, blockTo, resetFrom, resetTo)
  }
}
