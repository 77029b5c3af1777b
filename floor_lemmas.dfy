/** What the steps of a move guarantee: the floor invariant is kept, resets
    only ever fill empty home positions, and each public move leaves the
    source and target stacks in the shape its name promises. */
module FloorLemmas {
  import opened FloorSpec

  // ---------------------------------------------------------------------------
  // Basic facts

  /** Cut is pinned down by its contract: the topmost occurrence of b. */
  lemma CutUnique(s: seq<int>, b: int, m: nat)
    requires m < |s| && s[m] == b && b !in s[m + 1..]
    ensures Cut(s, b) == m
  {
  }

  /** A block on a stack is recorded at that stack's position. */
  lemma StackedRecorded(st: Floor, pos: Where, p: int, i: int)
    requires Placed(st, pos) && 0 <= p < |st| && 0 <= i < |st[p]|
    ensures st[p][i] in pos && pos[st[p][i]] == p
  {
  }

  /** Every block of a stack segment is recorded at that stack's position. */
  lemma SegmentRecorded(st: Floor, pos: Where, p: int, k: nat)
    requires Placed(st, pos) && 0 <= p < |st| && k <= |st[p]|
    ensures forall x :: x in st[p][k..] ==> x in pos && pos[x] == p
  {
    forall x | x in st[p][k..] ensures x in pos && pos[x] == p {
      var j :| 0 <= j < |st[p][k..]| && st[p][k..][j] == x;
      StackedRecorded(st, pos, p, k + j);
    }
  }

  /** Two updates of one position: the second wins. */
  lemma UpdateTwice(st: Floor, p: int, a: seq<int>, b: seq<int>)
    requires 0 <= p < |st|
    ensures st[p := a][p := b] == st[p := b]
  {
  }

  /** Popping the top of s[..n] onto a pile that holds s[n..], top first. */
  lemma PopOnto(s: seq<int>, n: nat, pile: seq<int>)
    requires 0 < n <= |s| && pile == s[n..]
    ensures s[..n][..n - 1] == s[..n - 1] && s[n - 1..] == [s[n - 1]] + pile
    ensures ([s[n - 1]] + pile)[1..] == pile
  {
  }

  /** Putting down the next block xs[i] extends the placed prefix by one. */
  lemma PutNext(base: seq<int>, xs: seq<int>, i: nat)
    requires i < |xs|
    ensures xs[..i + 1][..i] == xs[..i] && xs[..i + 1][i] == xs[i]
    ensures base + xs[..i] + [xs[i]] == base + xs[..i + 1]
  {
    assert xs[..i + 1] == xs[..i] + [xs[i]];
  }

  /** Both parts of a stack without repeats are without repeats, and share no block. */
  lemma DistinctSplit(s: seq<int>, k: nat)
    requires Distinct(s) && k <= |s|
    ensures Distinct(s[..k]) && Distinct(s[k..])
    ensures forall x :: x in s[..k] ==> x !in s[k..]
  {
    assert s == s[..k] + s[k..];
    forall x ensures multiset(s[..k])[x] <= 1 && multiset(s[k..])[x] <= 1 && (x in s[..k] ==> x !in s[k..]) {
      assert multiset(s)[x] == multiset(s[..k])[x] + multiset(s[k..])[x];
      assert x in s[..k] <==> x in multiset(s[..k]);
      assert x in s[k..] <==> x in multiset(s[k..]);
    }
  }

  /** Two stacks without repeats and without a common block join into one without repeats. */
  lemma DistinctJoin(a: seq<int>, b: seq<int>)
    requires Distinct(a) && Distinct(b) && forall x :: x in a ==> x !in b
    ensures Distinct(a + b)
  {
    forall x ensures multiset(a + b)[x] <= 1 {
      assert multiset(a + b)[x] == multiset(a)[x] + multiset(b)[x];
      assert x in a <==> x in multiset(a);
      assert x in b <==> x in multiset(b);
    }
  }

  /** In a stack without repeats, nothing below index k reappears from k up. */
  lemma PrefixDisjoint(s: seq<int>, k: nat)
    requires Distinct(s) && k <= |s|
    ensures forall i :: 0 <= i < k ==> s[i] !in s[k..]
  {
    DistinctSplit(s, k);
    forall i | 0 <= i < k ensures s[i] !in s[k..] {
      assert s[..k][i] == s[i];
    }
  }

  /** In a stack without repeats, different indices hold different blocks. */
  lemma DistinctAt(s: seq<int>, i: nat, j: nat)
    requires Distinct(s) && i < j < |s|
    ensures s[i] != s[j]
  {
    PrefixDisjoint(s, j);
    assert s[j..][0] == s[j];
  }

  /** Under the invariant, the position of every block is determined by the stacks. */
  lemma PositionsDetermined(st: Floor, pos1: Where, pos2: Where)
    requires Consistent(st, pos1) && Consistent(st, pos2)
    ensures pos1 == pos2
  {
    assert forall b :: b in pos1 <==> b in pos2;
    forall b | b in pos1 ensures pos1[b] == pos2[b] {
      var p := pos1[b];
      var i :| 0 <= i < |st[p]| && st[p][i] == b;
      StackedRecorded(st, pos2, p, i);
    }
  }

  /** A legal block is recorded at the one position whose stack holds it. */
  lemma OnlyPosition(st: Floor, pos: Where, b: int)
    requires Consistent(st, pos) && 0 <= b < |st|
    ensures b in pos && 0 <= pos[b] < |st| && b in st[pos[b]]
    ensures forall q :: 0 <= q < |st| && b in st[q] ==> q == pos[b]
  {
    forall q | 0 <= q < |st| && b in st[q] ensures q == pos[b] {
      var i :| 0 <= i < |st[q]| && st[q][i] == b;
      StackedRecorded(st, pos, q, i);
    }
  }

  /** A block that is away from home has an empty home position. */
  lemma AwayMeansHomeEmpty(st: Floor, pos: Where, p: int, i: int)
    requires Consistent(st, pos) && 0 <= p < |st| && 0 < i < |st[p]|
    ensures 0 <= st[p][i] < |st| && st[p][i] != p && st[st[p][i]] == []
  {
    StackedRecorded(st, pos, p, i);
    assert Distinct(st[p]);
    DistinctAt(st[p], 0, i);
    var x := st[p][i];
    if st[x] != [] {
      StackedRecorded(st, pos, x, 0);
    }
  }

  /** The blocks above the lowest `keep` of stack p are all away from their
      empty homes, and recorded at p. */
  lemma AboveFacts(st: Floor, pos: Where, p: int, keep: nat)
    requires Consistent(st, pos) && 0 <= p < |st| && 1 <= keep <= |st[p]|
    ensures forall x :: x in st[p][keep..] ==>
      0 <= x < |st| && x != p && st[x] == [] && x in pos && pos[x] == p
  {
    forall x | x in st[p][keep..]
      ensures 0 <= x < |st| && x != p && st[x] == [] && x in pos && pos[x] == p
    {
      var j :| 0 <= j < |st[p][keep..]| && st[p][keep..][j] == x;
      AwayMeansHomeEmpty(st, pos, p, keep + j);
      StackedRecorded(st, pos, p, keep + j);
    }
  }

  // ---------------------------------------------------------------------------
  // Each block exactly once

  lemma {:induction false} OccurrencesPrefix(st: Floor, pos: Where, b: int, n: nat)
    requires Consistent(st, pos) && n <= |st|
    ensures Occurrences(st[..n], b) == if b in pos && pos[b] < n then 1 else 0
  {
    if n > 0 {
      assert st[..n][..n - 1] == st[..n - 1];
      OccurrencesPrefix(st, pos, b, n - 1);
      var top := st[n - 1];
      assert Distinct(top);
      if b in top {
        var i :| 0 <= i < |top| && top[i] == b;
        StackedRecorded(st, pos, n - 1, i);
      }
    }
  }

  /** Each block 0..N-1 occurs exactly once on the whole floor, and nothing else occurs. */
  lemma ExactlyOnce(st: Floor, pos: Where, b: int)
    requires Consistent(st, pos)
    ensures Occurrences(st, b) == if 0 <= b < |st| then 1 else 0
  {
    OccurrencesPrefix(st, pos, b, |st|);
    assert st[..|st|] == st;
  }

  // ---------------------------------------------------------------------------
  // Construction

  lemma {:induction false} InitialWhereIs(n: nat)
    ensures forall b :: b in InitialWhere(n) <==> 0 <= b < n
    ensures forall b :: b in InitialWhere(n) ==> InitialWhere(n)[b] == b
  {
    if n > 0 {
      InitialWhereIs(n - 1);
    }
  }

  /** The floor as built satisfies the invariant. */
  lemma InitialConsistent(n: nat)
    ensures Consistent(Initial(n), InitialWhere(n))
  {
    InitialWhereIs(n);
  }

  // ---------------------------------------------------------------------------
  // movePosition keeps the invariant

  lemma {:induction false} ForgetIs(pos: Where, xs: seq<int>)
    ensures forall x :: x in Forget(pos, xs) <==> x in pos && x !in xs
    ensures forall x :: x in Forget(pos, xs) ==> Forget(pos, xs)[x] == pos[x]
  {
    if xs != [] {
      ForgetIs(pos, xs[1..]);
      assert xs == [xs[0]] + xs[1..];
    }
  }

  lemma {:induction false} RecordIs(pos: Where, xs: seq<int>, to: int)
    ensures forall x :: x in Record(pos, xs, to) <==> x in pos || x in xs
    ensures forall x :: x in Record(pos, xs, to) ==> Record(pos, xs, to)[x] == if x in xs then to else pos[x]
  {
    if xs != [] {
      var init := xs[..|xs| - 1];
      RecordIs(pos, init, to);
      assert xs == init + [xs[|xs| - 1]];
    }
  }

  /** Taking the blocks xs and then putting them down on `to` records
      exactly those blocks at `to`. */
  lemma TakeThenPut(pos: Where, xs: seq<int>, to: int)
    ensures Relocated(Record(Forget(pos, xs), xs, to), pos, xs, to)
  {
    ForgetIs(pos, xs);
    RecordIs(Forget(pos, xs), xs, to);
  }

  lemma TransferPlaced(st: Floor, pos: Where, pos': Where, from: int, to: int, b: int)
    requires Placed(st, pos) && 0 <= from < |st| && 0 <= to < |st| && from != to
    requires Distinct(st[from])
    requires Relocated(pos', pos, st[from][Cut(st[from], b)..], to)
    ensures Placed(Transfer(st, from, to, b), pos')
  {
    var s := st[from];
    var k := Cut(s, b);
    var t := s[k..];
    var r := Transfer(st, from, to, b);
    SegmentRecorded(st, pos, from, k);
    PrefixDisjoint(s, k);
    forall x | x in pos' ensures 0 <= pos'[x] < |r| && x in r[pos'[x]] {
      if x !in t {
        var q := pos[x];
        var i :| 0 <= i < |st[q]| && st[q][i] == x;
        if q == from {
          assert r[from][i] == x;
        } else if q == to {
          assert r[to][i] == x;
        }
      }
    }
    forall q, i | 0 <= q < |r| && 0 <= i < |r[q]| ensures r[q][i] in pos' && pos'[r[q][i]] == q {
      if q == from {
        assert r[q][i] == s[i];
        StackedRecorded(st, pos, q, i);
      } else if q == to && i >= |st[to]| {
        assert r[q][i] == t[i - |st[to]|];
      } else {
        assert r[q][i] == st[q][i];
        StackedRecorded(st, pos, q, i);
      }
    }
  }

  lemma TransferNoRepeats(st: Floor, pos: Where, from: int, to: int, b: int)
    requires Placed(st, pos) && NoRepeats(st)
    requires 0 <= from < |st| && 0 <= to < |st| && from != to
    ensures NoRepeats(Transfer(st, from, to, b))
  {
    var s := st[from];
    var k := Cut(s, b);
    var t := s[k..];
    var r := Transfer(st, from, to, b);
    SegmentRecorded(st, pos, from, k);
    assert Distinct(s) && Distinct(st[to]);
    DistinctSplit(s, k);
    forall x | x in st[to] ensures x !in t {
      var i :| 0 <= i < |st[to]| && st[to][i] == x;
      StackedRecorded(st, pos, to, i);
    }
    DistinctJoin(st[to], t);
    assert Distinct(r[to]);
    assert Distinct(r[from]);
  }

  lemma TransferHome(st: Floor, from: int, to: int, b: int)
    requires HomeAtBottom(st) && 0 <= from < |st| && 0 <= to < |st| && from != to
    requires b in st[from] && (st[to] != [] || b == to)
    ensures HomeAtBottom(Transfer(st, from, to, b))
  {
  }

  /** Moving b and the blocks above it onto an occupied position (or b onto
      its own empty home) keeps the invariant, with the moved blocks
      recorded at the target. */
  lemma TransferConsistent(st: Floor, pos: Where, pos': Where, from: int, to: int, b: int)
    requires Consistent(st, pos)
    requires 0 <= from < |st| && 0 <= to < |st| && from != to
    requires b in st[from] && (st[to] != [] || b == to)
    requires Relocated(pos', pos, st[from][Cut(st[from], b)..], to)
    ensures Consistent(Transfer(st, from, to, b), pos')
  {
    TransferPlaced(st, pos, pos', from, to, b);
    TransferNoRepeats(st, pos, from, to, b);
    TransferHome(st, from, to, b);
  }

  // ---------------------------------------------------------------------------
  // resetPosition

  /** One round of resetPosition's loop: moving the top block x of the
      partially reset stack p onto position x takes the reset one block
      further down. */
  lemma ResetStep(st: Floor, p: int, m: nat)
    requires 0 <= p < |st| && 1 <= m <= |st[p]| && Distinct(st[p])
    requires 0 <= st[p][m - 1] < |st| && st[p][m - 1] != p
    ensures Transfer(ResetAbove(st, p, m), p, st[p][m - 1], st[p][m - 1]) == ResetAbove(st, p, m - 1)
  {
    var s := st[p];
    var x := s[m - 1];
    var cur := ResetAbove(st, p, m);
    var lhs := Transfer(cur, p, x, x);
    var rhs := ResetAbove(st, p, m - 1);
    assert cur[p] == s[..m];
    assert Cut(cur[p], x) == m - 1;
    PrefixDisjoint(s, m);
    assert cur[x] == st[x];
    assert s[m - 1..] == [x] + s[m..];
    forall q | 0 <= q < |st| ensures lhs[q] == rhs[q] {
      if q == p {
        assert s[..m][..m - 1] == s[..m - 1];
      }
    }
  }

  /** Keeping the whole stack sends nothing home. */
  lemma ResetAboveAll(st: Floor, p: int)
    requires 0 <= p < |st|
    ensures ResetAbove(st, p, |st[p]|) == st
  {
    assert st[p][|st[p]|..] == [];
    assert st[p][..|st[p]|] == st[p];
  }

  /** Under the invariant every stack can be reset. */
  lemma AwayAbove(st: Floor, pos: Where, p: int)
    requires Consistent(st, pos) && 0 <= p < |st|
    ensures Resettable(st, p)
  {
    forall i | 1 <= i < |st[p]| ensures 0 <= st[p][i] < |st| && st[p][i] != p {
      AwayMeansHomeEmpty(st, pos, p, i);
    }
  }

  /** blockPosition after one round of resetPosition's loop: when the top
      block x of the `kept` blocks left on stack p has been moved onto its
      home, the record is that of one more block sent home. */
  lemma ResetRoundWhere(st: Floor, pos: Where, p: int, kept: nat, posA: Where)
    requires 0 <= p < |st| && 1 <= kept <= |st[p]|
    requires var x := st[p][kept - 1]; var before := ResetAbove(st, p, kept);
      Relocated(posA, SendHome(pos, st[p][kept..]), before[p][Cut(before[p], x)..], x)
    ensures posA == SendHome(pos, st[p][kept - 1..])
  {
    var s := st[p];
    var x := s[kept - 1];
    var top := ResetAbove(st, p, kept)[p];
    assert top == s[..kept] && top[|top| - 1] == x;
    var moved := top[Cut(top, x)..];
    assert moved == [x];
    assert s[kept - 1..] == [x] + s[kept..];
    var posB := SendHome(pos, s[kept..]);
    assert SendHome(pos, s[kept - 1..]) == posB[x := x];
    forall y ensures y in posA <==> y in posB[x := x] {
      assert y in moved <==> y == x;
    }
    forall y | y in posA ensures posA[y] == posB[x := x][y] {
      assert y in moved <==> y == x;
    }
  }

  /** One round of resetPosition's loop, from the floor and blockPosition
      with `kept` blocks of stack p left to those after movePosition(p, x, x)
      of the top block x: the loop's invariant holds with one block fewer. */
  lemma ResetRound(st: Floor, pos: Where, p: int, kept: nat,
                   before: Floor, posB: Where, after: Floor, posA: Where)
    requires Resettable(st, p) && 2 <= kept <= |st[p]|
    requires before == ResetAbove(st, p, kept) && posB == SendHome(pos, st[p][kept..])
    requires var x := st[p][kept - 1];
      after == Transfer(before, p, x, x) && Relocated(posA, posB, before[p][Cut(before[p], x)..], x)
    ensures after == ResetAbove(st, p, kept - 1) && posA == SendHome(pos, st[p][kept - 1..])
  {
    ResetStep(st, p, kept);
    ResetRoundWhere(st, pos, p, kept, posA);
  }

  /** resetPosition's loop stops exactly when b is on top, and the floor it
      leaves is then the reset floor. */
  lemma ResetDone(st: Floor, p: int, b: int, kept: nat)
    requires 0 <= p < |st| && b in st[p]
    requires Cut(st[p], b) + 1 <= kept <= |st[p]| && st[p][kept - 1] == b
    ensures kept == Cut(st[p], b) + 1 && ResetAbove(st, p, kept) == Reset(st, p, b)
  {
  }

  /** SendHome records each block of xs at its own id and leaves the others. */
  lemma {:induction false} SendHomeIs(pos: Where, xs: seq<int>)
    ensures forall x :: x in SendHome(pos, xs) <==> x in pos || x in xs
    ensures forall x :: x in SendHome(pos, xs) ==> SendHome(pos, xs)[x] == if x in xs then x else pos[x]
  {
    if xs != [] {
      SendHomeIs(pos, xs[1..]);
      assert xs == [xs[0]] + xs[1..];
    }
  }

  lemma ResetAbovePlaced(st: Floor, pos: Where, p: int, keep: nat)
    requires Consistent(st, pos) && 0 <= p < |st| && 1 <= keep <= |st[p]|
    ensures Placed(ResetAbove(st, p, keep), SendHome(pos, st[p][keep..]))
  {
    var s := st[p];
    var xs := s[keep..];
    var r := ResetAbove(st, p, keep);
    var pos' := SendHome(pos, xs);
    SendHomeIs(pos, xs);
    AboveFacts(st, pos, p, keep);
    assert Distinct(s);
    PrefixDisjoint(s, keep);
    forall x | x in pos' ensures 0 <= pos'[x] < |r| && x in r[pos'[x]] {
      if x !in xs {
        var q := pos[x];
        var i :| 0 <= i < |st[q]| && st[q][i] == x;
        if q == p {
          assert r[p][i] == x;
        } else {
          assert r[q][i] == x;
        }
      }
    }
    forall q, i | 0 <= q < |r| && 0 <= i < |r[q]| ensures r[q][i] in pos' && pos'[r[q][i]] == q {
      if q == p {
        assert r[q][i] == s[i] && s[i] !in xs;
        StackedRecorded(st, pos, q, i);
      } else if q in xs {
        assert r[q] == [q];
      } else {
        var x := st[q][i];
        assert r[q][i] == x;
        StackedRecorded(st, pos, q, i);
        assert x !in xs;
      }
    }
  }

  lemma ResetAboveNoRepeats(st: Floor, pos: Where, p: int, keep: nat)
    requires Consistent(st, pos) && 0 <= p < |st| && 1 <= keep <= |st[p]|
    ensures NoRepeats(ResetAbove(st, p, keep))
  {
    var r := ResetAbove(st, p, keep);
    AboveFacts(st, pos, p, keep);
    forall q | 0 <= q < |r| ensures Distinct(r[q]) {
      assert Distinct(st[q]);
      if q == p {
        DistinctSplit(st[p], keep);
      }
    }
  }

  /** Sending home every block above the lowest `keep` blocks of a stack keeps
      the invariant; pos' is blockPosition with those blocks recorded at home. */
  lemma ResetAboveConsistent(st: Floor, pos: Where, p: int, keep: nat) returns (pos': Where)
    requires Consistent(st, pos) && 0 <= p < |st| && 1 <= keep <= |st[p]|
    ensures pos' == SendHome(pos, st[p][keep..]) && Consistent(ResetAbove(st, p, keep), pos')
  {
    pos' := SendHome(pos, st[p][keep..]);
    ResetAbovePlaced(st, pos, p, keep);
    ResetAboveNoRepeats(st, pos, p, keep);
    AboveFacts(st, pos, p, keep);
  }

  /** resetPosition keeps the invariant: blockPosition then records each
      block sent home at its own id. */
  lemma ResetConsistent(st: Floor, pos: Where, p: int, b: int)
    requires Consistent(st, pos) && 0 <= p < |st| && b in st[p]
    ensures Consistent(Reset(st, p, b), ResetWhere(st, pos, p, b))
  {
    var pos' := ResetAboveConsistent(st, pos, p, Cut(st[p], b) + 1);
  }

  /** resetPosition(p, b) leaves b on top of p, and sends each block above b
      to its home position, which was empty; no other stack changes. */
  lemma ResetEffect(st: Floor, pos: Where, p: int, b: int)
    requires Consistent(st, pos) && 0 <= p < |st| && b in st[p]
    ensures var k := Cut(st[p], b); var r := Reset(st, p, b);
      (forall x :: x in st[p][k + 1..] ==> 0 <= x < |st| && x != p && st[x] == [] && r[x] == [x]) &&
      (forall q :: 0 <= q < |st| && q != p && q !in st[p][k + 1..] ==> r[q] == st[q])
  {
    AboveFacts(st, pos, p, Cut(st[p], b) + 1);
  }

  /** A reset never touches another occupied position: in particular
      resetting one side of a move cannot disturb the other side. */
  lemma ResetSparesOccupied(st: Floor, pos: Where, p: int, b: int, q: int)
    requires Consistent(st, pos) && 0 <= p < |st| && b in st[p]
    requires 0 <= q < |st| && q != p && st[q] != []
    ensures Reset(st, p, b)[q] == st[q]
  {
    ResetEffect(st, pos, p, b);
  }

  /** One side of a move: the stack on p can be reset, resetting it keeps
      the invariant, and the stack on the other side q is not touched. */
  lemma ResetSide(st: Floor, pos: Where, p: int, b: int, q: int)
    requires Consistent(st, pos) && 0 <= p < |st| && b in st[p]
    requires 0 <= q < |st| && q != p && st[q] != []
    ensures Resettable(st, p)
    ensures Consistent(Reset(st, p, b), ResetWhere(st, pos, p, b))
    ensures Reset(st, p, b)[q] == st[q]
  {
    AwayAbove(st, pos, p);
    ResetConsistent(st, pos, p, b);
    ResetSparesOccupied(st, pos, p, b, q);
  }

  /** resetPosition(p, b) with b already on top of p leaves the floor as it is. */
  lemma ResetOnTop(st: Floor, p: int, b: int)
    requires 0 <= p < |st| && st[p] != [] && st[p][|st[p]| - 1] == b
    ensures Reset(st, p, b) == st
  {
    var k := Cut(st[p], b);
    assert k == |st[p]| - 1 && st[p][k + 1..] == [];
    var r := Reset(st, p, b);
    assert r[p] == st[p];
    forall q | 0 <= q < |st| ensures r[q] == st[q] {
    }
  }

  /** After resetPosition(p, b), b is the top of p and what was below it stays. */
  lemma ResetTopIs(st: Floor, p: int, b: int)
    requires 0 <= p < |st| && b in st[p]
    ensures var k := Cut(st[p], b); var r := Reset(st, p, b)[p];
      Cut(r, b) == k && r[..k] == st[p][..k] && r[k..] == [b]
  {
    var k := Cut(st[p], b);
    var r := Reset(st, p, b)[p];
    assert r == st[p][..k + 1] && r[k] == b;
    assert r[..k] == st[p][..k];
  }

  // ---------------------------------------------------------------------------
  // move

  /** Before the resets of a move: each stack that move resets can be reset
      when its turn comes, and blockTo is still on the target after the
      source has been reset. */
  lemma MoveResettable(st: Floor, pos: Where, bf: int, bt: int, rf: bool, rt: bool)
    requires Consistent(st, pos) && 0 <= bf < |st| && 0 <= bt < |st| && pos[bf] != pos[bt]
    ensures var pf, pt := pos[bf], pos[bt];
      0 <= pf < |st| && 0 <= pt < |st| && bf in st[pf] && bt in st[pt]
    ensures var pf, pt := pos[bf], pos[bt];
      var st1 := if rf then Reset(st, pf, bf) else st;
      (rf ==> Resettable(st, pf)) && bt in st1[pt] && (rt ==> Resettable(st1, pt))
  {
    var pf, pt := pos[bf], pos[bt];
    OnlyPosition(st, pos, bf);
    OnlyPosition(st, pos, bt);
    if rf {
      ResetSide(st, pos, pf, bf, pt);
      if rt {
        AwayAbove(Reset(st, pf, bf), ResetWhere(st, pos, pf, bf), pt);
      }
    } else if rt {
      AwayAbove(st, pos, pt);
    }
  }

  /** The floor after a move is consistent with blockPosition after the
      resets and the final movePosition. */
  lemma MoveConsistent(st: Floor, pos: Where, bf: int, bt: int, rf: bool, rt: bool, pos': Where)
    requires Consistent(st, pos) && 0 <= bf < |st| && 0 <= bt < |st| && pos[bf] != pos[bt]
    requires var pf, pt := pos[bf], pos[bt];
      bf in st[pf] && bt in st[pt] &&
      var st1 := if rf then Reset(st, pf, bf) else st;
      var pos1 := if rf then ResetWhere(st, pos, pf, bf) else pos;
      bt in st1[pt] &&
      var st2 := if rt then Reset(st1, pt, bt) else st1;
      var pos2 := if rt then ResetWhere(st1, pos1, pt, bt) else pos1;
      Relocated(pos', pos2, st2[pf][Cut(st2[pf], bf)..], pt)
    ensures Consistent(MoveFloor(st, pos[bf], pos[bt], bf, bt, rf, rt), pos')
  {
    var pf, pt := pos[bf], pos[bt];
    var st1, pos1 := st, pos;
    if rf {
      ResetSide(st, pos, pf, bf, pt);
      st1, pos1 := Reset(st, pf, bf), ResetWhere(st, pos, pf, bf);
    }
    assert bf in st1[pf] && st1[pt] == st[pt];
    var st2, pos2 := st1, pos1;
    if rt {
      ResetSide(st1, pos1, pt, bt, pf);
      st2, pos2 := Reset(st1, pt, bt), ResetWhere(st1, pos1, pt, bt);
    }
    assert bf in st2[pf] && bt in st2[pt];
    TransferConsistent(st2, pos2, pos', pf, pt, bf);
  }

  /** The source and target stacks after the mutating part of a move: the
      source keeps what was below blockFrom; the target (cut back to blockTo
      when it is reset) receives blockFrom alone when the source is reset,
      and blockFrom with its whole pile otherwise. */
  lemma MoveFloorEnds(st: Floor, pos: Where, bf: int, bt: int, rf: bool, rt: bool)
    requires Consistent(st, pos) && 0 <= bf < |st| && 0 <= bt < |st| && pos[bf] != pos[bt]
    ensures var pf, pt := pos[bf], pos[bt];
      var kf, kt := Cut(st[pf], bf), Cut(st[pt], bt);
      var r := MoveFloor(st, pf, pt, bf, bt, rf, rt);
      r[pf] == st[pf][..kf] &&
      r[pt] == (if rt then st[pt][..kt + 1] else st[pt]) + (if rf then [bf] else st[pf][kf..])
  {
    var pf, pt := pos[bf], pos[bt];
    var kf, kt := Cut(st[pf], bf), Cut(st[pt], bt);
    var st1, pos1 := st, pos;
    if rf {
      ResetSide(st, pos, pf, bf, pt);
      ResetTopIs(st, pf, bf);
      st1, pos1 := Reset(st, pf, bf), ResetWhere(st, pos, pf, bf);
    }
    assert st1[pt] == st[pt] && Cut(st1[pf], bf) == kf && st1[pf][..kf] == st[pf][..kf];
    assert st1[pf][kf..] == if rf then [bf] else st[pf][kf..];
    var st2 := st1;
    if rt {
      ResetSide(st1, pos1, pt, bt, pf);
      ResetTopIs(st1, pt, bt);
      st2 := Reset(st1, pt, bt);
    }
    assert st2[pf] == st1[pf] && st2[pt] == if rt then st[pt][..kt + 1] else st[pt];
  }

  /** Away from the source and target, a move changes a stack only by
      sending its own home block back to it, from above blockFrom (when
      the source is reset) or from above blockTo (when the target is reset). */
  lemma MoveFloorElsewhere(st: Floor, pos: Where, bf: int, bt: int, rf: bool, rt: bool, q: int)
    requires Consistent(st, pos) && 0 <= bf < |st| && 0 <= bt < |st| && pos[bf] != pos[bt]
    requires 0 <= q < |st| && q != pos[bf] && q != pos[bt]
    ensures var pf, pt := pos[bf], pos[bt];
      var kf, kt := Cut(st[pf], bf), Cut(st[pt], bt);
      MoveFloor(st, pf, pt, bf, bt, rf, rt)[q] ==
        if (rf && q in st[pf][kf + 1..]) || (rt && q in st[pt][kt + 1..]) then [q] else st[q]
  {
    var pf, pt := pos[bf], pos[bt];
    var kf, kt := Cut(st[pf], bf), Cut(st[pt], bt);
    var st1, pos1 := st, pos;
    if rf {
      ResetSide(st, pos, pf, bf, pt);
      ResetEffect(st, pos, pf, bf);
      st1, pos1 := Reset(st, pf, bf), ResetWhere(st, pos, pf, bf);
    }
    assert st1[pt] == st[pt];
    assert st1[q] == if rf && q in st[pf][kf + 1..] then [q] else st[q];
    var st2 := st1;
    if rt {
      ResetEffect(st1, pos1, pt, bt);
      st2 := Reset(st1, pt, bt);
    }
    assert st2[q] == if rt && q in st[pt][kt + 1..] then [q] else st1[q];
  }

  /** moveOnto: only blockFrom moves, and it sits directly on blockTo, on top of the target. */
  lemma MoveOntoEffect(st: Floor, pos: Where, st': Floor, pos': Where, r: Result<bool>, bf: int, bt: int)
    requires Consistent(st, pos) && MovePolicy(st, pos, st', pos', r, bf, bt, true, true) && r == Ok(true)
    ensures var pf, pt := pos[bf], pos[bt];
      pos'[bf] == pt && st'[pf] == st[pf][..Cut(st[pf], bf)] &&
      var kt := Cut(st[pt], bt);
      st'[pt] == st[pt][..kt + 1] + [bf] && |st'[pt]| == kt + 2 && st'[pt][kt] == bt && st'[pt][kt + 1] == bf
  {
    var pf, pt := pos[bf], pos[bt];
    var kt := Cut(st[pt], bt);
    assert st' == MoveFloor(st, pf, pt, bf, bt, true, true) && Placed(st', pos');
    MoveFloorEnds(st, pos, bf, bt, true, true);
    StackedRecorded(st', pos', pt, kt + 1);
  }

  /** moveOver: only blockFrom moves, onto the top of the target's whole pile. */
  lemma MoveOverEffect(st: Floor, pos: Where, st': Floor, pos': Where, r: Result<bool>, bf: int, bt: int)
    requires Consistent(st, pos) && MovePolicy(st, pos, st', pos', r, bf, bt, true, false) && r == Ok(true)
    ensures var pf, pt := pos[bf], pos[bt];
      pos'[bf] == pt && st'[pf] == st[pf][..Cut(st[pf], bf)] && st'[pt] == st[pt] + [bf]
  {
    MoveFloorEnds(st, pos, bf, bt, true, false);
    StackedRecorded(st', pos', pos[bt], |st'[pos[bt]]| - 1);
  }

  /** pileOnto: blockFrom and everything above it move, in order, directly onto blockTo. */
  lemma PileOntoEffect(st: Floor, pos: Where, st': Floor, pos': Where, r: Result<bool>, bf: int, bt: int)
    requires Consistent(st, pos) && MovePolicy(st, pos, st', pos', r, bf, bt, false, true) && r == Ok(true)
    ensures var pf, pt := pos[bf], pos[bt]; var kf, kt := Cut(st[pf], bf), Cut(st[pt], bt);
      pos'[bf] == pt && st'[pf] == st[pf][..kf] &&
      st'[pt] == st[pt][..kt + 1] + st[pf][kf..] && st'[pt][kt] == bt && st'[pt][kt + 1] == bf
  {
    MoveFloorEnds(st, pos, bf, bt, false, true);
    StackedRecorded(st', pos', pos[bt], Cut(st[pos[bt]], bt) + 1);
  }

  /** pileOver: blockFrom and everything above it move, in order, onto the top of the target's pile. */
  lemma PileOverEffect(st: Floor, pos: Where, st': Floor, pos': Where, r: Result<bool>, bf: int, bt: int)
    requires Consistent(st, pos) && MovePolicy(st, pos, st', pos', r, bf, bt, false, false) && r == Ok(true)
    ensures var pf, pt := pos[bf], pos[bt]; var kf := Cut(st[pf], bf);
      pos'[bf] == pt && st'[pf] == st[pf][..kf] && st'[pt] == st[pt] + st[pf][kf..]
  {
    MoveFloorEnds(st, pos, bf, bt, false, false);
    StackedRecorded(st', pos', pos[bt], |st[pos[bt]]|);
  }
}
