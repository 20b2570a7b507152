// The A* search: an open list Q kept sorted by f, a closed list of expanded nodes, and the
// duplicate rules for successors (skip a board already closed or open, lower the costs of an open
// node when a successor reaches its board with a strictly smaller f).

module AStar {
  import opened Board
  import opened BoardArray
  import opened Manhattan
  import opened SearchNode
  import opened Finite
  import opened Bfs

  /** Q is in ascending order of f. */
  ghost predicate SortedByF(Q: seq<State>)
    reads Q
  {
    forall i, j :: 0 <= i < j < |Q| ==> Q[i].f <= Q[j].f
  }

  /** The nodes of Q whose f is v, in their order in Q. */
  ghost function WithF(Q: seq<State>, v: int): (r: seq<State>)
    reads Q
    ensures |r| <= |Q|
  {
    if Q == [] then []
    else WithF(Q[..|Q| - 1], v) + (if Q[|Q| - 1].f == v then [Q[|Q| - 1]] else [])
  }

  lemma {:induction false} WithFAppend(a: seq<State>, b: seq<State>, v: int)
    ensures WithF(a + b, v) == WithF(a, v) + WithF(b, v)
    decreases |b|
  {
    if b == [] {
      assert a + b == a;
    } else {
      assert (a + b)[..|a + b| - 1] == a + b[..|b| - 1];
      assert (a + b)[|a + b| - 1] == b[|b| - 1];
      WithFAppend(a, b[..|b| - 1], v);
    }
  }

  lemma {:induction false} WithFNone(a: seq<State>, v: int)
    requires forall k :: 0 <= k < |a| ==> a[k].f != v
    ensures WithF(a, v) == []
    decreases |a|
  {
    if a != [] {
      WithFNone(a[..|a| - 1], v);
    }
  }

  /** The first node of a sorted Q has the least f, so pop(0) takes a node of minimum f. */
  lemma HeadIsMinimum(Q: seq<State>)
    requires SortedByF(Q) && Q != []
    ensures forall k :: 0 <= k < |Q| ==> Q[0].f <= Q[k].f
  {
  }

  /** Inserting x after every node whose f is at most x.f, and before the rest, keeps R sorted. */
  lemma InsertSorted(R: seq<State>, k: nat, x: State)
    requires SortedByF(R) && k <= |R|
    requires k > 0 ==> R[k - 1].f <= x.f
    requires forall t :: k <= t < |R| ==> R[t].f > x.f
    ensures SortedByF(R[..k] + [x] + R[k..])
  {
    var R' := R[..k] + [x] + R[k..];
    forall i, j | 0 <= i < j < |R'|
      ensures R'[i].f <= R'[j].f
    {
      if j < k {
        assert R'[i] == R[i] && R'[j] == R[j];
      } else if j == k {
        assert R'[i] == R[i];
      } else if i < k {
        assert R'[i] == R[i] && R'[j] == R[j - 1];
      } else if i == k {
        assert R'[j] == R[j - 1];
      } else {
        assert R'[i] == R[i - 1] && R'[j] == R[j - 1];
      }
    }
  }

  lemma WithFSingle(x: State, v: int)
    ensures WithF([x], v) == if x.f == v then [x] else []
  {
    assert [x][..0] == [];
  }

  /** The same insertion appends x to the nodes of its own f and leaves the other f values alone. */
  lemma InsertWithF(R: seq<State>, k: nat, x: State, v: int)
    requires k <= |R|
    requires forall t :: k <= t < |R| ==> R[t].f > x.f
    ensures WithF(R[..k] + [x] + R[k..], v) == WithF(R, v) + WithF([x], v)
  {
    var A, B := R[..k], R[k..];
    assert R == A + B;
    WithFAppend(A + [x], B, v);
    WithFAppend(A, [x], v);
    WithFAppend(A, B, v);
    WithFSingle(x, v);
    if v == x.f {
      WithFNone(B, v);
    }
    SwapEmpty(WithF(A, v), WithF([x], v), WithF(B, v));
  }

  lemma SwapEmpty(a: seq<State>, b: seq<State>, c: seq<State>)
    requires b == [] || c == []
    ensures a + b + c == a + c + b
  {
  }

  /** R is P sorted by f, stably: sorted, a permutation of P, and holding the nodes of each f value
      in their order in P. */
  ghost predicate StableSortOf(R: seq<State>, P: seq<State>)
    reads R, P
  {
    SortedByF(R) && multiset(R) == multiset(P) && forall v :: WithF(R, v) == WithF(P, v)
  }

  /** One insertion of the sort: once x is inserted after the nodes whose f is at most x.f, R is
      P + [x] sorted by f. */
  lemma InsertStep(R: seq<State>, Q: seq<State>, i: nat, k: nat)
    requires i < |Q| && StableSortOf(R, Q[..i])
    requires k <= |R| && (k > 0 ==> R[k - 1].f <= Q[i].f) && forall t :: k <= t < |R| ==> R[t].f > Q[i].f
    ensures StableSortOf(R[..k] + [Q[i]] + R[k..], Q[..i + 1])
  {
    var P, x := Q[..i], Q[i];
    assert Q[..i + 1] == P + [x];
    InsertSorted(R, k, x);
    forall v
      ensures WithF(R[..k] + [x] + R[k..], v) == WithF(P + [x], v)
    {
      InsertWithF(R, k, x, v);
      WithFAppend(P, [x], v);
    }
    InsertPerm(R, P, k, x);
  }

  lemma InsertPerm(R: seq<State>, P: seq<State>, k: nat, x: State)
    requires multiset(R) == multiset(P) && k <= |R|
    ensures multiset(R[..k] + [x] + R[k..]) == multiset(P + [x])
  {
    assert R == R[..k] + R[k..];
    assert multiset(R[..k] + [x] + R[k..]) == multiset(R[..k]) + multiset{x} + multiset(R[k..]);
    assert multiset(P + [x]) == multiset(P) + multiset{x};
  }

  /** Where the insertion sort puts x: after the last node of R whose f is at most x.f. */
  method InsertionPoint(R: seq<State>, x: State) returns (k: nat)
    ensures k <= |R| && (k > 0 ==> R[k - 1].f <= x.f)
    ensures forall t :: k <= t < |R| ==> R[t].f > x.f
  {
    k := |R|;
    while k > 0 && R[k - 1].f > x.f
      invariant 0 <= k <= |R|
      invariant forall t :: k <= t < |R| ==> R[t].f > x.f
    {
      k := k - 1;
    }
  }

  /** Q.sort(key=f): a stable sort by ascending f, written as an insertion sort. The result is
      sorted, a permutation of Q, and keeps the nodes of each f value in their order in Q. */
  method SortByF(Q: seq<State>) returns (R: seq<State>)
    ensures StableSortOf(R, Q)
  {
    R := [];
    for i := 0 to |Q|
      invariant StableSortOf(R, Q[..i])
    {
      var x := Q[i];
      var k := InsertionPoint(R, x);
      InsertStep(R, Q, i, k);
      R := R[..k] + [x] + R[k..];
    }
    assert Q[..|Q|] == Q;
  }

  // The lists A* keeps, closed then open, as one sequence of nodes.

  lemma {:induction false} BoardsCard(l: seq<State>)
    ensures |Boards(l)| <= |l|
    decreases |l|
  {
    if l != [] {
      var p := l[..|l| - 1];
      assert l == p + [l[|l| - 1]];
      BoardsSnoc(p, l[|l| - 1]);
      BoardsCard(p);
    }
  }

  /** When l has as many boards as nodes, no two of its nodes share a board. */
  lemma DistinctPair(l: seq<State>, i: nat, j: nat)
    requires |Boards(l)| == |l| && i < j < |l|
    ensures l[i].matrix_state != l[j].matrix_state
  {
    if l[i].matrix_state == l[j].matrix_state {
      var m := l[..j] + l[j + 1..];
      assert l == l[..j] + [l[j]] + l[j + 1..];
      BoardsAppend(l[..j] + [l[j]], l[j + 1..]);
      BoardsAppend(l[..j], [l[j]]);
      BoardsAppend(l[..j], l[j + 1..]);
      assert l[..j][i] == l[i];
      assert Boards([l[j]]) == {l[j].matrix_state} by {
        assert [l[j]][0] == l[j];
      }
      assert Boards(l) == Boards(m);
      BoardsCard(m);
      assert false;
    }
  }

  /** Splitting such a sequence: both halves have distinct boards and share none. */
  lemma DistinctSplit(a: seq<State>, b: seq<State>)
    requires |Boards(a + b)| == |a| + |b|
    ensures |Boards(a)| == |a| && |Boards(b)| == |b| && Boards(a) !! Boards(b)
  {
    BoardsAppend(a, b);
    BoardsCard(a);
    BoardsCard(b);
    var A, B := Boards(a), Boards(b);
    assert |A + B| + |A * B| == |A| + |B|;
    assert |A| == |a| && |B| == |b|;
    assert |A * B| == 0;
    forall x | x in A
      ensures x !in B
    {
      assert x !in A * B;
    }
  }

  /** Reordering the nodes keeps their boards. */
  lemma BoardsPerm(a: seq<State>, b: seq<State>)
    requires multiset(a) == multiset(b)
    ensures Boards(a) == Boards(b)
  {
    forall x | x in Boards(a)
      ensures x in Boards(b)
    {
      var i :| 0 <= i < |a| && a[i].matrix_state == x;
      assert a[i] in multiset(b);
      var j :| 0 <= j < |b| && b[j] == a[i];
    }
    forall x | x in Boards(b)
      ensures x in Boards(a)
    {
      var j :| 0 <= j < |b| && b[j].matrix_state == x;
      assert b[j] in multiset(a);
      var i :| 0 <= i < |a| && a[i] == b[j];
    }
  }

  /** Every node A* holds was reached from the start node, and no two have the same board. */
  ghost predicate Pool(init_state: State, S: set<Cell>, l: seq<State>)
  {
    (forall i {:trigger Reached(l[i], init_state, S)} :: 0 <= i < |l| ==> Reached(l[i], init_state, S)) &&
    |Boards(l)| == |l|
  }

  /** What holds of closed and Q at the head of the while loop (with n == |closed|) and while the
      children of the last closed node are handled (n == |closed| - 1): the pool of nodes, the start
      board among them, and the first n closed nodes not the goal with every child board held. */
  ghost predicate Open(init_state: State, S: set<Cell>, closed: seq<State>, Q: seq<State>, n: nat, goal: Grid)
  {
    n <= |closed| &&
    Pool(init_state, S, closed + Q) &&
    init_state.matrix_state in Boards(closed + Q) &&
    Searched(closed, n, Boards(closed + Q), goal)
  }

  /** Every node other than the start node has f == g + h. */
  ghost predicate Costed(init_state: State, l: seq<State>)
    reads l
  {
    forall i :: 0 <= i < |l| ==> l[i] != init_state ==> l[i].f == l[i].g + Heuristic(l[i].matrix_state)
  }

  lemma PoolBounded(init_state: State, S: set<Cell>, l: seq<State>)
    requires Pool(init_state, S, l)
    ensures |l| <= |Grids(S, Width)|
  {
    forall b | b in Boards(l)
      ensures b in Grids(S, Width)
    {
      var i :| 0 <= i < |l| && l[i].matrix_state == b;
      assert Reached(l[i], init_state, S);
      BoardInGrids(b, S);
    }
    SubsetCard(Boards(l), Grids(S, Width));
  }

  lemma AStarStart(init_state: State, S: set<Cell>, goal: Grid)
    requires Linked(init_state) && WellFormed(init_state.matrix_state) && BlankPosition(init_state.matrix_state).Some?
    requires S == CellSet(init_state.matrix_state)
    ensures Open(init_state, S, [], [init_state], 0, goal)
  {
    CellSetCells(init_state.matrix_state);
    assert [] + [init_state] == [init_state];
    assert Boards([init_state]) == {init_state.matrix_state} by {
      assert [init_state][0] == init_state;
    }
    assert Reached([init_state][0], init_state, S);
  }

  /** Q.pop(0) followed by closed.append: closed + Q is the same sequence, with one more node
      closed. */
  lemma PopStep(init_state: State, S: set<Cell>, closed: seq<State>, Q: seq<State>, goal: Grid)
    requires Open(init_state, S, closed, Q, |closed|, goal) && Q != []
    ensures Open(init_state, S, closed + [Q[0]], Q[1..], |closed|, goal)
    ensures Reached(Q[0], init_state, S)
    ensures Q[0].matrix_state !in Boards(closed)
  {
    assert closed + [Q[0]] + Q[1..] == closed + Q;
    assert (closed + Q)[|closed|] == Q[0];
    assert Reached((closed + Q)[|closed|], init_state, S);
    DistinctSplit(closed, Q);
    assert Q[0].matrix_state in Boards(Q);
    var closed' := closed + [Q[0]];
    forall i | 0 <= i < |closed|
      ensures Done(closed'[i].matrix_state, Boards(closed' + Q[1..]), goal)
    {
      assert closed'[i] == closed[i];
      assert Done(closed[i].matrix_state, Boards(closed + Q), goal);
    }
  }

  lemma PoolSnoc(init_state: State, S: set<Cell>, l: seq<State>, c: State)
    requires Pool(init_state, S, l) && Reached(c, init_state, S) && c.matrix_state !in Boards(l)
    ensures Pool(init_state, S, l + [c]) && Boards(l + [c]) == Boards(l) + {c.matrix_state}
  {
    BoardsSnoc(l, c);
    forall i | 0 <= i < |l + [c]|
      ensures Reached((l + [c])[i], init_state, S)
    {
      if i < |l| {
        assert (l + [c])[i] == l[i];
        assert Reached(l[i], init_state, S);
      }
    }
  }

  /** One successor handled: either its board was held already, or it was appended to Q. */
  lemma ChildStep(init_state: State, S: set<Cell>, closed: seq<State>, Q: seq<State>, Q': seq<State>,
                  c: State, m: Move, goal: Grid)
    requires closed != [] && Open(init_state, S, closed, Q, |closed| - 1, goal)
    requires WellFormed(closed[|closed| - 1].matrix_state) && BlankPosition(closed[|closed| - 1].matrix_state).Some?
    requires Child(c, closed[|closed| - 1], m)
    requires Q' == if c.matrix_state in Boards(closed + Q) then Q else Q + [c]
    ensures Open(init_state, S, closed, Q', |closed| - 1, goal)
    ensures Boards(closed + Q) <= Boards(closed + Q') && c.matrix_state in Boards(closed + Q')
  {
    var l := closed + Q;
    if Q' != Q {
      assert closed + Q' == l + [c];
      assert l[|closed| - 1] == closed[|closed| - 1];
      assert Reached(l[|closed| - 1], init_state, S);
      ReachedChild(c, closed[|closed| - 1], m, init_state, S);
      PoolSnoc(init_state, S, l, c);
      SearchedExtend(closed, closed, |closed| - 1, Boards(l), Boards(l + [c]), goal);
    }
  }

  /** Q.sort reorders Q only, so what A* keeps about closed and Q still holds. */
  lemma SortStep(init_state: State, S: set<Cell>, closed: seq<State>, Q: seq<State>, R: seq<State>, goal: Grid)
    requires Open(init_state, S, closed, Q, |closed|, goal)
    requires multiset(R) == multiset(Q)
    ensures Open(init_state, S, closed, R, |closed|, goal)
    ensures Boards(closed + R) == Boards(closed + Q)
  {
    assert multiset(closed + R) == multiset(closed + Q);
    BoardsPerm(closed + R, closed + Q);
    var l, l' := closed + Q, closed + R;
    assert |l'| == |l| by {
      assert |multiset(l')| == |multiset(l)|;
    }
    forall i | 0 <= i < |l'|
      ensures Reached(l'[i], init_state, S)
    {
      assert l'[i] in multiset(l);
      var j :| 0 <= j < |l| && l[j] == l'[i];
      assert Reached(l[j], init_state, S);
    }
  }

  /** The open list ran empty: the closed boards are closed under moves and hold the start board
      but not the goal, so no move list reaches the goal. */
  lemma AStarExhausted(init_state: State, S: set<Cell>, closed: seq<State>, goal: Grid)
    requires Open(init_state, S, closed, [], |closed|, goal)
    requires WellFormed(init_state.matrix_state) && BlankPosition(init_state.matrix_state).Some?
    ensures forall ms :: Replay(init_state.matrix_state, ms) != Some(goal)
  {
    assert closed + [] == closed;
    var seen := Boards(closed);
    assert Closed(seen) by {
      forall c | c in seen
        ensures WellFormed(c) && BlankPosition(c).Some? && Expanded(c, seen)
      {
        var i :| 0 <= i < |closed| && closed[i].matrix_state == c;
        assert Done(closed[i].matrix_state, seen, goal);
      }
    }
    forall i | 0 <= i < |closed|
      ensures closed[i].matrix_state != goal
    {
      assert Done(closed[i].matrix_state, seen, goal);
    }
    assert goal !in seen;
    forall ms
      ensures Replay(init_state.matrix_state, ms) != Some(goal)
    {
      ClosedUnreachable(seen, init_state.matrix_state, ms, goal);
    }
  }

  /** The scan of Q for a successor's board (the inner for loop over Q): flag becomes 1 when Q holds
      the board, and the first matching node whose f is strictly larger than c.f takes c's g and f.
      Nothing else about any node changes. */
  method ScanOpen(c: State, Q: seq<State>) returns (flag: int)
    requires |Boards(Q)| == |Q| && c !in Q
    modifies Q
    ensures flag == 0 || flag == 1
    ensures flag == 1 <==> c.matrix_state in Boards(Q)
    ensures forall k :: 0 <= k < |Q| ==>
      if Q[k].matrix_state == c.matrix_state && c.f < old(Q[k].f) then Q[k].g == c.g && Q[k].f == c.f
      else Q[k].g == old(Q[k].g) && Q[k].f == old(Q[k].f)
  {
    flag := 0;
    for j := 0 to |Q|
      invariant flag == 0 || flag == 1
      invariant flag == 1 <==> c.matrix_state in Boards(Q[..j])
      invariant forall k :: 0 <= k < |Q| ==> Q[k].g == old(Q[k].g) && Q[k].f == old(Q[k].f)
      invariant forall k :: 0 <= k < j ==> !(Q[k].matrix_state == c.matrix_state && c.f < Q[k].f)
    {
      assert Q[..j + 1] == Q[..j] + [Q[j]];
      BoardsSnoc(Q[..j], Q[j]);
      if c.matrix_state == Q[j].matrix_state {
        flag := 1;
        if c.f < Q[j].f {
          forall k | 0 <= k < |Q| && k != j
            ensures Q[k].matrix_state != Q[j].matrix_state
          {
            if k < j {
              DistinctPair(Q, k, j);
            } else {
              DistinctPair(Q, j, k);
            }
          }
          Q[j].g := c.g;
          Q[j].f := c.f;
          assert c.matrix_state in Boards(Q);
          break;
        }
      }
    }
    assert Q[..|Q|] == Q;
  }

  /** The scan of closed for a successor's board, with the scan of Q inside it (run on each pass
      while flag is still 0): flag ends at 1 exactly when closed or Q holds c's board. Needs closed
      non-empty, as it is once the current node is closed; with closed empty the scan of Q would
      never run. */
  method ScanClosed(c: State, closed: seq<State>, Q: seq<State>) returns (flag: int)
    requires closed != [] && |Boards(closed + Q)| == |closed| + |Q|
    requires c !in Q
    modifies Q
    ensures flag == 0 || flag == 1
    ensures flag == 1 <==> c.matrix_state in Boards(closed + Q)
    ensures forall k :: 0 <= k < |Q| ==>
      if Q[k].matrix_state == c.matrix_state && c.f < old(Q[k].f) then Q[k].g == c.g && Q[k].f == c.f
      else Q[k].g == old(Q[k].g) && Q[k].f == old(Q[k].f)
  {
    DistinctSplit(closed, Q);
    BoardsAppend(closed, Q);
    assert closed[..|closed|] == closed;
    flag := 0;
    for j := 0 to |closed|
      invariant c.matrix_state !in Boards(closed[..j])
      invariant flag == 0 || flag == 1
      invariant flag == 0 ==> j == 0 || c.matrix_state !in Boards(Q)
      invariant flag == 1 ==> c.matrix_state in Boards(Q)
      invariant forall k :: 0 <= k < |Q| ==>
        if Q[k].matrix_state == c.matrix_state && c.f < old(Q[k].f) && flag == 1 then Q[k].g == c.g && Q[k].f == c.f
        else Q[k].g == old(Q[k].g) && Q[k].f == old(Q[k].f)
    {
      assert closed[..j + 1] == closed[..j] + [closed[j]];
      BoardsSnoc(closed[..j], closed[j]);
      if c.matrix_state == closed[j].matrix_state {
        flag := 1;
        break;
      }
      if flag == 0 {
        flag := ScanOpen(c, Q);
      }
    }
  }

  /** One pass of the for loop over the successors: c gets g = parent's g + 1 and f = g + h, and is
      appended to Q when neither closed nor Q holds its board. A node of Q with c's board and a
      strictly larger f takes c's g and f; its parent and move stay. */
  method ConsiderChild(current_state: State, c: State, closed: seq<State>, Q: seq<State>, ghost init_state: State)
    returns (Q': seq<State>)
    requires Rectangular(c.matrix_state)
    requires closed != [] && |Boards(closed + Q)| == |closed| + |Q|
    requires c !in closed && c !in Q && c != init_state
    requires Costed(init_state, closed + Q)
    modifies c, Q
    ensures c.g == old(current_state.g) + 1 && c.f == c.g + Heuristic(c.matrix_state)
    ensures Q' == if c.matrix_state in Boards(closed + Q) then Q else Q + [c]
    ensures forall k :: 0 <= k < |Q| ==>
      if Q[k].matrix_state == c.matrix_state && c.f < old(Q[k].f) then Q[k].g == c.g && Q[k].f == c.f
      else Q[k].g == old(Q[k].g) && Q[k].f == old(Q[k].f)
    ensures forall k :: 0 <= k < |closed| ==> closed[k].g == old(closed[k].g) && closed[k].f == old(closed[k].f)
    ensures Costed(init_state, closed + Q')
  {
    c.g := current_state.g + 1;
    var hc := H(c.matrix_state);
    c.f := c.g + hc;
    DistinctSplit(closed, Q);
    forall k | 0 <= k < |closed|
      ensures closed[k] !in Q
    {
      assert closed[k].matrix_state in Boards(closed);
    }
    var flag := ScanClosed(c, closed, Q);
    if flag == 0 {
      Q' := Q + [c];
    } else {
      Q' := Q;
    }
    forall i | 0 <= i < |closed + Q'| && (closed + Q')[i] != init_state
      ensures (closed + Q')[i].f == (closed + Q')[i].g + Heuristic((closed + Q')[i].matrix_state)
    {
      if i < |closed + Q| {
        assert (closed + Q')[i] == (closed + Q)[i];
        assert old((closed + Q)[i].f == (closed + Q)[i].g + Heuristic((closed + Q)[i].matrix_state));
        if i >= |closed| {
          assert (closed + Q)[i] == Q[i - |closed|];
        }
      }
    }
  }

  /** The costs (g, f) of an open node with board b, which had (g0, f0) before an expansion whose
      children have boards children and all cost gc: when a child reaches b with an f smaller than
      f0, the node takes that child's g and f; otherwise it keeps its own. Every child of one
      expansion has the same g, so every child with board b has the same f. */
  ghost predicate Relaxed(b: Grid, g: int, f: int, g0: int, f0: int, children: set<Grid>, gc: int)
  {
    if b in children && gc + Heuristic(b) < f0 then g == gc && f == gc + Heuristic(b)
    else g == g0 && f == f0
  }

  lemma RelaxedStep(b: Grid, g: int, f: int, g': int, f': int, g0: int, f0: int, children: set<Grid>,
                    cb: Grid, gc: int)
    requires Relaxed(b, g, f, g0, f0, children, gc)
    requires if b == cb && gc + Heuristic(cb) < f then g' == gc && f' == gc + Heuristic(cb) else g' == g && f' == f
    ensures Relaxed(b, g', f', g0, f0, children + {cb}, gc)
  {
  }

  /** One more child handled: Q grows by it exactly when closed, the open list it started from and
      the children before it do not hold its board, as the for loop over the children does. */
  lemma AppendedStep(closed: seq<State>, Q0: seq<State>, Q: seq<State>, Q': seq<State>,
                     result: seq<State>, i: nat, held: set<Grid>)
    requires i < |result| && held == Boards(closed + Q0)
    requires Q == Q0 + Appended(result[..i], held)
    requires Q' == if result[i].matrix_state in Boards(closed + Q) then Q else Q + [result[i]]
    ensures Q' == Q0 + Appended(result[..i + 1], held)
  {
    var c := result[i];
    PrefixSnoc(result, i);
    assert result[..i + 1][..i] == result[..i];
    assert closed + Q == (closed + Q0) + Appended(result[..i], held);
    BoardsAppend(closed + Q0, Appended(result[..i], held));
    AppendedBoards(result[..i], held);
  }

  lemma BoardsSnocAt(result: seq<State>, i: nat)
    requires i < |result|
    ensures Boards(result[..i + 1]) == Boards(result[..i]) + {result[i].matrix_state}
  {
    PrefixSnoc(result, i);
    BoardsSnoc(result[..i], result[i]);
  }

  /** After the for loop every child board is held. */
  lemma AppendedHeld(closed: seq<State>, Q0: seq<State>, Q: seq<State>, result: seq<State>, held: set<Grid>)
    requires held == Boards(closed + Q0) && Q == Q0 + Appended(result, held)
    ensures Boards(result) <= Boards(closed + Q)
  {
    assert closed + Q == (closed + Q0) + Appended(result, held);
    BoardsAppend(closed + Q0, Appended(result, held));
    AppendedBoards(result, held);
  }

  /** One pass of the for loop over successor(current_state): ConsiderChild on the i-th child. The
      child gets g = parent's g + 1 and f = g + h and is appended to Q exactly when neither closed
      nor Q holds its board; the node of Q with its board takes its g and f when its f is smaller;
      nothing else changes. */
  method ChildPass(current_state: State, result: seq<State>, i: nat, closed: seq<State>, Q: seq<State>,
                   ghost init_state: State, ghost S: set<Cell>, ghost goal: Grid)
    returns (Q': seq<State>)
    requires closed != [] && closed[|closed| - 1] == current_state
    requires WellFormed(current_state.matrix_state) && BlankPosition(current_state.matrix_state).Some?
    requires Children(result, current_state, ValidMoves(current_state.matrix_state)) && i < |result|
    requires Open(init_state, S, closed, Q, |closed| - 1, goal)
    requires Costed(init_state, closed + Q)
    requires result[i] != init_state
    requires forall k :: i <= k < |result| ==> result[k] !in closed + Q
    modifies result[i], Q
    ensures Q' == if result[i].matrix_state in Boards(closed + Q) then Q else Q + [result[i]]
    ensures result[i].g == old(current_state.g) + 1 && result[i].f == result[i].g + Heuristic(result[i].matrix_state)
    ensures forall k :: 0 <= k < |Q| ==>
      if Q[k].matrix_state == result[i].matrix_state && result[i].f < old(Q[k].f)
      then Q[k].g == result[i].g && Q[k].f == result[i].f
      else Q[k].g == old(Q[k].g) && Q[k].f == old(Q[k].f)
    ensures Gs(closed) == old(Gs(closed)) && Fs(closed) == old(Fs(closed))
    ensures Open(init_state, S, closed, Q', |closed| - 1, goal)
    ensures Costed(init_state, closed + Q')
    ensures forall k :: i < k < |result| ==> result[k] !in closed + Q'
  {
    var c := result[i];
    var m := ValidMoves(current_state.matrix_state)[i];
    assert (closed + Q)[|closed| - 1] == current_state;
    assert Reached((closed + Q)[|closed| - 1], init_state, S);
    ReachedChild(c, current_state, m, init_state, S);
    Q' := ConsiderChild(current_state, c, closed, Q, init_state);
    ChildStep(init_state, S, closed, Q, Q', c, m, goal);
  }

  /** The costs of a list of nodes, as values. */
  ghost function Gs(l: seq<State>): (r: seq<int>)
    reads l
    ensures |r| == |l| && forall k :: 0 <= k < |l| ==> r[k] == l[k].g
  {
    seq(|l|, k requires 0 <= k < |l| reads l => l[k].g)
  }

  ghost function Fs(l: seq<State>): (r: seq<int>)
    reads l
    ensures |r| == |l| && forall k :: 0 <= k < |l| ==> r[k] == l[k].f
  {
    seq(|l|, k requires 0 <= k < |l| reads l => l[k].f)
  }

  /** The nodes of Q from index n on cost g = gc and f = g + h. */
  ghost predicate CostsFrom(Q: seq<State>, n: nat, gc: int)
    reads Q
  {
    forall k :: n <= k < |Q| ==> Q[k].g == gc && Q[k].f == gc + Heuristic(Q[k].matrix_state)
  }

  /** The first n nodes of Q, whose costs were g0[k] and f0[k], are relaxed by the children boards. */
  ghost predicate RelaxedAll(Q: seq<State>, n: nat, g0: seq<int>, f0: seq<int>, children: set<Grid>, gc: int)
    reads Q
  {
    n <= |Q| && |g0| == n && |f0| == n &&
    forall k :: 0 <= k < n ==> Relaxed(Q[k].matrix_state, Q[k].g, Q[k].f, g0[k], f0[k], children, gc)
  }

  /** What RelaxedAll and CostsFrom say of Q, with Q's costs taken as the values gb and fb. */
  ghost predicate CostsBefore(Q: seq<State>, n: nat, gb: seq<int>, fb: seq<int>, g0: seq<int>, f0: seq<int>,
                              children: set<Grid>, gc: int)
  {
    n <= |Q| && |gb| == |Q| && |fb| == |Q| && |g0| == n && |f0| == n &&
    (forall k :: 0 <= k < n ==> Relaxed(Q[k].matrix_state, gb[k], fb[k], g0[k], f0[k], children, gc)) &&
    (forall k :: n <= k < |Q| ==> gb[k] == gc && fb[k] == gc + Heuristic(Q[k].matrix_state))
  }

  lemma Snapshot(Q: seq<State>, n: nat, g0: seq<int>, f0: seq<int>, children: set<Grid>, gc: int)
    requires RelaxedAll(Q, n, g0, f0, children, gc) && CostsFrom(Q, n, gc)
    ensures CostsBefore(Q, n, Gs(Q), Fs(Q), g0, f0, children, gc)
  {
  }

  /** After ChildPass: a node of Q with c's board took c's costs when they were smaller, the other
      nodes kept theirs (gb, fb), and c, when appended, costs gc. So the first n nodes are relaxed by
      one more child board, and the nodes after them still cost gc. */
  lemma RelaxStep(Qb: seq<State>, Q: seq<State>, n: nat, gb: seq<int>, fb: seq<int>, g0: seq<int>, f0: seq<int>,
                  children: set<Grid>, c: State, gc: int)
    requires CostsBefore(Qb, n, gb, fb, g0, f0, children, gc)
    requires Q == Qb || Q == Qb + [c]
    requires c.g == gc && c.f == gc + Heuristic(c.matrix_state)
    requires forall k :: 0 <= k < |Qb| ==>
      if Qb[k].matrix_state == c.matrix_state && c.f < fb[k] then Qb[k].g == c.g && Qb[k].f == c.f
      else Qb[k].g == gb[k] && Qb[k].f == fb[k]
    ensures RelaxedAll(Q, n, g0, f0, children + {c.matrix_state}, gc) && CostsFrom(Q, n, gc)
  {
    forall k | 0 <= k < n
      ensures Relaxed(Q[k].matrix_state, Q[k].g, Q[k].f, g0[k], f0[k], children + {c.matrix_state}, gc)
    {
      assert Q[k] == Qb[k];
      RelaxedStep(Qb[k].matrix_state, gb[k], fb[k], Qb[k].g, Qb[k].f, g0[k], f0[k], children, c.matrix_state, gc);
    }
    forall k | n <= k < |Q|
      ensures Q[k].g == gc && Q[k].f == gc + Heuristic(Q[k].matrix_state)
    {
      if k < |Qb| {
        assert Q[k] == Qb[k];
      }
    }
  }

  /** What the for loop over the children keeps after i of them: what A* keeps about closed and Q
      while a node is expanded; the children from i on are not held yet; the closed nodes keep their
      costs gcl and fcl; Q is the open list Q0 it started from followed by the children appended so
      far, which cost gc; and the nodes of Q0, whose costs were g0 and f0, are relaxed by the
      children handled so far. */
  ghost predicate Expanding(result: seq<State>, i: nat, closed: seq<State>, Q0: seq<State>, Q: seq<State>,
                            held: set<Grid>, g0: seq<int>, f0: seq<int>, gcl: seq<int>, fcl: seq<int>, gc: int,
                            init_state: State, S: set<Cell>, goal: Grid)
    reads closed, Q
  {
    i <= |result| && closed != [] &&
    Open(init_state, S, closed, Q, |closed| - 1, goal) &&
    Costed(init_state, closed + Q) &&
    (forall k :: i <= k < |result| ==> result[k] !in closed + Q) &&
    Gs(closed) == gcl && Fs(closed) == fcl &&
    Q == Q0 + Appended(result[..i], held) &&
    RelaxedAll(Q, |Q0|, g0, f0, Boards(result[..i]), gc) && CostsFrom(Q, |Q0|, gc)
  }

  /** What the for loop over the successors of current_state promises: children are those
      successors; expanded is Q0 followed by the children whose boards held did not contain, in
      order, each costing g = gc and f = g + h; and the nodes of Q0, whose costs were g0 and f0, are
      relaxed by the children. */
  ghost predicate ExpandedFrom(expanded: seq<State>, Q0: seq<State>, held: set<Grid>, children: seq<State>,
                               current_state: State, g0: seq<int>, f0: seq<int>, gc: int)
    reads expanded
  {
    WellFormed(current_state.matrix_state) && BlankPosition(current_state.matrix_state).Some? &&
    Children(children, current_state, ValidMoves(current_state.matrix_state)) &&
    expanded == Q0 + Appended(children, held) &&
    CostsFrom(expanded, |Q0|, gc) && RelaxedAll(expanded, |Q0|, g0, f0, Boards(children), gc)
  }

  lemma ExpandingStart(result: seq<State>, closed: seq<State>, Q0: seq<State>,
                        init_state: State, S: set<Cell>, goal: Grid)
    requires closed != [] && Open(init_state, S, closed, Q0, |closed| - 1, goal)
    requires Costed(init_state, closed + Q0)
    requires forall k :: 0 <= k < |result| ==> result[k] !in closed + Q0
    ensures Expanding(result, 0, closed, Q0, Q0, Boards(closed + Q0), Gs(Q0), Fs(Q0), Gs(closed), Fs(closed),
                      closed[|closed| - 1].g + 1, init_state, S, goal)
  {
    assert result[..0] == [] && Q0 + [] == Q0;
  }

  /** After the last child: every child board is held, so the closed node counts as expanded. */
  lemma ExpandingDone(current_state: State, result: seq<State>, closed: seq<State>, Q0: seq<State>, Q: seq<State>,
                      held: set<Grid>, g0: seq<int>, f0: seq<int>, gcl: seq<int>, fcl: seq<int>, gc: int,
                      init_state: State, S: set<Cell>, goal: Grid)
    requires closed != [] && closed[|closed| - 1] == current_state && current_state.matrix_state != goal
    requires WellFormed(current_state.matrix_state) && BlankPosition(current_state.matrix_state).Some?
    requires Children(result, current_state, ValidMoves(current_state.matrix_state))
    requires held == Boards(closed + Q0)
    requires Expanding(result, |result|, closed, Q0, Q, held, g0, f0, gcl, fcl, gc, init_state, S, goal)
    ensures ExpandedFrom(Q, Q0, held, result, current_state, g0, f0, gc)
    ensures Gs(closed) == gcl && Fs(closed) == fcl
    ensures Open(init_state, S, closed, Q, |closed|, goal)
    ensures Costed(init_state, closed + Q)
  {
    assert result[..|result|] == result;
    AppendedHeld(closed, Q0, Q, result, held);
    assert (closed + Q)[|closed| - 1] == current_state;
    ChildrenExpanded(current_state, result, Boards(closed + Q));
    SearchedNext(closed, |closed| - 1, Boards(closed + Q), goal);
  }

  /** One pass of the for loop over the children: ChildPass on the i-th child keeps Expanding. */
  method ExpandPass(current_state: State, result: seq<State>, i: nat, closed: seq<State>, Q0: seq<State>,
                    Q: seq<State>, ghost held: set<Grid>, ghost g0: seq<int>, ghost f0: seq<int>,
                    ghost gcl: seq<int>, ghost fcl: seq<int>, ghost gc: int,
                    ghost init_state: State, ghost S: set<Cell>, ghost goal: Grid)
    returns (Q': seq<State>)
    requires closed != [] && closed[|closed| - 1] == current_state
    requires WellFormed(current_state.matrix_state) && BlankPosition(current_state.matrix_state).Some?
    requires Children(result, current_state, ValidMoves(current_state.matrix_state)) && i < |result|
    requires result[i] != init_state && held == Boards(closed + Q0) && gc == current_state.g + 1
    requires Expanding(result, i, closed, Q0, Q, held, g0, f0, gcl, fcl, gc, init_state, S, goal)
    modifies result[i], Q
    ensures Q' == Q || Q' == Q + [result[i]]
    ensures Expanding(result, i + 1, closed, Q0, Q', held, g0, f0, gcl, fcl, gc, init_state, S, goal)
  {
    ghost var n := |Q0|;
    Snapshot(Q, n, g0, f0, Boards(result[..i]), gc);
    ghost var gb, fb := Gs(Q), Fs(Q);
    Q' := ChildPass(current_state, result, i, closed, Q, init_state, S, goal);
    AppendedStep(closed, Q0, Q, Q', result, i, held);
    RelaxStep(Q, Q', n, gb, fb, g0, f0, Boards(result[..i]), result[i], gc);
    BoardsSnocAt(result, i);
  }

  /** The for loop over successor(current_state), current_state being the node just closed: Q grows
      by the children whose boards were not held, in order, each costing g = parent's g + 1 and
      f = g + h; each node already open is relaxed by the children with its board; the closed nodes
      keep their costs. Afterwards current_state counts as expanded. */
  method ExpandCurrent(current_state: State, closed: seq<State>, Q0: seq<State>,
                       ghost init_state: State, ghost S: set<Cell>, ghost goal: Grid)
    returns (Q: seq<State>, ghost children: seq<State>)
    requires closed != [] && closed[|closed| - 1] == current_state && current_state.matrix_state != goal
    requires WellFormed(current_state.matrix_state) && BlankPosition(current_state.matrix_state).Some?
    requires Open(init_state, S, closed, Q0, |closed| - 1, goal)
    requires Costed(init_state, closed + Q0)
    modifies Q0
    ensures ExpandedFrom(Q, Q0, Boards(closed + Q0), children, current_state, old(Gs(Q0)), old(Fs(Q0)),
                         old(current_state.g) + 1)
    ensures Gs(closed) == old(Gs(closed)) && Fs(closed) == old(Fs(closed))
    ensures Open(init_state, S, closed, Q, |closed|, goal)
    ensures Costed(init_state, closed + Q)
    ensures forall x :: x in Q ==> x in Q0 || fresh(x)
  {
    ghost var gc := current_state.g + 1;
    ghost var held := Boards(closed + Q0);
    ghost var g0, f0 := Gs(Q0), Fs(Q0);
    ghost var gcl, fcl := Gs(closed), Fs(closed);
    var result := Successor(current_state);
    Q := Q0;
    ExpandingStart(result, closed, Q0, init_state, S, goal);
    for i := 0 to |result|
      invariant forall k :: 0 <= k < |Q| ==> Q[k] in Q0 || fresh(Q[k])
      invariant Expanding(result, i, closed, Q0, Q, held, g0, f0, gcl, fcl, gc, init_state, S, goal)
    {
      assert current_state.g == gcl[|closed| - 1];
      Q := ExpandPass(current_state, result, i, closed, Q0, Q, held, g0, f0, gcl, fcl, gc, init_state, S, goal);
    }
    ExpandingDone(current_state, result, closed, Q0, Q, held, g0, f0, gcl, fcl, gc, init_state, S, goal);
    children := result;
  }

  /** The rest of the while loop's body when the popped node Q[0] is not the goal: close it, handle
      its successors, then sort Q by f. expanded is Q after the for loop and before the sort: the
      rest of Q followed by the children whose boards closed and Q did not hold, each costing
      g = Q[0].g + 1 and f = g + h, with the nodes left open relaxed by the children; the new Q is
      its stable sort by f. The closed nodes, Q[0] among them now, keep their costs. */
  method CloseAndExpand(current_state: State, closed: seq<State>, Q0: seq<State>, ghost held: set<Grid>,
                        ghost init_state: State, ghost S: set<Cell>, ghost goal: Grid)
    returns (Q: seq<State>, ghost result: seq<State>, ghost expanded: seq<State>)
    requires closed != [] && closed[|closed| - 1] == current_state && current_state.matrix_state != goal
    requires held == Boards(closed + Q0)
    requires WellFormed(current_state.matrix_state) && BlankPosition(current_state.matrix_state).Some?
    requires Open(init_state, S, closed, Q0, |closed| - 1, goal)
    requires Costed(init_state, closed + Q0)
    modifies Q0
    ensures ExpandedFrom(expanded, Q0, held, result, current_state, old(Gs(Q0)), old(Fs(Q0)),
                         old(current_state.g) + 1)
    ensures StableSortOf(Q, expanded)
    ensures Gs(closed) == old(Gs(closed)) && Fs(closed) == old(Fs(closed))
    ensures Open(init_state, S, closed, Q, |closed|, goal)
    ensures Costed(init_state, closed + Q)
    ensures forall x :: x in Q ==> x in Q0 || fresh(x)
  {
    var Q1;
    Q1, result := ExpandCurrent(current_state, closed, Q0, init_state, S, goal);
    expanded := Q1;
    Q := SortOpen(closed, Q1, init_state, S, goal);
  }

  /** Q.sort(key=f) keeps what A* keeps about closed and Q, and brings no new node. */
  method SortOpen(closed: seq<State>, Q: seq<State>, ghost init_state: State, ghost S: set<Cell>, ghost goal: Grid)
    returns (R: seq<State>)
    requires Open(init_state, S, closed, Q, |closed|, goal) && Costed(init_state, closed + Q)
    ensures StableSortOf(R, Q)
    ensures Open(init_state, S, closed, R, |closed|, goal) && Costed(init_state, closed + R)
    ensures forall x :: x in R ==> x in Q
  {
    R := SortByF(Q);
    Resorted(init_state, S, closed, Q, R, goal);
  }

  /** Reordering the open list keeps what A* keeps about closed and Q, and brings no new node. */
  lemma Resorted(init_state: State, S: set<Cell>, closed: seq<State>, Q: seq<State>, R: seq<State>, goal: Grid)
    requires Open(init_state, S, closed, Q, |closed|, goal) && Costed(init_state, closed + Q)
    requires multiset(R) == multiset(Q)
    ensures Open(init_state, S, closed, R, |closed|, goal) && Costed(init_state, closed + R)
    ensures forall x :: x in R ==> x in Q
  {
    SortStep(init_state, S, closed, Q, R, goal);
    CostedPerm(init_state, closed, Q, R);
    forall x | x in R
      ensures x in Q
    {
      assert x in multiset(R);
    }
  }

  /** Popping Q[0] and closing it keeps closed + Q as it was, so its costs too; and the popped node
      has f == g + h unless it is the start node. */
  lemma PopJoin(closed: seq<State>, Q: seq<State>)
    requires Q != []
    ensures closed + [Q[0]] + Q[1..] == closed + Q
  {
  }

  lemma InTail(Q: seq<State>, x: State)
    requires Q != [] && x in Q[1..]
    ensures x in Q
  {
    var j :| 0 <= j < |Q| - 1 && Q[1..][j] == x;
    assert Q[j + 1] == x;
  }

  lemma CostedPop(init_state: State, closed: seq<State>, Q: seq<State>)
    requires Costed(init_state, closed + Q) && Q != []
    ensures Costed(init_state, closed + [Q[0]] + Q[1..])
    ensures Q[0] != init_state ==> Q[0].f == Q[0].g + Heuristic(Q[0].matrix_state)
  {
    assert closed + [Q[0]] + Q[1..] == closed + Q;
    assert (closed + Q)[|closed|] == Q[0];
  }

  lemma CostedPerm(init_state: State, closed: seq<State>, Q: seq<State>, R: seq<State>)
    requires Costed(init_state, closed + Q) && multiset(R) == multiset(Q)
    ensures Costed(init_state, closed + R)
  {
    var l, l' := closed + Q, closed + R;
    assert multiset(l') == multiset(l);
    forall i | 0 <= i < |l'| && l'[i] != init_state
      ensures l'[i].f == l'[i].g + Heuristic(l'[i].matrix_state)
    {
      assert l'[i] in multiset(l);
      var j :| 0 <= j < |l| && l[j] == l'[i];
    }
  }

  /** One pass of the while loop: pop Q[0], a node of least f; report it when its board is the
      solved one, otherwise close it, handle its successors and sort Q by f. expanded is the rest of
      Q followed by the children whose boards closed and Q did not hold, each costing g = Q[0].g + 1
      and f = g + h, with every node left open relaxed by the children; the new Q is its stable sort
      by f. Neither a closed node nor Q[0] changes its costs, and nothing changes when Q[0] is the
      goal. */
  method Step(closed: seq<State>, Q: seq<State>, ghost init_state: State, ghost S: set<Cell>, goal: Grid)
    returns (found: bool, current_state: State, closed': seq<State>, Q': seq<State>,
             ghost result: seq<State>, ghost expanded: seq<State>)
    requires Q != [] && Open(init_state, S, closed, Q, |closed|, goal)
    requires Costed(init_state, closed + Q) && SortedByF(Q)
    modifies Q
    ensures current_state == Q[0] && forall k :: 0 <= k < |Q| ==> old(Q[0].f) <= old(Q[k].f)
    ensures Reached(current_state, init_state, S)
    ensures found <==> current_state.matrix_state == goal
    ensures found ==> Q' == Q[1..] && closed' == closed && Gs(Q) == old(Gs(Q)) && Fs(Q) == old(Fs(Q))
    ensures found ==> current_state == init_state || current_state.f == current_state.g + Heuristic(goal)
    ensures !found ==> closed' == closed + [current_state] && Open(init_state, S, closed', Q', |closed'|, goal)
    ensures !found ==> Costed(init_state, closed' + Q') && SortedByF(Q')
    ensures !found ==> ExpandedFrom(expanded, Q[1..], Boards(closed + Q), result, current_state,
                                    old(Gs(Q[1..])), old(Fs(Q[1..])), old(Q[0].g) + 1)
    ensures !found ==> StableSortOf(Q', expanded)
    ensures Gs(closed + [Q[0]]) == old(Gs(closed + [Q[0]])) && Fs(closed + [Q[0]]) == old(Fs(closed + [Q[0]]))
    ensures forall x :: x in Q' ==> x in Q || fresh(x)
  {
    HeadIsMinimum(Q);
    PopStep(init_state, S, closed, Q, goal);
    CostedPop(init_state, closed, Q);
    current_state := Q[0];
    found := current_state.matrix_state == goal;
    if found {
      closed', Q' := closed, Q[1..];
      result, expanded := [], Q';
    } else {
      closed', Q', result, expanded := ClosePopped(closed, Q, init_state, S, goal);
    }
  }

  /** The while loop's body once the popped node Q[0] is known not to be solved: append it to
      closed, then expand it over the rest of Q (CloseAndExpand). */
  method ClosePopped(closed: seq<State>, Q: seq<State>, ghost init_state: State, ghost S: set<Cell>, ghost goal: Grid)
    returns (closed': seq<State>, Q': seq<State>, ghost result: seq<State>, ghost expanded: seq<State>)
    requires Q != [] && Q[0].matrix_state != goal
    requires WellFormed(Q[0].matrix_state) && BlankPosition(Q[0].matrix_state).Some?
    requires Open(init_state, S, closed + [Q[0]], Q[1..], |closed|, goal)
    requires Costed(init_state, closed + [Q[0]] + Q[1..])
    modifies Q
    ensures closed' == closed + [Q[0]] && Open(init_state, S, closed', Q', |closed'|, goal)
    ensures Costed(init_state, closed' + Q')
    ensures ExpandedFrom(expanded, Q[1..], Boards(closed + Q), result, Q[0],
                         old(Gs(Q[1..])), old(Fs(Q[1..])), old(Q[0].g) + 1)
    ensures StableSortOf(Q', expanded)
    ensures Gs(closed') == old(Gs(closed')) && Fs(closed') == old(Fs(closed'))
    ensures forall x :: x in Q' ==> x in Q || fresh(x)
  {
    var current_state := Q[0];
    closed' := closed + [current_state];
    var Q1 := Q[1..];
    PopJoin(closed, Q);
    Q', result, expanded := CloseAndExpand(current_state, closed', Q1, Boards(closed + Q), init_state, S, goal);
    forall x | x in Q'
      ensures x in Q || fresh(x)
    {
      if x in Q1 {
        InTail(Q, x);
      }
    }
  }

  /** What the while loop of AStar keeps: what A* keeps about closed and Q, Q sorted by f, the start
      node closed first (and alone in Q before that, the only node ever when it is solved), and the
      start node's f its h. */
  ghost predicate Searching(init_state: State, S: set<Cell>, closed: seq<State>, Q: seq<State>, goal: Grid)
    reads init_state, closed, Q
  {
    Open(init_state, S, closed, Q, |closed|, goal) &&
    Costed(init_state, closed + Q) &&
    SortedByF(Q) &&
    (init_state.matrix_state == goal ==> closed == [] && Q == [init_state]) &&
    (closed == [] ==> Q == [init_state]) &&
    (closed != [] ==> closed[0] == init_state) &&
    init_state.f == Heuristic(init_state.matrix_state)
  }

  /** One pass of the while loop keeps Searching: Step, with the start node among the nodes whose
      costs it keeps. */
  method Round(closed: seq<State>, Q: seq<State>, ghost init_state: State, ghost S: set<Cell>, goal: Grid)
    returns (found: bool, current_state: State, closed': seq<State>, Q': seq<State>)
    requires Q != [] && Searching(init_state, S, closed, Q, goal)
    modifies Q
    ensures found <==> current_state.matrix_state == goal
    ensures found ==> current_state == Q[0] && Reached(current_state, init_state, S)
    ensures found ==> current_state == init_state || current_state.f == current_state.g + Heuristic(goal)
    ensures !found ==> Searching(init_state, S, closed', Q', goal)
    ensures !found ==> |closed'| == |closed| + 1 <= |Grids(S, Width)|
    ensures init_state.g == old(init_state.g) && init_state.f == old(init_state.f)
    ensures forall x :: x in Q' ==> x in Q || fresh(x)
  {
    ghost var children, expanded;
    FirstClosed(closed, Q, init_state);
    found, current_state, closed', Q', children, expanded := Step(closed, Q, init_state, S, goal);
    if !found {
      PoolBounded(init_state, S, closed' + Q');
    }
  }

  /** Before the first pass, with only the start node open, costing f = h. */
  lemma SearchingStart(init_state: State, S: set<Cell>, goal: Grid)
    requires Linked(init_state) && WellFormed(init_state.matrix_state) && BlankPosition(init_state.matrix_state).Some?
    requires S == CellSet(init_state.matrix_state) && init_state.f == Heuristic(init_state.matrix_state)
    ensures Searching(init_state, S, [], [init_state], goal)
  {
    AStarStart(init_state, S, goal);
    assert [] + [init_state] == [init_state];
  }

  /** The start node is the first node A* closes. */
  lemma FirstClosed(closed: seq<State>, Q: seq<State>, init_state: State)
    requires Q != [] && (closed == [] ==> Q == [init_state]) && (closed != [] ==> closed[0] == init_state)
    ensures (closed + [Q[0]])[0] == init_state && init_state in closed + [Q[0]]
  {
  }

  /** The while loop of AStar, from the start node alone in Q: a node with the solved board, which
      descends from the start node and, unless it is the start node, has f == g + h; or null once Q
      is empty, in which case no move list reaches the solved board. */
  method Search(init_state: State, ghost S: set<Cell>, goal: Grid) returns (r: State?)
    requires WellFormed(init_state.matrix_state) && BlankPosition(init_state.matrix_state).Some?
    requires Searching(init_state, S, [], [init_state], goal)
    modifies init_state
    ensures r != null ==>
      r.matrix_state == goal && Reached(r, init_state, S) &&
      (r == init_state || r.f == r.g + Heuristic(goal))
    ensures init_state.matrix_state == goal ==> r == init_state
    ensures r == null ==> forall ms :: Replay(init_state.matrix_state, ms) != Some(goal)
    ensures init_state.g == old(init_state.g) && init_state.f == old(init_state.f)
  {
    var closed: seq<State> := [];
    var Q: seq<State> := [init_state];
    while |Q| > 0
      invariant Searching(init_state, S, closed, Q, goal)
      invariant forall k :: 0 <= k < |Q| ==> Q[k] == init_state || fresh(Q[k])
      invariant init_state.g == old(init_state.g)
      decreases |Grids(S, Width)| - |closed|
    {
      ghost var Q0 := Q;
      var found, current_state;
      found, current_state, closed, Q := Round(closed, Q, init_state, S, goal);
      if found {
        return current_state;
      }
      forall k | 0 <= k < |Q|
        ensures Q[k] == init_state || fresh(Q[k])
      {
        if Q[k] in Q0 {
          var j :| 0 <= j < |Q0| && Q0[j] == Q[k];
        }
      }
    }
    AStarExhausted(init_state, S, closed, goal);
    r := null;
  }

  /** AStar: pop the node of least f; return it if it is the solved board, otherwise close it and
      handle each of its successors, then re-sort Q by f. Returns the sentinel once Q is empty. A
      returned node descends from the start node and, unless it is the start node, has f == g + h;
      the sentinel is returned only when no move list reaches the solved board. */
  method AStar(init_state: State) returns (r: State)
    requires Linked(init_state)
    requires WellFormed(init_state.matrix_state) && BlankPosition(init_state.matrix_state).Some?
    modifies init_state
    ensures Linked(r)
    ensures init_state.matrix_state == Goal() ==> r == init_state
    ensures init_state.g == old(init_state.g) && init_state.f == Heuristic(init_state.matrix_state)
    ensures r.matrix_state == Goal() ==>
      Descends(r, init_state) && (r == init_state || r.f == r.g + Heuristic(r.matrix_state))
    ensures r.matrix_state != Goal() ==>
      r.matrix_state == [] && r.parent_state == null && r.move == None &&
      forall ms :: Replay(init_state.matrix_state, ms) != Some(Goal())
  {
    var startingBoard := GetStartingBoard();
    var solveBoard := Contents(startingBoard);
    var h0 := H(init_state.matrix_state);
    init_state.f := h0;
    ghost var S := CellSet(init_state.matrix_state);
    SearchingStart(init_state, S, solveBoard);
    var found := Search(init_state, S, solveBoard);
    if found != null {
      r := found;
    } else {
      r := NoSolution();
    }
  }
}
