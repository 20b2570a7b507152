// Breadth-first search over search nodes, with the queue lvl of every node ever enqueued serving
// as the visited list.

module Bfs {
  import opened Board
  import opened BoardArray
  import opened SearchNode
  import opened Finite

  /** The boards of the nodes in l. */
  ghost function Boards(l: seq<State>): set<Grid>
  {
    set i | 0 <= i < |l| :: l[i].matrix_state
  }

  /** A node BFS can meet: linked back to init_state, with a well-formed board of init's cells. */
  ghost predicate Reached(s: State, init_state: State, S: set<Cell>)
  {
    Linked(s) && Descends(s, init_state) &&
    WellFormed(s.matrix_state) && BlankPosition(s.matrix_state).Some? && CellsIn(s.matrix_state, S)
  }

  lemma BoardsSnoc(l: seq<State>, s: State)
    ensures Boards(l + [s]) == Boards(l) + {s.matrix_state}
  {
    assert forall i :: 0 <= i < |l| ==> (l + [s])[i] == l[i];
    assert (l + [s])[|l|] == s;
  }

  lemma ReachedChild(c: State, parent: State, m: Move, init_state: State, S: set<Cell>)
    requires Reached(parent, init_state, S) && Child(c, parent, m)
    ensures Reached(c, init_state, S)
  {
    ChildLinked(c, parent, m);
    ApplyCellsIn(parent.matrix_state, m, S);
    ApplyHasBlank(parent.matrix_state, m);
  }

  /** Once every child of b is in seen, every valid move from b stays in seen. */
  lemma ChildrenExpanded(parent: State, result: seq<State>, seen: set<Grid>)
    requires WellFormed(parent.matrix_state) && BlankPosition(parent.matrix_state).Some?
    requires Children(result, parent, ValidMoves(parent.matrix_state))
    requires Boards(result) <= seen
    ensures Expanded(parent.matrix_state, seen)
  {
    var b := parent.matrix_state;
    ValidMovesExact(b);
    forall m | IsValidMove(b, m)
      ensures Apply(b, m) in seen
    {
      var k :| 0 <= k < |ValidMoves(b)| && ValidMoves(b)[k] == m;
      assert Child(result[k], parent, m);
    }
  }

  lemma BoardsAppend(a: seq<State>, b: seq<State>)
    ensures Boards(a + b) == Boards(a) + Boards(b)
  {
    forall x | x in Boards(a + b)
      ensures x in Boards(a) + Boards(b)
    {
      var i :| 0 <= i < |a + b| && (a + b)[i].matrix_state == x;
      if i >= |a| {
        assert b[i - |a|].matrix_state == x;
      }
    }
    forall x | x in Boards(b)
      ensures x in Boards(a + b)
    {
      var i :| 0 <= i < |b| && b[i].matrix_state == x;
      assert (a + b)[|a| + i] == b[i];
    }
    assert forall i :: 0 <= i < |a| ==> (a + b)[i] == a[i];
  }

  /** The children one expansion appends to the queues, in order: each child whose board is neither
      in held (the boards the search held before the expansion) nor the board of an earlier child. */
  ghost function Appended(children: seq<State>, held: set<Grid>): (r: seq<State>)
    ensures |r| <= |children|
    decreases |children|
  {
    if children == [] then []
    else
      var earlier, c := children[..|children| - 1], children[|children| - 1];
      Appended(earlier, held) + (if c.matrix_state in held + Boards(earlier) then [] else [c])
  }

  /** Together with held, the boards of the appended children are those of all the children. */
  lemma {:induction false} AppendedBoards(children: seq<State>, held: set<Grid>)
    ensures held + Boards(Appended(children, held)) == held + Boards(children)
    decreases |children|
  {
    if children != [] {
      var earlier, c := children[..|children| - 1], children[|children| - 1];
      AppendedBoards(earlier, held);
      assert children == earlier + [c];
      BoardsSnoc(earlier, c);
      var a := Appended(earlier, held);
      if c.matrix_state !in held + Boards(earlier) {
        BoardsSnoc(a, c);
      } else {
        assert Appended(children, held) == a + [];
        assert a + [] == a;
      }
    }
  }

  /** The appended children are children: a subsequence that drops the ones already held. */
  lemma {:induction false} AppendedFrom(children: seq<State>, held: set<Grid>)
    ensures forall x :: x in Appended(children, held) ==> x in children && x.matrix_state !in held
    decreases |children|
  {
    if children != [] {
      var earlier, c := children[..|children| - 1], children[|children| - 1];
      AppendedFrom(earlier, held);
      assert children == earlier + [c];
    }
  }

  /** Each node of l is at least as deep as the one before it. */
  ghost predicate DepthSorted(l: seq<State>)
  {
    |l| <= 1 || (DepthSorted(l[..|l| - 1]) && l[|l| - 2].depth <= l[|l| - 1].depth)
  }

  /** No two nodes of l have the same board. */
  ghost predicate DistinctBoards(l: seq<State>)
  {
    |l| == 0 || (DistinctBoards(l[..|l| - 1]) && l[|l| - 1].matrix_state !in Boards(l[..|l| - 1]))
  }

  lemma {:induction false} DepthSortedPair(l: seq<State>, i: nat, j: nat)
    requires DepthSorted(l) && i <= j < |l|
    ensures l[i].depth <= l[j].depth
    decreases |l|
  {
    if i < j {
      var p := l[..|l| - 1];
      if j < |l| - 1 {
        DepthSortedPair(p, i, j);
      } else {
        DepthSortedPair(p, i, j - 1);
      }
    }
  }

  lemma {:induction false} DistinctBoardsPair(l: seq<State>, i: nat, j: nat)
    requires DistinctBoards(l) && i < j < |l|
    ensures l[i].matrix_state != l[j].matrix_state
    decreases |l|
  {
    var p := l[..|l| - 1];
    if j < |l| - 1 {
      DistinctBoardsPair(p, i, j);
    } else {
      assert p[i].matrix_state in Boards(p);
    }
  }

  lemma DepthSortedSnoc(l: seq<State>, c: State)
    requires DepthSorted(l) && (l != [] ==> l[|l| - 1].depth <= c.depth)
    ensures DepthSorted(l + [c])
  {
    var l' := l + [c];
    assert l'[..|l'| - 1] == l;
    if l != [] {
      assert l'[|l'| - 2] == l[|l| - 1] && l'[|l'| - 1] == c;
    }
  }

  lemma DistinctBoardsSnoc(l: seq<State>, c: State)
    requires DistinctBoards(l) && c.matrix_state !in Boards(l)
    ensures DistinctBoards(l + [c])
  {
    assert (l + [c])[..|l|] == l;
  }

  /** The bookkeeping BFS keeps: lvl is every node ever enqueued, its first n nodes are the ones
      dequeued so far and Q is the rest, in enqueue order; seen is their boards, each board at most
      once, and the nodes are enqueued in non-decreasing depth. */
  ghost predicate Frontier(init_state: State, S: set<Cell>, lvl: seq<State>, n: nat, Q: seq<State>, seen: set<Grid>)
  {
    |lvl| >= 1 && lvl[0] == init_state && n <= |lvl| &&
    |Q| == |lvl| - n && (forall k :: 0 <= k < |Q| ==> Q[k] == lvl[n + k]) &&
    seen == Boards(lvl) &&
    (forall i {:trigger Reached(lvl[i], init_state, S)} :: 0 <= i < |lvl| ==> Reached(lvl[i], init_state, S)) &&
    DistinctBoards(lvl) && DepthSorted(lvl)
  }

  /** l' is l with more nodes after it. */
  ghost predicate Extends(l: seq<State>, l': seq<State>)
  {
    |l| <= |l'| && forall k :: 0 <= k < |l| ==> l'[k] == l[k]
  }

  /** Growing l at its end keeps its first n nodes. */
  lemma ExtendsPrefix(l: seq<State>, l': seq<State>, n: nat)
    requires Extends(l, l') && n <= |l|
    ensures l'[..n] == l[..n]
  {
  }

  /** One more node of l taken. */
  lemma PrefixSnoc(l: seq<State>, n: nat)
    requires n < |l|
    ensures l[..n + 1] == l[..n] + [l[n]]
  {
  }

  /** Every one of the first n nodes was not the goal and has all its children's boards in seen. */
  ghost predicate Searched(lvl: seq<State>, n: nat, seen: set<Grid>, goal: Grid)
    requires n <= |lvl|
  {
    forall i {:trigger Done(lvl[i].matrix_state, seen, goal)} :: 0 <= i < n ==> Done(lvl[i].matrix_state, seen, goal)
  }

  /** b is not the goal and every valid move from it leads into seen. */
  ghost predicate Done(b: Grid, seen: set<Grid>, goal: Grid)
  {
    WellFormed(b) && BlankPosition(b).Some? && b != goal && Expanded(b, seen)
  }

  /** With every board made of init's cells, seen is bounded by the finitely many such boards. */
  lemma SeenBounded(init_state: State, S: set<Cell>, lvl: seq<State>, n: nat, Q: seq<State>, seen: set<Grid>)
    requires Frontier(init_state, S, lvl, n, Q, seen)
    ensures |seen| <= |Grids(S, Width)|
  {
    forall b | b in seen
      ensures b in Grids(S, Width)
    {
      var i :| 0 <= i < |lvl| && lvl[i].matrix_state == b;
      assert Reached(lvl[i], init_state, S);
      BoardInGrids(b, S);
    }
    SubsetCard(seen, Grids(S, Width));
  }

  lemma AppendStep(init_state: State, S: set<Cell>, lvl: seq<State>, n: nat, Q: seq<State>, seen: set<Grid>, c: State)
    requires Frontier(init_state, S, lvl, n, Q, seen)
    requires Reached(c, init_state, S)
    requires c.matrix_state !in seen
    requires lvl[|lvl| - 1].depth <= c.depth
    ensures Frontier(init_state, S, lvl + [c], n, Q + [c], seen + {c.matrix_state})
    ensures |seen + {c.matrix_state}| == |seen| + 1
  {
    BoardsSnoc(lvl, c);
    DepthSortedSnoc(lvl, c);
    DistinctBoardsSnoc(lvl, c);
    var l := lvl + [c];
    forall i | 0 <= i < |l|
      ensures Reached(l[i], init_state, S)
    {
      if i < |lvl| {
        assert l[i] == lvl[i];
        assert Reached(lvl[i], init_state, S);
      }
    }
  }

  lemma SearchedExtend(lvl: seq<State>, lvl': seq<State>, n: nat, seen: set<Grid>, seen': set<Grid>, goal: Grid)
    requires n <= |lvl| && Extends(lvl, lvl')
    requires Searched(lvl, n, seen, goal) && seen <= seen'
    ensures Searched(lvl', n, seen', goal)
  {
    forall i | 0 <= i < n
      ensures Done(lvl'[i].matrix_state, seen', goal)
    {
      assert lvl'[i] == lvl[i];
      assert Done(lvl[i].matrix_state, seen, goal);
    }
  }

  lemma SearchedNext(lvl: seq<State>, n: nat, seen: set<Grid>, goal: Grid)
    requires n < |lvl| && Searched(lvl, n, seen, goal)
    requires WellFormed(lvl[n].matrix_state) && BlankPosition(lvl[n].matrix_state).Some?
    requires lvl[n].matrix_state != goal && Expanded(lvl[n].matrix_state, seen)
    ensures Searched(lvl, n + 1, seen, goal)
  {
  }

  /** After the children of lvl[n - 1] are enqueued, the first n nodes are all searched. */
  lemma ExpandStep(init_state: State, S: set<Cell>, lvl0: seq<State>, seen0: set<Grid>,
                   lvl: seq<State>, n: nat, Q: seq<State>, seen: set<Grid>, goal: Grid)
    requires Frontier(init_state, S, lvl, n, Q, seen) && 0 < n
    requires n - 1 <= |lvl0| && Searched(lvl0, n - 1, seen0, goal)
    requires Extends(lvl0, lvl) && seen0 <= seen
    requires WellFormed(lvl[n - 1].matrix_state) && BlankPosition(lvl[n - 1].matrix_state).Some?
    requires lvl[n - 1].matrix_state != goal && Expanded(lvl[n - 1].matrix_state, seen)
    ensures Searched(lvl, n, seen, goal)
    ensures |seen| <= |Grids(S, Width)|
  {
    assert Reached(lvl[n - 1], init_state, S);
    SearchedExtend(lvl0, lvl, n - 1, seen0, seen, goal);
    SearchedNext(lvl, n - 1, seen, goal);
    SeenBounded(init_state, S, lvl, n, Q, seen);
  }

  /** What holds at the head of BFS's while loop, with goal the board it compares against. */
  ghost predicate Invariant(init_state: State, S: set<Cell>, lvl: seq<State>, n: nat, Q: seq<State>,
                            seen: set<Grid>, goal: Grid)
  {
    Frontier(init_state, S, lvl, n, Q, seen) &&
    (Q != [] ==> lvl[|lvl| - 1].depth <= Q[0].depth + 1) &&
    Searched(lvl, n, seen, goal) && |seen| <= |Grids(S, Width)|
  }

  lemma Start(init_state: State, S: set<Cell>, goal: Grid)
    requires Linked(init_state) && WellFormed(init_state.matrix_state) && BlankPosition(init_state.matrix_state).Some?
    requires S == CellSet(init_state.matrix_state)
    ensures Invariant(init_state, S, [init_state], 0, [init_state], {init_state.matrix_state}, goal)
  {
    CellSetCells(init_state.matrix_state);
    assert Boards([init_state]) == {init_state.matrix_state} by {
      assert [init_state][0] == init_state;
    }
    SeenBounded(init_state, S, [init_state], 0, [init_state], {init_state.matrix_state});
  }

  /** Popping Q[0]: it is lvl[n], and the rest of Q is the frontier after n + 1 dequeues. */
  lemma DequeueStep(init_state: State, S: set<Cell>, lvl: seq<State>, n: nat, Q: seq<State>, seen: set<Grid>, goal: Grid)
    requires Invariant(init_state, S, lvl, n, Q, seen, goal) && Q != []
    ensures Frontier(init_state, S, lvl, n + 1, Q[1..], seen) && lvl[n] == Q[0]
    ensures Reached(Q[0], init_state, S) && Searched(lvl, n, seen, goal)
    ensures lvl[|lvl| - 1].depth <= Q[0].depth + 1
    ensures Q[1..] != [] ==> Q[0].depth <= Q[1..][0].depth
    ensures n > 0 ==> lvl[n - 1].depth <= Q[0].depth
  {
    assert Q[0] == lvl[n];
    assert Reached(lvl[n], init_state, S);
    if n > 0 {
      DepthSortedPair(lvl, n - 1, n);
    }
    if Q[1..] != [] {
      assert Q[1] == lvl[n + 1];
      DepthSortedPair(lvl, n, n + 1);
    }
  }

  /** The dequeue order is a prefix of lvl, so it inherits lvl's properties. */
  lemma OrderFacts(init_state: State, S: set<Cell>, lvl: seq<State>, n: nat, Q: seq<State>, seen: set<Grid>, done: nat, goal: Grid)
    requires Frontier(init_state, S, lvl, n, Q, seen) && 0 < n
    requires n - 1 <= done <= |lvl| && Searched(lvl, done, seen, goal)
    ensures var order := lvl[..n];
      order[0] == init_state &&
      (forall i :: 0 <= i < |order| - 1 ==> order[i].matrix_state != goal) &&
      (forall i, j :: 0 <= i < j < |order| ==> order[i].matrix_state != order[j].matrix_state) &&
      (forall i, j :: 0 <= i < j < |order| ==> order[i].depth <= order[j].depth) &&
      (forall i :: 0 <= i < |order| ==> Reached(order[i], init_state, S))
  {
    var order := lvl[..n];
    forall i, j | 0 <= i < j < |order|
      ensures order[i].matrix_state != order[j].matrix_state && order[i].depth <= order[j].depth
    {
      DistinctBoardsPair(lvl, i, j);
      DepthSortedPair(lvl, i, j);
    }
    forall i | 0 <= i < |order|
      ensures Reached(order[i], init_state, S)
    {
      assert Reached(lvl[i], init_state, S);
    }
    forall i | 0 <= i < |order| - 1
      ensures order[i].matrix_state != goal
    {
      assert Done(lvl[i].matrix_state, seen, goal);
    }
  }

  /** A fully expanded queue none of whose boards is the goal keeps the goal out of reach. */
  lemma ExhaustedUnreachable(init_state: State, S: set<Cell>, lvl: seq<State>, seen: set<Grid>, goal: Grid)
    requires Frontier(init_state, S, lvl, |lvl|, [], seen) && Searched(lvl, |lvl|, seen, goal)
    ensures WellFormed(init_state.matrix_state) && BlankPosition(init_state.matrix_state).Some?
    ensures forall ms :: Replay(init_state.matrix_state, ms) != Some(goal)
  {
    assert Reached(lvl[0], init_state, S);
    assert Closed(seen) by {
      forall c | c in seen
        ensures WellFormed(c) && BlankPosition(c).Some? && Expanded(c, seen)
      {
        var i :| 0 <= i < |lvl| && lvl[i].matrix_state == c;
        assert Reached(lvl[i], init_state, S);
        assert Done(lvl[i].matrix_state, seen, goal);
      }
    }
    assert init_state.matrix_state in seen;
    forall i | 0 <= i < |lvl|
      ensures lvl[i].matrix_state != goal
    {
      assert Done(lvl[i].matrix_state, seen, goal);
    }
    assert goal !in seen;
    forall ms
      ensures Replay(init_state.matrix_state, ms) != Some(goal)
    {
      ClosedUnreachable(seen, init_state.matrix_state, ms, goal);
    }
  }

  /** What BFS promises, for a goal board: the returned node r is well linked; when it holds the goal
      it descends from the start node and is the last node dequeued, and otherwise it is the
      sentinel and no move list leads from the start board to the goal. Either way the dequeue
      order starts at the start node, holds the goal only at the end, never repeats a board, and
      never decreases in depth. */
  ghost predicate Outcome(init_state: State, r: State, order: seq<State>, goal: Grid)
    requires WellFormed(init_state.matrix_state) && BlankPosition(init_state.matrix_state).Some?
  {
    Linked(r) &&
    (r.matrix_state == goal ==> Descends(r, init_state) && order != [] && r == order[|order| - 1]) &&
    (r.matrix_state != goal ==>
      r.matrix_state == [] && r.parent_state == null && r.move == None &&
      forall ms :: Replay(init_state.matrix_state, ms) != Some(goal)) &&
    order != [] && order[0] == init_state &&
    (forall i :: 0 <= i < |order| - 1 ==> order[i].matrix_state != goal) &&
    (forall i, j :: 0 <= i < j < |order| ==> order[i].matrix_state != order[j].matrix_state) &&
    (forall i, j :: 0 <= i < j < |order| ==> order[i].depth <= order[j].depth)
  }

  /** The node just dequeued holds the goal: BFS's promise for that node and the order so far. */
  lemma Found(init_state: State, S: set<Cell>, lvl: seq<State>, n: nat, Q: seq<State>, seen: set<Grid>,
              goal: Grid, order: seq<State>)
    requires Invariant(init_state, S, lvl, n, Q, seen, goal) && Q != [] && Q[0].matrix_state == goal
    requires WellFormed(init_state.matrix_state) && BlankPosition(init_state.matrix_state).Some?
    requires order == lvl[..n + 1]
    ensures Outcome(init_state, Q[0], order, goal)
  {
    DequeueStep(init_state, S, lvl, n, Q, seen, goal);
    OrderFacts(init_state, S, lvl, n + 1, Q[1..], seen, n, goal);
  }

  /** The queue ran empty: the goal is out of reach, so the sentinel r meets BFS's promise. */
  lemma Exhausted(init_state: State, S: set<Cell>, lvl: seq<State>, n: nat, Q: seq<State>, seen: set<Grid>,
                  goal: Grid, order: seq<State>, r: State)
    requires Invariant(init_state, S, lvl, n, Q, seen, goal) && Q == []
    requires WellFormed(init_state.matrix_state) && BlankPosition(init_state.matrix_state).Some?
    requires order == lvl[..n]
    requires r.matrix_state == [] && r.parent_state == null && r.move == None && Linked(r) && goal != []
    ensures Outcome(init_state, r, order, goal)
  {
    ExhaustedUnreachable(init_state, S, lvl, seen, goal);
    OrderFacts(init_state, S, lvl, n, Q, seen, n, goal);
    forall i | 0 <= i < |order|
      ensures order[i].matrix_state != goal
    {
      assert Done(lvl[i].matrix_state, seen, goal);
    }
  }

  /** The scan of lvl for result[i]'s board: flag becomes 1 at the first node with that board. */
  method InLevel(lvl: seq<State>, board: Grid) returns (flag: int)
    ensures flag == 0 || flag == 1
    ensures flag == 1 <==> board in Boards(lvl)
  {
    flag := 0;
    var j := 0;
    while j < |lvl|
      invariant 0 <= j <= |lvl|
      invariant forall j' :: 0 <= j' < j ==> lvl[j'].matrix_state != board
    {
      if board == lvl[j].matrix_state {
        flag := 1;
        assert board in Boards(lvl);
        break;
      }
      j := j + 1;
    }
  }

  /** What the for loop over the children keeps: lvl0 and Q0 have grown by the children appended so
      far, every one of them one deeper than current_state. */
  ghost predicate Enqueuing(init_state: State, S: set<Cell>, n: nat, current_state: State,
                            Q0: seq<State>, lvl0: seq<State>, seen0: set<Grid>,
                            Q: seq<State>, lvl: seq<State>, seen: set<Grid>)
  {
    Frontier(init_state, S, lvl, n, Q, seen) && 0 < n && lvl[n - 1] == current_state &&
    Extends(lvl0, lvl) && seen0 <= seen && |Q| == |Q0| + (|seen| - |seen0|) &&
    lvl[|lvl| - 1].depth <= current_state.depth + 1 &&
    (Q != [] ==> current_state.depth <= Q[0].depth)
  }

  /** One pass of the for loop: the scan of lvl for the child's board, and the append to Q and lvl
      when no node has it. */
  method VisitChild(current_state: State, c: State, ghost m: Move, Q1: seq<State>, lvl1: seq<State>,
                    ghost init_state: State, ghost S: set<Cell>, ghost n: nat,
                    ghost Q0: seq<State>, ghost lvl0: seq<State>, ghost seen0: set<Grid>, ghost seen1: set<Grid>)
    returns (Q: seq<State>, lvl: seq<State>, ghost seen: set<Grid>)
    requires Enqueuing(init_state, S, n, current_state, Q0, lvl0, seen0, Q1, lvl1, seen1)
    requires WellFormed(current_state.matrix_state) && BlankPosition(current_state.matrix_state).Some?
    requires Child(c, current_state, m)
    ensures Enqueuing(init_state, S, n, current_state, Q0, lvl0, seen0, Q, lvl, seen)
    ensures seen1 <= seen && c.matrix_state in seen
    ensures c.matrix_state in Boards(lvl1) ==> Q == Q1 && lvl == lvl1
    ensures c.matrix_state !in Boards(lvl1) ==> Q == Q1 + [c] && lvl == lvl1 + [c]
  {
    Q, lvl, seen := Q1, lvl1, seen1;
    var flag := InLevel(lvl, c.matrix_state);
    if flag == 0 {
      assert Reached(lvl[n - 1], init_state, S);
      ReachedChild(c, current_state, m, init_state, S);
      AppendStep(init_state, S, lvl, n, Q, seen, c);
      assert Q != [] ==> (Q + [c])[0] == Q[0];
      Q := Q + [c];
      lvl := lvl + [c];
      seen := seen + {c.matrix_state};
    }
  }

  /** One more child handled: a queue X that was base followed by the children appended so far
      grows by result[i] exactly when the boards held so far do not include its board. */
  lemma AppendedNext(result: seq<State>, i: nat, held: set<Grid>, lvl: seq<State>,
                     base: seq<State>, X: seq<State>, X': seq<State>)
    requires i < |result| && X == base + Appended(result[..i], held)
    requires Boards(lvl) == held + Boards(result[..i])
    requires X' == if result[i].matrix_state in Boards(lvl) then X else X + [result[i]]
    ensures X' == base + Appended(result[..i + 1], held)
  {
    PrefixSnoc(result, i);
    assert result[..i + 1][..i] == result[..i];
  }

  /** lvl0 followed by the children appended so far holds the boards of lvl0 and of those children. */
  lemma AppendedLevel(lvl0: seq<State>, children: seq<State>, lvl: seq<State>)
    requires lvl == lvl0 + Appended(children, Boards(lvl0))
    ensures Boards(lvl) == Boards(lvl0) + Boards(children)
  {
    BoardsAppend(lvl0, Appended(children, Boards(lvl0)));
    AppendedBoards(children, Boards(lvl0));
  }

  lemma BoardsPrefix(result: seq<State>, i: nat, seen: set<Grid>, seen': set<Grid>)
    requires i < |result| && Boards(result[..i]) <= seen <= seen' && result[i].matrix_state in seen'
    ensures Boards(result[..i + 1]) <= seen'
  {
    assert result[..i + 1] == result[..i] + [result[i]];
    BoardsSnoc(result[..i], result[i]);
  }

  /** What the for loop over the children keeps after i of them: Enqueuing, their boards seen, and
      Q and lvl grown from Q0 and lvl0 by exactly the children appended so far. */
  ghost predicate Visiting(init_state: State, S: set<Cell>, n: nat, current_state: State,
                           Q0: seq<State>, lvl0: seq<State>, seen0: set<Grid>, result: seq<State>, i: nat,
                           Q: seq<State>, lvl: seq<State>, seen: set<Grid>)
  {
    i <= |result| &&
    Enqueuing(init_state, S, n, current_state, Q0, lvl0, seen0, Q, lvl, seen) &&
    Boards(result[..i]) <= seen && Extends(Q0, Q) &&
    lvl == lvl0 + Appended(result[..i], Boards(lvl0)) &&
    Q == Q0 + Appended(result[..i], Boards(lvl0))
  }

  lemma VisitingStart(init_state: State, S: set<Cell>, n: nat, current_state: State,
                      Q0: seq<State>, lvl0: seq<State>, seen0: set<Grid>, result: seq<State>)
    requires Frontier(init_state, S, lvl0, n, Q0, seen0) && 0 < n && lvl0[n - 1] == current_state
    requires lvl0[|lvl0| - 1].depth <= current_state.depth + 1
    requires Q0 != [] ==> current_state.depth <= Q0[0].depth
    ensures Visiting(init_state, S, n, current_state, Q0, lvl0, seen0, result, 0, Q0, lvl0, seen0)
  {
    assert result[..0] == [] && lvl0 + [] == lvl0 && Q0 + [] == Q0;
  }

  /** After the last child: every child board is seen, so current_state counts as expanded, and
      the queues have grown by exactly the appended children. */
  lemma VisitingDone(init_state: State, S: set<Cell>, n: nat, current_state: State,
                     Q0: seq<State>, lvl0: seq<State>, seen0: set<Grid>, result: seq<State>,
                     Q: seq<State>, lvl: seq<State>, seen: set<Grid>, goal: Grid)
    requires WellFormed(current_state.matrix_state) && BlankPosition(current_state.matrix_state).Some?
    requires Children(result, current_state, ValidMoves(current_state.matrix_state))
    requires Visiting(init_state, S, n, current_state, Q0, lvl0, seen0, result, |result|, Q, lvl, seen)
    requires n - 1 <= |lvl0| && Searched(lvl0, n - 1, seen0, goal) && current_state.matrix_state != goal
    ensures Invariant(init_state, S, lvl, n, Q, seen, goal)
    ensures Extends(lvl0, lvl) && Extends(Q0, Q)
    ensures |seen0| <= |seen| && |Q| == |Q0| + (|seen| - |seen0|)
    ensures lvl == lvl0 + Appended(result, Boards(lvl0)) && Q == Q0 + Appended(result, Boards(lvl0))
  {
    assert result[..|result|] == result;
    ChildrenExpanded(current_state, result, seen);
    ExpandStep(init_state, S, lvl0, seen0, lvl, n, Q, seen, goal);
  }

  /** One pass of the for loop over the children: VisitChild on the i-th child keeps Visiting. */
  method VisitNext(current_state: State, result: seq<State>, i: nat, Q1: seq<State>, lvl1: seq<State>,
                   ghost init_state: State, ghost S: set<Cell>, ghost n: nat,
                   ghost Q0: seq<State>, ghost lvl0: seq<State>, ghost seen0: set<Grid>, ghost seen1: set<Grid>)
    returns (Q: seq<State>, lvl: seq<State>, ghost seen: set<Grid>)
    requires WellFormed(current_state.matrix_state) && BlankPosition(current_state.matrix_state).Some?
    requires Children(result, current_state, ValidMoves(current_state.matrix_state)) && i < |result|
    requires Visiting(init_state, S, n, current_state, Q0, lvl0, seen0, result, i, Q1, lvl1, seen1)
    ensures Visiting(init_state, S, n, current_state, Q0, lvl0, seen0, result, i + 1, Q, lvl, seen)
  {
    AppendedLevel(lvl0, result[..i], lvl1);
    Q, lvl, seen := VisitChild(current_state, result[i], ValidMoves(current_state.matrix_state)[i], Q1, lvl1,
                               init_state, S, n, Q0, lvl0, seen0, seen1);
    BoardsPrefix(result, i, seen1, seen);
    AppendedNext(result, i, Boards(lvl0), lvl1, lvl0, lvl1, lvl);
    AppendedNext(result, i, Boards(lvl0), lvl1, Q0, Q1, Q);
  }

  /** The rest of BFS's loop body once current_state is known not to be the goal: successor, then
      the for loop over the children, which puts each child whose board is not yet in lvl on both
      Q and lvl, so that both grow by the children whose boards lvl did not hold, in successor
      order. Afterwards current_state and every node dequeued before it are fully searched. */
  method ExpandNode(current_state: State, Q0: seq<State>, lvl0: seq<State>,
                    ghost init_state: State, ghost S: set<Cell>, ghost done: nat, ghost seen0: set<Grid>, ghost goal: Grid)
    returns (Q: seq<State>, lvl: seq<State>, ghost seen: set<Grid>, ghost children: seq<State>)
    requires Frontier(init_state, S, lvl0, done + 1, Q0, seen0) && lvl0[done] == current_state
    requires Searched(lvl0, done, seen0, goal) && current_state.matrix_state != goal
    requires lvl0[|lvl0| - 1].depth <= current_state.depth + 1
    requires Q0 != [] ==> current_state.depth <= Q0[0].depth
    ensures Invariant(init_state, S, lvl, done + 1, Q, seen, goal)
    ensures Extends(lvl0, lvl) && Extends(Q0, Q)
    ensures |seen0| <= |seen| && |Q| == |Q0| + (|seen| - |seen0|)
    ensures WellFormed(current_state.matrix_state) && BlankPosition(current_state.matrix_state).Some?
    ensures Children(children, current_state, ValidMoves(current_state.matrix_state))
    ensures lvl == lvl0 + Appended(children, Boards(lvl0)) && Q == Q0 + Appended(children, Boards(lvl0))
  {
    ghost var n := done + 1;
    assert Reached(lvl0[n - 1], init_state, S);
    var result := Successor(current_state);
    Q, lvl, seen := Q0, lvl0, seen0;
    VisitingStart(init_state, S, n, current_state, Q0, lvl0, seen0, result);
    for i := 0 to |result|
      invariant Visiting(init_state, S, n, current_state, Q0, lvl0, seen0, result, i, Q, lvl, seen)
    {
      Q, lvl, seen := VisitNext(current_state, result, i, Q, lvl, init_state, S, n, Q0, lvl0, seen0, seen);
    }
    children := result;
    VisitingDone(init_state, S, n, current_state, Q0, lvl0, seen0, result, Q, lvl, seen, goal);
  }

  /** BFS: dequeue the oldest node; return it if it is the solved board, otherwise enqueue each
      child whose board no node of lvl has. Returns the sentinel once the queue is empty. The ghost
      result order lists the nodes in the order Q.get() returned them. */
  method BFS(init_state: State) returns (r: State, ghost order: seq<State>)
    requires Linked(init_state)
    requires WellFormed(init_state.matrix_state) && BlankPosition(init_state.matrix_state).Some?
    ensures Outcome(init_state, r, order, Goal())
  {
    var Q: seq<State> := [];
    var lvl: seq<State> := [];
    var startingBoard := GetStartingBoard();
    var solveBoard := Contents(startingBoard);
    Q := Q + [init_state];
    lvl := lvl + [init_state];
    ghost var S := CellSet(init_state.matrix_state);
    ghost var seen: set<Grid> := {init_state.matrix_state};
    ghost var n: nat := 0;
    ghost var dequeued: seq<State> := [];
    Start(init_state, S, solveBoard);
    while Q != []
      invariant Invariant(init_state, S, lvl, n, Q, seen, solveBoard)
      invariant dequeued == lvl[..n]
      decreases |Grids(S, Width)| - |seen|, |Q|
    {
      ghost var done, Q_before := n, Q;
      DequeueStep(init_state, S, lvl, n, Q, seen, solveBoard);
      var current_state := Q[0];
      Q := Q[1..];
      PrefixSnoc(lvl, n);
      dequeued := dequeued + [current_state];
      n := n + 1;
      if current_state.matrix_state == solveBoard {
        order := dequeued;
        Found(init_state, S, lvl, done, Q_before, seen, solveBoard, order);
        return current_state, order;
      }
      ghost var lvl0 := lvl;
      ghost var children;
      Q, lvl, seen, children := ExpandNode(current_state, Q, lvl, init_state, S, done, seen, solveBoard);
      ExtendsPrefix(lvl0, lvl, n);
    }
    order := dequeued;
    r := NoSolution();
    Exhausted(init_state, S, lvl, n, Q, seen, solveBoard, order, r);
  }
}
