// The board operations that work on the program's mutable board, an array of
// Width columns by Height rows (board[x][y] in the program is board[x, y] here).

module BoardArray {
  import opened Board

  /** The value an array board holds. */
  function Contents(a: array2<Cell>): (r: Grid)
    reads a
    ensures |r| == a.Length0
    ensures forall x :: 0 <= x < a.Length0 ==> |r[x]| == a.Length1
    ensures forall x, y :: 0 <= x < a.Length0 && 0 <= y < a.Length1 ==> r[x][y] == a[x, y]
  {
    seq(a.Length0, x requires 0 <= x < a.Length0 reads a =>
      seq(a.Length1, y requires 0 <= y < a.Length1 reads a => a[x, y]))
  }

  /** getStartingBoard: fills the columns with a running counter, then blanks the last cell. */
  method GetStartingBoard() returns (board: array2<Cell>)
    ensures fresh(board)
    ensures Contents(board) == Goal()
  {
    var counter := 1;
    board := new Cell[Width, Height];
    for x := 0 to Width
      invariant counter == x + 1
      invariant forall x', y' :: 0 <= x' < x && 0 <= y' < Height ==> board[x', y'] == Tile(x' + 1 + Width * y')
    {
      for y := 0 to Height
        invariant counter == x + 1 + Width * y
        invariant forall x', y' :: 0 <= x' < x && 0 <= y' < Height ==> board[x', y'] == Tile(x' + 1 + Width * y')
        invariant forall y' :: 0 <= y' < y ==> board[x, y'] == Tile(x + 1 + Width * y')
      {
        board[x, y] := Tile(counter);
        counter := counter + Width;
      }
      counter := counter - (Width * (Height - 1) + Width - 1);
    }
    board[Width - 1, Height - 1] := Blank;
    GridExtensionality(Contents(board), Goal());
  }

  /** getBlankPosition: scans column by column and returns the first blank, or None when there is none. */
  method GetBlankPosition(board: array2<Cell>) returns (r: Option<(nat, nat)>)
    requires board.Length0 == Width && board.Length1 == Height
    ensures r.None? <==> !HasBlank(Contents(board))
    ensures r.Some? ==> FirstBlank(Contents(board), r.value.0, r.value.1)
  {
    ghost var b := Contents(board);
    for x := 0 to Width
      invariant forall x', y' :: 0 <= x' < x && 0 <= y' < Height ==> board[x', y'] != Blank
    {
      for y := 0 to Height
        invariant forall x', y' :: 0 <= x' < x && 0 <= y' < Height ==> board[x', y'] != Blank
        invariant forall y' :: 0 <= y' < y ==> board[x, y'] != Blank
      {
        if board[x, y] == Blank {
          return Some((x, y));
        }
      }
    }
    return None;
  }

  /** makeMove: swaps the blank with the neighbour the move names, in place. The program does no
      checking here, so the move must be valid. */
  method MakeMove(board: array2<Cell>, move: Move)
    requires WellFormed(Contents(board)) && BlankPosition(Contents(board)).Some?
    requires IsValidMove(Contents(board), move)
    modifies board
    ensures Contents(board) == Apply(old(Contents(board)), move)
  {
    ghost var b := Contents(board);
    var pos := GetBlankPosition(board);
    FirstBlankUnique(b, pos.value.0, pos.value.1, BlankPosition(b).value.0, BlankPosition(b).value.1);
    var blankx, blanky := pos.value.0, pos.value.1;
    if move == Up {
      SwapCells(board, blankx, blanky, blankx, blanky + 1);
    } else if move == Down {
      SwapCells(board, blankx, blanky, blankx, blanky - 1);
    } else if move == Left {
      SwapCells(board, blankx, blanky, blankx + 1, blanky);
    } else {
      SwapCells(board, blankx, blanky, blankx - 1, blanky);
    }
  }

  /** The multiple assignment board[x1][y1], board[x2][y2] = board[x2][y2], board[x1][y1]. */
  method SwapCells(board: array2<Cell>, x1: nat, y1: nat, x2: nat, y2: nat)
    requires WellFormed(Contents(board)) && InBounds(x1, y1) && InBounds(x2, y2) && (x1, y1) != (x2, y2)
    modifies board
    ensures Contents(board) == Swap(old(Contents(board)), (x1, y1), (x2, y2))
  {
    ghost var b := Contents(board);
    assert |b[0]| == board.Length1;
    board[x1, y1], board[x2, y2] := board[x2, y2], board[x1, y1];
    GridExtensionality(Contents(board), Swap(b, (x1, y1), (x2, y2)));
  }

  /** copy_matrix: a fresh mutable board holding the same cells, copied one by one. */
  method CopyMatrix(init_matrix: Grid) returns (temp: array2<Cell>)
    requires Rectangular(init_matrix)
    ensures fresh(temp)
    ensures Contents(temp) == init_matrix
  {
    var rows := if |init_matrix| == 0 then 0 else |init_matrix[0]|;
    temp := new Cell[|init_matrix|, rows];
    for i := 0 to |init_matrix|
      invariant forall i', j' :: 0 <= i' < i && 0 <= j' < rows ==> temp[i', j'] == init_matrix[i'][j']
    {
      for j := 0 to rows
        invariant forall i', j' :: 0 <= i' < i && 0 <= j' < rows ==> temp[i', j'] == init_matrix[i'][j']
        invariant forall j' :: 0 <= j' < j ==> temp[i, j'] == init_matrix[i][j']
      {
        temp[i, j] := init_matrix[i][j];
      }
    }
    assert forall x :: 0 <= x < |init_matrix| ==> Contents(temp)[x] == init_matrix[x];
  }

  predicate Distinct(s: seq<Move>)
  {
    forall i, j :: 0 <= i < j < |s| ==> s[i] != s[j]
  }

  /** list.remove: drops the first occurrence of m. */
  function RemoveFirst(s: seq<Move>, m: Move): (r: seq<Move>)
    requires m in s
    ensures |r| == |s| - 1
    ensures forall x :: x in r ==> x in s
    ensures forall x :: x in s && x != m ==> x in r
    ensures Distinct(s) ==> Distinct(r) && m !in r
  {
    if s[0] == m then
      s[1..]
    else
      var t := RemoveFirst(s[1..], m);
      assert Distinct(s) ==> Distinct([s[0]] + t) by {
        if Distinct(s) {
          assert s[0] !in s[1..];
          assert s[0] !in t;
        }
      }
      [s[0]] + t
  }

  /** On a 3 x 3 board one of Up and Down, and one of Left and Right, is always valid. */
  lemma SomeMoveEachAxis(b: Grid)
    requires WellFormed(b) && BlankPosition(b).Some?
    ensures IsValidMove(b, Up) || IsValidMove(b, Down)
    ensures IsValidMove(b, Left) || IsValidMove(b, Right)
  {
  }

  /** Whether m is kept, given for each move whether it is kept. */
  function Kept(m: Move, up: bool, down: bool, left: bool, right: bool): bool
  {
    match m
    case Up => up
    case Down => down
    case Left => left
    case Right => right
  }

  /** The candidate list once the moves in done have been filtered: a move is in it exactly when it
      is still to be filtered or is kept. */
  ghost predicate Filtered(validMoves: seq<Move>, done: set<Move>, up: bool, down: bool, left: bool, right: bool)
  {
    Distinct(validMoves) &&
    (Up in validMoves <==> (Up in done ==> up)) &&
    (Down in validMoves <==> (Down in done ==> down)) &&
    (Left in validMoves <==> (Left in done ==> left)) &&
    (Right in validMoves <==> (Right in done ==> right))
  }

  /** One of getRandomMove's if-remove statements: m is removed exactly when it is not kept. */
  lemma FilterStep(validMoves: seq<Move>, done: set<Move>, up: bool, down: bool, left: bool, right: bool,
                   m: Move, drop: bool)
    requires Filtered(validMoves, done, up, down, left, right) && m !in done
    requires drop <==> !Kept(m, up, down, left, right)
    ensures m in validMoves
    ensures Filtered(if drop then RemoveFirst(validMoves, m) else validMoves, done + {m}, up, down, left, right)
  {
    match m
    case Up =>
    case Down =>
    case Left =>
    case Right =>
  }

  lemma AllMoves(m: Move)
    ensures m in [Up, Down, Left, Right] && m in {Down, Up, Right, Left}
  {
    match m
    case Up =>
    case Down =>
    case Left =>
    case Right =>
  }

  /** One if-remove statement of getRandomMove: m is removed unless its test passed. */
  method RemoveUnless(validMoves: seq<Move>, m: Move, keep: bool, ghost done: set<Move>,
                      ghost up: bool, ghost down: bool, ghost left: bool, ghost right: bool)
    returns (r: seq<Move>)
    requires Filtered(validMoves, done, up, down, left, right) && m !in done
    requires keep == Kept(m, up, down, left, right)
    ensures Filtered(r, done + {m}, up, down, left, right)
  {
    r := validMoves;
    if !keep {
      r := RemoveFirst(validMoves, m);
    }
    FilterStep(validMoves, done, up, down, left, right, m, !keep);
  }

  /** The four if-remove statements of getRandomMove, each move's test already made: the list keeps
      exactly the moves whose test passed. */
  method FilterMoves(up: bool, down: bool, left: bool, right: bool) returns (validMoves: seq<Move>)
    ensures Distinct(validMoves)
    ensures forall m :: m in validMoves <==> Kept(m, up, down, left, right)
  {
    validMoves := [Up, Down, Left, Right];
    validMoves := RemoveUnless(validMoves, Down, down, {}, up, down, left, right);
    validMoves := RemoveUnless(validMoves, Up, up, {Down}, up, down, left, right);
    validMoves := RemoveUnless(validMoves, Right, right, {Down, Up}, up, down, left, right);
    validMoves := RemoveUnless(validMoves, Left, left, {Down, Up, Right}, up, down, left, right);
    forall m ensures m in validMoves <==> Kept(m, up, down, left, right) {
      AllMoves(m);
    }
  }

  /** The candidate list of getRandomMove before the random choice: every move that is valid and
      does not undo lastMove, so random.choice always has a move to pick. */
  method RandomMoveCandidates(board: array2<Cell>, lastMove: Option<Move>) returns (validMoves: seq<Move>)
    requires WellFormed(Contents(board)) && BlankPosition(Contents(board)).Some?
    ensures forall m :: m in validMoves <==>
      IsValidMove(Contents(board), m) && lastMove != Some(Opposite(m))
    ensures Distinct(validMoves)
    ensures |validMoves| >= 1
  {
    var b := Contents(board);
    var up := !(lastMove == Some(Down) || !IsValidMove(b, Up));
    var down := !(lastMove == Some(Up) || !IsValidMove(b, Down));
    var left := !(lastMove == Some(Right) || !IsValidMove(b, Left));
    var right := !(lastMove == Some(Left) || !IsValidMove(b, Right));
    validMoves := FilterMoves(up, down, left, right);
    forall m ensures m in validMoves <==> IsValidMove(b, m) && lastMove != Some(Opposite(m)) {
      match m
      case Up =>
      case Down =>
      case Left =>
      case Right =>
    }
    SomeMoveEachAxis(b);
    if lastMove == Some(Up) || lastMove == Some(Down) {
      assert Left in validMoves || Right in validMoves;
    } else {
      assert Up in validMoves || Down in validMoves;
    }
  }

  /** One pass of resetAnimation's loop: the if-chain picks the opposite of move, and makeMove makes
      it on the live board. */
  method UndoMoveOn(board: array2<Cell>, move: Move)
    requires WellFormed(Contents(board)) && BlankPosition(Contents(board)).Some?
    requires IsValidMove(Contents(board), Opposite(move))
    modifies board
    ensures Contents(board) == Apply(old(Contents(board)), Opposite(move))
  {
    var oppositeMove := Opposite(move);
    MakeMove(board, oppositeMove);
  }

  /** resetAnimation without the animation: makes the opposites of allMoves, last move first, which
      is replaying their undo list. When allMoves led from start to the current board, the board is
      back at start afterwards. */
  method ResetMoves(board: array2<Cell>, allMoves: seq<Move>, ghost start: Grid)
    requires WellFormed(start) && OneBlank(start)
    requires Replay(start, allMoves) == Some(Contents(board))
    modifies board
    ensures Contents(board) == start
  {
    var revAllMoves := Reverse(allMoves);
    ghost var undo := UndoMoves(allMoves);
    ghost var b0 := Contents(board);
    UndoReplay(start, allMoves);
    assert undo[..0] == [];
    for i := 0 to |revAllMoves|
      invariant Replay(b0, undo[..i]) == Some(Contents(board))
    {
      ReplayNext(b0, undo, i, Contents(board));
      UndoMoveOn(board, revAllMoves[i]);
    }
    assert undo[..|undo|] == undo;
  }
}
