// The board model of the sliding-tile puzzle, as values.
//
// A board is a list of columns: b[x][y] is the cell in column x, row y.
// The program fixes both dimensions to 3 (BOARDWIDTH, BOARDHEIGHT).

module Board {

  const Width: nat := 3  // BOARDWIDTH
  const Height: nat := 3  // BOARDHEIGHT

  datatype Option<T> = None | Some(value: T)

  /** A cell holds a tile number or BLANK (None in the program). */
  datatype Cell = Blank | Tile(n: int)

  /** The four moves; each names the direction in which a tile slides into the blank. */
  datatype Move = Up | Down | Left | Right

  type Grid = seq<seq<Cell>>

  /** A board of the program's fixed size: Width columns of Height cells each. */
  predicate WellFormed(b: Grid)
  {
    |b| == Width && forall x :: 0 <= x < Width ==> |b[x]| == Height
  }

  /** Every column is as long as the first; the shape copy_matrix and h walk over. */
  predicate Rectangular(b: Grid)
  {
    forall x :: 0 <= x < |b| ==> |b[x]| == |b[0]|
  }

  predicate InBounds(x: int, y: int)
  {
    0 <= x < Width && 0 <= y < Height
  }

  ghost predicate HasBlank(b: Grid)
    requires WellFormed(b)
  {
    exists x, y :: InBounds(x, y) && b[x][y] == Blank
  }

  /** Exactly one cell is blank (part of the board invariant). */
  ghost predicate OneBlank(b: Grid)
    requires WellFormed(b)
  {
    HasBlank(b) &&
    forall x1, y1, x2, y2 ::
      InBounds(x1, y1) && InBounds(x2, y2) && b[x1][y1] == Blank && b[x2][y2] == Blank
      ==> x1 == x2 && y1 == y2
  }

  /** (x, y) comes strictly before (x', y') in the scan order of getBlankPosition: column by column. */
  predicate ScanBefore(x: int, y: int, x': int, y': int)
  {
    x < x' || (x == x' && y < y')
  }

  /** (x, y) is the first blank cell in scan order. */
  ghost predicate FirstBlank(b: Grid, x: int, y: int)
    requires WellFormed(b)
  {
    InBounds(x, y) && b[x][y] == Blank &&
    forall x', y' :: InBounds(x', y') && ScanBefore(x', y', x, y) ==> b[x'][y'] != Blank
  }

  lemma FirstBlankUnique(b: Grid, x1: int, y1: int, x2: int, y2: int)
    requires WellFormed(b) && FirstBlank(b, x1, y1) && FirstBlank(b, x2, y2)
    ensures x1 == x2 && y1 == y2
  {
  }

  /** The scan of getBlankPosition from (x, y) on: the first blank cell at or after (x, y). */
  function FindBlankFrom(b: Grid, x: nat, y: nat): (r: Option<(nat, nat)>)
    requires WellFormed(b) && x <= Width && y <= Height
    ensures r.Some? ==>
      InBounds(r.value.0, r.value.1) && b[r.value.0][r.value.1] == Blank &&
      !ScanBefore(r.value.0, r.value.1, x, y) &&
      forall x', y' :: InBounds(x', y') && !ScanBefore(x', y', x, y) && ScanBefore(x', y', r.value.0, r.value.1)
        ==> b[x'][y'] != Blank
    ensures r.None? ==>
      forall x', y' :: InBounds(x', y') && !ScanBefore(x', y', x, y) ==> b[x'][y'] != Blank
    decreases Width - x, Height - y
  {
    if x == Width then None
    else if y == Height then FindBlankFrom(b, x + 1, 0)
    else if b[x][y] == Blank then Some((x, y))
    else FindBlankFrom(b, x, y + 1)
  }

  /** getBlankPosition as a value: None when the board has no blank (the program then crashes). */
  function BlankPosition(b: Grid): (r: Option<(nat, nat)>)
    requires WellFormed(b)
    ensures r.None? <==> !HasBlank(b)
    ensures r.Some? ==> FirstBlank(b, r.value.0, r.value.1)
  {
    var r := FindBlankFrom(b, 0, 0);
    if r.None? then
      assert !HasBlank(b) by {
        forall x, y | InBounds(x, y) ensures b[x][y] != Blank {
          assert !ScanBefore(x, y, 0, 0);
        }
      }
      r
    else
      r
  }

  /** The cell whose tile slides into the blank at p under move m. */
  function Neighbour(p: (int, int), m: Move): (int, int)
  {
    match m
    case Up => (p.0, p.1 + 1)
    case Down => (p.0, p.1 - 1)
    case Left => (p.0 + 1, p.1)
    case Right => (p.0 - 1, p.1)
  }

  /** isValidMove: the boundary rule, stated against the board's own dimensions. */
  predicate IsValidMove(b: Grid, m: Move)
    requires WellFormed(b) && BlankPosition(b).Some?
  {
    var p := BlankPosition(b).value;
    (m == Up && p.1 != |b[0]| - 1) ||
    (m == Down && p.1 != 0) ||
    (m == Left && p.0 != |b| - 1) ||
    (m == Right && p.0 != 0)
  }

  /** The opposite-move mapping that resetAnimation uses to undo moves. */
  function Opposite(m: Move): (r: Move)
    ensures r != m
  {
    match m
    case Up => Down
    case Down => Up
    case Right => Left
    case Left => Right
  }

  lemma OppositeInvolution(m: Move)
    ensures Opposite(Opposite(m)) == m
  {
  }

  /** The move is legal exactly when the neighbour it names lies on the board. */
  lemma ValidMoveInBounds(b: Grid, m: Move)
    requires WellFormed(b) && BlankPosition(b).Some?
    ensures var p := BlankPosition(b).value;
      IsValidMove(b, m) <==> InBounds(Neighbour(p, m).0, Neighbour(p, m).1)
  {
  }

  function SetCell(b: Grid, x: nat, y: nat, c: Cell): (r: Grid)
    requires WellFormed(b) && InBounds(x, y)
    ensures WellFormed(r)
  {
    b[x := b[x][y := c]]
  }

  /** The multiple assignment of makeMove: the blank at p and the tile at q trade places. */
  function Swap(b: Grid, p: (nat, nat), q: (nat, nat)): (r: Grid)
    requires WellFormed(b) && InBounds(p.0, p.1) && InBounds(q.0, q.1)
    ensures WellFormed(r)
  {
    SetCell(SetCell(b, p.0, p.1, b[q.0][q.1]), q.0, q.1, b[p.0][p.1])
  }

  /** makeMove as a value: the board after a valid move, where the neighbour's tile has moved into
      the blank's cell and the neighbour's cell is blank (ApplyCells: nothing else changes). */
  function Apply(b: Grid, m: Move): (r: Grid)
    requires WellFormed(b) && BlankPosition(b).Some? && IsValidMove(b, m)
    ensures WellFormed(r)
  {
    var p := BlankPosition(b).value;
    var q := Neighbour(p, m);
    Swap(b, p, (q.0 as nat, q.1 as nat))
  }

  /** Two boards of the program's size with the same cells are the same board. */
  lemma GridExtensionality(a: Grid, b: Grid)
    requires WellFormed(a) && WellFormed(b)
    requires forall x, y :: InBounds(x, y) ==> a[x][y] == b[x][y]
    ensures a == b
  {
    forall x | 0 <= x < Width ensures a[x] == b[x] {
      assert forall y :: 0 <= y < Height ==> a[x][y] == b[x][y];
    }
  }

  /** Cell by cell: the tile from the neighbour moves into the blank, the neighbour becomes blank,
      and no other cell changes. */
  lemma ApplyCells(b: Grid, m: Move)
    requires WellFormed(b) && BlankPosition(b).Some? && IsValidMove(b, m)
    ensures var p := BlankPosition(b).value; var q := Neighbour(p, m);
      InBounds(q.0, q.1) && q != (p.0 as int, p.1 as int) &&
      Apply(b, m)[p.0][p.1] == b[q.0][q.1] &&
      Apply(b, m)[q.0][q.1] == Blank &&
      forall x, y :: InBounds(x, y) && (x, y) != (p.0 as int, p.1 as int) && (x, y) != q
        ==> Apply(b, m)[x][y] == b[x][y]
  {
  }

  /** A board whose only blank cell is q has one blank, and the scan finds it at q. */
  lemma OnlyBlankAt(r: Grid, q: (int, int))
    requires WellFormed(r) && InBounds(q.0, q.1) && r[q.0][q.1] == Blank
    requires forall x, y :: InBounds(x, y) && (x, y) != q ==> r[x][y] != Blank
    ensures OneBlank(r) && BlankPosition(r) == Some((q.0 as nat, q.1 as nat))
  {
    var qn := (q.0 as nat, q.1 as nat);
    assert FirstBlank(r, qn.0, qn.1);
    FirstBlankUnique(r, BlankPosition(r).value.0, BlankPosition(r).value.1, qn.0, qn.1);
  }

  /** After a valid move on a board with one blank, the blank sits where the moved tile was. */
  lemma ApplyMovesBlank(b: Grid, m: Move)
    requires WellFormed(b) && OneBlank(b) && IsValidMove(b, m)
    ensures var q := Neighbour(BlankPosition(b).value, m);
      OneBlank(Apply(b, m)) && BlankPosition(Apply(b, m)) == Some((q.0 as nat, q.1 as nat))
  {
    var p := BlankPosition(b).value;
    var q := Neighbour(p, m);
    var r := Apply(b, m);
    ApplyCells(b, m);
    forall x, y | InBounds(x, y) && (x, y) != q
      ensures r[x][y] != Blank
    {
      if (x, y) != (p.0 as int, p.1 as int) {
        assert b[x][y] != Blank;
      }
    }
    OnlyBlankAt(r, q);
  }

  lemma SwapBack(b: Grid, p: (nat, nat), q: (nat, nat))
    requires WellFormed(b) && InBounds(p.0, p.1) && InBounds(q.0, q.1)
    ensures Swap(Swap(b, p, q), q, p) == b
  {
    var s := Swap(Swap(b, p, q), q, p);
    forall x | 0 <= x < Width ensures s[x] == b[x] {
      assert |s[x]| == |b[x]|;
    }
  }

  /** The opposite move names the cell the move came from. */
  lemma NeighbourOpposite(p: (int, int), m: Move)
    ensures Neighbour(Neighbour(p, m), Opposite(m)) == p
  {
  }

  /** Move invertibility: a valid move followed by its opposite restores the board exactly. */
  lemma UndoMove(b: Grid, m: Move)
    requires WellFormed(b) && OneBlank(b) && IsValidMove(b, m)
    ensures OneBlank(Apply(b, m))
    ensures IsValidMove(Apply(b, m), Opposite(m))
    ensures Apply(Apply(b, m), Opposite(m)) == b
  {
    var p := BlankPosition(b).value;
    var r := Apply(b, m);
    ApplyMovesBlank(b, m);
    ApplyCells(b, m);
    var qi := Neighbour(p, m);
    var q: (nat, nat) := (qi.0 as nat, qi.1 as nat);
    assert BlankPosition(r) == Some(q);
    NeighbourOpposite(p, m);
    ValidMoveInBounds(r, Opposite(m));
    assert IsValidMove(r, Opposite(m));
    assert r == Swap(b, p, q);
    assert Apply(r, Opposite(m)) == Swap(r, q, p);
    SwapBack(b, p, q);
  }

  /** Replays a list of moves; None as soon as one of them is not valid. */
  function Replay(b: Grid, ms: seq<Move>): (r: Option<Grid>)
    requires WellFormed(b) && BlankPosition(b).Some?
    ensures r.Some? ==> WellFormed(r.value) && BlankPosition(r.value).Some?
    decreases |ms|
  {
    if ms == [] then Some(b)
    else if !IsValidMove(b, ms[0]) then None
    else
      var c := Apply(b, ms[0]);
      ApplyCells(b, ms[0]);
      assert BlankPosition(c).Some? by {
        var q := Neighbour(BlankPosition(b).value, ms[0]);
        assert c[q.0][q.1] == Blank;
      }
      Replay(c, ms[1..])
  }

  lemma ReplayAppend(b: Grid, s: seq<Move>, t: seq<Move>)
    requires WellFormed(b) && BlankPosition(b).Some?
    ensures Replay(b, s + t) ==
      match Replay(b, s)
      case None => None
      case Some(c) => Replay(c, t)
    decreases |s|
  {
    if s != [] {
      assert (s + t)[0] == s[0] && (s + t)[1..] == s[1..] + t;
      if IsValidMove(b, s[0]) {
        var c := Apply(b, s[0]);
        ApplyCells(b, s[0]);
        var q := Neighbour(BlankPosition(b).value, s[0]);
        assert c[q.0][q.1] == Blank;
        ReplayAppend(c, s[1..], t);
      }
    } else {
      assert s + t == t;
    }
  }

  /** Python's list.reverse, as a value. */
  function Reverse<T>(s: seq<T>): (r: seq<T>)
    ensures |r| == |s|
    ensures forall i :: 0 <= i < |s| ==> r[i] == s[|s| - 1 - i]
  {
    if s == [] then [] else Reverse(s[1..]) + [s[0]]
  }

  lemma ReverseSnoc<T>(s: seq<T>, x: T)
    ensures Reverse(s + [x]) == [x] + Reverse(s)
  {
    var l, r := Reverse(s + [x]), [x] + Reverse(s);
    forall i | 0 <= i < |l|
      ensures l[i] == r[i]
    {
      if i > 0 {
        assert r[i] == Reverse(s)[i - 1];
      }
    }
  }

  /** Replaying moves keeps the board's single blank. */
  lemma {:induction false} ReplayOneBlank(b: Grid, ms: seq<Move>)
    requires WellFormed(b) && OneBlank(b) && Replay(b, ms).Some?
    ensures OneBlank(Replay(b, ms).value)
    decreases |ms|
  {
    if ms != [] {
      ApplyMovesBlank(b, ms[0]);
      ReplayOneBlank(Apply(b, ms[0]), ms[1..]);
    }
  }

  /** Replaying one move: the move made, or None when it is not valid. */
  lemma ReplayOne(c: Grid, m: Move)
    requires WellFormed(c) && BlankPosition(c).Some?
    ensures Replay(c, [m]) == if IsValidMove(c, m) then Some(Apply(c, m)) else None
  {
    if IsValidMove(c, m) {
      assert [m][1..] == [];
    }
  }

  /** A list that replays starts with a valid move, and the rest replays from where it leads. */
  lemma ReplayHead(c: Grid, ms: seq<Move>)
    requires WellFormed(c) && BlankPosition(c).Some? && ms != [] && Replay(c, ms).Some?
    ensures IsValidMove(c, ms[0])
    ensures WellFormed(Apply(c, ms[0])) && BlankPosition(Apply(c, ms[0])).Some?
    ensures Replay(Apply(c, ms[0]), ms[1..]) == Replay(c, ms)
  {
    assert IsValidMove(c, ms[0]);
    ApplyCells(c, ms[0]);
    var q := Neighbour(BlankPosition(c).value, ms[0]);
    assert Apply(c, ms[0])[q.0][q.1] == Blank;
  }

  lemma SplitAt(ms: seq<Move>, i: nat)
    requires i < |ms|
    ensures ms[..i] + ms[i..] == ms && ms[..i + 1] == ms[..i] + [ms[i]] && ms[i..][0] == ms[i]
  {
  }

  /** One more move of a list that replays: it is valid where the prefix before it ends. */
  lemma ReplayNext(start: Grid, ms: seq<Move>, i: nat, c: Grid)
    requires WellFormed(start) && BlankPosition(start).Some? && Replay(start, ms).Some?
    requires i < |ms| && Replay(start, ms[..i]) == Some(c)
    ensures WellFormed(c) && BlankPosition(c).Some? && IsValidMove(c, ms[i])
    ensures Replay(start, ms[..i + 1]) == Some(Apply(c, ms[i]))
  {
    SplitAt(ms, i);
    ReplayAppend(start, ms[..i], ms[i..]);
    ReplayHead(c, ms[i..]);
    ReplayAppend(start, ms[..i], [ms[i]]);
    ReplayOne(c, ms[i]);
  }

  /** The moves resetAnimation makes: the list reversed, each move replaced by its opposite. */
  function UndoMoves(ms: seq<Move>): (r: seq<Move>)
    ensures |r| == |ms|
    ensures forall i :: 0 <= i < |ms| ==> r[i] == Opposite(ms[|ms| - 1 - i])
  {
    if ms == [] then [] else UndoMoves(ms[1..]) + [Opposite(ms[0])]
  }

  /** Replaying the undo list of a successful replay restores the starting board. */
  lemma {:induction false} UndoReplay(b: Grid, ms: seq<Move>)
    requires WellFormed(b) && OneBlank(b) && Replay(b, ms).Some?
    ensures Replay(Replay(b, ms).value, UndoMoves(ms)) == Some(b)
    decreases |ms|
  {
    if ms != [] {
      var m := ms[0];
      var b1 := Apply(b, m);
      ReplayHead(b, ms);
      UndoMove(b, m);
      UndoReplay(b1, ms[1..]);
      var c := Replay(b, ms).value;
      ReplayAppend(c, UndoMoves(ms[1..]), [Opposite(m)]);
      ReplayOne(b1, Opposite(m));
    }
  }

  /** Cells whose tile set agrees with the solved board: tiles 1..Width*Height-1 once each and one blank. */
  ghost predicate IsPermutationBoard(b: Grid)
  {
    WellFormed(b) &&
    (forall x, y :: InBounds(x, y) ==> b[x][y] == Blank || 1 <= b[x][y].n < Width * Height) &&
    forall x1, y1, x2, y2 :: InBounds(x1, y1) && InBounds(x2, y2) && b[x1][y1] == b[x2][y2]
      ==> x1 == x2 && y1 == y2
  }

  /** The tile getStartingBoard places in cell (x, y). */
  function GoalCell(x: int, y: int): Cell
  {
    if x == Width - 1 && y == Height - 1 then Blank else Tile(x + 1 + Width * y)
  }

  /** The solved board getStartingBoard builds. */
  function Goal(): (r: Grid)
    ensures WellFormed(r)
    ensures forall x, y :: InBounds(x, y) ==> r[x][y] == GoalCell(x, y)
  {
    seq(Width, x => seq(Height, y => GoalCell(x, y)))
  }

  /** The solved layout, for the program's 3 x 3 board. */
  lemma GoalLayout()
    ensures Goal() == [[Tile(1), Tile(4), Tile(7)], [Tile(2), Tile(5), Tile(8)], [Tile(3), Tile(6), Blank]]
  {
    var g := Goal();
    assert g[0] == [Tile(1), Tile(4), Tile(7)];
    assert g[1] == [Tile(2), Tile(5), Tile(8)];
    assert g[2] == [Tile(3), Tile(6), Blank];
  }

  lemma GoalCellInjective(x1: int, y1: int, x2: int, y2: int)
    requires InBounds(x1, y1) && InBounds(x2, y2) && GoalCell(x1, y1) == GoalCell(x2, y2)
    ensures x1 == x2 && y1 == y2
  {
    if GoalCell(x1, y1) != Blank {
      assert x1 + 1 + Width * y1 == x2 + 1 + Width * y2;
      assert y1 == y2;
    }
  }

  /** Each tile 1..Width*Height-1 appears exactly once on the solved board, at (k-1) % Width, (k-1) / Width,
      and the only blank is the last cell. */
  lemma GoalIsPermutation()
    ensures IsPermutationBoard(Goal())
    ensures OneBlank(Goal()) && BlankPosition(Goal()) == Some((Width - 1, Height - 1))
  {
    var g := Goal();
    forall x1, y1, x2, y2 | InBounds(x1, y1) && InBounds(x2, y2) && g[x1][y1] == g[x2][y2]
      ensures x1 == x2 && y1 == y2
    {
      GoalCellInjective(x1, y1, x2, y2);
    }
    assert g[Width - 1][Height - 1] == Blank;
    assert OneBlank(g);
    assert FirstBlank(g, Width - 1, Height - 1);
    FirstBlankUnique(g, BlankPosition(g).value.0, BlankPosition(g).value.1, Width - 1, Height - 1);
  }

  /** Tile k sits in column (k - 1) % Width, row (k - 1) / Width of the solved board. */
  lemma GoalTileAt(k: int)
    requires 1 <= k < Width * Height
    ensures Goal()[(k - 1) % Width][(k - 1) / Width] == Tile(k)
  {
    var x, y := (k - 1) % Width, (k - 1) / Width;
    assert k - 1 == x + Width * y;
  }
}
