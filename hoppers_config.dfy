/**
 * `HoppersConfig`: one configuration of the Hoppers puzzle, a board of
 * `Rows()` by `Cols()` cells held in a two-dimensional array. Its methods
 * and functions are proved against the board rules of `HoppersRules`
 * applied to `Cells()`, the value the array holds.
 */
module Hoppers {
  import opened HoppersRules

  /** The board value held by the array `a`. */
  function GridOf(a: array2<char>): (g: Grid)
    reads a
    ensures Shaped(g, a.Length0, a.Length1)
    ensures forall r, c :: 0 <= r < a.Length0 && 0 <= c < a.Length1 ==> g[r][c] == a[r, c]
  {
    seq(a.Length0, r requires 0 <= r < a.Length0 reads a =>
      seq(a.Length1, c requires 0 <= c < a.Length1 reads a => a[r, c]))
  }

  /** An array holds the board `h` when it agrees with `h` cell by cell. */
  lemma GridOfIs(a: array2<char>, h: Grid)
    requires Shaped(h, a.Length0, a.Length1)
    requires forall r, c :: 0 <= r < a.Length0 && 0 <= c < a.Length1 ==> a[r, c] == h[r][c]
    ensures GridOf(a) == h
  {
    var g := GridOf(a);
    forall r | 0 <= r < a.Length0
      ensures g[r] == h[r]
    {
      assert forall c :: 0 <= c < a.Length1 ==> g[r][c] == h[r][c];
    }
  }

  class HoppersConfig {
    /** The board. The source keeps its dimensions in static fields; here they are the array's. */
    const board: array2<char>

    function Rows(): nat
    {
      board.Length0
    }

    function Cols(): nat
    {
      board.Length1
    }

    /** The cells of the board, as a value. */
    function Cells(): Grid
      reads board
    {
      GridOf(board)
    }

    /**
     * A configuration holding the board `g`, as the file constructor leaves
     * it once the file has been read.
     */
    constructor (g: Grid, rows: nat, cols: nat)
      requires Shaped(g, rows, cols)
      ensures fresh(board) && Rows() == rows && Cols() == cols
      ensures Cells() == g
    {
      var b := new char[rows, cols];
      var r := 0;
      while r < rows
        invariant 0 <= r <= rows
        invariant forall i, j :: 0 <= i < r && 0 <= j < cols ==> b[i, j] == g[i][j]
      {
        var c := 0;
        while c < cols
          invariant 0 <= c <= cols
          invariant forall i, j :: 0 <= i < r && 0 <= j < cols ==> b[i, j] == g[i][j]
          invariant forall j :: 0 <= j < c ==> b[r, j] == g[r][j]
        {
          b[r, c] := g[r][c];
          c := c + 1;
        }
        r := r + 1;
      }
      GridOfIs(b, g);
      board := b;
    }

    /** The copy constructor: a fresh board, filled row by row from `other`. */
    constructor Copy(other: HoppersConfig)
      ensures fresh(board) && Rows() == other.Rows() && Cols() == other.Cols()
      ensures Cells() == other.Cells()
    {
      var rows, cols := other.board.Length0, other.board.Length1;
      var b := new char[rows, cols];
      var r := 0;
      while r < rows
        invariant 0 <= r <= rows
        invariant forall i, j :: 0 <= i < r && 0 <= j < cols ==> b[i, j] == other.board[i, j]
      {
        // System.arraycopy of row r
        var c := 0;
        while c < cols
          invariant 0 <= c <= cols
          invariant forall i, j :: 0 <= i < r && 0 <= j < cols ==> b[i, j] == other.board[i, j]
          invariant forall j :: 0 <= j < c ==> b[r, j] == other.board[r, j]
        {
          b[r, c] := other.board[r, c];
          c := c + 1;
        }
        r := r + 1;
      }
      GridOfIs(b, other.Cells());
      board := b;
    }

    /** `setBoard`: cell (row, col) becomes `val`. */
    method SetBoard(row: int, col: int, val: char)
      requires InBounds(Cells(), Coord(row, col))
      modifies board
      ensures Cells() == Put(old(Cells()), Coord(row, col), val)
    {
      ghost var g := Cells();
      board[row, col] := val;
      PutAt(g, Coord(row, col), val);
      GridOfIs(board, Put(g, Coord(row, col), val));
    }

    // -------------------------------------------------------------------
    // The eight direction guards. Each tests the source's own bounds
    // condition before reading the board; the array reads in the bodies are
    // checked against the array's bounds.

    function TopLeft(row: int, col: int): (open: bool)
      reads board
      requires 0 <= row < Rows() && 0 <= col < Cols()
      ensures open == CanHop(Cells(), Coord(row, col), NorthWest)
    {
      if row - 2 >= 0 && col - 2 >= 0 then
        board[row - 1, col - 1] == GREEN && board[row - 2, col - 2] == LILYPAD
      else false
    }

    function TopRight(row: int, col: int): (open: bool)
      reads board
      requires 0 <= row < Rows() && 0 <= col < Cols()
      ensures open == CanHop(Cells(), Coord(row, col), NorthEast)
    {
      if row - 2 >= 0 && col + 2 <= Cols() - 1 then
        board[row - 1, col + 1] == GREEN && board[row - 2, col + 2] == LILYPAD
      else false
    }

    function BottomLeft(row: int, col: int): (open: bool)
      reads board
      requires 0 <= row < Rows() && 0 <= col < Cols()
      ensures open == CanHop(Cells(), Coord(row, col), SouthWest)
    {
      if row + 2 <= Rows() - 1 && col - 2 >= 0 then
        board[row + 1, col - 1] == GREEN && board[row + 2, col - 2] == LILYPAD
      else false
    }

    function BottomRight(row: int, col: int): (open: bool)
      reads board
      requires 0 <= row < Rows() && 0 <= col < Cols()
      ensures open == CanHop(Cells(), Coord(row, col), SouthEast)
    {
      if row + 2 <= Rows() - 1 && col + 2 <= Cols() - 1 then
        board[row + 1, col + 1] == GREEN && board[row + 2, col + 2] == LILYPAD
      else false
    }

    function Left(row: int, col: int): (open: bool)
      reads board
      requires 0 <= row < Rows() && 0 <= col < Cols()
      ensures open == CanHop(Cells(), Coord(row, col), West)
    {
      if col - 4 < Cols() && col - 4 >= 0 then
        board[row, col - 2] == GREEN && board[row, col - 4] == LILYPAD
      else false
    }

    function Right(row: int, col: int): (open: bool)
      reads board
      requires 0 <= row < Rows() && 0 <= col < Cols()
      ensures open == CanHop(Cells(), Coord(row, col), East)
    {
      if col + 4 < Cols() && col + 4 >= 0 then
        board[row, col + 2] == GREEN && board[row, col + 4] == LILYPAD
      else false
    }

    function Up(row: int, col: int): (open: bool)
      reads board
      requires 0 <= row < Rows() && 0 <= col < Cols()
      ensures open == CanHop(Cells(), Coord(row, col), North)
    {
      if row - 4 >= 0 then
        board[row - 2, col] == GREEN && board[row - 4, col] == LILYPAD
      else false
    }

    function Down(row: int, col: int): (open: bool)
      reads board
      requires 0 <= row < Rows() && 0 <= col < Cols()
      ensures open == CanHop(Cells(), Coord(row, col), South)
    {
      if row + 4 <= Rows() - 1 then
        board[row + 2, col] == GREEN && board[row + 4, col] == LILYPAD
      else false
    }

    // -------------------------------------------------------------------
    // Neighbours

    /** Every cell holding a frog, green or red, found row by row. */
    method FindFrog() returns (frogs: set<Coord>)
      ensures frogs == Frogs(Cells())
    {
      frogs := {};
      var row := 0;
      while row < Rows()
        invariant 0 <= row <= Rows()
        invariant forall p :: p in frogs <==>
                    0 <= p.row < row && 0 <= p.col < Cols() && IsFrog(board[p.row, p.col])
      {
        var col := 0;
        while col < Cols()
          invariant 0 <= col <= Cols()
          invariant forall p :: p in frogs <==>
                      && 0 <= p.col < Cols() && (0 <= p.row < row || (p.row == row && p.col < col))
                      && IsFrog(board[p.row, p.col])
        {
          if board[row, col] == GREEN || board[row, col] == RED {
            frogs := frogs + {Coord(row, col)};
          }
          col := col + 1;
        }
        row := row + 1;
      }
    }

    /**
     * The body shared by the eight branches of `makeHop`: a copy of this
     * board on which the frog at `frog` has hopped toward `d`.
     */
    method HopCopy(frog: Coord, d: Direction) returns (n: Grid)
      requires CanHop(Cells(), frog, d)
      ensures n == Hop(Cells(), frog, d)
    {
      var copy := new HoppersConfig.Copy(this);
      var m, f := Mid(frog, d), Dest(frog, d);
      copy.SetBoard(f.row, f.col, copy.board[frog.row, frog.col]);
      copy.SetBoard(frog.row, frog.col, LILYPAD);
      copy.SetBoard(m.row, m.col, LILYPAD);
      n := copy.Cells();
      ghost var g := Cells();
      ghost var g1 := Put(g, f, At(g, frog));
      PutAt(g, f, At(g, frog));
      PutAt(g1, frog, LILYPAD);
      PutAt(g1, m, LILYPAD);
      PutCommute(g1, frog, m, LILYPAD, LILYPAD);
    }

    /**
     * One branch of `makeHop`'s loop: when the guard toward `d` is open, the
     * hop toward `d` joins the hops found so far.
     */
    method TryHop(frog: Coord, d: Direction, open: bool, hops: set<Grid>, ghost ds: set<Direction>)
      returns (hops': set<Grid>)
      requires InBounds(Cells(), frog) && open == CanHop(Cells(), frog, d)
      requires hops == HopsToward(Cells(), frog, ds)
      ensures hops' == HopsToward(Cells(), frog, ds + {d})
    {
      HopsTowardAdd(Cells(), frog, ds, d);
      hops' := hops;
      if open {
        var n := HopCopy(frog, d);
        hops' := hops' + {n};
      }
    }

    /**
     * The body of `makeHop`'s loop for one frog: the eight guards are tested
     * in the source's order and each open one adds its hop.
     */
    method HopsOfFrog(frog: Coord) returns (hops: set<Grid>)
      requires InBounds(Cells(), frog)
      ensures hops == HopsAt(Cells(), frog)
    {
      var row, col := frog.row, frog.col;
      DirectionPrefixes();
      hops := TryHop(frog, NorthWest, TopLeft(row, col), {}, {});
      hops := TryHop(frog, SouthWest, BottomLeft(row, col), hops, {NorthWest});
      hops := TryHop(frog, NorthEast, TopRight(row, col), hops, {NorthWest, SouthWest});
      hops := TryHop(frog, SouthEast, BottomRight(row, col), hops, {NorthWest, SouthWest, NorthEast});
      hops := TryHop(frog, West, Left(row, col), hops, {NorthWest, SouthWest, NorthEast, SouthEast});
      hops := TryHop(frog, East, Right(row, col), hops, {NorthWest, SouthWest, NorthEast, SouthEast, West});
      hops := TryHop(frog, North, Up(row, col), hops, {NorthWest, SouthWest, NorthEast, SouthEast, West, East});
      hops := TryHop(frog, South, Down(row, col), hops, {NorthWest, SouthWest, NorthEast, SouthEast, West, East, North});
    }

    /** `makeHop`: every board one hop of one frog away, each built on a fresh copy. */
    method MakeHop() returns (hops: set<Grid>)
      ensures hops == Neighbors(Cells())
    {
      ghost var g := Cells();
      hops := {};
      var frogs := FindFrog();
      var todo := frogs;
      HopsFromEmpty(g);
      while todo != {}
        invariant todo <= frogs
        invariant hops == HopsFrom(g, frogs - todo)
        decreases todo
      {
        var frog :| frog in todo;
        var mine := HopsOfFrog(frog);
        HopsFromAdd(g, frogs - todo, frog);
        hops := hops + mine;
        assert (frogs - todo) + {frog} == frogs - (todo - {frog});
        todo := todo - {frog};
      }
    }

    /**
     * `getNeighbors`: the boards one hop away. Each has one green frog
     * fewer and as many red frogs as this one.
     */
    method GetNeighbors() returns (configurations: set<Grid>)
      ensures configurations == Neighbors(Cells())
      ensures forall n :: n in configurations ==>
                && Shaped(n, Rows(), Cols())
                && Count(n, GREEN) == Count(Cells(), GREEN) - 1
                && Count(n, RED) == Count(Cells(), RED)
    {
      configurations := MakeHop();
      forall n | n in configurations
        ensures Shaped(n, Rows(), Cols())
        ensures Count(n, GREEN) == Count(Cells(), GREEN) - 1
        ensures Count(n, RED) == Count(Cells(), RED)
      {
        NeighborCounts(Cells(), n);
        var s, d :| s in Frogs(Cells()) && d in AllDirections && CanHop(Cells(), s, d) && n == Hop(Cells(), s, d);
        HopShaped(Cells(), s, d, Rows(), Cols());
      }
    }

    /** `isSolution`: scans the board for a green frog. */
    method IsSolution() returns (solved: bool)
      ensures solved <==> NoGreen(Cells())
      ensures solved <==> Count(Cells(), GREEN) == 0
    {
      NoGreenIffNoneCounted(Cells());
      var row := 0;
      while row < Rows()
        invariant 0 <= row <= Rows()
        invariant forall r, c :: 0 <= r < row && 0 <= c < Cols() ==> board[r, c] != GREEN
      {
        var col := 0;
        while col < Cols()
          invariant 0 <= col <= Cols()
          invariant forall r, c :: 0 <= r < row && 0 <= c < Cols() ==> board[r, c] != GREEN
          invariant forall c :: 0 <= c < col ==> board[row, c] != GREEN
        {
          if board[row, col] == GREEN {
            assert Cells()[row][col] == GREEN;
            return false;
          }
          col := col + 1;
        }
        row := row + 1;
      }
      return true;
    }

    // -------------------------------------------------------------------
    // Queries and the player's move

    /** The cell lies on the board. */
    function CheckCoordinates(row: int, col: int): (ok: bool)
      reads board
      ensures ok <==> InBounds(Cells(), Coord(row, col))
    {
      row < Rows() && row >= 0 && col < Cols() && col >= 0
    }

    function ContainsLilypad(row: int, col: int): (lily: bool)
      reads board
      requires InBounds(Cells(), Coord(row, col))
      ensures lily <==> At(Cells(), Coord(row, col)) == LILYPAD
    {
      board[row, col] == LILYPAD
    }

    function ContainsFrog(row: int, col: int): (frog: bool)
      reads board
      requires InBounds(Cells(), Coord(row, col))
      ensures frog <==> Coord(row, col) in Frogs(Cells())
    {
      board[row, col] == GREEN || board[row, col] == RED
    }

    /**
     * `isValidMove`: the cell jumped over when the frog at the start may hop
     * to the finish, and `None` (the source's null) otherwise.
     */
    function IsValidMove(startRow: int, startCol: int, finishRow: int, finishCol: int): (jumped: Option<Coord>)
      reads board
      requires InBounds(Cells(), Coord(startRow, startCol))
      requires InBounds(Cells(), Coord(finishRow, finishCol))
      ensures jumped == ValidMove(Cells(), Coord(startRow, startCol), Coord(finishRow, finishCol))
    {
      if board[finishRow, finishCol] == LILYPAD then
        if startRow == finishRow && startCol > finishCol
           && finishCol == startCol - 4 && board[finishRow, startCol - 2] == GREEN then
          Some(Coord(finishRow, startCol - 2))
        else if startRow == finishRow && startCol < finishCol
                && finishCol == startCol + 4 && board[finishRow, startCol + 2] == GREEN then
          Some(Coord(finishRow, startCol + 2))
        else if startRow > finishRow && startCol == finishCol
                && finishRow == startRow - 4 && board[startRow - 2, finishCol] == GREEN then
          Some(Coord(startRow - 2, finishCol))
        else if startRow < finishRow && startCol == finishCol
                && finishRow == startRow + 4 && board[startRow + 2, startCol] == GREEN then
          Some(Coord(startRow + 2, startCol))
        else if startRow > finishRow && startCol < finishCol
                && finishRow == startRow - 2 && finishCol == startCol + 2
                && board[startRow - 1, startCol + 1] == GREEN then
          Some(Coord(startRow - 1, startCol + 1))
        else if startRow > finishRow && startCol > finishCol
                && finishRow == startRow - 2 && finishCol == startCol - 2
                && board[startRow - 1, startCol - 1] == GREEN then
          Some(Coord(startRow - 1, startCol - 1))
        else if startRow < finishRow && startCol < finishCol
                && finishRow == startRow + 2 && finishCol == startCol + 2
                && board[startRow + 1, startCol + 1] == GREEN then
          Some(Coord(startRow + 1, startCol + 1))
        else if startRow < finishRow && startCol > finishCol
                && finishRow == startRow + 2 && finishCol == startCol - 2
                && board[startRow + 1, startCol - 1] == GREEN then
          Some(Coord(startRow + 1, startCol - 1))
        else None
      else None
    }

    /**
     * `makeHopMove`: the frog at (row1, col1) moves to (row3, col3), and
     * (row2, col2) and (row1, col1) become lily pads; no other cell changes.
     */
    method MakeHopMove(row1: int, col1: int, row2: int, col2: int, row3: int, col3: int)
      requires InBounds(Cells(), Coord(row1, col1))
      requires InBounds(Cells(), Coord(row2, col2))
      requires InBounds(Cells(), Coord(row3, col3))
      modifies board
      ensures Cells() == HopMove(old(Cells()), Coord(row1, col1), Coord(row2, col2), Coord(row3, col3))
      ensures board[row3, col3] == (if (row3, col3) == (row1, col1) || (row3, col3) == (row2, col2)
                                    then LILYPAD else old(board[row1, col1]))
      ensures board[row2, col2] == LILYPAD && board[row1, col1] == LILYPAD
      ensures forall r, c :: && 0 <= r < Rows() && 0 <= c < Cols()
                             && (r, c) != (row1, col1) && (r, c) != (row2, col2) && (r, c) != (row3, col3)
                             ==> board[r, c] == old(board[r, c])
    {
      ghost var g := Cells();
      board[row3, col3] := board[row1, col1];
      board[row2, col2] := LILYPAD;
      board[row1, col1] := LILYPAD;
      ghost var p1, p2, p3 := Coord(row1, col1), Coord(row2, col2), Coord(row3, col3);
      HopMoveAt(g, p1, p2, p3);
      GridOfIs(board, HopMove(g, p1, p2, p3));
    }

    /** `equals`: the two boards agree cell by cell. */
    method Equals(other: HoppersConfig) returns (same: bool)
      requires other.Rows() == Rows() && other.Cols() == Cols()
      ensures same <==> Cells() == other.Cells()
    {
      var i := 0;
      while i < Rows()
        invariant 0 <= i <= Rows()
        invariant forall r, c :: 0 <= r < i && 0 <= c < Cols() ==> board[r, c] == other.board[r, c]
      {
        var j := 0;
        while j < Cols()
          invariant 0 <= j <= Cols()
          invariant forall r, c :: 0 <= r < i && 0 <= c < Cols() ==> board[r, c] == other.board[r, c]
          invariant forall c :: 0 <= c < j ==> board[i, c] == other.board[i, c]
        {
          if board[i, j] != other.board[i, j] {
            assert Cells()[i][j] != other.Cells()[i][j];
            return false;
          }
          j := j + 1;
        }
        i := i + 1;
      }
      GridOfIs(board, other.Cells());
      return true;
    }
  }
}
