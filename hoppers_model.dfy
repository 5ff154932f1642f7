/**
 * `HoppersModel`: the interactive side of the Hoppers puzzle. A player
 * selects a frog, then the cell it should hop to; `select` keeps the first
 * cell in a pending buffer until the second arrives. The message the source
 * sends to its observers is the value `Select` returns.
 */
module HoppersGame {
  import opened HoppersRules
  import opened Hoppers

  /** The messages `select` reports, carrying the coordinates they mention. */
  datatype Message =
    | Selected(row: int, col: int)
    | NoFrogAt(row: int, col: int)
    | InvalidSelection(row: int, col: int)
    | JumpedFrom(fromRow: int, fromCol: int, toRow: int, toCol: int)
    | CantJump(fromRow: int, fromCol: int, toRow: int, toCol: int)

  /** The pending buffer holds no cell, or the row and column of one cell of the board. */
  predicate PendingOk(g: Grid, pending: seq<int>)
  {
    |pending| == 0 || (|pending| == 2 && InBounds(g, Coord(pending[0], pending[1])))
  }

  /** What one selection reports, the buffer it leaves and the board it leaves. */
  datatype Outcome = Outcome(msg: Message, pending: seq<int>, board: Grid)

  /**
   * One selection of the cell (row, col) on the board `g` with the buffer
   * `pending`, branch by branch as `select` takes them.
   */
  function SelectStep(g: Grid, pending: seq<int>, row: int, col: int): (o: Outcome)
    requires PendingOk(g, pending)
    ensures PendingOk(o.board, o.pending)
    ensures |o.board| == |g| && forall r :: 0 <= r < |g| ==> |o.board[r]| == |g[r]|
  {
    var p := Coord(row, col);
    if !InBounds(g, p) then
      Outcome(InvalidSelection(row, col), pending, g)
    else if |pending| == 0 then
      if IsFrog(At(g, p)) then Outcome(Selected(row, col), [row, col], g)
      else if At(g, p) == LILYPAD then Outcome(NoFrogAt(row, col), pending, g)
      else Outcome(InvalidSelection(row, col), pending, g)
    else
      var s := Coord(pending[0], pending[1]);
      if IsFrog(At(g, s)) && ValidMove(g, s, p).Some? then
        ValidMoveIsNeighbor(g, s, p);
        HopMoveAt(g, s, ValidMove(g, s, p).value, p);
        Outcome(JumpedFrom(s.row, s.col, row, col), [], HopMove(g, s, ValidMove(g, s, p).value, p))
      else
        Outcome(CantJump(s.row, s.col, row, col), [], g)
  }

  // ---------------------------------------------------------------------
  // What a selection does, stated against the board rules

  /** A selection off the board reports it and changes neither the buffer nor the board. */
  lemma OffBoardChangesNothing(g: Grid, pending: seq<int>, row: int, col: int)
    requires PendingOk(g, pending) && !InBounds(g, Coord(row, col))
    ensures SelectStep(g, pending, row, col) == Outcome(InvalidSelection(row, col), pending, g)
  {
  }

  /**
   * A first selection on the board never changes the board. It records the
   * cell exactly when the cell holds a frog; otherwise the buffer stays empty
   * and the message says whether the cell was a lily pad or neither.
   */
  lemma FirstSelection(g: Grid, row: int, col: int)
    requires InBounds(g, Coord(row, col))
    ensures var o := SelectStep(g, [], row, col);
      && o.board == g
      && (o.pending == [row, col] <==> Coord(row, col) in Frogs(g))
      && (o.pending == [] <==> Coord(row, col) !in Frogs(g))
      && (o.msg == Selected(row, col) <==> Coord(row, col) in Frogs(g))
      && (o.msg == NoFrogAt(row, col) <==> At(g, Coord(row, col)) == LILYPAD)
      && (o.msg == InvalidSelection(row, col) <==>
            Coord(row, col) !in Frogs(g) && At(g, Coord(row, col)) != LILYPAD)
  {
  }

  /** Any second selection on the board empties the buffer, whether the hop succeeds or not. */
  lemma SecondSelectionClears(g: Grid, pending: seq<int>, row: int, col: int)
    requires PendingOk(g, pending) && |pending| == 2 && InBounds(g, Coord(row, col))
    ensures SelectStep(g, pending, row, col).pending == []
    ensures SelectStep(g, pending, row, col).msg.JumpedFrom?
         || SelectStep(g, pending, row, col).msg == CantJump(pending[0], pending[1], row, col)
  {
  }

  /**
   * A second selection hops exactly when the pending cell holds a frog and
   * `isValidMove` accepts the move; the hop jumps the cell it returns.
   */
  lemma SecondSelectionHops(g: Grid, pending: seq<int>, row: int, col: int)
    requires PendingOk(g, pending) && |pending| == 2 && InBounds(g, Coord(row, col))
    ensures var s := Coord(pending[0], pending[1]);
      var o := SelectStep(g, pending, row, col);
      && (o.msg.JumpedFrom? <==> s in Frogs(g) && ValidMove(g, s, Coord(row, col)).Some?)
      && (o.msg.JumpedFrom? ==>
            && o.msg == JumpedFrom(s.row, s.col, row, col)
            && InBounds(g, ValidMove(g, s, Coord(row, col)).value)
            && o.board == HopMove(g, s, ValidMove(g, s, Coord(row, col)).value, Coord(row, col)))
      && (!o.msg.JumpedFrom? ==> o.board == g)
  {
  }

  /**
   * Every selection either leaves the board as it was or makes one move of
   * the puzzle's neighbour relation; the board changes exactly when the
   * message reports a jump, and a jump removes one green frog.
   */
  lemma SelectFollowsRules(g: Grid, pending: seq<int>, row: int, col: int)
    requires PendingOk(g, pending)
    ensures var o := SelectStep(g, pending, row, col);
      && (o.board != g <==> o.msg.JumpedFrom?)
      && (o.msg.JumpedFrom? ==> o.board in Neighbors(g))
      && (o.msg.JumpedFrom? ==> Count(o.board, GREEN) == Count(g, GREEN) - 1)
  {
    var o := SelectStep(g, pending, row, col);
    if o.msg.JumpedFrom? {
      var s, p := Coord(pending[0], pending[1]), Coord(row, col);
      var m := ValidMove(g, s, p).value;
      ValidMoveIsNeighbor(g, s, p);
      HopMoveAt(g, s, m, p);
      assert o.board[s.row][s.col] == LILYPAD != g[s.row][s.col];
      NeighborCounts(g, o.board);
    }
  }

  class HoppersModel {
    /** The configuration being played. */
    var currentConfig: HoppersConfig
    /** The pending selection: empty, or the row and column of the first cell selected. */
    var firstCoord: seq<int>

    ghost predicate Valid()
      reads this, currentConfig.board
    {
      PendingOk(currentConfig.Cells(), firstCoord)
    }

    /**
     * A model playing `config` with nothing selected yet; the source reads
     * the configuration from a file first.
     */
    constructor (config: HoppersConfig)
      ensures currentConfig == config && firstCoord == []
      ensures Valid()
    {
      currentConfig := config;
      firstCoord := [];
    }

    /** `select`: one click on the cell (row, col). */
    method Select(row: int, col: int) returns (msg: Message)
      requires Valid()
      modifies this, currentConfig.board
      ensures Valid()
      ensures currentConfig == old(currentConfig)
      ensures var o := SelectStep(old(currentConfig.Cells()), old(firstCoord), row, col);
        msg == o.msg && firstCoord == o.pending && currentConfig.Cells() == o.board
    {
      if currentConfig.CheckCoordinates(row, col) {
        if |firstCoord| == 0 {
          if currentConfig.ContainsFrog(row, col) {
            firstCoord := firstCoord + [row];
            firstCoord := firstCoord + [col];
            msg := Selected(row, col);
          } else {
            if currentConfig.ContainsLilypad(row, col) {
              msg := NoFrogAt(row, col);
            } else {
              msg := InvalidSelection(row, col);
            }
          }
        } else {
          if currentConfig.ContainsFrog(firstCoord[0], firstCoord[1]) {
            if currentConfig.IsValidMove(firstCoord[0], firstCoord[1], row, col) != None {
              var coord := currentConfig.IsValidMove(firstCoord[0], firstCoord[1], row, col).value;
              ValidMoveIsNeighbor(currentConfig.Cells(), Coord(firstCoord[0], firstCoord[1]), Coord(row, col));
              currentConfig.MakeHopMove(firstCoord[0], firstCoord[1], coord.row, coord.col, row, col);
              msg := JumpedFrom(firstCoord[0], firstCoord[1], row, col);
              firstCoord := [];
            } else {
              msg := CantJump(firstCoord[0], firstCoord[1], row, col);
              firstCoord := [];
            }
          } else {
            msg := CantJump(firstCoord[0], firstCoord[1], row, col);
            firstCoord := [];
          }
        }
      } else {
        msg := InvalidSelection(row, col);
      }
    }
  }
}
