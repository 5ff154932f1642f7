/**
 * The board rules of the Hoppers puzzle, stated on board values.
 *
 * A board is a grid of cells, each a lily pad '.', water '*', a green frog
 * 'G' or a red frog 'R'. A frog hops two cells diagonally or four cells
 * along a row or column, over a GREEN frog, onto a lily pad; the frog it
 * jumps over is removed. The class `Hoppers.HoppersConfig` keeps its board
 * in a two-dimensional array and is proved against the functions here.
 */
module HoppersRules {

  datatype Option<T> = None | Some(value: T)

  const LILYPAD: char := '.'
  const INVALID: char := '*'
  const GREEN: char := 'G'
  const RED: char := 'R'

  /** A board value: a sequence of rows. */
  type Grid = seq<seq<char>>

  /** The source's `Coordinates` record. */
  datatype Coord = Coord(row: int, col: int)

  /** The eight hops, named by the compass (north is row 0). */
  datatype Direction = NorthWest | SouthWest | NorthEast | SouthEast | West | East | North | South

  const AllDirections: set<Direction> :=
    {NorthWest, SouthWest, NorthEast, SouthEast, West, East, North, South}

  /** Offset from a hopping frog to the frog it jumps over. */
  function Step(d: Direction): Coord
  {
    match d
    case NorthWest => Coord(-1, -1)
    case SouthWest => Coord(1, -1)
    case NorthEast => Coord(-1, 1)
    case SouthEast => Coord(1, 1)
    case West => Coord(0, -2)
    case East => Coord(0, 2)
    case North => Coord(-2, 0)
    case South => Coord(2, 0)
  }

  /** The cell jumped over by a hop from `s` in direction `d`. */
  function Mid(s: Coord, d: Direction): Coord
  {
    Coord(s.row + Step(d).row, s.col + Step(d).col)
  }

  /** The cell a hop from `s` in direction `d` lands on. */
  function Dest(s: Coord, d: Direction): Coord
  {
    Coord(s.row + 2 * Step(d).row, s.col + 2 * Step(d).col)
  }

  /** `g` has `rows` rows of `cols` cells each. */
  predicate Shaped(g: Grid, rows: nat, cols: nat)
  {
    |g| == rows && forall r :: 0 <= r < rows ==> |g[r]| == cols
  }

  predicate InBounds(g: Grid, p: Coord)
  {
    0 <= p.row < |g| && 0 <= p.col < |g[p.row]|
  }

  function At(g: Grid, p: Coord): char
    requires InBounds(g, p)
  {
    g[p.row][p.col]
  }

  /** The board `g` with cell `p` set to `v`; every other cell is as in `g`. */
  function Put(g: Grid, p: Coord, v: char): Grid
    requires InBounds(g, p)
  {
    g[p.row := g[p.row][p.col := v]]
  }

  /** `Put` keeps the board's shape and changes cell `p` only. */
  lemma PutAt(g: Grid, p: Coord, v: char)
    requires InBounds(g, p)
    ensures |Put(g, p, v)| == |g| && forall r :: 0 <= r < |g| ==> |Put(g, p, v)[r]| == |g[r]|
    ensures forall q :: InBounds(g, q) ==>
              InBounds(Put(g, p, v), q) && At(Put(g, p, v), q) == if q == p then v else At(g, q)
  {
  }

  /** Writes to two different cells commute. */
  lemma PutCommute(g: Grid, p: Coord, q: Coord, v: char, w: char)
    requires InBounds(g, p) && InBounds(g, q) && p != q
    requires InBounds(Put(g, p, v), q) && InBounds(Put(g, q, w), p)
    ensures Put(Put(g, p, v), q, w) == Put(Put(g, q, w), p, v)
  {
    var a, b := Put(Put(g, p, v), q, w), Put(Put(g, q, w), p, v);
    forall r | 0 <= r < |g| ensures a[r] == b[r] {
      if r == p.row && r == q.row {
        assert a[r] == g[r][p.col := v][q.col := w];
        assert b[r] == g[r][q.col := w][p.col := v];
      }
    }
  }

  predicate IsFrog(ch: char)
  {
    ch == GREEN || ch == RED
  }

  /**
   * The hop from `s` in direction `d` stays on the board, jumps over a
   * GREEN frog and lands on a lily pad.
   */
  predicate CanHop(g: Grid, s: Coord, d: Direction)
  {
    && InBounds(g, s) && InBounds(g, Mid(s, d)) && InBounds(g, Dest(s, d))
    && At(g, Mid(s, d)) == GREEN && At(g, Dest(s, d)) == LILYPAD
  }

  /**
   * `makeHopMove`: the contents of `p1` are written to `p3`, then `p2` and
   * `p1` become lily pads, in that order.
   */
  function HopMove(g: Grid, p1: Coord, p2: Coord, p3: Coord): Grid
    requires InBounds(g, p1) && InBounds(g, p2) && InBounds(g, p3)
  {
    Put(Put(Put(g, p3, At(g, p1)), p2, LILYPAD), p1, LILYPAD)
  }

  /** `HopMove` cell by cell: `p1` and `p2` end as lily pads, `p3` gets what `p1` held. */
  lemma HopMoveAt(g: Grid, p1: Coord, p2: Coord, p3: Coord)
    requires InBounds(g, p1) && InBounds(g, p2) && InBounds(g, p3)
    ensures var h := HopMove(g, p1, p2, p3);
      && |h| == |g| && (forall r :: 0 <= r < |g| ==> |h[r]| == |g[r]|)
      && forall r, c :: 0 <= r < |g| && 0 <= c < |g[r]| ==>
           h[r][c] == if Coord(r, c) == p1 || Coord(r, c) == p2 then LILYPAD
                      else if Coord(r, c) == p3 then At(g, p1)
                      else g[r][c]
  {
    var g1 := Put(g, p3, At(g, p1));
    var g2 := Put(g1, p2, LILYPAD);
    PutAt(g, p3, At(g, p1));
    PutAt(g1, p2, LILYPAD);
    PutAt(g2, p1, LILYPAD);
    var h := HopMove(g, p1, p2, p3);
    forall r, c | 0 <= r < |g| && 0 <= c < |g[r]|
      ensures h[r][c] == if Coord(r, c) == p1 || Coord(r, c) == p2 then LILYPAD
                         else if Coord(r, c) == p3 then At(g, p1)
                         else g[r][c]
    {
      var q := Coord(r, c);
      assert InBounds(g, q);
      assert h[r][c] == At(h, q);
    }
  }

  /** The board after the frog at `s` hops in direction `d`. */
  function Hop(g: Grid, s: Coord, d: Direction): Grid
    requires CanHop(g, s, d)
  {
    HopMove(g, s, Mid(s, d), Dest(s, d))
  }

  /** The cells that hold a frog of either colour. */
  function Frogs(g: Grid): (fs: set<Coord>)
    ensures forall p :: p in fs <==> InBounds(g, p) && IsFrog(At(g, p))
  {
    var fs := set r, c | 0 <= r < |g| && 0 <= c < |g[r]| && IsFrog(g[r][c]) :: Coord(r, c);
    assert forall p :: InBounds(g, p) && IsFrog(At(g, p)) ==> p == Coord(p.row, p.col);
    fs
  }

  /** Every board reached by one hop of a frog in `frogs`. */
  function HopsFrom(g: Grid, frogs: set<Coord>): set<Grid>
  {
    set s, d | s in frogs && d in AllDirections && CanHop(g, s, d) :: Hop(g, s, d)
  }

  /** Every board reached by one hop of the frog at `s`. */
  function HopsAt(g: Grid, s: Coord): set<Grid>
  {
    HopsToward(g, s, AllDirections)
  }

  /** The neighbour relation of the puzzle: one hop of any frog. */
  function Neighbors(g: Grid): set<Grid>
  {
    HopsFrom(g, Frogs(g))
  }

  /** No cell holds a green frog: the goal of the puzzle. */
  predicate NoGreen(g: Grid)
  {
    forall r, c :: 0 <= r < |g| && 0 <= c < |g[r]| ==> g[r][c] != GREEN
  }

  /**
   * A hop's shape as a (row, column) displacement: four cells along a row or
   * a column, or two cells on both axes.
   */
  predicate HopShape(dr: int, dc: int)
  {
    || (dr == 0 && (dc == 4 || dc == -4))
    || (dc == 0 && (dr == 4 || dr == -4))
    || ((dr == 2 || dr == -2) && (dc == 2 || dc == -2))
  }

  function Midpoint(s: Coord, f: Coord): Coord
  {
    Coord((s.row + f.row) / 2, (s.col + f.col) / 2)
  }

  /**
   * The move from `s` to `f` the player may make: `f` is a lily pad at hop
   * distance from `s` and the midpoint holds GREEN; the result is that
   * midpoint.
   */
  function ValidMove(g: Grid, s: Coord, f: Coord): Option<Coord>
  {
    if && InBounds(g, f) && At(g, f) == LILYPAD
       && HopShape(f.row - s.row, f.col - s.col)
       && InBounds(g, Midpoint(s, f)) && At(g, Midpoint(s, f)) == GREEN
    then Some(Midpoint(s, f))
    else None
  }

  /** Number of cells of `row` equal to `ch`. */
  function CountRow(row: seq<char>, ch: char): nat
  {
    if row == [] then 0 else (if row[0] == ch then 1 else 0) + CountRow(row[1..], ch)
  }

  /** Number of cells of `g` equal to `ch`. */
  function Count(g: Grid, ch: char): nat
  {
    if g == [] then 0 else CountRow(g[0], ch) + Count(g[1..], ch)
  }

  function FrogCount(g: Grid): nat
  {
    Count(g, GREEN) + Count(g, RED)
  }

  // ---------------------------------------------------------------------
  // Counting

  lemma {:induction false} CountRowPut(row: seq<char>, i: nat, v: char, ch: char)
    requires i < |row|
    ensures CountRow(row[i := v], ch) + (if row[i] == ch then 1 else 0)
         == CountRow(row, ch) + (if v == ch then 1 else 0)
  {
    if i == 0 {
      assert row[i := v][1..] == row[1..];
    } else {
      assert row[i := v][1..] == row[1..][i - 1 := v];
      CountRowPut(row[1..], i - 1, v, ch);
    }
  }

  /** Writing one cell changes the count of `ch` by what left and what came. */
  lemma {:induction false} CountPut(g: Grid, p: Coord, v: char, ch: char)
    requires InBounds(g, p)
    ensures Count(Put(g, p, v), ch) + (if At(g, p) == ch then 1 else 0)
         == Count(g, ch) + (if v == ch then 1 else 0)
  {
    var h := Put(g, p, v);
    if p.row == 0 {
      assert h[1..] == g[1..];
      CountRowPut(g[0], p.col, v, ch);
    } else {
      assert h[1..] == Put(g[1..], Coord(p.row - 1, p.col), v);
      CountPut(g[1..], Coord(p.row - 1, p.col), v, ch);
    }
  }

  lemma {:induction false} CountRowZero(row: seq<char>, ch: char)
    ensures CountRow(row, ch) == 0 <==> forall c :: 0 <= c < |row| ==> row[c] != ch
  {
    if row != [] {
      CountRowZero(row[1..], ch);
      assert forall c :: 1 <= c < |row| ==> row[c] == row[1..][c - 1];
    }
  }

  /** The goal test agrees with counting: no green cell iff no green frog counted. */
  lemma {:induction false} NoGreenIffNoneCounted(g: Grid)
    ensures NoGreen(g) <==> Count(g, GREEN) == 0
  {
    if g != [] {
      NoGreenIffNoneCounted(g[1..]);
      CountRowZero(g[0], GREEN);
      assert forall r :: 1 <= r < |g| ==> g[r] == g[1..][r - 1];
      if NoGreen(g[1..]) && CountRow(g[0], GREEN) == 0 {
        forall r, c | 0 <= r < |g| && 0 <= c < |g[r]| ensures g[r][c] != GREEN {
          if r > 0 {
            assert g[r][c] == g[1..][r - 1][c];
          }
        }
      }
    }
  }

  /**
   * One hop removes exactly one green frog (the one jumped over), keeps the
   * red frogs, and so lowers the number of frogs by one.
   */
  lemma HopCounts(g: Grid, s: Coord, d: Direction)
    requires CanHop(g, s, d) && IsFrog(At(g, s))
    ensures Count(Hop(g, s, d), GREEN) == Count(g, GREEN) - 1
    ensures Count(Hop(g, s, d), RED) == Count(g, RED)
    ensures FrogCount(Hop(g, s, d)) == FrogCount(g) - 1
  {
    var m, f := Mid(s, d), Dest(s, d);
    var g1 := Put(g, f, At(g, s));
    var g2 := Put(g1, m, LILYPAD);
    PutAt(g, f, At(g, s));
    PutAt(g1, m, LILYPAD);
    assert At(g1, m) == GREEN;
    assert At(g2, s) == At(g, s);
    CountPut(g, f, At(g, s), GREEN);
    CountPut(g, f, At(g, s), RED);
    CountPut(g1, m, LILYPAD, GREEN);
    CountPut(g1, m, LILYPAD, RED);
    CountPut(g2, s, LILYPAD, GREEN);
    CountPut(g2, s, LILYPAD, RED);
  }

  // ---------------------------------------------------------------------
  // The neighbour relation

  /** A board one hop away keeps the board's dimensions. */
  lemma HopShaped(g: Grid, s: Coord, d: Direction, rows: nat, cols: nat)
    requires CanHop(g, s, d) && Shaped(g, rows, cols)
    ensures Shaped(Hop(g, s, d), rows, cols)
  {
  }

  lemma HopsFromAdd(g: Grid, frogs: set<Coord>, s: Coord)
    ensures HopsFrom(g, frogs + {s}) == HopsFrom(g, frogs) + HopsAt(g, s)
  {
    forall n | n in HopsFrom(g, frogs + {s})
      ensures n in HopsFrom(g, frogs) + HopsAt(g, s)
    {
      var s', d :| s' in frogs + {s} && d in AllDirections && CanHop(g, s', d) && n == Hop(g, s', d);
      if s' == s {
        assert n in HopsAt(g, s);
      } else {
        assert n in HopsFrom(g, frogs);
      }
    }
    forall n | n in HopsFrom(g, frogs)
      ensures n in HopsFrom(g, frogs + {s})
    {
      var s', d :| s' in frogs && d in AllDirections && CanHop(g, s', d) && n == Hop(g, s', d);
      assert s' in frogs + {s};
    }
    forall n | n in HopsAt(g, s)
      ensures n in HopsFrom(g, frogs + {s})
    {
      var d :| d in AllDirections && CanHop(g, s, d) && n == Hop(g, s, d);
      assert s in frogs + {s};
    }
  }

  lemma HopsFromEmpty(g: Grid)
    ensures HopsFrom(g, {}) == {}
  {
  }

  /** The hops of the frog at `s` in the directions `ds`. */
  function HopsToward(g: Grid, s: Coord, ds: set<Direction>): set<Grid>
  {
    set d | d in ds && CanHop(g, s, d) :: Hop(g, s, d)
  }

  /** The directions `makeHop` has tried after each of its eight branches. */
  lemma DirectionPrefixes()
    ensures {} + {NorthWest} == {NorthWest}
    ensures {NorthWest} + {SouthWest} == {NorthWest, SouthWest}
    ensures {NorthWest, SouthWest} + {NorthEast} == {NorthWest, SouthWest, NorthEast}
    ensures {NorthWest, SouthWest, NorthEast} + {SouthEast} == {NorthWest, SouthWest, NorthEast, SouthEast}
    ensures {NorthWest, SouthWest, NorthEast, SouthEast} + {West} == {NorthWest, SouthWest, NorthEast, SouthEast, West}
    ensures {NorthWest, SouthWest, NorthEast, SouthEast, West} + {East} == {NorthWest, SouthWest, NorthEast, SouthEast, West, East}
    ensures {NorthWest, SouthWest, NorthEast, SouthEast, West, East} + {North} == {NorthWest, SouthWest, NorthEast, SouthEast, West, East, North}
    ensures {NorthWest, SouthWest, NorthEast, SouthEast, West, East, North} + {South} == AllDirections
  {
  }

  /** Trying one more direction adds its hop when it is open, and nothing else. */
  lemma HopsTowardAdd(g: Grid, s: Coord, ds: set<Direction>, d: Direction)
    ensures HopsToward(g, s, ds + {d})
         == HopsToward(g, s, ds) + (if CanHop(g, s, d) then {Hop(g, s, d)} else {})
  {
    forall n | n in HopsToward(g, s, ds + {d})
      ensures n in HopsToward(g, s, ds) + (if CanHop(g, s, d) then {Hop(g, s, d)} else {})
    {
      var d' :| d' in ds + {d} && CanHop(g, s, d') && n == Hop(g, s, d');
      if d' != d {
        assert n in HopsToward(g, s, ds);
      }
    }
    forall d' | d' in ds && CanHop(g, s, d')
      ensures Hop(g, s, d') in HopsToward(g, s, ds + {d})
    {
      assert d' in ds + {d};
    }
    if CanHop(g, s, d) {
      assert d in ds + {d};
      assert Hop(g, s, d) in HopsToward(g, s, ds + {d});
    }
  }

  /**
   * Every neighbour is the board after one frog hops over a green frog onto
   * a lily pad: one green frog fewer, as many red frogs, one frog fewer.
   */
  lemma NeighborCounts(g: Grid, n: Grid)
    requires n in Neighbors(g)
    ensures exists s, d :: s in Frogs(g) && d in AllDirections && CanHop(g, s, d) && n == Hop(g, s, d)
    ensures Count(n, GREEN) == Count(g, GREEN) - 1
    ensures Count(n, RED) == Count(g, RED)
    ensures FrogCount(n) == FrogCount(g) - 1
  {
    var s, d :| s in Frogs(g) && d in AllDirections && CanHop(g, s, d) && n == Hop(g, s, d);
    HopCounts(g, s, d);
  }

  /** A board with a neighbour still has a green frog, the one jumped over. */
  lemma NeighborNotSolved(g: Grid, n: Grid)
    requires n in Neighbors(g)
    ensures !NoGreen(g)
  {
    var s, d :| s in Frogs(g) && d in AllDirections && CanHop(g, s, d) && n == Hop(g, s, d);
    assert g[Mid(s, d).row][Mid(s, d).col] == GREEN;
  }

  /** A solved board has no neighbours. */
  lemma SolvedHasNoNeighbors(g: Grid)
    ensures NoGreen(g) ==> Neighbors(g) == {}
  {
    forall n | n in Neighbors(g) ensures !NoGreen(g) {
      NeighborNotSolved(g, n);
    }
  }

  // ---------------------------------------------------------------------
  // The player's move against the neighbour relation

  /**
   * `ValidMove` accepts exactly the hops of the neighbour relation, and
   * returns the cell that hop jumps over.
   */
  lemma ValidMoveIffHop(g: Grid, s: Coord, f: Coord, m: Coord)
    requires InBounds(g, s)
    ensures ValidMove(g, s, f) == Some(m)
        <==> exists d :: d in AllDirections && CanHop(g, s, d) && Dest(s, d) == f && Mid(s, d) == m
  {
    if ValidMove(g, s, f) == Some(m) {
      var d := DirectionOf(s, f);
      assert CanHop(g, s, d);
    }
    if d :| d in AllDirections && CanHop(g, s, d) && Dest(s, d) == f && Mid(s, d) == m {
      DestOfDirection(s, d);
    }
  }

  /** A displacement of hop shape is the hop of one direction, whose midpoint it jumps. */
  lemma DirectionOf(s: Coord, f: Coord) returns (d: Direction)
    requires HopShape(f.row - s.row, f.col - s.col)
    ensures d in AllDirections && Dest(s, d) == f && Mid(s, d) == Midpoint(s, f)
  {
    var dr, dc := f.row - s.row, f.col - s.col;
    d :=
      if dr == 0 && dc == -4 then West
      else if dr == 0 && dc == 4 then East
      else if dr == -4 then North
      else if dr == 4 then South
      else if dr == -2 && dc == -2 then NorthWest
      else if dr == 2 && dc == -2 then SouthWest
      else if dr == -2 then NorthEast
      else SouthEast;
  }

  /** Each direction's hop has hop shape, and jumps its midpoint. */
  lemma DestOfDirection(s: Coord, d: Direction)
    ensures HopShape(Dest(s, d).row - s.row, Dest(s, d).col - s.col)
    ensures Midpoint(s, Dest(s, d)) == Mid(s, d)
  {
  }

  /** A move the player may make, by a frog, yields a neighbour of the board. */
  lemma ValidMoveIsNeighbor(g: Grid, s: Coord, f: Coord)
    requires InBounds(g, s) && IsFrog(At(g, s))
    requires ValidMove(g, s, f).Some?
    ensures InBounds(g, f) && InBounds(g, ValidMove(g, s, f).value)
    ensures HopMove(g, s, ValidMove(g, s, f).value, f) in Neighbors(g)
  {
    var m := ValidMove(g, s, f).value;
    ValidMoveIffHop(g, s, f, m);
    var d :| d in AllDirections && CanHop(g, s, d) && Dest(s, d) == f && Mid(s, d) == m;
    assert s in Frogs(g);
    assert Hop(g, s, d) in HopsFrom(g, Frogs(g));
  }

  /** Every neighbour of the board is reachable by a move the player may make. */
  lemma NeighborIsValidMove(g: Grid, n: Grid)
    requires n in Neighbors(g)
    ensures exists s, f :: && InBounds(g, s) && IsFrog(At(g, s)) && ValidMove(g, s, f).Some?
                           && InBounds(g, f) && InBounds(g, ValidMove(g, s, f).value)
                           && n == HopMove(g, s, ValidMove(g, s, f).value, f)
  {
    var s, d :| s in Frogs(g) && d in AllDirections && CanHop(g, s, d) && n == Hop(g, s, d);
    ValidMoveIffHop(g, s, Dest(s, d), Mid(s, d));
  }
}
