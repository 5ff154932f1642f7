/**
 * The river-crossing puzzle: pups and wolves wait on the left bank of a
 * river and must all be ferried to the right bank. Each crossing carries
 * two pups, one pup or one wolf from the bank the boat is on, and the boat
 * ends on the other bank. The source keeps the two totals in static fields
 * set by the starting constructor; here they are parameters.
 */
module Crossing {
  datatype Side = Left | Right

  /** The number of pups and of wolves on one bank: the source's `int[2]`. */
  datatype Bank = Bank(pups: int, wolves: int)

  datatype CrossingConfig = CrossingConfig(side: Side, leftSide: Bank, rightSide: Bank)

  /** The bank across the river. */
  function Other(s: Side): Side
  {
    if s == Left then Right else Left
  }

  /** The starting configuration: everyone on the left bank, with the boat. */
  function Start(numOfPups: int, numOfWolves: int): (c: CrossingConfig)
    ensures c.side == Left && Totals(c) == Bank(numOfPups, numOfWolves)
    ensures c.rightSide == Bank(0, 0)
  {
    CrossingConfig(Left, Bank(numOfPups, numOfWolves), Bank(0, 0))
  }

  /**
   * The copy constructor: the configuration built from the first two
   * entries of each array.
   */
  function FromArrays(side: Side, leftSide: seq<int>, rightSide: seq<int>): (c: CrossingConfig)
    requires |leftSide| >= 2 && |rightSide| >= 2
    ensures c.side == side && AsArray(c.leftSide) == leftSide[..2] && AsArray(c.rightSide) == rightSide[..2]
  {
    CrossingConfig(side, Bank(leftSide[0], leftSide[1]), Bank(rightSide[0], rightSide[1]))
  }

  /** A bank as the source's two-element array. */
  function AsArray(b: Bank): (a: seq<int>)
    ensures |a| == 2
  {
    [b.pups, b.wolves]
  }

  /** Copying a configuration's arrays gives the same configuration back. */
  lemma FromArraysOfArrays(c: CrossingConfig)
    ensures FromArrays(c.side, AsArray(c.leftSide), AsArray(c.rightSide)) == c
  {
  }

  /** Both banks together. */
  function Totals(c: CrossingConfig): Bank
  {
    Bank(c.leftSide.pups + c.rightSide.pups, c.leftSide.wolves + c.rightSide.wolves)
  }

  predicate NonNegative(c: CrossingConfig)
  {
    c.leftSide.pups >= 0 && c.leftSide.wolves >= 0 && c.rightSide.pups >= 0 && c.rightSide.wolves >= 0
  }

  /** `isSolution`: nobody is left on the left bank, everyone is on the right, and so is the boat. */
  function IsSolution(c: CrossingConfig, numOfPups: int, numOfWolves: int): (solved: bool)
    ensures solved ==> c.side == Right && Totals(c) == Bank(numOfPups, numOfWolves)
    ensures solved ==> c != Start(numOfPups, numOfWolves)
  {
    && c.leftSide.pups == 0 && c.leftSide.wolves == 0
    && c.rightSide.pups == numOfPups && c.rightSide.wolves == numOfWolves
    && c.side == Right
  }

  /** `getNeighbors`: the six guarded additions of the source, three for each boat side. */
  function Neighbors(c: CrossingConfig): (ns: set<CrossingConfig>)
    ensures forall n :: n in ns ==> n.side == Other(c.side) && Totals(n) == Totals(c)
  {
    var l, r := c.leftSide, c.rightSide;
    (if c.side == Left then
       (if l.pups >= 2 then {FromArrays(Right, [l.pups - 2, l.wolves], [r.pups + 2, r.wolves])} else {})
       + (if l.pups >= 1 then {FromArrays(Right, [l.pups - 1, l.wolves], [r.pups + 1, r.wolves])} else {})
       + (if l.wolves >= 1 then {FromArrays(Right, [l.pups, l.wolves - 1], [r.pups, r.wolves + 1])} else {})
     else {})
    + (if c.side == Right then
         (if r.pups >= 2 then {FromArrays(Left, [l.pups + 2, l.wolves], [r.pups - 2, r.wolves])} else {})
         + (if r.pups >= 1 then {FromArrays(Left, [l.pups + 1, l.wolves], [r.pups - 1, r.wolves])} else {})
         + (if r.wolves >= 1 then {FromArrays(Left, [l.pups, l.wolves + 1], [r.pups, r.wolves - 1])} else {})
       else {})
  }

  // ---------------------------------------------------------------------
  // The moves of the puzzle, as an independent description

  /** What one crossing may carry. */
  datatype Move = TwoPups | OnePup | OneWolf

  const AllMoves: set<Move> := {TwoPups, OnePup, OneWolf}

  function Load(m: Move): Bank
  {
    match m
    case TwoPups => Bank(2, 0)
    case OnePup => Bank(1, 0)
    case OneWolf => Bank(0, 1)
  }

  /** The bank the boat is on. */
  function BoatBank(c: CrossingConfig): Bank
  {
    if c.side == Left then c.leftSide else c.rightSide
  }

  /** The boat's bank holds what the move carries. */
  predicate Enabled(c: CrossingConfig, m: Move)
  {
    match m
    case TwoPups => BoatBank(c).pups >= 2
    case OnePup => BoatBank(c).pups >= 1
    case OneWolf => BoatBank(c).wolves >= 1
  }

  /** The load leaves the boat's bank, arrives on the other, and so does the boat. */
  function Carry(c: CrossingConfig, m: Move): CrossingConfig
  {
    var k := Load(m);
    if c.side == Left then
      CrossingConfig(Right, Bank(c.leftSide.pups - k.pups, c.leftSide.wolves - k.wolves),
                            Bank(c.rightSide.pups + k.pups, c.rightSide.wolves + k.wolves))
    else
      CrossingConfig(Left, Bank(c.leftSide.pups + k.pups, c.leftSide.wolves + k.wolves),
                           Bank(c.rightSide.pups - k.pups, c.rightSide.wolves - k.wolves))
  }

  function EnabledMoves(c: CrossingConfig): set<Move>
  {
    set m | m in AllMoves && Enabled(c, m)
  }

  /** The crossing of `m` when it is enabled. */
  function CarryIfEnabled(c: CrossingConfig, m: Move): set<CrossingConfig>
  {
    if Enabled(c, m) then {Carry(c, m)} else {}
  }

  /** Each of the source's six guarded additions is the crossing of one move. */
  lemma NeighborsByMove(c: CrossingConfig)
    ensures Neighbors(c) == CarryIfEnabled(c, TwoPups) + CarryIfEnabled(c, OnePup) + CarryIfEnabled(c, OneWolf)
  {
    var l, r := c.leftSide, c.rightSide;
    if c.side == Left {
      assert FromArrays(Right, [l.pups - 2, l.wolves], [r.pups + 2, r.wolves]) == Carry(c, TwoPups);
      assert FromArrays(Right, [l.pups - 1, l.wolves], [r.pups + 1, r.wolves]) == Carry(c, OnePup);
      assert FromArrays(Right, [l.pups, l.wolves - 1], [r.pups, r.wolves + 1]) == Carry(c, OneWolf);
    } else {
      assert FromArrays(Left, [l.pups + 2, l.wolves], [r.pups - 2, r.wolves]) == Carry(c, TwoPups);
      assert FromArrays(Left, [l.pups + 1, l.wolves], [r.pups - 1, r.wolves]) == Carry(c, OnePup);
      assert FromArrays(Left, [l.pups, l.wolves + 1], [r.pups, r.wolves - 1]) == Carry(c, OneWolf);
    }
  }

  /** The neighbours are exactly the crossings of the enabled moves. */
  lemma NeighborsAreMoves(c: CrossingConfig)
    ensures Neighbors(c) == set m | m in EnabledMoves(c) :: Carry(c, m)
  {
    NeighborsByMove(c);
    var ms := set m | m in EnabledMoves(c) :: Carry(c, m);
    forall n | n in ms ensures n in Neighbors(c) {
      var m :| m in EnabledMoves(c) && n == Carry(c, m);
      assert m == TwoPups || m == OnePup || m == OneWolf;
    }
    forall n | n in Neighbors(c) ensures n in ms {
      if n in CarryIfEnabled(c, TwoPups) {
        assert TwoPups in EnabledMoves(c);
      } else if n in CarryIfEnabled(c, OnePup) {
        assert OnePup in EnabledMoves(c);
      } else {
        assert OneWolf in EnabledMoves(c);
      }
    }
  }

  /** Different moves lead to different configurations. */
  lemma CarryInjective(c: CrossingConfig, m: Move, m': Move)
    requires Carry(c, m) == Carry(c, m')
    ensures m == m'
  {
    assert Load(m) == Load(m');
  }

  /** One neighbour for each enabled move, and so at most three. */
  lemma NeighborCount(c: CrossingConfig)
    ensures |Neighbors(c)| == |EnabledMoves(c)| <= 3
  {
    NeighborsAreMoves(c);
    var ms := EnabledMoves(c);
    assert ms <= AllMoves;
    assert |AllMoves| == 3;
    SubsetSize(ms, AllMoves);
    ImageSize(c, ms);
  }

  lemma SubsetSize(a: set<Move>, b: set<Move>)
    requires a <= b
    ensures |a| <= |b|
  {
    assert b == a + (b - a);
  }

  /** The crossings of a set of moves are as many as the moves. */
  lemma {:induction false} ImageSize(c: CrossingConfig, ms: set<Move>)
    ensures |set m | m in ms :: Carry(c, m)| == |ms|
    decreases |ms|
  {
    if ms != {} {
      var m0 :| m0 in ms;
      var rest := ms - {m0};
      ImageSize(c, rest);
      var img := set m | m in ms :: Carry(c, m);
      var imgRest := set m | m in rest :: Carry(c, m);
      assert img == imgRest + {Carry(c, m0)};
      if Carry(c, m0) in imgRest {
        var m1 :| m1 in rest && Carry(c, m1) == Carry(c, m0);
        CarryInjective(c, m0, m1);
        assert false;
      }
    } else {
      assert (set m | m in ms :: Carry(c, m)) == {};
    }
  }

  // ---------------------------------------------------------------------
  // What one crossing keeps

  /** Every crossing moves the boat to the other bank. */
  lemma NeighborFlipsSide(c: CrossingConfig, n: CrossingConfig)
    requires n in Neighbors(c)
    ensures n.side == Other(c.side)
  {
    NeighborsAreMoves(c);
  }

  /** Every crossing keeps the total numbers of pups and of wolves. */
  lemma NeighborConserves(c: CrossingConfig, n: CrossingConfig)
    requires n in Neighbors(c)
    ensures Totals(n) == Totals(c)
  {
    NeighborsAreMoves(c);
  }

  /** The guards keep every count non-negative. */
  lemma NeighborNonNegative(c: CrossingConfig, n: CrossingConfig)
    requires n in Neighbors(c) && NonNegative(c)
    ensures NonNegative(n)
  {
    NeighborsAreMoves(c);
  }

  /** The starting configuration is not a solution unless there is nobody to ferry — and even then the boat is on the wrong bank. */
  lemma StartIsNotSolution(numOfPups: int, numOfWolves: int)
    ensures !IsSolution(Start(numOfPups, numOfWolves), numOfPups, numOfWolves)
  {
  }

  /** The solution is the starting configuration with everyone, boat included, moved across. */
  lemma SolutionIsMirrorOfStart(c: CrossingConfig, numOfPups: int, numOfWolves: int)
    ensures IsSolution(c, numOfPups, numOfWolves)
        <==> c == CrossingConfig(Right, Start(numOfPups, numOfWolves).rightSide,
                                 Start(numOfPups, numOfWolves).leftSide)
  {
  }

  // ---------------------------------------------------------------------
  // Sequences of crossings

  /** Each configuration of `cs` is a neighbour of the one before. */
  predicate IsPath(cs: seq<CrossingConfig>)
  {
    forall i :: 0 < i < |cs| ==> cs[i] in Neighbors(cs[i - 1])
  }

  /**
   * Along any sequence of crossings from the start, the totals stay those
   * of the start, no count is negative, and the boat is on the right bank
   * exactly after an odd number of crossings; so a solution is only ever
   * reached after an odd number of them.
   */
  lemma {:induction false} PathInvariant(cs: seq<CrossingConfig>, numOfPups: nat, numOfWolves: nat, i: nat)
    requires IsPath(cs) && |cs| > 0 && cs[0] == Start(numOfPups, numOfWolves) && i < |cs|
    ensures Totals(cs[i]) == Bank(numOfPups, numOfWolves)
    ensures NonNegative(cs[i])
    ensures cs[i].side == (if i % 2 == 0 then Left else Right)
    ensures IsSolution(cs[i], numOfPups, numOfWolves) ==> i % 2 == 1
  {
    if i > 0 {
      PathInvariant(cs, numOfPups, numOfWolves, i - 1);
      NeighborConserves(cs[i - 1], cs[i]);
      NeighborNonNegative(cs[i - 1], cs[i]);
      NeighborFlipsSide(cs[i - 1], cs[i]);
    }
  }

  // ---------------------------------------------------------------------
  // Equality

  /** `equals` as written: the four counts agree; the boat's side is not compared. */
  function Equals(a: CrossingConfig, b: CrossingConfig): (same: bool)
    ensures same <==> a.(side := b.side) == b
    ensures same ==> Totals(a) == Totals(b)
  {
    && a.leftSide.pups == b.leftSide.pups
    && a.leftSide.wolves == b.leftSide.wolves
    && a.rightSide.pups == b.rightSide.pups
    && a.rightSide.wolves == b.rightSide.wolves
  }

  /**
   * `equals` identifies a solved configuration with the unsolved one that
   * has the boat on the left bank, so it treats as one state two
   * configurations with different goal status and different neighbours.
   * `hashCode` does include the side.
   */
  lemma EqualsIgnoresSide()
    ensures var a := CrossingConfig(Left, Bank(0, 0), Bank(1, 1));
      var b := CrossingConfig(Right, Bank(0, 0), Bank(1, 1));
      && Equals(a, b) && a.side != b.side
      && IsSolution(b, 1, 1) && !IsSolution(a, 1, 1)
      && Neighbors(a) == {} && Neighbors(b) != {}
  {
    var b := CrossingConfig(Right, Bank(0, 0), Bank(1, 1));
    assert FromArrays(Left, [1, 0], [0, 1]) in Neighbors(b);
  }

  /** Equality as evidently intended, and as `hashCode` agrees with: the counts and the side. */
  predicate SameState(a: CrossingConfig, b: CrossingConfig)
  {
    Equals(a, b) && a.side == b.side
  }

  /** Configurations in the same state are interchangeable for the puzzle. */
  lemma SameStateInterchangeable(a: CrossingConfig, b: CrossingConfig, numOfPups: int, numOfWolves: int)
    requires SameState(a, b)
    ensures a == b
    ensures IsSolution(a, numOfPups, numOfWolves) <==> IsSolution(b, numOfPups, numOfWolves)
    ensures Neighbors(a) == Neighbors(b)
  {
  }
}
