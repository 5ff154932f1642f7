/**
 * The strings puzzle: turn the string `start` into `end` one character at a
 * time, each step moving one character to the next or the previous letter,
 * with 'Z' followed by 'A'. A configuration records `start`, `end` and the
 * string reached so far, `current`.
 */
module Strings {
  /** A UTF-16 code unit, the range of the source's `char`. */
  newtype JChar = x: int | 0 <= x < 0x1_0000

  type JString = seq<JChar>

  const A: JChar := 65
  const Z: JChar := 90

  predicate IsUpper(ch: JChar)
  {
    A <= ch <= Z
  }

  predicate AllUpper(s: JString)
  {
    forall i :: 0 <= i < |s| ==> IsUpper(s[i])
  }

  /** The narrowing cast `(char)` of an `int`: its low sixteen bits. */
  function ToChar(x: int): (ch: JChar)
    ensures 0 <= x < 0x1_0000 ==> ch as int == x
    ensures x == 0x1_0000 ==> ch == 0
    ensures x == -1 ==> ch as int == 0xFFFF
  {
    (x % 0x1_0000) as JChar
  }

  /** The character after `ch`; 'A' after 'Z'. */
  function Next(ch: JChar): (n: JChar)
    ensures n != ch
    ensures IsUpper(ch) ==> IsUpper(n) && (ch == Z || n as int == ch as int + 1)
  {
    if ch == Z then A else ToChar(ch as int + 1)
  }

  /** The character before `ch`; 'Z' before 'A'. */
  function Previous(ch: JChar): (p: JChar)
    ensures p != ch
    ensures IsUpper(ch) ==> IsUpper(p) && (ch == A || p as int == ch as int - 1)
  {
    if ch == A then Z else ToChar(ch as int - 1)
  }

  datatype StringsConfig = StringsConfig(start: JString, end: JString, current: JString)

  /** `isSolution`: the current string is the one sought. */
  function IsSolution(c: StringsConfig): (solved: bool)
    ensures solved <==> Equals(c, StringsConfig(c.start, c.end, c.end))
  {
    c.current == c.end
  }

  /** `equals`: only the current strings are compared (and `hashCode` hashes only them). */
  function Equals(a: StringsConfig, b: StringsConfig): (same: bool)
    ensures same <==> a.(start := b.start, end := b.end) == b
  {
    a.current == b.current
  }

  /** The configuration with character `i` of the current string replaced by `ch`. */
  function Bump(c: StringsConfig, i: nat, ch: JChar): StringsConfig
    requires i < |c.current|
  {
    c.(current := c.current[i := ch])
  }

  /** The neighbours made from the first `k` positions: each one's character moved up and moved down. */
  function NeighborsBelow(c: StringsConfig, k: nat): set<StringsConfig>
    requires k <= |c.current|
  {
    (set i | 0 <= i < k :: Bump(c, i, Next(c.current[i])))
    + (set i | 0 <= i < k :: Bump(c, i, Previous(c.current[i])))
  }

  /** The neighbour relation of the puzzle. */
  function Neighbors(c: StringsConfig): (ns: set<StringsConfig>)
    ensures forall n :: n in ns ==> n.start == c.start && n.end == c.end && |n.current| == |c.current|
    ensures c.current == [] ==> ns == {}
  {
    NeighborsBelow(c, |c.current|)
  }

  /** One more position adds its two neighbours. */
  lemma NeighborsBelowStep(c: StringsConfig, k: nat)
    requires k < |c.current|
    ensures NeighborsBelow(c, k + 1)
         == NeighborsBelow(c, k) + {Bump(c, k, Next(c.current[k]))} + {Bump(c, k, Previous(c.current[k]))}
  {
    var lhs := NeighborsBelow(c, k + 1);
    var rhs := NeighborsBelow(c, k) + {Bump(c, k, Next(c.current[k]))} + {Bump(c, k, Previous(c.current[k]))};
    forall n | n in lhs ensures n in rhs {
      var i :| 0 <= i < k + 1 && (n == Bump(c, i, Next(c.current[i])) || n == Bump(c, i, Previous(c.current[i])));
      if i < k {
        assert n in NeighborsBelow(c, k);
      }
    }
    forall n | n in rhs ensures n in lhs {
      if n in NeighborsBelow(c, k) {
        var i :| 0 <= i < k && (n == Bump(c, i, Next(c.current[i])) || n == Bump(c, i, Previous(c.current[i])));
        assert 0 <= i < k + 1;
      } else {
        assert 0 <= k < k + 1;
      }
    }
  }

  /** Moving a character up or down always changes it, and the two moves never agree. */
  lemma MovesChange(ch: JChar)
    ensures Next(ch) != ch && Previous(ch) != ch && Next(ch) != Previous(ch)
  {
  }

  /** Every configuration of `ns` has a current string as long as `c`'s, agreeing with it from `i` on. */
  predicate AgreeFrom(c: StringsConfig, ns: set<StringsConfig>, i: nat)
    requires i <= |c.current|
  {
    forall n :: n in ns ==> |n.current| == |c.current| && n.current[i..] == c.current[i..]
  }

  /**
   * The two neighbours made at position `i` are new: everything made before
   * agrees with `c` at `i`, and they do not. Everything agrees with `c`
   * after `i`.
   */
  lemma StepAddsTwo(c: StringsConfig, i: nat, ns: set<StringsConfig>)
    requires i < |c.current| && AgreeFrom(c, ns, i)
    ensures var ns' := ns + {Bump(c, i, Next(c.current[i]))} + {Bump(c, i, Previous(c.current[i]))};
      |ns'| == |ns| + 2 && AgreeFrom(c, ns', i + 1)
  {
    var up, down := Bump(c, i, Next(c.current[i])), Bump(c, i, Previous(c.current[i]));
    MovesChange(c.current[i]);
    forall n | n in ns ensures n.current[i] == c.current[i] {
      assert n.current[i..][0] == c.current[i..][0];
    }
    assert up.current[i] != c.current[i] && down.current[i] != c.current[i];
    assert up != down by {
      assert up.current[i] != down.current[i];
    }
    AgreeStep(c, i, ns, {up, down});
    assert ns + {up} + {down} == ns + {up, down};
  }

  /** What agrees with `c` from `i` on agrees with it from `i + 1` on; so does `c` with one change at `i`. */
  lemma AgreeStep(c: StringsConfig, i: nat, ns: set<StringsConfig>, bumped: set<StringsConfig>)
    requires i < |c.current| && AgreeFrom(c, ns, i)
    requires forall n :: n in bumped ==> exists ch :: n == Bump(c, i, ch)
    ensures AgreeFrom(c, ns + bumped, i + 1)
  {
    forall n | n in ns + bumped ensures |n.current| == |c.current| && n.current[i + 1..] == c.current[i + 1..] {
      if n in ns {
        assert n.current[i + 1..] == n.current[i..][1..];
      } else {
        var ch :| n == Bump(c, i, ch);
      }
    }
  }

  /**
   * The body of `getNeighbors`' loop at position `i`: copies of the
   * configuration with character `i` moved up and moved down.
   */
  method BumpsAt(c: StringsConfig, i: nat) returns (stringsConfig1: StringsConfig, stringsConfig2: StringsConfig)
    requires i < |c.current|
    ensures stringsConfig1 == Bump(c, i, Next(c.current[i]))
    ensures stringsConfig2 == Bump(c, i, Previous(c.current[i]))
  {
    var current := c.current;
    var newStr := current;
    var next := ToChar(current[i] as int + 1);
    var newStr2 := current;
    var previous := ToChar(current[i] as int - 1);
    if current[i] == Z {
      next := A;
    } else if current[i] == A {
      previous := Z;
    }
    newStr := newStr[i := next];
    stringsConfig1 := StringsConfig(c.start, c.end, newStr);
    newStr2 := newStr2[i := previous];
    stringsConfig2 := StringsConfig(c.start, c.end, newStr2);
  }

  /**
   * `getNeighbors`: for each position of the current string, the string
   * with that character moved up and the string with it moved down; no
   * two of them coincide.
   */
  method GetNeighbors(c: StringsConfig) returns (setOfNeighbors: set<StringsConfig>)
    ensures setOfNeighbors == Neighbors(c)
    ensures |setOfNeighbors| == 2 * |c.current|
  {
    var current := c.current;
    setOfNeighbors := {};
    var i := 0;
    while i < |current|
      invariant 0 <= i <= |current|
      invariant setOfNeighbors == NeighborsBelow(c, i)
      invariant |setOfNeighbors| == 2 * i
      invariant AgreeFrom(c, setOfNeighbors, i)
    {
      var stringsConfig1, stringsConfig2 := BumpsAt(c, i);
      StepAddsTwo(c, i, setOfNeighbors);
      NeighborsBelowStep(c, i);
      setOfNeighbors := setOfNeighbors + {stringsConfig1};
      setOfNeighbors := setOfNeighbors + {stringsConfig2};
      i := i + 1;
    }
  }

  // ---------------------------------------------------------------------
  // The neighbour relation, stated position by position

  /** `n` is `c` with exactly the character at `i` moved up or down. */
  predicate OneStepAt(c: StringsConfig, n: StringsConfig, i: int)
  {
    && n.start == c.start && n.end == c.end
    && |n.current| == |c.current| && 0 <= i < |c.current|
    && (n.current[i] == Next(c.current[i]) || n.current[i] == Previous(c.current[i]))
    && forall j :: 0 <= j < |c.current| && j != i ==> n.current[j] == c.current[j]
  }

  /**
   * The neighbours are exactly the configurations with the same `start` and
   * `end` whose current string moves one character up or down.
   */
  lemma NeighborIff(c: StringsConfig, n: StringsConfig)
    ensures n in Neighbors(c) <==> exists i :: OneStepAt(c, n, i)
  {
    if n in Neighbors(c) {
      var i :| 0 <= i < |c.current|
        && (n == Bump(c, i, Next(c.current[i])) || n == Bump(c, i, Previous(c.current[i])));
      assert OneStepAt(c, n, i);
    }
    if i :| OneStepAt(c, n, i) {
      if n.current[i] == Next(c.current[i]) {
        assert n.current == c.current[i := Next(c.current[i])];
        assert n == Bump(c, i, Next(c.current[i]));
      } else {
        assert n.current == c.current[i := Previous(c.current[i])];
        assert n == Bump(c, i, Previous(c.current[i]));
      }
    }
  }

  /**
   * Every neighbour keeps `start`, `end` and the length, and differs from
   * the current string in exactly one position.
   */
  lemma NeighborDiffersOnce(c: StringsConfig, n: StringsConfig)
    requires n in Neighbors(c)
    ensures n.start == c.start && n.end == c.end && |n.current| == |c.current|
    ensures exists i :: 0 <= i < |c.current| && n.current[i] != c.current[i]
                     && forall j :: 0 <= j < |c.current| && j != i ==> n.current[j] == c.current[j]
  {
    NeighborIff(c, n);
    var i :| OneStepAt(c, n, i);
    MovesChange(c.current[i]);
  }

  /** An empty current string has no neighbours. */
  lemma EmptyHasNoNeighbors(c: StringsConfig)
    requires c.current == []
    ensures Neighbors(c) == {}
  {
  }

  /** A neighbour of a solution is no solution. */
  lemma NeighborOfSolution(c: StringsConfig, n: StringsConfig)
    requires IsSolution(c) && n in Neighbors(c)
    ensures !IsSolution(n)
  {
    NeighborDiffersOnce(c, n);
  }

  // ---------------------------------------------------------------------
  // Letters

  /** On capital letters, moving up and moving down undo each other and stay among the letters. */
  lemma NextPreviousInverse(ch: JChar)
    requires IsUpper(ch)
    ensures IsUpper(Next(ch)) && IsUpper(Previous(ch))
    ensures Previous(Next(ch)) == ch && Next(Previous(ch)) == ch
  {
  }

  /** A neighbour of an all-capital string is itself all capitals. */
  lemma NeighborStaysUpper(c: StringsConfig, n: StringsConfig)
    requires AllUpper(c.current) && n in Neighbors(c)
    ensures AllUpper(n.current)
  {
    NeighborIff(c, n);
    var i :| OneStepAt(c, n, i);
    NextPreviousInverse(c.current[i]);
  }

  /** On capital letters the neighbour relation is symmetric. */
  lemma NeighborSymmetric(c: StringsConfig, n: StringsConfig)
    requires AllUpper(c.current) && n in Neighbors(c)
    ensures c in Neighbors(n)
  {
    NeighborIff(c, n);
    var i :| OneStepAt(c, n, i);
    NextPreviousInverse(c.current[i]);
    assert OneStepAt(n, c, i);
    NeighborIff(n, c);
  }

  /**
   * Configurations `equals` identifies, within one puzzle (same `end`),
   * agree on being solved and have neighbours with the same current strings.
   */
  lemma EqualsInterchangeable(a: StringsConfig, b: StringsConfig)
    requires Equals(a, b) && a.end == b.end
    ensures IsSolution(a) <==> IsSolution(b)
    ensures (set n | n in Neighbors(a) :: n.current) == (set n | n in Neighbors(b) :: n.current)
  {
    var sa := set n | n in Neighbors(a) :: n.current;
    var sb := set n | n in Neighbors(b) :: n.current;
    forall s | s in sa ensures s in sb {
      var n :| n in Neighbors(a) && n.current == s;
      var i :| 0 <= i < |a.current|
        && (n == Bump(a, i, Next(a.current[i])) || n == Bump(a, i, Previous(a.current[i])));
      if n == Bump(a, i, Next(a.current[i])) {
        assert Bump(b, i, Next(b.current[i])) in Neighbors(b);
      } else {
        assert Bump(b, i, Previous(b.current[i])) in Neighbors(b);
      }
    }
    forall s | s in sb ensures s in sa {
      var n :| n in Neighbors(b) && n.current == s;
      var i :| 0 <= i < |b.current|
        && (n == Bump(b, i, Next(b.current[i])) || n == Bump(b, i, Previous(b.current[i])));
      if n == Bump(b, i, Next(b.current[i])) {
        assert Bump(a, i, Next(a.current[i])) in Neighbors(a);
      } else {
        assert Bump(a, i, Previous(a.current[i])) in Neighbors(a);
      }
    }
  }
}
