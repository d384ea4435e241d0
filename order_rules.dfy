/** The given and ordering constraints of constraints.rs: `GivenConstraint`,
    `LessThanConstraint` and the thermometer built from a chain of them. */
module OrderRules {
  import opened Candidates
  import opened Boards
  import opened Rules

  // ----- GivenConstraint

  /** `apply` of Given: its candidate becomes True whatever it held, and the
      rule reports a change iff the candidate was Poss. */
  method ApplyGiven(r: Rule, b: SdkBoard) returns (did: bool)
    requires r.Given? && WellFormed(r, b.size) && b.Valid()
    modifies b.data
    ensures b.data[..] == old(b.data[..])[Index(b.size, r.pos) := True]
    ensures did <==> old(b.Get(r.pos)) == Poss
  {
    did := b.Get(r.pos) == Poss;
    b.Set(r.pos, True);
  }

  // ----- LessThanConstraint
  //
  // The single zl loop of `apply` first tests low digit zl against the high
  // digits above it, then high digit zl against the low digits below it,
  // each test reading the board as the earlier rounds left it.

  /** Digits lo .. hi - 1 of cell c are all False. */
  ghost predicate AllFalse(n: nat, g: seq<LogicVal>, c: (nat, nat), lo: nat, hi: nat)
    requires |g| == Cube(n) && CellInRange(n, c) && hi <= n
  {
    forall z :: lo <= z < hi ==> At(n, g, CellPos(c, z)) == False
  }

  /** The inner `to_rem` loops: are digits lo .. hi - 1 of cell c all False?
      The scan stops at the first digit that is not. */
  method AllFalseBetween(b: SdkBoard, c: (nat, nat), lo: nat, hi: nat) returns (all: bool)
    requires b.Valid() && CellInRange(b.size, c) && hi <= b.size
    ensures all <==> AllFalse(b.size, b.data[..], c, lo, hi)
  {
    var z := lo;
    while z < hi
      invariant lo <= z && (z <= hi || z == lo)
      invariant forall z' :: lo <= z' < z ==> At(b.size, b.data[..], CellPos(c, z')) == False
    {
      if b.Get(CellPos(c, z)) != False {
        return false;
      }
      z := z + 1;
    }
    return true;
  }

  // The board after each half of each round. The three functions are
  // mutually recursive: the board after k rounds is the board after the
  // high half of round k - 1, which tests the board after the low half of
  // round k - 1, which tests the board after k - 1 rounds.

  /** The board after the first k rounds of the zl loop. */
  ghost function LessRun(l: (nat, nat), h: (nat, nat), n: nat, g: seq<LogicVal>, k: nat): (g': seq<LogicVal>)
    requires |g| == Cube(n) && CellInRange(n, l) && CellInRange(n, h) && k <= n
    ensures |g'| == Cube(n)
    decreases k, 0
  {
    if k == 0 then g else HighHalf(l, h, n, g, k - 1)
  }

  /** The low half of round z: low digit z goes if it is Poss and every high
      digit above z is False. */
  ghost function LowHalf(l: (nat, nat), h: (nat, nat), n: nat, g: seq<LogicVal>, z: nat): (g': seq<LogicVal>)
    requires |g| == Cube(n) && CellInRange(n, l) && CellInRange(n, h) && z < n
    ensures |g'| == Cube(n)
    decreases z, 1
  {
    var s := LessRun(l, h, n, g, z);
    if At(n, s, CellPos(l, z)) == Poss && AllFalse(n, s, h, z + 1, n) then s[Index(n, CellPos(l, z)) := False]
    else s
  }

  /** The high half of round z: high digit z goes if it is Poss and every low
      digit below z is False. */
  ghost function HighHalf(l: (nat, nat), h: (nat, nat), n: nat, g: seq<LogicVal>, z: nat): (g': seq<LogicVal>)
    requires |g| == Cube(n) && CellInRange(n, l) && CellInRange(n, h) && z < n
    ensures |g'| == Cube(n)
    decreases z, 2
  {
    var s := LowHalf(l, h, n, g, z);
    if At(n, s, CellPos(h, z)) == Poss && AllFalse(n, s, l, 0, z) then s[Index(n, CellPos(h, z)) := False]
    else s
  }

  /** Each half round only removes candidates. */
  lemma HalvesElim(l: (nat, nat), h: (nat, nat), n: nat, g: seq<LogicVal>, z: nat)
    requires |g| == Cube(n) && CellInRange(n, l) && CellInRange(n, h) && z < n
    ensures OnlyElims(LessRun(l, h, n, g, z), LowHalf(l, h, n, g, z))
    ensures OnlyElims(LowHalf(l, h, n, g, z), LessRun(l, h, n, g, z + 1))
  {
    assert LessRun(l, h, n, g, z + 1) == HighHalf(l, h, n, g, z);
  }

  /** The low half of one round of the zl loop, on the board. */
  method LowHalfStep(l: (nat, nat), h: (nat, nat), b: SdkBoard, ghost g: seq<LogicVal>, z: nat) returns (rem: bool)
    requires b.Valid() && |g| == Cube(b.size) && CellInRange(b.size, l) && CellInRange(b.size, h) && z < b.size
    requires b.data[..] == LessRun(l, h, b.size, g, z)
    modifies b.data
    ensures b.data[..] == LowHalf(l, h, b.size, g, z)
    ensures rem <==> b.data[..] != old(b.data[..])
  {
    rem := false;
    if b.Get(CellPos(l, z)) == Poss {
      rem := AllFalseBetween(b, h, z + 1, b.size);
      if rem {
        b.Set(CellPos(l, z), False);
      }
    }
    if rem {
      assert b.data[Index(b.size, CellPos(l, z))] != old(b.data[..])[Index(b.size, CellPos(l, z))];
    }
  }

  /** The high half of one round of the zl loop, on the board. */
  method HighHalfStep(l: (nat, nat), h: (nat, nat), b: SdkBoard, ghost g: seq<LogicVal>, z: nat) returns (rem: bool)
    requires b.Valid() && |g| == Cube(b.size) && CellInRange(b.size, l) && CellInRange(b.size, h) && z < b.size
    requires b.data[..] == LowHalf(l, h, b.size, g, z)
    modifies b.data
    ensures b.data[..] == LessRun(l, h, b.size, g, z + 1)
    ensures rem <==> b.data[..] != old(b.data[..])
  {
    rem := false;
    if b.Get(CellPos(h, z)) == Poss {
      rem := AllFalseBetween(b, l, 0, z);
      if rem {
        b.Set(CellPos(h, z), False);
      }
    }
    if rem {
      assert b.data[Index(b.size, CellPos(h, z))] != old(b.data[..])[Index(b.size, CellPos(h, z))];
    }
    assert LessRun(l, h, b.size, g, z + 1) == HighHalf(l, h, b.size, g, z);
  }

  /** `apply` of LessThan: runs the zl loop on the board, and reports a
      change iff it removed a candidate. */
  method ApplyLessThan(r: Rule, b: SdkBoard) returns (did: bool)
    requires r.LessThan? && WellFormed(r, b.size) && b.Valid()
    modifies b.data
    ensures b.data[..] == LessRun(r.lpos, r.hpos, b.size, old(b.data[..]), b.size)
    ensures did <==> b.data[..] != old(b.data[..])
  {
    ghost var g := b.data[..];
    var n := b.size;
    did := false;
    for zl := 0 to n
      invariant b.data[..] == LessRun(r.lpos, r.hpos, n, g, zl)
      invariant OnlyElims(g, b.data[..])
      invariant did <==> b.data[..] != g
    {
      HalvesElim(r.lpos, r.hpos, n, g, zl);
      var low := LowHalfStep(r.lpos, r.hpos, b, g, zl);
      ElimsChain(g, LessRun(r.lpos, r.hpos, n, g, zl), b.data[..]);
      did := did || low;
      var high := HighHalfStep(r.lpos, r.hpos, b, g, zl);
      ElimsChain(g, LowHalf(r.lpos, r.hpos, n, g, zl), b.data[..]);
      did := did || high;
    }
  }

  /** Rounds j .. k - 1 only remove candidates. */
  lemma {:induction false} LessRunElims(l: (nat, nat), h: (nat, nat), n: nat, g: seq<LogicVal>, j: nat, k: nat)
    requires |g| == Cube(n) && CellInRange(n, l) && CellInRange(n, h) && j <= k <= n
    ensures OnlyElims(LessRun(l, h, n, g, j), LessRun(l, h, n, g, k))
    decreases k
  {
    if j < k {
      LessRunElims(l, h, n, g, j, k - 1);
      HalvesElim(l, h, n, g, k - 1);
      ElimsChain(LessRun(l, h, n, g, j), LessRun(l, h, n, g, k - 1), LowHalf(l, h, n, g, k - 1));
      ElimsChain(LessRun(l, h, n, g, j), LowHalf(l, h, n, g, k - 1), LessRun(l, h, n, g, k));
    }
  }

  /** Round z touches only low digit z and high digit z. */
  lemma RoundFrame(l: (nat, nat), h: (nat, nat), n: nat, g: seq<LogicVal>, z: nat, q: Pos)
    requires |g| == Cube(n) && CellInRange(n, l) && CellInRange(n, h) && z < n && InRange(n, q)
    requires q != CellPos(l, z) && q != CellPos(h, z)
    ensures At(n, LessRun(l, h, n, g, z + 1), q) == At(n, LessRun(l, h, n, g, z), q)
  {
    IndexInjective(n, q, CellPos(l, z));
    IndexInjective(n, q, CellPos(h, z));
    assert At(n, LowHalf(l, h, n, g, z), q) == At(n, LessRun(l, h, n, g, z), q);
  }

  /** Rounds j .. k - 1 leave alone every candidate outside the two cells
      or with a digit outside j .. k - 1. */
  lemma {:induction false} LessRunFrame(l: (nat, nat), h: (nat, nat), n: nat, g: seq<LogicVal>, j: nat, k: nat, q: Pos)
    requires |g| == Cube(n) && CellInRange(n, l) && CellInRange(n, h) && j <= k <= n && InRange(n, q)
    requires ((q.x, q.y) != l && (q.x, q.y) != h) || q.z < j || k <= q.z
    ensures At(n, LessRun(l, h, n, g, k), q) == At(n, LessRun(l, h, n, g, j), q)
    decreases k
  {
    if j < k {
      LessRunFrame(l, h, n, g, j, k - 1, q);
      RoundFrame(l, h, n, g, k - 1, q);
    }
  }

  /** `apply` only turns Poss into False, and only on digits of its two cells. */
  lemma LessThanOnlyElims(l: (nat, nat), h: (nat, nat), n: nat, g: seq<LogicVal>, q: Pos)
    requires |g| == Cube(n) && CellInRange(n, l) && CellInRange(n, h) && InRange(n, q)
    ensures OnlyElims(g, LessRun(l, h, n, g, n))
    ensures (q.x, q.y) != l && (q.x, q.y) != h ==> At(n, LessRun(l, h, n, g, n), q) == At(n, g, q)
  {
    LessRunElims(l, h, n, g, 0, n);
    if (q.x, q.y) != l && (q.x, q.y) != h {
      LessRunFrame(l, h, n, g, 0, n, q);
    }
  }

  /** False entries stay False. */
  lemma FalseStays(n: nat, a: seq<LogicVal>, b: seq<LogicVal>, c: (nat, nat), lo: nat, hi: nat)
    requires |a| == Cube(n) && OnlyElims(a, b) && CellInRange(n, c) && hi <= n
    requires AllFalse(n, a, c, lo, hi)
    ensures AllFalse(n, b, c, lo, hi)
  {
    forall z | lo <= z < hi ensures At(n, b, CellPos(c, z)) == False {
      assert At(n, a, CellPos(c, z)) == False;
    }
  }

  /** Round z alone: if it removed low digit z, the high digits above z
      are False after the round. */
  lemma LowRound(l: (nat, nat), h: (nat, nat), n: nat, g: seq<LogicVal>, z: nat)
    requires |g| == Cube(n) && CellInRange(n, l) && CellInRange(n, h) && l != h && z < n
    requires At(n, LessRun(l, h, n, g, z), CellPos(l, z)) == Poss
    requires At(n, LessRun(l, h, n, g, z + 1), CellPos(l, z)) == False
    ensures AllFalse(n, LessRun(l, h, n, g, z + 1), h, z + 1, n)
  {
    var p := CellPos(l, z);
    var before, mid := LessRun(l, h, n, g, z), LowHalf(l, h, n, g, z);
    IndexInjective(n, p, CellPos(h, z));
    assert At(n, mid, p) == False;
    assert AllFalse(n, before, h, z + 1, n);
    HalvesElim(l, h, n, g, z);
    FalseStays(n, before, mid, h, z + 1, n);
    FalseStays(n, mid, LessRun(l, h, n, g, z + 1), h, z + 1, n);
  }

  /** With two distinct cells: a low digit z that `apply` removed has no
      high digit above it left that is not False. */
  lemma LowRemovedOnlyIf(l: (nat, nat), h: (nat, nat), n: nat, g: seq<LogicVal>, z: nat)
    requires |g| == Cube(n) && CellInRange(n, l) && CellInRange(n, h) && l != h && z < n
    requires At(n, g, CellPos(l, z)) == Poss && At(n, LessRun(l, h, n, g, n), CellPos(l, z)) == False
    ensures AllFalse(n, LessRun(l, h, n, g, n), h, z + 1, n)
  {
    var p := CellPos(l, z);
    LessRunFrame(l, h, n, g, 0, z, p);
    LessRunFrame(l, h, n, g, z + 1, n, p);
    LowRound(l, h, n, g, z);
    LessRunElims(l, h, n, g, z + 1, n);
    FalseStays(n, LessRun(l, h, n, g, z + 1), LessRun(l, h, n, g, n), h, z + 1, n);
  }

  /** Round z alone: if it removed high digit z, the low digits below z
      are False after the round. */
  lemma HighRound(l: (nat, nat), h: (nat, nat), n: nat, g: seq<LogicVal>, z: nat)
    requires |g| == Cube(n) && CellInRange(n, l) && CellInRange(n, h) && l != h && z < n
    requires At(n, LessRun(l, h, n, g, z), CellPos(h, z)) == Poss
    requires At(n, LessRun(l, h, n, g, z + 1), CellPos(h, z)) == False
    ensures AllFalse(n, LessRun(l, h, n, g, z + 1), l, 0, z)
  {
    var p := CellPos(h, z);
    var mid := LowHalf(l, h, n, g, z);
    IndexInjective(n, p, CellPos(l, z));
    assert At(n, mid, p) == Poss;
    assert LessRun(l, h, n, g, z + 1) == HighHalf(l, h, n, g, z);
    assert AllFalse(n, mid, l, 0, z);
    HalvesElim(l, h, n, g, z);
    FalseStays(n, mid, LessRun(l, h, n, g, z + 1), l, 0, z);
  }

  /** With two distinct cells: a high digit z that `apply` removed has no
      low digit below it left that is not False. */
  lemma HighRemovedOnlyIf(l: (nat, nat), h: (nat, nat), n: nat, g: seq<LogicVal>, z: nat)
    requires |g| == Cube(n) && CellInRange(n, l) && CellInRange(n, h) && l != h && z < n
    requires At(n, g, CellPos(h, z)) == Poss && At(n, LessRun(l, h, n, g, n), CellPos(h, z)) == False
    ensures AllFalse(n, LessRun(l, h, n, g, n), l, 0, z)
  {
    var p := CellPos(h, z);
    LessRunFrame(l, h, n, g, 0, z, p);
    LessRunFrame(l, h, n, g, z + 1, n, p);
    HighRound(l, h, n, g, z);
    LessRunElims(l, h, n, g, z + 1, n);
    FalseStays(n, LessRun(l, h, n, g, z + 1), LessRun(l, h, n, g, n), l, 0, z);
  }

  /** With two distinct cells: a Poss high digit 0 and a Poss low digit
      SIZE - 1 always end False. */
  lemma ExtremesRemoved(l: (nat, nat), h: (nat, nat), n: nat, g: seq<LogicVal>)
    requires |g| == Cube(n) && CellInRange(n, l) && CellInRange(n, h) && l != h && n > 0
    ensures At(n, g, CellPos(h, 0)) == Poss ==> At(n, LessRun(l, h, n, g, n), CellPos(h, 0)) == False
    ensures At(n, g, CellPos(l, n - 1)) == Poss ==> At(n, LessRun(l, h, n, g, n), CellPos(l, n - 1)) == False
  {
    var final := LessRun(l, h, n, g, n);
    if At(n, g, CellPos(h, 0)) == Poss {
      var mid := LowHalf(l, h, n, g, 0);
      IndexInjective(n, CellPos(h, 0), CellPos(l, 0));
      assert At(n, mid, CellPos(h, 0)) == Poss;
      assert AllFalse(n, LessRun(l, h, n, g, 1), h, 0, 1);
      LessRunElims(l, h, n, g, 1, n);
      FalseStays(n, LessRun(l, h, n, g, 1), final, h, 0, 1);
    }
    if At(n, g, CellPos(l, n - 1)) == Poss {
      var p := CellPos(l, n - 1);
      var before := LessRun(l, h, n, g, n - 1);
      LessRunFrame(l, h, n, g, 0, n - 1, p);
      IndexInjective(n, p, CellPos(h, n - 1));
      assert At(n, LowHalf(l, h, n, g, n - 1), p) == False;
    }
  }

  /** With two distinct cells: a Poss high digit z whose low digits below z
      are all False is removed by `apply`. */
  lemma HighDigitRemoved(l: (nat, nat), h: (nat, nat), n: nat, g: seq<LogicVal>, z: nat)
    requires |g| == Cube(n) && CellInRange(n, l) && CellInRange(n, h) && l != h && z < n
    requires At(n, g, CellPos(h, z)) == Poss && AllFalse(n, g, l, 0, z)
    ensures At(n, LessRun(l, h, n, g, n), CellPos(h, z)) == False
  {
    var q := CellPos(h, z);
    var before, mid := LessRun(l, h, n, g, z), LowHalf(l, h, n, g, z);
    LessRunFrame(l, h, n, g, 0, z, q);
    LessRunElims(l, h, n, g, 0, z);
    FalseStays(n, g, before, l, 0, z);
    HalvesElim(l, h, n, g, z);
    FalseStays(n, before, mid, l, 0, z);
    IndexInjective(n, q, CellPos(l, z));
    assert At(n, mid, q) == Poss;
    assert LessRun(l, h, n, g, z + 1) == HighHalf(l, h, n, g, z);
    LessRunElims(l, h, n, g, z + 1, n);
    assert LessRun(l, h, n, g, z + 1)[Index(n, q)] == False;
  }

  /** With two distinct cells: a Poss low digit z whose high digits above z
      are all False is removed by `apply`. */
  lemma LowDigitRemoved(l: (nat, nat), h: (nat, nat), n: nat, g: seq<LogicVal>, z: nat)
    requires |g| == Cube(n) && CellInRange(n, l) && CellInRange(n, h) && l != h && z < n
    requires At(n, g, CellPos(l, z)) == Poss && AllFalse(n, g, h, z + 1, n)
    ensures At(n, LessRun(l, h, n, g, n), CellPos(l, z)) == False
  {
    var q := CellPos(l, z);
    var before, mid := LessRun(l, h, n, g, z), LowHalf(l, h, n, g, z);
    LessRunFrame(l, h, n, g, 0, z, q);
    LessRunElims(l, h, n, g, 0, z);
    FalseStays(n, g, before, h, z + 1, n);
    assert At(n, mid, q) == False;
    HalvesElim(l, h, n, g, z);
    LessRunElims(l, h, n, g, z + 1, n);
    assert LessRun(l, h, n, g, z + 1)[Index(n, q)] == False;
  }

  // ----- thermo_constraint

  /** `thermo_constraint`: consecutive cells of the thermometer, each lower
      than the next. `thermo_constraint` subtracts one from the length first,
      which underflows on an empty list. */
  method Thermo(cells: seq<(nat, nat)>) returns (ret: seq<Rule>)
    requires |cells| >= 1
    ensures |ret| == |cells| - 1
    ensures forall i :: 0 <= i < |ret| ==> ret[i] == LessThan(cells[i], cells[i + 1])
  {
    ret := [];
    for i := 0 to |cells| - 1
      invariant |ret| == i
      invariant forall j :: 0 <= j < i ==> ret[j] == LessThan(cells[j], cells[j + 1])
    {
      ret := ret + [LessThan(cells[i], cells[i + 1])];
    }
  }
}
