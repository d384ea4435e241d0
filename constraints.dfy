/** The closed rule set as the puzzle sees it: one `apply` and one `affects`
    that dispatch on the kind of rule, the effect of one rule on a board,
    and the effect of one propagation pass over a list of rules
    (`solve_simple` in board.rs). */
module Constraints {
  import opened Candidates
  import opened Boards
  import opened Rules
  import opened Affects
  import opened OrderRules

  /** Every rule of the list names cells and candidates of the board. */
  predicate RulesOk(rs: seq<Rule>, n: nat) {
    forall i :: 0 <= i < |rs| ==> WellFormed(rs[i], n)
  }

  /** The board after `apply` of rule r. */
  ghost function Effect(r: Rule, n: nat, g: seq<LogicVal>): (h: seq<LogicVal>)
    requires WellFormed(r, n) && |g| == Cube(n)
    ensures |h| == Cube(n)
  {
    match r
    case Given(p) => g[Index(n, p) := True]
    case LessThan(l, hp) => LessRun(l, hp, n, g, n)
    case _ => Applied(r, n, g)
  }

  /** The flag `apply` of rule r returns: Given reports its candidate was
      Poss, every other rule reports that it changed the board. */
  ghost predicate Reported(r: Rule, n: nat, g: seq<LogicVal>)
    requires WellFormed(r, n) && |g| == Cube(n)
  {
    if r.Given? then At(n, g, r.pos) == Poss else Effect(r, n, g) != g
  }

  /** `apply`, dispatched on the kind of rule. */
  method Apply(r: Rule, b: SdkBoard) returns (did: bool)
    requires WellFormed(r, b.size) && b.Valid()
    modifies b.data
    ensures b.data[..] == Effect(r, b.size, old(b.data[..]))
    ensures did == Reported(r, b.size, old(b.data[..]))
  {
    match r
    case Given(_) =>
      did := ApplyGiven(r, b);
    case LessThan(_, _) =>
      did := ApplyLessThan(r, b);
    case Cell(_) =>
      did := ApplyCells(r, b);
    case _ =>
      did := ApplyLines(r, b);
  }

  /** `affects`, dispatched on the kind of rule: the candidates r links to p. */
  method AffectsOf(r: Rule, b: SdkBoard, p: Pos) returns (ret: seq<Pos>)
    requires WellFormed(r, b.size) && b.Valid() && InRange(b.size, p)
    ensures forall q :: q in ret <==> Reports(r, b.size, b.data[..], p, q)
  {
    match r
    case Given(_) =>
      ret := [];
    case LessThan(_, _) =>
      ret := LessThanAffects(r, b, p);
    case Cell(_) =>
      ret := CellAffects(r, b, p);
    case _ =>
      ret := LineAffects(r, b, p);
  }

  /** A rule other than Given only removes candidates, and reports exactly
      when it removed one. Given makes its candidate True and leaves the rest. */
  lemma EffectSound(r: Rule, n: nat, g: seq<LogicVal>)
    requires WellFormed(r, n) && |g| == Cube(n)
    ensures !r.Given? ==> OnlyElims(g, Effect(r, n, g))
    ensures !r.Given? ==> (Reported(r, n, g) <==> exists i :: 0 <= i < |g| && g[i] == Poss && Effect(r, n, g)[i] == False)
    ensures r.Given? ==> forall q :: InRange(n, q) ==>
      At(n, Effect(r, n, g), q) == if q == r.pos then True else At(n, g, q)
  {
    match r
    case Given(p) =>
      forall q | InRange(n, q) ensures At(n, Effect(r, n, g), q) == if q == p then True else At(n, g, q) {
        if q != p {
          IndexInjective(n, p, q);
        }
      }
    case LessThan(l, hp) =>
      LessThanOnlyElims(l, hp, n, g, Pos(0, 0, 0));
      ElimWitness(g, Effect(r, n, g));
    case _ =>
      AppliedSound(r, n, g);
      ElimWitness(g, Effect(r, n, g));
  }

  /** A LessThan rule's `affects` agrees with its `apply` once p's cell is
      settled: when p is True and every other digit of p's cell is False,
      every candidate reported for p is removed by `apply`. */
  lemma LessThanReportsRemoved(l: (nat, nat), h: (nat, nat), n: nat, g: seq<LogicVal>, p: Pos, q: Pos)
    requires |g| == Cube(n) && CellInRange(n, l) && CellInRange(n, h) && l != h && InRange(n, p)
    requires Reports(LessThan(l, h), n, g, p, q)
    requires forall z :: 0 <= z < n && z != p.z ==> At(n, g, Pos(p.x, p.y, z)) == False
    ensures At(n, Effect(LessThan(l, h), n, g[Index(n, p) := True]), q) == False
  {
    var g' := g[Index(n, p) := True];
    IndexInjective(n, p, q);
    assert At(n, g', q) == Poss;
    if (p.x, p.y) == l {
      forall z | 0 <= z < q.z ensures At(n, g', CellPos(l, z)) == False {
        IndexInjective(n, p, CellPos(l, z));
        assert At(n, g, Pos(p.x, p.y, z)) == False;
      }
      assert q == CellPos(h, q.z);
      HighDigitRemoved(l, h, n, g', q.z);
    } else {
      forall z | q.z + 1 <= z < n ensures At(n, g', CellPos(h, z)) == False {
        IndexInjective(n, p, CellPos(h, z));
        assert At(n, g, Pos(p.x, p.y, z)) == False;
      }
      assert q == CellPos(l, q.z);
      LowDigitRemoved(l, h, n, g', q.z);
    }
  }

  /** After eliminations only, the board changed iff some Poss became False. */
  lemma ElimWitness(g: seq<LogicVal>, h: seq<LogicVal>)
    requires OnlyElims(g, h)
    ensures h != g <==> exists i :: 0 <= i < |g| && g[i] == Poss && h[i] == False
  {
    if h != g {
      var i :| 0 <= i < |g| && h[i] != g[i];
    }
  }

  /** No rule creates a Poss, and a rule that reports settles a Poss, so the
      number of Poss candidates strictly drops. */
  lemma EffectDrops(r: Rule, n: nat, g: seq<LogicVal>)
    requires WellFormed(r, n) && |g| == Cube(n)
    ensures NoNewPoss(g, Effect(r, n, g))
    ensures Count(Effect(r, n, g), Poss) <= Count(g, Poss)
    ensures Reported(r, n, g) ==> Count(Effect(r, n, g), Poss) < Count(g, Poss)
  {
    var h := Effect(r, n, g);
    EffectSound(r, n, g);
    if r.Given? {
      var i := Index(n, r.pos);
      assert NoNewPoss(g, h);
      if Reported(r, n, g) {
        assert g[i] == Poss && h[i] != Poss;
      }
    }
    PossCountDrops(g, h);
  }

  /** Every Given of the list names a candidate that is not False on g: the
      condition under which no step of propagation turns False into True. */
  ghost predicate GivensNotFalse(rs: seq<Rule>, n: nat, g: seq<LogicVal>)
    requires RulesOk(rs, n) && |g| == Cube(n)
  {
    forall i :: 0 <= i < |rs| && rs[i].Given? ==> At(n, g, rs[i].pos) != False
  }

  /** Measured from a snapshot whose Givens are not False, applying any rule
      of the list keeps the board a refinement of the snapshot. */
  lemma EffectRefines(rs: seq<Rule>, n: nat, snap: seq<LogicVal>, g: seq<LogicVal>, k: nat)
    requires RulesOk(rs, n) && |snap| == Cube(n) && |g| == Cube(n) && k < |rs|
    requires GivensNotFalse(rs, n, snap) && Refines(snap, g)
    ensures Refines(snap, Effect(rs[k], n, g))
  {
    var r := rs[k];
    var h := Effect(r, n, g);
    EffectSound(r, n, g);
    if r.Given? {
      var p := r.pos;
      assert At(n, snap, p) != False;
      forall i | 0 <= i < |snap| ensures h[i] == snap[i] || snap[i] == Poss {
        if i != Index(n, p) {
          assert h[i] == g[i];
        }
      }
    }
  }

  // ----- one propagation pass

  /** The board and flag after `solve_simple` has run the rules in order. In
      eager mode every rule is applied and the flags are or-ed; in slow mode
      the rules after the first one that reports are not applied. */
  ghost function Pass(rs: seq<Rule>, n: nat, g: seq<LogicVal>, slow: bool): (res: (seq<LogicVal>, bool))
    requires RulesOk(rs, n) && |g| == Cube(n)
    ensures |res.0| == Cube(n)
    decreases |rs|
  {
    if |rs| == 0 then (g, false)
    else
      var prev := Pass(rs[..|rs| - 1], n, g, slow);
      var r := rs[|rs| - 1];
      if slow && prev.1 then prev
      else (Effect(r, n, prev.0), Reported(r, n, prev.0) || prev.1)
  }

  /** The last rule of a list and the rules before it. */
  lemma RulesSplit(rs: seq<Rule>, n: nat)
    requires RulesOk(rs, n) && |rs| > 0
    ensures RulesOk(rs[..|rs| - 1], n) && WellFormed(rs[|rs| - 1], n)
  {
  }

  /** A pass never creates a Poss, and strictly lowers the number of Poss
      candidates when it reports. */
  lemma {:induction false} PassDrops(rs: seq<Rule>, n: nat, g: seq<LogicVal>, slow: bool)
    requires RulesOk(rs, n) && |g| == Cube(n)
    ensures NoNewPoss(g, Pass(rs, n, g, slow).0)
    ensures Count(Pass(rs, n, g, slow).0, Poss) <= Count(g, Poss)
    ensures Pass(rs, n, g, slow).1 ==> Count(Pass(rs, n, g, slow).0, Poss) < Count(g, Poss)
    decreases |rs|
  {
    if |rs| > 0 {
      var init := rs[..|rs| - 1];
      var prev := Pass(init, n, g, slow);
      PassDrops(init, n, g, slow);
      if !(slow && prev.1) {
        EffectDrops(rs[|rs| - 1], n, prev.0);
        NoNewPossChain(g, prev.0, Pass(rs, n, g, slow).0);
      }
    }
  }

  lemma NoNewPossChain(a: seq<LogicVal>, b: seq<LogicVal>, c: seq<LogicVal>)
    requires NoNewPoss(a, b) && NoNewPoss(b, c)
    ensures NoNewPoss(a, c)
  {
  }

  /** Measured from a snapshot whose Givens are not False, a pass keeps the
      board a refinement of the snapshot. */
  lemma {:induction false} PassRefines(rs: seq<Rule>, n: nat, snap: seq<LogicVal>, g: seq<LogicVal>, slow: bool)
    requires RulesOk(rs, n) && |snap| == Cube(n) && |g| == Cube(n)
    requires GivensNotFalse(rs, n, snap) && Refines(snap, g)
    ensures Refines(snap, Pass(rs, n, g, slow).0)
    decreases |rs|
  {
    if |rs| > 0 {
      var init := rs[..|rs| - 1];
      GivensPrefix(rs, n, snap);
      PassRefines(init, n, snap, g, slow);
      EffectRefines(rs, n, snap, Pass(init, n, g, slow).0, |rs| - 1);
    }
  }

  /** One rule is at a fixpoint on g: applying it leaves g as it is. */
  ghost predicate Quiet(r: Rule, n: nat, g: seq<LogicVal>)
    requires WellFormed(r, n) && |g| == Cube(n)
  {
    Effect(r, n, g) == g
  }

  /** When no Given names a False candidate, a pass reports nothing exactly
      when every rule is at a fixpoint, and then the board is unchanged. */
  lemma {:induction false} PassQuiet(rs: seq<Rule>, n: nat, g: seq<LogicVal>, slow: bool)
    requires RulesOk(rs, n) && |g| == Cube(n) && GivensNotFalse(rs, n, g)
    ensures !Pass(rs, n, g, slow).1 <==> forall i :: 0 <= i < |rs| ==> Quiet(rs[i], n, g)
    ensures !Pass(rs, n, g, slow).1 ==> Pass(rs, n, g, slow).0 == g
    decreases |rs|
  {
    if |rs| > 0 {
      var init := rs[..|rs| - 1];
      var r := rs[|rs| - 1];
      GivensPrefix(rs, n, g);
      PassQuiet(init, n, g, slow);
      var prev := Pass(init, n, g, slow);
      AllQuietSplit(rs, n, g);
      if !prev.1 {
        QuietIffSilent(r, n, g);
      }
    }
  }

  lemma GivensPrefix(rs: seq<Rule>, n: nat, g: seq<LogicVal>)
    requires RulesOk(rs, n) && |g| == Cube(n) && |rs| > 0 && GivensNotFalse(rs, n, g)
    ensures RulesOk(rs[..|rs| - 1], n) && GivensNotFalse(rs[..|rs| - 1], n, g)
    ensures rs[|rs| - 1].Given? ==> At(n, g, rs[|rs| - 1].pos) != False
  {
    var init := rs[..|rs| - 1];
    forall i | 0 <= i < |init| && init[i].Given? ensures At(n, g, init[i].pos) != False {
      assert init[i] == rs[i];
    }
  }

  lemma AllQuietSplit(rs: seq<Rule>, n: nat, g: seq<LogicVal>)
    requires RulesOk(rs, n) && |g| == Cube(n) && |rs| > 0
    ensures RulesOk(rs[..|rs| - 1], n)
    ensures var init := rs[..|rs| - 1];
      (forall i :: 0 <= i < |rs| ==> Quiet(rs[i], n, g)) <==>
      (forall i :: 0 <= i < |init| ==> Quiet(init[i], n, g)) && Quiet(rs[|rs| - 1], n, g)
  {
  }

  /** For one rule whose Given (if it is one) is not False: the rule reports
      iff it is not at a fixpoint. */
  lemma QuietIffSilent(r: Rule, n: nat, g: seq<LogicVal>)
    requires WellFormed(r, n) && |g| == Cube(n)
    requires r.Given? ==> At(n, g, r.pos) != False
    ensures Reported(r, n, g) <==> !Quiet(r, n, g)
  {
    if r.Given? {
      var i := Index(n, r.pos);
      if Quiet(r, n, g) {
        assert g[i] == Effect(r, n, g)[i] == True;
      }
    }
  }

  /** In slow mode, once a prefix of the rules has reported, the remaining
      rules are not applied. */
  lemma {:induction false} SlowStops(rs: seq<Rule>, n: nat, g: seq<LogicVal>, k: nat)
    requires RulesOk(rs, n) && |g| == Cube(n) && k <= |rs|
    requires Pass(rs[..k], n, g, true).1
    ensures Pass(rs, n, g, true) == Pass(rs[..k], n, g, true)
    decreases |rs|
  {
    if k < |rs| {
      var init := rs[..|rs| - 1];
      assert init[..k] == rs[..k];
      SlowStops(init, n, g, k);
    } else {
      assert rs[..k] == rs;
    }
  }

  /** The slow and the eager pass report the same; until something is
      reported they have applied the same rules to the same board. */
  lemma {:induction false} SlowEagerAgree(rs: seq<Rule>, n: nat, g: seq<LogicVal>)
    requires RulesOk(rs, n) && |g| == Cube(n)
    ensures Pass(rs, n, g, true).1 == Pass(rs, n, g, false).1
    ensures !Pass(rs, n, g, true).1 ==> Pass(rs, n, g, true).0 == Pass(rs, n, g, false).0
    decreases |rs|
  {
    if |rs| > 0 {
      SlowEagerAgree(rs[..|rs| - 1], n, g);
    }
  }
}
