/** What one call of `solve`, `rem_odd_loops` and `find_odd_loops`
    (board.rs) achieves, stated over board contents, and the facts the hint
    loops rely on: each reported step removes a possibility, and measured
    from the board a hint starts on, every step only refines it. */
module Solving {
  import opened Wrappers
  import opened Candidates
  import opened Rules
  import opened Affects
  import opened Constraints
  import opened LinkGraphs
  import opened ChainSearch
  import opened OddLoops

  /** The number of search steps allowed to each start: the `max` argument,
      20 when it is absent, plus one (`min` starts at `m + 1`). */
  function Budget(max: Option<nat>): (M: nat)
  {
    (if max.None? then 20 else max.value) + 1
  }

  /** The strong-link graph of `graph_strong`. */
  ghost function StrongGraph(rs: seq<Rule>, n: nat, g: seq<LogicVal>): Graph
    requires |g| == Cube(n)
  {
    StrongOf(WeakGraph(rs, n, g))
  }

  /** The step at which the search from candidate s closes an odd loop, if
      it does within M steps. */
  ghost function Closure(rs: seq<Rule>, n: nat, g: seq<LogicVal>, s: Pos, M: nat): Option<nat>
    requires |g| == Cube(n)
  {
    FirstClosure(WeakGraph(rs, n, g), StrongGraph(rs, n, g), s, M)
  }

  /** `succ` tells whether any Poss candidate (the nodes of the weak graph)
      starts a loop closing within M steps, and `min` is the earliest
      closing step over all of them (M when there is none). */
  ghost predicate LeastClosure(rs: seq<Rule>, n: nat, g: seq<LogicVal>, M: nat, succ: bool, min: nat)
    requires |g| == Cube(n)
  {
    Earliest(WeakGraph(rs, n, g), StrongGraph(rs, n, g), M, succ, min)
  }

  /** The outcome of `rem_odd_loops`: when a loop closes, exactly one start
      whose loop closes earliest is set False, and nothing else changes. */
  ghost predicate Eliminates(rs: seq<Rule>, n: nat, g: seq<LogicVal>, M: nat, succ: bool, min: nat, h: seq<LogicVal>)
    requires |g| == Cube(n)
  {
    LeastClosure(rs, n, g, M, succ, min) &&
    (succ ==> exists s :: s in PossSet(n, g) && Closure(rs, n, g, s, M) == Some(min) && h == g[Index(n, s) := False]) &&
    (!succ ==> h == g)
  }

  /** An elimination only turns one Poss into False: it refines the board,
      and a successful one lowers the number of Poss candidates. */
  lemma EliminatesDrops(rs: seq<Rule>, n: nat, g: seq<LogicVal>, M: nat, succ: bool, min: nat, h: seq<LogicVal>)
    requires |g| == Cube(n) && Eliminates(rs, n, g, M, succ, min, h)
    ensures |h| == Cube(n) && Refines(g, h) && NoNewPoss(g, h)
    ensures succ ==> Count(h, Poss) < Count(g, Poss)
  {
    if succ {
      var s :| s in PossSet(n, g) && Closure(rs, n, g, s, M) == Some(min) && h == g[Index(n, s) := False];
      assert g[Index(n, s)] == Poss && h[Index(n, s)] == False;
      PossCountDrops(g, h);
    }
  }

  /** The scan over all starts, followed by setting False the start it
      recorded last, is an elimination. */
  lemma ScanEliminates<T>(rs: seq<Rule>, n: nat, g: seq<LogicVal>, W: Graph, S: Graph, M: nat, succ: bool, min: nat,
                          toRem: seq<(nat, Pos, T)>, h: seq<LogicVal>)
    requires |g| == Cube(n) && W == WeakGraph(rs, n, g) && S == StrongGraph(rs, n, g) && W.Keys == PossSet(n, g)
    requires Earliest(W, S, M, succ, min) && Scanned(W, S, M, {}, succ, min, toRem)
    requires h == if |toRem| > 0 then g[Index(n, toRem[|toRem| - 1].1) := False] else g
    ensures Eliminates(rs, n, g, M, succ, min, h)
  {
    if succ {
      var s := toRem[|toRem| - 1].1;
      assert s in PossSet(n, g) && Closure(rs, n, g, s, M) == Some(min);
    }
  }

  /** The scan of `find_odd_loops`, followed by keeping the loop it recorded
      last: at most one loop, present exactly when some start closes, and
      closing at the earliest step. */
  lemma ScanFindsLoop(rs: seq<Rule>, n: nat, g: seq<LogicVal>, W: Graph, S: Graph, M: nat, succ: bool, min: nat,
                      toRem: seq<(nat, Pos, seq<Pos>)>, paths: seq<seq<Pos>>)
    requires |g| == Cube(n) && W == WeakGraph(rs, n, g) && S == StrongGraph(rs, n, g)
    requires Earliest(W, S, M, succ, min) && Scanned(W, S, M, {}, succ, min, toRem)
    requires forall j :: 0 <= j < |toRem| ==> OddLoop(W, S, toRem[j].1, toRem[j].0, toRem[j].2)
    requires paths == if |toRem| > 0 then [toRem[|toRem| - 1].2] else []
    ensures |paths| <= 1 && LeastClosure(rs, n, g, M, |paths| == 1, min)
    ensures |paths| == 1 ==> exists s :: s in W && FirstClosure(W, S, s, M) == Some(min) && OddLoop(W, S, s, min, paths[0])
  {
    if succ {
      var last := toRem[|toRem| - 1];
      assert OddLoop(W, S, last.1, last.0, last.2);
    }
  }

  /** The outcome of one `solve(slow)`: a pass over the rules; if it
      reported nothing and the board is not full, `rem_odd_loops(None, slow)`
      on the board the pass left. */
  ghost predicate SolveStep(rs: seq<Rule>, n: nat, g: seq<LogicVal>, slow: bool, h: seq<LogicVal>, did: bool)
    requires RulesOk(rs, n) && |g| == Cube(n)
  {
    var P := Pass(rs, n, g, slow);
    if P.1 then h == P.0 && did
    else if Count(P.0, True) == n * n then h == P.0 && !did
    else exists min :: Eliminates(rs, n, P.0, Budget(None), did, min, h)
  }

  /** A `solve` never creates a Poss and, when it reports progress, removes
      at least one. */
  lemma SolveStepDrops(rs: seq<Rule>, n: nat, g: seq<LogicVal>, slow: bool, h: seq<LogicVal>, did: bool)
    requires RulesOk(rs, n) && |g| == Cube(n) && SolveStep(rs, n, g, slow, h, did)
    ensures |h| == Cube(n) && NoNewPoss(g, h)
    ensures did ==> Count(h, Poss) < Count(g, Poss)
  {
    var P := Pass(rs, n, g, slow);
    PassDrops(rs, n, g, slow);
    if !P.1 && Count(P.0, True) != n * n {
      var min :| Eliminates(rs, n, P.0, Budget(None), did, min, h);
      EliminatesDrops(rs, n, P.0, Budget(None), did, min, h);
      NoNewPossChain(g, P.0, h);
    }
  }

  /** Refinement composes. */
  lemma RefinesChain(a: seq<LogicVal>, b: seq<LogicVal>, c: seq<LogicVal>)
    requires Refines(a, b) && Refines(b, c)
    ensures Refines(a, c)
  {
  }

  /** Measured from a snapshot whose Givens are not False, every `solve`
      keeps the board a refinement of the snapshot. */
  lemma SolveStepRefines(rs: seq<Rule>, n: nat, snap: seq<LogicVal>, g: seq<LogicVal>, slow: bool, h: seq<LogicVal>, did: bool)
    requires RulesOk(rs, n) && |snap| == Cube(n) && |g| == Cube(n)
    requires GivensNotFalse(rs, n, snap) && Refines(snap, g) && SolveStep(rs, n, g, slow, h, did)
    ensures Refines(snap, h)
  {
    var P := Pass(rs, n, g, slow);
    PassRefines(rs, n, snap, g, slow);
    if !P.1 && Count(P.0, True) != n * n {
      var min :| Eliminates(rs, n, P.0, Budget(None), did, min, h);
      EliminatesDrops(rs, n, P.0, Budget(None), did, min, h);
      RefinesChain(snap, P.0, h);
    }
  }

  /** A settled candidate (True or False) has no weak links. */
  lemma WeaksOfSettled(rs: seq<Rule>, n: nat, g: seq<LogicVal>, p: Pos)
    requires |g| == Cube(n) && InRange(n, p) && At(n, g, p) != Poss
    ensures Weaks(rs, n, g, p) == {}
  {
    forall q | InRange(n, q) ensures !Linked(rs, n, g, p, q) {
      forall i | 0 <= i < |rs| ensures !Reports(rs[i], n, g, p, q) { }
    }
  }

  // ----- runs of solving steps, as the hint loops perform them

  /** trace[j + 1] is the board one `solve(true)` left on trace[j], and that
      call reported progress. */
  ghost predicate Advances(rs: seq<Rule>, n: nat, trace: seq<seq<LogicVal>>, j: nat)
    requires RulesOk(rs, n) && j + 1 < |trace| && |trace[j]| == Cube(n)
  {
    SolveStep(rs, n, trace[j], true, trace[j + 1], true)
  }

  /** A run of successful `solve(true)` calls. */
  ghost predicate SolveRun(rs: seq<Rule>, n: nat, trace: seq<seq<LogicVal>>)
    requires RulesOk(rs, n)
  {
    |trace| >= 1 && (forall j :: 0 <= j < |trace| ==> |trace[j]| == Cube(n)) &&
    forall j :: 0 <= j < |trace| - 1 ==> Advances(rs, n, trace, j)
  }

  /** trace[j + 1] is the board one `solve_simple(false)` left on trace[j],
      and that pass reported progress. */
  ghost predicate PassAdvances(rs: seq<Rule>, n: nat, trace: seq<seq<LogicVal>>, j: nat)
    requires RulesOk(rs, n) && j + 1 < |trace| && |trace[j]| == Cube(n)
  {
    Pass(rs, n, trace[j], false) == (trace[j + 1], true)
  }

  /** A run of reporting `solve_simple(false)` passes. */
  ghost predicate PassRun(rs: seq<Rule>, n: nat, trace: seq<seq<LogicVal>>)
    requires RulesOk(rs, n)
  {
    |trace| >= 1 && (forall j :: 0 <= j < |trace| ==> |trace[j]| == Cube(n)) &&
    forall j :: 0 <= j < |trace| - 1 ==> PassAdvances(rs, n, trace, j)
  }

  /** One more successful `solve(true)` extends a run. */
  lemma SolveRunExtend(rs: seq<Rule>, n: nat, trace: seq<seq<LogicVal>>, h: seq<LogicVal>)
    requires RulesOk(rs, n) && SolveRun(rs, n, trace)
    requires SolveStep(rs, n, trace[|trace| - 1], true, h, true)
    ensures SolveRun(rs, n, trace + [h])
  {
    var t := trace + [h];
    SolveStepDrops(rs, n, trace[|trace| - 1], true, h, true);
    forall j | 0 <= j < |trace| - 1 ensures Advances(rs, n, t, j) {
      AdvancesMoved(rs, n, trace, t, j, j);
    }
    AdvancesLast(rs, n, trace, h);
    RunOfSteps(rs, n, trace, h);
  }

  /** A step of one run is a step of another that holds the same boards. */
  lemma AdvancesMoved(rs: seq<Rule>, n: nat, trace: seq<seq<LogicVal>>, t: seq<seq<LogicVal>>, j: nat, k: nat)
    requires RulesOk(rs, n) && j + 1 < |trace| && k + 1 < |t| && |trace[j]| == Cube(n)
    requires trace[j] == t[k] && trace[j + 1] == t[k + 1] && Advances(rs, n, trace, j)
    ensures Advances(rs, n, t, k)
  {
  }

  /** The appended step of an extended run. */
  lemma AdvancesLast(rs: seq<Rule>, n: nat, trace: seq<seq<LogicVal>>, h: seq<LogicVal>)
    requires RulesOk(rs, n) && |trace| >= 1 && |trace[|trace| - 1]| == Cube(n)
    requires SolveStep(rs, n, trace[|trace| - 1], true, h, true)
    ensures Advances(rs, n, trace + [h], |trace| - 1)
  {
    var t := trace + [h];
    assert t[|trace| - 1] == trace[|trace| - 1] && t[|trace|] == h;
  }

  /** The steps of an extended run make it a run. */
  lemma RunOfSteps(rs: seq<Rule>, n: nat, trace: seq<seq<LogicVal>>, h: seq<LogicVal>)
    requires RulesOk(rs, n) && |trace| >= 1 && |h| == Cube(n)
    requires forall j :: 0 <= j < |trace| ==> |trace[j]| == Cube(n)
    requires forall j :: 0 <= j < |trace| - 1 ==> Advances(rs, n, trace + [h], j)
    requires Advances(rs, n, trace + [h], |trace| - 1)
    ensures SolveRun(rs, n, trace + [h])
  {
  }

  /** One more reporting `solve_simple(false)` extends a run. */
  lemma PassRunExtend(rs: seq<Rule>, n: nat, trace: seq<seq<LogicVal>>, h: seq<LogicVal>)
    requires RulesOk(rs, n) && PassRun(rs, n, trace)
    requires Pass(rs, n, trace[|trace| - 1], false) == (h, true)
    ensures PassRun(rs, n, trace + [h])
  {
    var t := trace + [h];
    forall j | 0 <= j < |t| - 1 ensures PassAdvances(rs, n, t, j) {
      if j < |trace| - 1 {
        assert t[j] == trace[j] && t[j + 1] == trace[j + 1];
        assert PassAdvances(rs, n, trace, j);
      } else {
        assert t[j] == trace[|trace| - 1] && t[j + 1] == h;
      }
    }
  }

  /** p was Poss on board g and is True on board h. */
  ghost predicate NewlyTrue(n: nat, g: seq<LogicVal>, h: seq<LogicVal>, p: Pos)
    requires |g| == Cube(n) && |h| == Cube(n)
  {
    InRange(n, p) && At(n, h, p) == True && At(n, g, p) == Poss
  }

  /** Under refinement, a change in the number of True candidates shows a
      newly True one. */
  lemma NewlyTrueExists(n: nat, g: seq<LogicVal>, h: seq<LogicVal>)
    requires |g| == Cube(n) && |h| == Cube(n) && Refines(g, h)
    requires Count(g, True) != Count(h, True)
    ensures exists p :: NewlyTrue(n, g, h, p)
  {
    NewTrueExists(g, h);
    var i :| 0 <= i < |g| && g[i] == Poss && h[i] == True;
    IndexDecode(n, i);
    assert NewlyTrue(n, g, h, Decode(n, i));
  }
}
