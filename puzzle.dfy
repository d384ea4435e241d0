/** The `Puzzle` of board.rs over the 3D candidate board: a board, the list
    of rules, and the solving passes, link graphs, odd-loop searches and
    hints that work on them. */
module Puzzles {
  import opened Wrappers
  import opened Candidates
  import opened Boards
  import opened Rules
  import opened Affects
  import opened Constraints
  import opened LinkGraphs
  import opened ChainSearch
  import opened OddLoops
  import opened Solving

  /** The loop over starts of `rem_odd_loops` on the graphs of board g: the
      recorded starts, whose last entry is the one to set False. */
  method ScanRemovals(ghost rs: seq<Rule>, ghost n: nat, ghost g: seq<LogicVal>, W: Graph, S: Graph, M: nat)
    returns (succ: bool, min: nat, toRem: seq<(nat, Pos, ())>)
    requires |g| == Cube(n) && W == WeakGraph(rs, n, g) && S == StrongGraph(rs, n, g)
    requires GraphsOk(W, S) && W.Keys == PossSet(n, g)
    ensures forall j :: 0 <= j < |toRem| ==> InRange(n, toRem[j].1)
    ensures forall j :: 0 <= j < |toRem| - 1 ==> toRem[j].0 > min
    ensures |toRem| > 0 ==> toRem[|toRem| - 1].0 == min
    ensures Eliminates(rs, n, g, M, succ, min, if |toRem| > 0 then g[Index(n, toRem[|toRem| - 1].1) := False] else g)
  {
    succ, min, toRem := ScanStarts(W, S, M);
    forall j | 0 <= j < |toRem| ensures InRange(n, toRem[j].1) {
      assert toRem[j].1 in W;
    }
    ScanEliminates(rs, n, g, W, S, M, succ, min, toRem, if |toRem| > 0 then g[Index(n, toRem[|toRem| - 1].1) := False] else g);
  }

  /** p is the first candidate, in `positions` order, that is True on h and
      was Poss on g. */
  ghost predicate FirstNewlyTrue(n: nat, g: seq<LogicVal>, h: seq<LogicVal>, p: Pos)
    requires |g| == Cube(n) && |h| == Cube(n)
  {
    NewlyTrue(n, g, h, p) &&
    forall q :: InRange(n, q) && Index(n, q) < Index(n, p) ==> !NewlyTrue(n, g, h, q)
  }

  /** The `for v in T::positions()` loop of both hints: the first candidate
      that is True on board b (whose contents are h) and Poss on the backup
      (whose contents are g). */
  method FindNewlyTrue(b: SdkBoard, backup: SdkBoard, ghost g: seq<LogicVal>, ghost h: seq<LogicVal>) returns (r: Option<Pos>)
    requires b.Valid() && backup.Valid() && backup.size == b.size
    requires g == backup.data[..] && h == b.data[..]
    ensures r.None? <==> forall p :: !NewlyTrue(b.size, g, h, p)
    ensures r.Some? ==> FirstNewlyTrue(b.size, g, h, r.value)
  {
    var n := b.size;
    var ps := Positions(n);
    for k := 0 to |ps|
      invariant forall i :: 0 <= i < k ==> !(h[i] == True && g[i] == Poss)
    {
      var pos := ps[k];
      IndexDecode(n, k);
      if b.Get(pos) == True && backup.Get(pos) == Poss {
        NoneBefore(n, g, h, k);
        assert NewlyTrue(n, g, h, pos);
        return Some(pos);
      }
    }
    NoneBefore(n, g, h, |ps|);
    return None;
  }

  /** No slot below k is newly True, so no candidate there is. */
  lemma NoneBefore(n: nat, g: seq<LogicVal>, h: seq<LogicVal>, k: nat)
    requires |g| == Cube(n) && |h| == Cube(n) && k <= Cube(n)
    requires forall i :: 0 <= i < k ==> !(h[i] == True && g[i] == Poss)
    ensures forall q :: InRange(n, q) && Index(n, q) < k ==> !NewlyTrue(n, g, h, q)
    ensures k == Cube(n) ==> forall q :: !NewlyTrue(n, g, h, q)
  {
  }

  /** The `filter` of `strong_hint`: the recorded paths that contain one of
      the weak links ws, in their order. */
  method MatchPaths(cycles: seq<seq<Pos>>, ws: set<Pos>) returns (matched: seq<seq<Pos>>)
    ensures |matched| <= |cycles| && (ws == {} ==> matched == [])
    ensures forall c :: c in matched <==> c in cycles && exists b :: b in c && b in ws
  {
    matched := [];
    for k := 0 to |cycles|
      invariant |matched| <= k && (ws == {} ==> matched == [])
      invariant forall c :: c in matched <==> c in cycles[..k] && exists b :: b in c && b in ws
    {
      var c := cycles[k];
      assert cycles[..k + 1] == cycles[..k] + [c];
      var hit := false;
      for j := 0 to |c|
        invariant hit <==> exists i :: 0 <= i < j && c[i] in ws
      {
        if c[j] in ws {
          hit := true;
        }
      }
      if hit {
        matched := matched + [c];
      }
    }
    assert cycles[..|cycles|] == cycles;
  }

  /** The last loop of `strong_hint`: the distinct cells of each matched
      path, path after path. */
  method CellsOf(matched: seq<seq<Pos>>) returns (ret: seq<Pos>)
    ensures forall c :: c in ret <==> exists j :: 0 <= j < |matched| && c in matched[j]
    ensures matched == [] ==> ret == []
  {
    ret := [];
    for k := 0 to |matched|
      invariant forall c :: c in ret <==> exists j :: 0 <= j < k && c in matched[j]
      invariant k == 0 ==> ret == []
    {
      var pathR := set c | c in matched[k];
      var rest := pathR;
      ghost var before := ret;
      while rest != {}
        invariant rest <= pathR
        invariant forall c :: c in ret <==> c in before || c in pathR - rest
        decreases rest
      {
        var cell :| cell in rest;
        ret := ret + [cell];
        rest := rest - {cell};
      }
    }
  }

  class Puzzle {
    var board: SdkBoard
    var constraints: seq<Rule>

    ghost predicate Valid()
      reads this, board
    {
      board.Valid() && RulesOk(constraints, board.size)
    }

    /** `init`: an all-Poss board of the given size and no rules. */
    constructor Init(n: nat)
      ensures Valid() && board.size == n && constraints == [] && fresh(board) && fresh(board.data)
      ensures forall p :: InRange(n, p) ==> board.Get(p) == Poss
    {
      board := new SdkBoard(n);
      constraints := [];
    }

    /** `solve_simple`: apply every rule in order (in slow mode, none after
        the first one that reports). */
    method SolveSimple(slow: bool) returns (did: bool)
      requires Valid()
      modifies board.data
      ensures (board.data[..], did) == Pass(constraints, board.size, old(board.data[..]), slow)
    {
      ghost var g := board.data[..];
      did := false;
      for k := 0 to |constraints|
        invariant RulesOk(constraints[..k], board.size)
        invariant (board.data[..], did) == Pass(constraints[..k], board.size, g, slow)
      {
        assert constraints[..k + 1][..k] == constraints[..k];
        if !slow {
          var d := Apply(constraints[k], board);
          did := d || did;
        } else if !did {
          did := Apply(constraints[k], board);
        }
      }
      assert constraints[..|constraints|] == constraints;
    }

    /** `solve`: a pass; if it reports nothing and the board is not full,
        the odd-loop elimination. */
    method Solve(slow: bool) returns (did: bool)
      requires Valid()
      modifies board.data
      ensures SolveStep(constraints, board.size, old(board.data[..]), slow, board.data[..], did)
    {
      did := SolveSimple(slow);
      if did {
        return;
      }
      var num := board.NumSolved();
      if num == board.MaxSolved() {
        return false;
      }
      var min;
      did, min := RemOddLoops(None, slow);
    }

    /** `get_weaks`: the candidates any rule reports as weakly linked to pos. */
    method GetWeaks(pos: Pos) returns (ret: set<Pos>)
      requires Valid() && InRange(board.size, pos)
      ensures ret == Weaks(constraints, board.size, board.data[..], pos)
    {
      ret := {};
      for k := 0 to |constraints|
        invariant forall q :: q in ret <==> exists i :: 0 <= i < k && Reports(constraints[i], board.size, board.data[..], pos, q)
      {
        var temp := AffectsOf(constraints[k], board, pos);
        ret := ret + set q | q in temp;
      }
    }

    /** `graph`: a node per Poss candidate, added in `positions` order, each
        joined to the earlier nodes among its weak links. */
    method GraphWeak() returns (G: Graph)
      requires Valid()
      ensures G == WeakGraph(constraints, board.size, board.data[..])
    {
      var n := board.size;
      ghost var g := board.data[..];
      var ps := Positions(n);
      G := map[];
      assert PartialWeak(constraints, n, g, 0) == map[];
      for k := 0 to |ps|
        invariant G == PartialWeak(constraints, n, g, k)
      {
        var pos := ps[k];
        IndexDecode(n, k);
        PartialStep(constraints, n, g, pos);
        if board.Get(pos) == Poss {
          var ws := GetWeaks(pos);
          G := AddNode(G, pos, ws);
        }
      }
    }

    /** `graph_strong`: the weak graph without the edges that lie on a
        triangle. */
    method GraphStrong() returns (G: Graph)
      requires Valid()
      ensures G == StrongGraph(constraints, board.size, board.data[..])
    {
      var wg := GraphWeak();
      WeakGraphShape(constraints, board.size, board.data[..]);
      var toRem := CollectTriangles(wg);
      assert forall k :: 0 <= k < |toRem| ==> toRem[k] in toRem;
      G := RemoveEdges(wg, toRem);
      WithoutTriangles(wg, toRem);
    }

    /** Both graphs of the current board, with the facts the searches need. */
    method Graphs() returns (wg: Graph, sg: Graph)
      requires Valid()
      ensures wg == WeakGraph(constraints, board.size, board.data[..])
      ensures sg == StrongGraph(constraints, board.size, board.data[..])
      ensures GraphsOk(wg, sg) && wg.Keys == PossSet(board.size, board.data[..])
    {
      wg := GraphWeak();
      sg := GraphStrong();
      WeakGraphShape(constraints, board.size, board.data[..]);
      StrongShape(wg);
    }

    /** `rem_odd_loops`: search from every Poss candidate and set False the
        one start whose odd loop closes earliest. The outcome is the same
        whether or not `slow` is set. */
    method RemOddLoops(max: Option<nat>, slow: bool) returns (succ: bool, min: nat)
      requires Valid()
      modifies board.data
      ensures Eliminates(constraints, board.size, old(board.data[..]), Budget(max), succ, min, board.data[..])
    {
      ghost var g := board.data[..];
      var m := if max.None? then 20 else max.value;
      var wg, sg := Graphs();
      assert board.data[..] == g;
      var toRem;
      succ, min, toRem := ScanRemovals(constraints, board.size, g, wg, sg, m + 1);
      RemoveEarliest(toRem, min, slow);
      assert Budget(max) == m + 1;
    }

    /** The last loop of `rem_odd_loops`: set False each recorded start whose
        step is at most `min` (only the last one is), stopping after the
        first when `slow` is set. */
    method RemoveEarliest<T>(toRem: seq<(nat, Pos, T)>, min: nat, slow: bool)
      requires Valid()
      requires forall j :: 0 <= j < |toRem| ==> InRange(board.size, toRem[j].1)
      requires forall j :: 0 <= j < |toRem| - 1 ==> toRem[j].0 > min
      requires |toRem| > 0 ==> toRem[|toRem| - 1].0 == min
      modifies board.data
      ensures board.data[..] ==
        if |toRem| > 0 then old(board.data[..])[Index(board.size, toRem[|toRem| - 1].1) := False] else old(board.data[..])
    {
      ghost var g := board.data[..];
      for k := 0 to |toRem|
        invariant board.data[..] == if k == |toRem| && k > 0 then g[Index(board.size, toRem[k - 1].1) := False] else g
      {
        var (i, pos, _) := toRem[k];
        if i <= min {
          board.Set(pos, False);
          if slow {
            return;
          }
        }
      }
    }

    /** `find_odd_loops`: the same search, keeping parent pointers; returns
        the earliest closing step and the odd loop that closes there, if
        any. */
    method FindOddLoops(max: Option<nat>, slow: bool) returns (min: nat, paths: seq<seq<Pos>>)
      requires Valid()
      ensures |paths| <= 1
      ensures LeastClosure(constraints, board.size, board.data[..], Budget(max), |paths| == 1, min)
      ensures |paths| == 1 ==>
        var W, S := WeakGraph(constraints, board.size, board.data[..]), StrongGraph(constraints, board.size, board.data[..]);
        exists s :: s in W && FirstClosure(W, S, s, Budget(max)) == Some(min) && OddLoop(W, S, s, min, paths[0])
    {
      ghost var g := board.data[..];
      var m := if max.None? then 20 else max.value;
      var wg, sg := Graphs();
      assert board.data[..] == g;
      var succ, toRem;
      succ, min, toRem := ScanPaths(wg, sg, m + 1);
      paths := SelectPaths(toRem, min, slow);
      ScanFindsLoop(constraints, board.size, g, wg, sg, m + 1, succ, min, toRem, paths);
      assert Budget(max) == m + 1;
    }

    /** `weak_hint`: run `solve(true)` until a candidate becomes True, report
        the first such candidate, and restore the board. */
    method WeakHint() returns (v: Option<Pos>, ghost trace: seq<seq<LogicVal>>, ghost stall: seq<LogicVal>)
      requires Valid() && GivensNotFalse(constraints, board.size, board.data[..])
      modifies this, board.data
      ensures Valid() && board.size == old(board.size) && constraints == old(constraints)
      ensures board.data[..] == old(board.data[..])
      ensures SolveRun(constraints, board.size, trace) && trace[0] == old(board.data[..])
      ensures forall j :: 0 <= j < |trace| - 1 ==> Count(trace[j], True) == Count(trace[0], True)
      ensures v.Some? ==> FirstNewlyTrue(board.size, trace[0], trace[|trace| - 1], v.value)
      ensures v.None? ==> Count(trace[|trace| - 1], True) == Count(trace[0], True) &&
                          SolveStep(constraints, board.size, trace[|trace| - 1], true, stall, false)
    {
      var backup := board.Clone();
      var start := board.NumSolved();
      ghost var g0 := board.data[..];
      var did;
      did, trace, stall := SolveUntilFilled(start);
      if !did {
        board := backup;
        return None, trace, stall;
      }
      ghost var h := board.data[..];
      NewlyTrueExists(board.size, g0, h);
      var found := FindNewlyTrue(board, backup, g0, h);
      board := backup;
      if found.None? {
        // "Cell filled, but not found." cannot happen
        assert false;
      }
      return found, trace, stall;
    }

    /** The `while` loop of `weak_hint`: `solve(true)` while the number of
        True candidates is still `start`; false as soon as a call reports
        nothing. */
    method SolveUntilFilled(start: nat) returns (did: bool, ghost trace: seq<seq<LogicVal>>, ghost stall: seq<LogicVal>)
      requires Valid() && GivensNotFalse(constraints, board.size, board.data[..])
      requires start == Count(board.data[..], True)
      modifies board.data
      ensures SolveRun(constraints, board.size, trace) && trace[0] == old(board.data[..])
      ensures forall j :: 0 <= j < |trace| - 1 ==> Count(trace[j], True) == start
      ensures did ==> trace[|trace| - 1] == board.data[..] && Count(board.data[..], True) != start
      ensures did ==> Refines(old(board.data[..]), board.data[..])
      ensures !did ==> Count(trace[|trace| - 1], True) == start &&
                       SolveStep(constraints, board.size, trace[|trace| - 1], true, stall, false)
    {
      ghost var n, g0 := board.size, board.data[..];
      trace := [g0];
      stall := g0;
      var num := start;
      while num == start
        invariant SolveRun(constraints, n, trace) && trace[0] == g0 && trace[|trace| - 1] == board.data[..]
        invariant forall j :: 0 <= j < |trace| - 1 ==> Count(trace[j], True) == start
        invariant num == Count(board.data[..], True)
        invariant Refines(g0, board.data[..])
        decreases Count(board.data[..], Poss)
      {
        ghost var before := board.data[..];
        did := Solve(true);
        SolveStepDrops(constraints, n, before, true, board.data[..], did);
        if !did {
          return false, trace, board.data[..];
        }
        SolveStepRefines(constraints, n, g0, before, true, board.data[..], did);
        SolveRunExtend(constraints, n, trace, board.data[..]);
        trace := trace + [board.data[..]];
        num := board.NumSolved();
      }
      did := true;
    }

    /** `strong_hint`: run `solve_simple(false)` until a candidate becomes
        True and report it; otherwise alternate odd-loop searches with
        `solve(true)`. The chain branch looks up the weak links of a
        candidate that is already True, so it always answers with no cells. */
    method StrongHint() returns (ret: seq<Pos>, ghost trace: seq<seq<LogicVal>>, ghost settled: seq<LogicVal>)
      requires Valid() && GivensNotFalse(constraints, board.size, board.data[..])
      modifies this, board.data
      ensures Valid() && board.size == old(board.size) && constraints == old(constraints)
      ensures board.data[..] == old(board.data[..])
      ensures PassRun(constraints, board.size, trace) && trace[0] == old(board.data[..])
      ensures |settled| == Cube(board.size) && Refines(trace[0], settled)
      ensures forall j :: 0 <= j < |trace| - 1 ==> Count(trace[j], True) == Count(trace[0], True)
      ensures (settled == trace[|trace| - 1] && Count(settled, True) != Count(trace[0], True)) ||
              (Count(trace[|trace| - 1], True) == Count(trace[0], True) &&
               Pass(constraints, board.size, trace[|trace| - 1], false) == (settled, false))
      ensures |ret| <= 1
      ensures |ret| == 1 <==> exists p :: NewlyTrue(board.size, trace[0], settled, p)
      ensures |ret| == 1 ==> FirstNewlyTrue(board.size, trace[0], settled, ret[0])
    {
      var backup := board.Clone();
      var start := board.NumSolved();
      ghost var g0 := board.data[..];
      trace, settled := PassUntilFilled(start);
      var found := FindNewlyTrue(board, backup, g0, settled);
      if found.Some? {
        board := backup;
        return [found.value], trace, settled;
      }
      ret := ChainHint(backup, start);
      board := backup;
    }

    /** The first `while` loop of `strong_hint`: `solve_simple(false)` while
        the number of True candidates is still `start`, until a pass reports
        nothing. */
    method PassUntilFilled(start: nat) returns (ghost trace: seq<seq<LogicVal>>, ghost settled: seq<LogicVal>)
      requires Valid() && GivensNotFalse(constraints, board.size, board.data[..])
      requires start == Count(board.data[..], True)
      modifies board.data
      ensures PassRun(constraints, board.size, trace) && trace[0] == old(board.data[..])
      ensures settled == board.data[..] && Refines(old(board.data[..]), settled)
      ensures forall j :: 0 <= j < |trace| - 1 ==> Count(trace[j], True) == start
      ensures (settled == trace[|trace| - 1] && Count(settled, True) != start) ||
              (Count(trace[|trace| - 1], True) == start && Pass(constraints, board.size, trace[|trace| - 1], false) == (settled, false))
    {
      ghost var n, g0 := board.size, board.data[..];
      trace := [g0];
      var num := start;
      while num == start
        invariant PassRun(constraints, n, trace) && trace[0] == g0 && trace[|trace| - 1] == board.data[..]
        invariant forall j :: 0 <= j < |trace| - 1 ==> Count(trace[j], True) == start
        invariant num == Count(board.data[..], True)
        invariant Refines(g0, board.data[..])
        decreases Count(board.data[..], Poss)
      {
        ghost var before := board.data[..];
        var did := SolveSimple(false);
        PassDrops(constraints, n, before, false);
        PassRefines(constraints, n, g0, before, false);
        if !did {
          return trace, board.data[..];
        }
        PassRunExtend(constraints, n, trace, board.data[..]);
        trace := trace + [board.data[..]];
        num := board.NumSolved();
      }
      settled := board.data[..];
    }

    /** The chain branch of `strong_hint`, from the board the passes left:
        collect odd loops and `solve(true)` until a candidate becomes True,
        then report the cells of the loops through its weak links. */
    method ChainHint(backup: SdkBoard, start: nat) returns (ret: seq<Pos>)
      requires Valid() && backup.Valid() && backup.size == board.size && backup.data != board.data
      requires GivensNotFalse(constraints, board.size, backup.data[..]) && Refines(backup.data[..], board.data[..])
      requires start == Count(backup.data[..], True)
      modifies board.data
      ensures ret == []
    {
      ghost var n, g0 := board.size, backup.data[..];
      var cycles: seq<seq<Pos>> := [];
      var num := board.NumSolved();
      while num == start
        invariant backup.data[..] == g0
        invariant num == Count(board.data[..], True) && Refines(g0, board.data[..])
        decreases Count(board.data[..], Poss)
      {
        var l, paths := FindOddLoops(None, true);
        cycles := cycles + paths;
        ghost var before := board.data[..];
        var did := Solve(true);
        SolveStepDrops(constraints, n, before, true, board.data[..], did);
        if !did {
          return [];
        }
        SolveStepRefines(constraints, n, g0, before, true, board.data[..], did);
        num := board.NumSolved();
      }
      ghost var h := board.data[..];
      NewlyTrueExists(n, g0, h);
      var found := FindNewlyTrue(board, backup, g0, h);
      if found.None? {
        // "Cell filled, but not found." cannot happen
        assert false;
      }
      var pos := found.value;
      // the weak links of pos are looked up on the progressed board, where pos is True
      var weaks := GetWeaks(pos);
      WeaksOfSettled(constraints, n, board.data[..], pos);
      var matched := MatchPaths(cycles, weaks);
      ret := CellsOf(matched);
    }
  }
}
