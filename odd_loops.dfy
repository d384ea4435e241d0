/** The outer loops of `rem_odd_loops` and `find_odd_loops` (board.rs):
    every node of the weak graph is tried as a start, each with a budget of
    `min` steps, where `min` is the earliest closure found so far. */
module OddLoops {
  import opened Wrappers
  import opened Candidates
  import opened LinkGraphs
  import opened ChainSearch

  /** `succ` tells whether some node starts a search closing within M steps,
      and `min` is the earliest closing step over all nodes (M when none). */
  ghost predicate Earliest(W: Graph, S: Graph, M: nat, succ: bool, min: nat) {
    min <= M &&
    (succ <==> exists s :: s in W && FirstClosure(W, S, s, M).Some?) &&
    (forall s :: s in W && FirstClosure(W, S, s, M).Some? ==> min <= FirstClosure(W, S, s, M).value) &&
    (succ ==> exists s :: s in W && FirstClosure(W, S, s, M) == Some(min)) &&
    (!succ ==> min == M)
  }

  /** The flag and the earliest step are determined by the graphs. */
  lemma EarliestUnique(W: Graph, S: Graph, M: nat, succ: bool, min: nat, succ': bool, min': nat)
    requires Earliest(W, S, M, succ, min) && Earliest(W, S, M, succ', min')
    ensures succ == succ' && min == min'
  {
    if succ {
      var s :| s in W && FirstClosure(W, S, s, M) == Some(min);
      var s' :| s' in W && FirstClosure(W, S, s', M) == Some(min');
      assert min <= min' && min' <= min;
    }
  }

  /** c is an odd loop through s closing at step i: two chains of i + 2
      candidates from s, whose last-reached ends are joined in the graph the
      closure test reads at step i. */
  ghost predicate OddLoop(W: Graph, S: Graph, s: Pos, i: nat, c: seq<Pos>) {
    |c| == 2 * (i + 2) &&
    Chain(W, S, c[..i + 2], s) && Chain(W, S, c[i + 2..], s) &&
    c[0] in CheckGraph(W, S, i) && c[i + 2] in CheckGraph(W, S, i)[c[0]]
  }

  /** The state of the loop over starts after the nodes outside `rest` were
      tried: as Earliest over those nodes, and the list of recorded
      closures, whose steps strictly decrease, ends with one at `min`. */
  ghost predicate Scanned<T>(W: Graph, S: Graph, M: nat, rest: set<Pos>, succ: bool, min: nat,
                             toRem: seq<(nat, Pos, T)>) {
    min <= M &&
    (succ <==> exists s :: s in W && s !in rest && FirstClosure(W, S, s, M).Some?) &&
    (forall s :: s in W && s !in rest && FirstClosure(W, S, s, M).Some? ==> min <= FirstClosure(W, S, s, M).value) &&
    (succ <==> |toRem| > 0) &&
    (succ ==> toRem[|toRem| - 1].0 == min && toRem[|toRem| - 1].1 in W &&
              FirstClosure(W, S, toRem[|toRem| - 1].1, M) == Some(min)) &&
    (!succ ==> min == M) &&
    (forall j :: 0 <= j < |toRem| - 1 ==> toRem[j].0 > min)
  }

  /** Trying one more start s with budget `min`: a closure found is earlier
      than every one before, so it becomes the new `min`. */
  lemma ScanStep<T>(W: Graph, S: Graph, M: nat, rest: set<Pos>, succ: bool, min: nat, toRem: seq<(nat, Pos, T)>,
                    s: Pos, r: Option<nat>, x: T)
    requires Scanned(W, S, M, rest, succ, min, toRem) && s in rest && s in W
    requires r == FirstClosure(W, S, s, min)
    ensures r.Some? ==> r.value < min && FirstClosure(W, S, s, M) == r
    ensures r.Some? ==> Scanned(W, S, M, rest - {s}, true, r.value, toRem + [(r.value, s, x)])
    ensures r.None? ==> Scanned(W, S, M, rest - {s}, succ, min, toRem)
  {
    ClosureBudget(W, S, s, min, M);
    if r.Some? {
      var toRem' := toRem + [(r.value, s, x)];
      assert toRem'[|toRem'| - 1] == (r.value, s, x);
      forall j | 0 <= j < |toRem'| - 1 ensures toRem'[j].0 > r.value {
        if j < |toRem| - 1 {
          assert toRem'[j] == toRem[j];
        }
      }
    }
  }

  /** The loop over starts of `rem_odd_loops`, from `min = M`. */
  method ScanStarts(W: Graph, S: Graph, M: nat) returns (succ: bool, min: nat, toRem: seq<(nat, Pos, ())>)
    requires GraphsOk(W, S)
    ensures Scanned(W, S, M, {}, succ, min, toRem) && Earliest(W, S, M, succ, min)
    ensures forall j :: 0 <= j < |toRem| ==> toRem[j].1 in W
  {
    min := M;
    toRem := [];
    succ := false;
    var rest := W.Keys;
    while rest != {}
      invariant rest <= W.Keys
      invariant Scanned(W, S, M, rest, succ, min, toRem)
      invariant forall j :: 0 <= j < |toRem| ==> toRem[j].1 in W
      decreases rest
    {
      var spos :| spos in rest;
      var r := SearchFrom(W, S, spos, min);
      ScanStep(W, S, M, rest, succ, min, toRem, spos, r, ());
      if r.Some? {
        if r.value < min {
          min := r.value;
        }
        toRem := toRem + [(r.value, spos, ())];
        succ := true;
      }
      rest := rest - {spos};
    }
    ScannedEarliest(W, S, M, succ, min, toRem);
  }

  /** After every node was tried, the scan state is Earliest. */
  lemma ScannedEarliest<T>(W: Graph, S: Graph, M: nat, succ: bool, min: nat, toRem: seq<(nat, Pos, T)>)
    requires Scanned(W, S, M, {}, succ, min, toRem)
    ensures Earliest(W, S, M, succ, min)
  {
    if succ {
      assert toRem[|toRem| - 1].1 in W;
    }
  }

  /** The loop over starts of `find_odd_loops`, from `min = M`: each closure
      also records its odd loop, rebuilt from the parent pointers. */
  method ScanPaths(W: Graph, S: Graph, M: nat) returns (succ: bool, min: nat, toRem: seq<(nat, Pos, seq<Pos>)>)
    requires GraphsOk(W, S)
    ensures Scanned(W, S, M, {}, succ, min, toRem) && Earliest(W, S, M, succ, min)
    ensures forall j :: 0 <= j < |toRem| ==> OddLoop(W, S, toRem[j].1, toRem[j].0, toRem[j].2)
  {
    min := M;
    toRem := [];
    succ := false;
    var rest := W.Keys;
    while rest != {}
      invariant rest <= W.Keys
      invariant Scanned(W, S, M, rest, succ, min, toRem)
      invariant forall j :: 0 <= j < |toRem| ==> OddLoop(W, S, toRem[j].1, toRem[j].0, toRem[j].2)
      decreases rest
    {
      var spos :| spos in rest;
      var r, ends, parent, lvl := SearchParents(W, S, spos, min);
      if r.Some? {
        var c := LoopOf(W, S, spos, r.value, ends.value, parent, lvl);
        ScanStep(W, S, M, rest, succ, min, toRem, spos, r, c);
        if r.value < min {
          min := r.value;
        }
        toRem := toRem + [(r.value, spos, c)];
        succ := true;
      } else {
        ScanStep(W, S, M, rest, succ, min, toRem, spos, r, []);
      }
      rest := rest - {spos};
    }
    ScannedEarliest(W, S, M, succ, min, toRem);
  }

  /** The two `while let` loops of `find_odd_loops`: the chain from v back
      to s followed by the chain from w back to s. */
  method LoopOf(ghost W: Graph, ghost S: Graph, ghost s: Pos, ghost i: nat, ends: (Pos, Pos),
                parent: map<Pos, Option<Pos>>, ghost lvl: map<Pos, nat>) returns (c: seq<Pos>)
    requires Tree(W, S, s, parent, lvl) && ends.0 in parent && ends.1 in parent
    requires lvl[ends.0] == i + 1 && lvl[ends.1] == i + 1
    requires ends.0 in CheckGraph(W, S, i) && ends.1 in CheckGraph(W, S, i)[ends.0]
    ensures OddLoop(W, S, s, i, c)
  {
    var c1 := Reconstruct(W, S, s, parent, lvl, ends.0);
    var c2 := Reconstruct(W, S, s, parent, lvl, ends.1);
    c := c1 + c2;
    assert c[..i + 2] == c1 && c[i + 2..] == c2;
  }

  /** The last loop of `find_odd_loops`: the recorded loops whose step is at
      most `min`, stopping after the first when `slow` is set. */
  method SelectPaths<T>(toRem: seq<(nat, Pos, T)>, min: nat, slow: bool) returns (ret: seq<T>)
    requires forall j :: 0 <= j < |toRem| - 1 ==> toRem[j].0 > min
    requires |toRem| > 0 ==> toRem[|toRem| - 1].0 == min
    ensures ret == if |toRem| > 0 then [toRem[|toRem| - 1].2] else []
  {
    ret := [];
    for k := 0 to |toRem|
      invariant ret == if k == |toRem| && k > 0 then [toRem[k - 1].2] else []
    {
      var (i, _, v) := toRem[k];
      if i <= min {
        ret := ret + [v];
        if slow {
          return;
        }
      }
    }
  }
}
