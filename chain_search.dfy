/** The alternating breadth-first search of `rem_odd_loops` and
    `find_odd_loops` (board.rs). From a start candidate, step 0 follows weak
    edges, step 1 strong edges, and so on; after each step the search stops
    if two new candidates are joined in the other graph. */
module ChainSearch {
  import opened Wrappers
  import opened Candidates
  import opened LinkGraphs

  /** The graph followed at step i: weak on even steps, strong on odd ones. */
  function StepGraph(W: Graph, S: Graph, i: nat): Graph {
    if i % 2 == 0 then W else S
  }

  /** The graph the closure test reads at step i: the other one. */
  function CheckGraph(W: Graph, S: Graph, i: nat): Graph {
    if i % 2 == 0 then S else W
  }

  /** Both graphs have the same nodes, and each lists only nodes. */
  ghost predicate GraphsOk(W: Graph, S: Graph) {
    W.Keys == S.Keys && Closed(W) && Closed(S)
  }

  /** The neighbours in G of the frontier F that are neither visited nor in
      the frontier. */
  function Expand(G: Graph, V: set<Pos>, F: set<Pos>): set<Pos> {
    set p, q | p in F && p in G && q in G[p] && q !in V && q !in F :: q
  }

  /** Two of the new candidates N are joined in C. */
  ghost predicate Closes(C: Graph, N: set<Pos>) {
    exists v, u :: v in N && v in C && u in C[v] && u in N
  }

  /** The step at which the search from visited set V and frontier F, now
      at step i, first closes, if it does before the budget runs out. */
  ghost function Search(W: Graph, S: Graph, V: set<Pos>, F: set<Pos>, i: nat, budget: nat): (r: Option<nat>)
    ensures r.Some? ==> i <= r.value < budget
    decreases budget - i
  {
    if i >= budget then None
    else
      var N := Expand(StepGraph(W, S, i), V, F);
      if Closes(CheckGraph(W, S, i), N) then Some(i)
      else Search(W, S, V + F, N, i + 1, budget)
  }

  /** The search from start candidate s. */
  ghost function FirstClosure(W: Graph, S: Graph, s: Pos, budget: nat): Option<nat> {
    Search(W, S, {}, {s}, 0, budget)
  }

  /** A larger budget finds the same closure, or a later one that the
      smaller budget could not reach. */
  lemma {:induction false} BudgetMono(W: Graph, S: Graph, V: set<Pos>, F: set<Pos>, i: nat, b: nat, b': nat)
    requires b <= b'
    ensures Search(W, S, V, F, i, b).Some? ==> Search(W, S, V, F, i, b') == Search(W, S, V, F, i, b)
    ensures Search(W, S, V, F, i, b').Some? && Search(W, S, V, F, i, b').value < b ==>
      Search(W, S, V, F, i, b) == Search(W, S, V, F, i, b')
    ensures Search(W, S, V, F, i, b').None? ==> Search(W, S, V, F, i, b).None?
    decreases b - i
  {
    if i < b {
      var N := Expand(StepGraph(W, S, i), V, F);
      if !Closes(CheckGraph(W, S, i), N) {
        BudgetMono(W, S, V + F, N, i + 1, b, b');
      }
    }
  }

  /** The search from s with budget b finds exactly the closures before b of
      the search with any larger budget. */
  lemma ClosureBudget(W: Graph, S: Graph, s: Pos, b: nat, b': nat)
    requires b <= b'
    ensures FirstClosure(W, S, s, b) ==
      if FirstClosure(W, S, s, b').Some? && FirstClosure(W, S, s, b').value < b then FirstClosure(W, S, s, b')
      else None
  {
    BudgetMono(W, S, {}, {s}, 0, b, b');
  }

  /** Expanding a frontier of nodes of a closed graph gives nodes. */
  lemma ExpandNodes(G: Graph, V: set<Pos>, F: set<Pos>)
    requires Closed(G)
    ensures Expand(G, V, F) <= G.Keys
  {
  }

  /** The neighbours of the frontier nodes P already handled. */
  function ExpandOver(G: Graph, V: set<Pos>, F: set<Pos>, P: set<Pos>): set<Pos> {
    set p, q | p in P && p in G && q in G[p] && q !in V && q !in F :: q
  }

  /** The innermost loop over `neighbors` of one frontier node: a neighbour
      is new unless it is visited or in the frontier. */
  method AddNeighbours(G: Graph, visited: set<Pos>, F: set<Pos>, p: Pos, acc: set<Pos>) returns (N: set<Pos>)
    requires p in G
    ensures N == acc + set q | q in G[p] && q !in visited && q !in F
  {
    N := acc;
    var rest := G[p];
    while rest != {}
      invariant rest <= G[p]
      invariant N == acc + set q | q in G[p] - rest && q !in visited && q !in F
      decreases rest
    {
      var q :| q in rest;
      if q !in visited && q !in F {
        N := N + {q};
      }
      rest := rest - {q};
    }
  }

  /** The loop over the frontier of `rem_odd_loops`: each frontier node adds
      its new neighbours and is then marked visited. */
  method ExpandFrontier(G: Graph, V: set<Pos>, F: set<Pos>) returns (N: set<Pos>, V': set<Pos>)
    requires F <= G.Keys
    ensures N == Expand(G, V, F) && V' == V + F
  {
    N := {};
    V' := V;
    var rest := F;
    while rest != {}
      invariant rest <= F
      invariant V' == V + (F - rest)
      invariant N == ExpandOver(G, V, F, F - rest)
      decreases rest
    {
      var p :| p in rest;
      var N' := AddNeighbours(G, V', F, p, N);
      assert N' == ExpandOver(G, V, F, F - (rest - {p})) by {
        assert F - (rest - {p}) == (F - rest) + {p};
      }
      N := N';
      V' := V' + {p};
      rest := rest - {p};
    }
    assert F - rest == F;
  }

  /** The closure test: is some new candidate joined in C to another new
      candidate? */
  method ClosureCheck(C: Graph, N: set<Pos>) returns (closes: bool)
    requires N <= C.Keys
    ensures closes <==> Closes(C, N)
  {
    var rest := N;
    while rest != {}
      invariant rest <= N
      invariant forall v :: v in N - rest ==> C[v] * N == {}
      decreases rest
    {
      var v :| v in rest;
      if C[v] * N != {} {
        var u :| u in C[v] * N;
        return true;
      }
      rest := rest - {v};
    }
    assert N - rest == N;
    closes := false;
    forall v, u | v in N && v in C && u in C[v] ensures u !in N {
      assert u !in C[v] * N;
    }
  }

  /** The per-start search of `rem_odd_loops`, stepping through at most
      budget steps. */
  method SearchFrom(W: Graph, S: Graph, s: Pos, budget: nat) returns (r: Option<nat>)
    requires GraphsOk(W, S) && s in W
    ensures r == FirstClosure(W, S, s, budget)
  {
    var visited: set<Pos> := {};
    var toVisit: set<Pos> := {s};
    var needStrong := false;
    for i := 0 to budget
      invariant toVisit <= W.Keys
      invariant needStrong <==> i % 2 == 1
      invariant Search(W, S, visited, toVisit, i, budget) == FirstClosure(W, S, s, budget)
    {
      var graph, check := if needStrong then S else W, if needStrong then W else S;
      needStrong := !needStrong;
      ExpandNodes(graph, visited, toVisit);
      var newVisit;
      newVisit, visited := ExpandFrontier(graph, visited, toVisit);
      var closes := ClosureCheck(check, newVisit);
      if closes {
        return Some(i);
      }
      toVisit := newVisit;
    }
    return None;
  }

  // ----- searching with parent pointers (`find_odd_loops`)

  /** b is a node of the step-k graph and a is one of its neighbours there. */
  ghost predicate Link(W: Graph, S: Graph, a: Pos, b: Pos, k: nat) {
    b in StepGraph(W, S, k) && a in StepGraph(W, S, k)[b]
  }

  /** A chain of the alternating search ending at s: each element is a
      neighbour of the next one in the graph of that next one's step. */
  ghost predicate Chain(W: Graph, S: Graph, c: seq<Pos>, s: Pos) {
    |c| >= 1 && c[|c| - 1] == s &&
    forall j :: 0 <= j < |c| - 1 ==> Link(W, S, c[j], c[j + 1], |c| - 2 - j)
  }

  /** Parent pointers of the search from s: s has none and level 0, every
      other node has a parent one level lower, in whose step graph it is a
      neighbour of that parent. */
  ghost predicate Tree(W: Graph, S: Graph, s: Pos, parent: map<Pos, Option<Pos>>, lvl: map<Pos, nat>) {
    parent.Keys == lvl.Keys && s in parent && parent[s] == None && lvl[s] == 0 &&
    forall x {:trigger parent[x]} :: x in parent && x != s ==>
      parent[x].Some? && parent[x].value in parent && lvl[x] == lvl[parent[x].value] + 1 &&
      Link(W, S, x, parent[x].value, lvl[parent[x].value])
  }

  /** One step of the walk up the parent tree: p joins the chain, and its
      parent, if any, is one level lower and linked from p; a node without
      a parent is the start. */
  lemma WalkStep(W: Graph, S: Graph, s: Pos, parent: map<Pos, Option<Pos>>, lvl: map<Pos, nat>, c: seq<Pos>, p: Pos, L: nat)
    requires Tree(W, S, s, parent, lvl) && p in parent && lvl[p] + |c| == L
    requires forall j :: 0 <= j < |c| - 1 ==> Link(W, S, c[j], c[j + 1], L - 1 - j)
    requires |c| > 0 ==> Link(W, S, c[|c| - 1], p, lvl[p])
    ensures forall j :: 0 <= j < |c| ==> Link(W, S, (c + [p])[j], (c + [p])[j + 1], L - 1 - j)
    ensures parent[p].None? ==> p == s && |c| == L
    ensures parent[p].Some? ==> parent[p].value in parent && lvl[parent[p].value] + |c| + 1 == L
    ensures parent[p].Some? ==> Link(W, S, p, parent[p].value, lvl[parent[p].value])
  {
    forall j | 0 <= j < |c| ensures Link(W, S, (c + [p])[j], (c + [p])[j + 1], L - 1 - j) {
      if j < |c| - 1 {
        assert (c + [p])[j] == c[j] && (c + [p])[j + 1] == c[j + 1];
      } else {
        assert (c + [p])[j] == c[j] && (c + [p])[j + 1] == p;
      }
    }
  }

  /** A `while let` loop of `find_odd_loops`: follow the parent pointers
      from x back to the start. */
  method Reconstruct(ghost W: Graph, ghost S: Graph, ghost s: Pos, parent: map<Pos, Option<Pos>>, ghost lvl: map<Pos, nat>, x: Pos)
    returns (ret: seq<Pos>)
    requires Tree(W, S, s, parent, lvl) && x in parent
    ensures |ret| == lvl[x] + 1 && ret[0] == x && Chain(W, S, ret, s)
  {
    ret := [];
    var pnt := Some(x);
    ghost var L := lvl[x];
    while pnt.Some?
      invariant |ret| <= L + 1
      invariant pnt.Some? ==> pnt.value in parent && lvl[pnt.value] + |ret| == L
      invariant pnt.None? ==> |ret| == L + 1 && ret[|ret| - 1] == s
      invariant |ret| == 0 ==> pnt == Some(x)
      invariant |ret| > 0 ==> ret[0] == x
      invariant pnt.Some? && |ret| > 0 ==> Link(W, S, ret[|ret| - 1], pnt.value, lvl[pnt.value])
      invariant forall j :: 0 <= j < |ret| - 1 ==> Link(W, S, ret[j], ret[j + 1], L - 1 - j)
      decreases if pnt.Some? then lvl[pnt.value] + 1 else 0
    {
      var p := pnt.value;
      var next := parent[p];
      WalkStep(W, S, s, parent, lvl, ret, p, L);
      ret := ret + [p];
      pnt := next;
    }
  }

  /** The innermost loop of `find_odd_loops` for one frontier node p: each
      new neighbour is recorded with p as its parent, replacing the parent
      an earlier frontier node gave it. */
  method AddChildren(G: Graph, V: set<Pos>, F: set<Pos>, p: Pos, acc: map<Pos, Option<Pos>>)
    returns (N: map<Pos, Option<Pos>>)
    requires p in G
    ensures N.Keys == acc.Keys + set q | q in G[p] && q !in V && q !in F
    ensures forall q :: q in N ==> N[q] == if q in G[p] && q !in V && q !in F then Some(p) else acc[q]
  {
    N := acc;
    var rest := G[p];
    while rest != {}
      invariant rest <= G[p]
      invariant N.Keys == acc.Keys + set q | q in G[p] - rest && q !in V && q !in F
      invariant forall q :: q in N ==> N[q] == if q in G[p] - rest && q !in V && q !in F then Some(p) else acc[q]
      decreases rest
    {
      var q :| q in rest;
      if q !in V && q !in F {
        N := N[q := Some(p)];
      }
      rest := rest - {q};
    }
  }

  /** The loop over the frontier of `find_odd_loops`: like ExpandFrontier,
      and each new candidate records a frontier node it was reached from;
      frontier nodes move to `visited` with their own parents. */
  method ExpandParents(G: Graph, visited: map<Pos, Option<Pos>>, F: map<Pos, Option<Pos>>)
    returns (N: map<Pos, Option<Pos>>, V': map<Pos, Option<Pos>>)
    requires F.Keys <= G.Keys
    ensures N.Keys == Expand(G, visited.Keys, F.Keys) && V' == visited + F
    ensures forall q :: q in N ==> N[q].Some? && N[q].value in F && q in G[N[q].value]
  {
    N := map[];
    var rest := F.Keys;
    while rest != {}
      invariant rest <= F.Keys
      invariant N.Keys == ExpandOver(G, visited.Keys, F.Keys, F.Keys - rest)
      invariant forall q :: q in N ==> N[q].Some? && N[q].value in F && q in G[N[q].value]
      decreases rest
    {
      var p :| p in rest;
      // a node already moved to `visited` is in F, so testing the old keys is the same test
      N := AddChildren(G, visited.Keys, F.Keys, p, N);
      assert F.Keys - (rest - {p}) == (F.Keys - rest) + {p};
      rest := rest - {p};
    }
    assert F.Keys - rest == F.Keys;
    V' := visited + F;
  }

  /** The closure test of `find_odd_loops`: a new candidate v and one of its
      neighbours w in C that is new too. */
  method ClosureFind(C: Graph, N: set<Pos>) returns (ends: Option<(Pos, Pos)>)
    requires N <= C.Keys
    ensures ends.Some? <==> Closes(C, N)
    ensures ends.Some? ==> ends.value.0 in N && ends.value.1 in N && ends.value.1 in C[ends.value.0]
  {
    var rest := N;
    while rest != {}
      invariant rest <= N
      invariant forall v :: v in N - rest ==> C[v] * N == {}
      decreases rest
    {
      var v :| v in rest;
      var inter := C[v] * N;
      if inter != {} {
        var w :| w in inter;
        return Some((v, w));
      }
      rest := rest - {v};
    }
    assert N - rest == N;
    forall v, u | v in N && v in C && u in C[v] ensures u !in N {
      assert u !in C[v] * N;
    }
    return None;
  }

  /** The state of the parent-pointer search at step i: the frontier holds
      the level-i nodes, and visited and frontier together form a tree. */
  ghost predicate Frontier(W: Graph, S: Graph, s: Pos, visited: map<Pos, Option<Pos>>, toVisit: map<Pos, Option<Pos>>,
                           lvl: map<Pos, nat>, i: nat) {
    toVisit.Keys <= W.Keys && visited.Keys !! toVisit.Keys &&
    Tree(W, S, s, visited + toVisit, lvl) &&
    forall x :: x in toVisit ==> x in lvl && lvl[x] == i
  }

  /** One expansion step of the parent-pointer search. */
  method LevelStep(W: Graph, S: Graph, ghost s: Pos, visited: map<Pos, Option<Pos>>, toVisit: map<Pos, Option<Pos>>,
                   ghost lvl: map<Pos, nat>, i: nat, needStrong: bool)
    returns (newVisit: map<Pos, Option<Pos>>, visited': map<Pos, Option<Pos>>, ghost lvl': map<Pos, nat>)
    requires GraphsOk(W, S) && Frontier(W, S, s, visited, toVisit, lvl, i)
    requires needStrong <==> i % 2 == 1
    ensures newVisit.Keys == Expand(StepGraph(W, S, i), visited.Keys, toVisit.Keys)
    ensures visited'.Keys == visited.Keys + toVisit.Keys
    ensures Frontier(W, S, s, visited', newVisit, lvl', i + 1)
  {
    var graph := if needStrong then S else W;
    assert graph == StepGraph(W, S, i);
    ExpandNodes(graph, visited.Keys, toVisit.Keys);
    newVisit, visited' := ExpandParents(graph, visited, toVisit);
    forall q | q in newVisit ensures NewChild(W, S, visited', lvl, i, newVisit[q], q) {
      var pq := newVisit[q].value;
      assert pq in toVisit && pq in visited';
    }
    NewLevel(W, S, s, visited', newVisit, lvl, i);
    lvl' := NextLevel(lvl, newVisit.Keys, i);
  }

  /** Steps alternate between the two graphs. */
  lemma Parity(i: nat)
    ensures (i + 1) % 2 == 1 <==> !(i % 2 == 1)
  {
  }

  /** The per-start search of `find_odd_loops`. When it closes at step i it
      returns the two ends (v, w) of the closing edge, both new at step i, and
      the parent pointers of every candidate reached. */
  method SearchParents(W: Graph, S: Graph, s: Pos, budget: nat)
    returns (r: Option<nat>, ends: Option<(Pos, Pos)>, parent: map<Pos, Option<Pos>>, ghost lvl: map<Pos, nat>)
    requires GraphsOk(W, S) && s in W
    ensures r == FirstClosure(W, S, s, budget)
    ensures r.None? <==> ends.None?
    ensures r.Some? ==>
      (Tree(W, S, s, parent, lvl) &&
       ends.value.0 in parent && ends.value.1 in parent &&
       lvl[ends.value.0] == r.value + 1 && lvl[ends.value.1] == r.value + 1 &&
       ends.value.0 in CheckGraph(W, S, r.value) && ends.value.1 in CheckGraph(W, S, r.value)[ends.value.0])
  {
    var visited: map<Pos, Option<Pos>> := map[];
    var toVisit: map<Pos, Option<Pos>> := map[s := None];
    lvl := map[s := 0];
    var needStrong := false;
    assert visited.Keys == {} && toVisit.Keys == {s} && visited + toVisit == toVisit;
    for i := 0 to budget
      invariant needStrong <==> i % 2 == 1
      invariant Frontier(W, S, s, visited, toVisit, lvl, i)
      invariant Search(W, S, visited.Keys, toVisit.Keys, i, budget) == FirstClosure(W, S, s, budget)
    {
      var check := if needStrong then W else S;
      var newVisit;
      newVisit, visited, lvl := LevelStep(W, S, s, visited, toVisit, lvl, i, needStrong);
      needStrong := !needStrong;
      Parity(i);
      // the frontier is drained into `visited`
      toVisit := map[];
      var found := ClosureFind(check, newVisit.Keys);
      if found.Some? {
        return Some(i), found, visited + newVisit, lvl;
      }
      toVisit := newVisit;
    }
    return None, None, visited + toVisit, lvl;
  }

  /** The candidates new at step i, with parents on level i, extend the tree
      by one level. */
  lemma NewLevel(W: Graph, S: Graph, s: Pos, tree: map<Pos, Option<Pos>>, N: map<Pos, Option<Pos>>, lvl: map<Pos, nat>, i: nat)
    requires Tree(W, S, s, tree, lvl) && tree.Keys !! N.Keys
    requires forall q :: q in N ==> NewChild(W, S, tree, lvl, i, N[q], q)
    ensures Tree(W, S, s, tree + N, NextLevel(lvl, N.Keys, i))
  {
    var P := tree + N;
    var L := NextLevel(lvl, N.Keys, i);
    assert P.Keys == L.Keys;
    forall x | x in P && x != s
      ensures P[x].Some? && P[x].value in P && L[x] == L[P[x].value] + 1 && Link(W, S, x, P[x].value, L[P[x].value])
    {
      if x in N {
        assert NewChild(W, S, tree, lvl, i, N[x], x);
      }
    }
  }

  /** The levels after step i: the new candidates N are on level i + 1. */
  ghost function NextLevel(lvl: map<Pos, nat>, N: set<Pos>, i: nat): map<Pos, nat> {
    lvl + map q | q in N :: i + 1
  }

  /** q was reached at step i from the level-i node named by pq. */
  ghost predicate NewChild(W: Graph, S: Graph, tree: map<Pos, Option<Pos>>, lvl: map<Pos, nat>, i: nat, pq: Option<Pos>, q: Pos) {
    pq.Some? && pq.value in tree && pq.value in lvl && lvl[pq.value] == i &&
    pq.value in StepGraph(W, S, i) && q in StepGraph(W, S, i)[pq.value]
  }
}
