/** The link graphs of board.rs. The weak graph joins two Poss candidates
    when a rule's `affects` links them; the strong graph keeps the weak edges
    that lie on no weak triangle. A graph maps each node to the set of its
    neighbours (the `conn` lists hold no repeats, and their order does not
    matter to any of their users). */
module LinkGraphs {
  import opened Candidates
  import opened Rules
  import opened Affects

  type Graph = map<Pos, set<Pos>>

  /** Every candidate of an n-sized board. */
  function PosSet(n: nat): (s: set<Pos>)
    ensures forall p :: p in s <==> InRange(n, p)
  {
    set x, y, z | 0 <= x < n && 0 <= y < n && 0 <= z < n :: Pos(x, y, z)
  }

  /** The Poss candidates of g. */
  ghost function PossSet(n: nat, g: seq<LogicVal>): (s: set<Pos>)
    requires |g| == Cube(n)
    ensures forall p :: p in s <==> InRange(n, p) && At(n, g, p) == Poss
  {
    set p | p in PosSet(n) && At(n, g, p) == Poss
  }

  /** Some rule of the list reports q for p (`get_weaks`). */
  ghost predicate Linked(rs: seq<Rule>, n: nat, g: seq<LogicVal>, p: Pos, q: Pos)
    requires |g| == Cube(n) && InRange(n, p)
  {
    exists i :: 0 <= i < |rs| && Reports(rs[i], n, g, p, q)
  }

  /** `get_weaks`: the union of every rule's `affects` for p. */
  ghost function Weaks(rs: seq<Rule>, n: nat, g: seq<LogicVal>, p: Pos): (w: set<Pos>)
    requires |g| == Cube(n) && InRange(n, p)
    ensures forall q :: q in w <==> Linked(rs, n, g, p, q)
  {
    set q | q in PosSet(n) && Linked(rs, n, g, p, q)
  }

  /** `graph` joins two Poss candidates when the later one, in the order of
      `positions`, lists the earlier one among its weak links: the earlier
      node is already in the map when the later one is added, and not the
      other way round. */
  ghost predicate WeakEdge(rs: seq<Rule>, n: nat, g: seq<LogicVal>, p: Pos, q: Pos)
    requires |g| == Cube(n) && InRange(n, p) && InRange(n, q)
  {
    if Index(n, p) < Index(n, q) then Linked(rs, n, g, q, p) else Linked(rs, n, g, p, q)
  }

  /** The graph `graph` builds from the candidates before slot k. */
  ghost function PartialWeak(rs: seq<Rule>, n: nat, g: seq<LogicVal>, k: nat): Graph
    requires |g| == Cube(n)
  {
    map p | p in PossSet(n, g) && Index(n, p) < k ::
      set q | q in PossSet(n, g) && Index(n, q) < k && WeakEdge(rs, n, g, p, q)
  }

  /** The weak graph of `graph`. */
  ghost function WeakGraph(rs: seq<Rule>, n: nat, g: seq<LogicVal>): Graph
    requires |g| == Cube(n)
  {
    PartialWeak(rs, n, g, Cube(n))
  }

  /** Every neighbour is a node. */
  ghost predicate Closed(G: Graph) {
    forall a, b :: a in G && b in G[a] ==> b in G
  }

  /** Every edge is listed at both ends. */
  ghost predicate Symmetric(G: Graph) {
    forall a, b :: a in G && b in G[a] ==> b in G && a in G[b]
  }

  /** No node is its own neighbour. */
  ghost predicate Irreflexive(G: Graph) {
    forall a :: a in G ==> a !in G[a]
  }

  /** The weak graph has exactly the Poss candidates as nodes, is symmetric
      and has no loops, and two nodes are joined exactly when a rule links
      the later one to the earlier one. */
  lemma WeakGraphShape(rs: seq<Rule>, n: nat, g: seq<LogicVal>)
    requires |g| == Cube(n)
    ensures var W := WeakGraph(rs, n, g);
      W.Keys == PossSet(n, g) && Symmetric(W) && Closed(W) && Irreflexive(W) &&
      forall a, b :: a in W && b in W ==> (b in W[a] <==> WeakEdge(rs, n, g, a, b))
  {
    var W := WeakGraph(rs, n, g);
    forall p | p in PossSet(n, g) ensures p in W {
      IndexBound(n, p);
    }
    forall a, b | a in W && b in W[a] ensures b in W && a in W[b] {
      if Index(n, a) == Index(n, b) {
        IndexInjective(n, a, b);
      } else {
        IndexInjective(n, a, b);
      }
    }
    forall a, b | a in W && b in W ensures b in W[a] <==> WeakEdge(rs, n, g, a, b) {
      IndexBound(n, b);
    }
  }

  /** The slots before Index(p) + 1 are those before Index(p), and p's. */
  lemma SlotsUpTo(n: nat, p: Pos, q: Pos)
    requires InRange(n, p) && InRange(n, q)
    ensures Index(n, q) < Index(n, p) + 1 <==> Index(n, q) < Index(n, p) || q == p
  {
    if q != p {
      IndexInjective(n, p, q);
    }
  }

  /** The nodes of the partial graph after slot Index(p). */
  lemma PartialKeys(rs: seq<Rule>, n: nat, g: seq<LogicVal>, p: Pos)
    requires |g| == Cube(n) && InRange(n, p)
    ensures var k := Index(n, p);
      PartialWeak(rs, n, g, k + 1).Keys ==
        PartialWeak(rs, n, g, k).Keys + (if At(n, g, p) == Poss then {p} else {})
  {
    forall q | InRange(n, q) {
      SlotsUpTo(n, p, q);
    }
  }

  /** The list of the node added for slot Index(p): its weak links among the
      nodes already present. */
  lemma PartialNew(rs: seq<Rule>, n: nat, g: seq<LogicVal>, p: Pos)
    requires |g| == Cube(n) && InRange(n, p) && At(n, g, p) == Poss
    ensures var k := Index(n, p);
      p in PartialWeak(rs, n, g, k + 1) &&
      PartialWeak(rs, n, g, k + 1)[p] == Weaks(rs, n, g, p) * PartialWeak(rs, n, g, k).Keys
  {
    var k := Index(n, p);
    PartialKeys(rs, n, g, p);
    forall q ensures q in PartialWeak(rs, n, g, k + 1)[p] <==>
      q in Weaks(rs, n, g, p) && q in PartialWeak(rs, n, g, k).Keys
    {
      if InRange(n, q) {
        SlotsUpTo(n, p, q);
      }
    }
  }

  /** The list of a node already present gains p exactly when p links to it. */
  lemma PartialOld(rs: seq<Rule>, n: nat, g: seq<LogicVal>, p: Pos, a: Pos)
    requires |g| == Cube(n) && InRange(n, p)
    requires a in PartialWeak(rs, n, g, Index(n, p))
    ensures var k := Index(n, p);
      a in PartialWeak(rs, n, g, k + 1) &&
      PartialWeak(rs, n, g, k + 1)[a] ==
        if At(n, g, p) == Poss && a in Weaks(rs, n, g, p) then PartialWeak(rs, n, g, k)[a] + {p}
        else PartialWeak(rs, n, g, k)[a]
  {
    var k := Index(n, p);
    PartialKeys(rs, n, g, p);
    forall q ensures q in PartialWeak(rs, n, g, k + 1)[a] <==>
      q in PartialWeak(rs, n, g, k)[a] || (q == p && At(n, g, p) == Poss && a in Weaks(rs, n, g, p))
    {
      if InRange(n, q) {
        SlotsUpTo(n, p, q);
      }
    }
  }

  /** One more candidate: `graph` adds slot k's candidate, when it is Poss,
      with its links to the nodes already present, and adds it to their
      lists. */
  lemma PartialStep(rs: seq<Rule>, n: nat, g: seq<LogicVal>, p: Pos)
    requires |g| == Cube(n) && InRange(n, p)
    ensures var k := Index(n, p); var G := PartialWeak(rs, n, g, k);
      PartialWeak(rs, n, g, k + 1) ==
        if At(n, g, p) == Poss then Added(G, p, Weaks(rs, n, g, p)) else G
  {
    var k := Index(n, p);
    var G := PartialWeak(rs, n, g, k);
    var G' := PartialWeak(rs, n, g, k + 1);
    var R := if At(n, g, p) == Poss then Added(G, p, Weaks(rs, n, g, p)) else G;
    PartialKeys(rs, n, g, p);
    assert G'.Keys == R.Keys;
    forall a | a in G' ensures G'[a] == R[a] {
      if a == p {
        PartialNew(rs, n, g, p);
      } else {
        PartialOld(rs, n, g, p, a);
      }
    }
  }

  /** A node p joined to the present nodes among ws, each of which gets p
      added to its list. */
  ghost function Added(G: Graph, p: Pos, ws: set<Pos>): Graph {
    (map a | a in G :: if a in ws then G[a] + {p} else G[a])[p := ws * G.Keys]
  }

  /** The inner loop of `graph`: for each weak link i of pos that is already
      a node, push i onto the new node and pos onto i's list. */
  method AddNode(G: Graph, pos: Pos, ws: set<Pos>) returns (G': Graph)
    requires pos !in G
    ensures G' == Added(G, pos, ws)
  {
    var conn: set<Pos> := {};
    var rest := ws;
    G' := G;
    while rest != {}
      invariant rest <= ws && pos !in G'
      invariant conn == (ws - rest) * G.Keys
      invariant G'.Keys == G.Keys
      invariant forall a :: a in G ==> G'[a] == if a in ws - rest then G[a] + {pos} else G[a]
      decreases rest
    {
      var i :| i in rest;
      if i in G' {
        conn := conn + {i};
        G' := G'[i := G'[i] + {pos}];
      }
      rest := rest - {i};
    }
    assert ws - rest == ws;
    G' := G'[pos := conn];
    assert G'.Keys == Added(G, pos, ws).Keys;
  }

  // ----- the strong graph

  /** The strong graph: the weak edges (a, b) with no node weakly joined to
      both a and b. */
  ghost function StrongOf(W: Graph): Graph {
    map a | a in W :: set b | b in W[a] && b in W && W[a] * W[b] == {}
  }

  /** The pairs `graph_strong` collects: (start, long1) for each long2 joined
      to both. */
  ghost predicate OnTriangle(W: Graph, a: Pos, b: Pos) {
    a in W && b in W[a] && b in W && W[a] * W[b] != {}
  }

  /** The strong graph has the same nodes as the weak one, its edges are weak
      edges, it is symmetric when the weak graph is, and no strong edge lies
      on a weak triangle. */
  lemma StrongShape(W: Graph)
    requires Symmetric(W)
    ensures var S := StrongOf(W);
      S.Keys == W.Keys && Symmetric(S) && Closed(S) &&
      (forall a :: a in S ==> S[a] <= W[a]) &&
      (forall a, b, c :: a in S && b in S[a] ==> !(c in W[a] && c in W[b]))
  {
    var S := StrongOf(W);
    forall a, b | a in S && b in S[a] ensures b in S && a in S[b] {
      assert W[b] * W[a] == W[a] * W[b];
    }
    forall a, b, c | a in S && b in S[a] ensures !(c in W[a] && c in W[b]) {
      assert c !in W[a] * W[b];
    }
  }

  /** The last two loops of `graph_strong`: for each (long2 in long1's
      list) that start also lists, push (start, long1). */
  method PushTriangles(W: Graph, a: Pos, b: Pos, acc: seq<(Pos, Pos)>) returns (out: seq<(Pos, Pos)>)
    requires a in W && b in W
    ensures forall e :: e in out <==> e in acc || (e == (a, b) && W[a] * W[b] != {})
  {
    out := acc;
    var rest := W[b];
    while rest != {}
      invariant rest <= W[b]
      invariant forall e :: e in out <==> e in acc || (e == (a, b) && W[a] * (W[b] - rest) != {})
      decreases rest
    {
      var c :| c in rest;
      if c in W[a] {
        out := out + [(a, b)];
      }
      rest := rest - {c};
      assert W[a] * (W[b] - rest) == W[a] * (W[b] - (rest + {c})) + (if c in W[a] then {c} else {});
    }
  }

  /** The second loop of `graph_strong`, over the neighbours long1 of start. */
  method TrianglesFrom(W: Graph, a: Pos, acc: seq<(Pos, Pos)>) returns (out: seq<(Pos, Pos)>)
    requires a in W && Closed(W)
    ensures forall e :: e in out <==> e in acc || (e.0 == a && OnTriangle(W, a, e.1))
  {
    out := acc;
    var rest := W[a];
    while rest != {}
      invariant rest <= W[a]
      invariant forall e :: e in out <==> e in acc || (e.0 == a && e.1 in W[a] - rest && OnTriangle(W, a, e.1))
      decreases rest
    {
      var b :| b in rest;
      out := PushTriangles(W, a, b, out);
      rest := rest - {b};
    }
  }

  /** The first loop of `graph_strong`: every pair of the weak graph that
      lies on a triangle, collected before anything is removed. */
  method CollectTriangles(W: Graph) returns (toRem: seq<(Pos, Pos)>)
    requires Closed(W)
    ensures forall e :: e in toRem <==> OnTriangle(W, e.0, e.1)
  {
    toRem := [];
    var rest := W.Keys;
    while rest != {}
      invariant rest <= W.Keys
      invariant forall e :: e in toRem <==> e.0 in W.Keys - rest && OnTriangle(W, e.0, e.1)
      decreases rest
    {
      var a :| a in rest;
      toRem := TrianglesFrom(W, a, toRem);
      rest := rest - {a};
    }
  }

  /** W with every listed pair removed at both ends. */
  ghost function Without(W: Graph, rem: seq<(Pos, Pos)>): Graph {
    map a | a in W :: set b | b in W[a] && (a, b) !in rem && (b, a) !in rem
  }

  /** The last loop of `graph_strong`: each collected pair (s, e) leaves the
      list of s and, symmetrically, the list of e. */
  method RemoveEdges(W: Graph, rem: seq<(Pos, Pos)>) returns (G: Graph)
    requires forall k :: 0 <= k < |rem| ==> rem[k].0 in W && rem[k].1 in W
    ensures G == Without(W, rem)
  {
    G := W;
    assert G == Without(W, rem[..0]) by {
      forall a | a in W ensures W[a] == Without(W, rem[..0])[a] {
      }
    }
    for k := 0 to |rem|
      invariant G == Without(W, rem[..k])
    {
      var (s, e) := rem[k];
      assert rem[..k + 1] == rem[..k] + [(s, e)];
      G := G[s := G[s] - {e}];
      G := G[e := G[e] - {s}];
      assert G == Without(W, rem[..k + 1]) by {
        forall a | a in W ensures G[a] == Without(W, rem[..k + 1])[a] {
        }
      }
    }
    assert rem[..|rem|] == rem;
  }

  /** Removing the collected pairs from a symmetric graph leaves the strong
      graph. */
  lemma WithoutTriangles(W: Graph, rem: seq<(Pos, Pos)>)
    requires Symmetric(W)
    requires forall e :: e in rem <==> OnTriangle(W, e.0, e.1)
    ensures Without(W, rem) == StrongOf(W)
  {
    forall a | a in W ensures Without(W, rem)[a] == StrongOf(W)[a] {
      forall b | b in W[a] ensures (a, b) in rem || (b, a) in rem <==> W[a] * W[b] != {} {
        assert W[b] * W[a] == W[a] * W[b];
      }
    }
  }
}
