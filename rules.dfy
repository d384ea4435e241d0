/** The constraints of constraints.rs. A constraint only ever removes
    candidates from a board (`apply`), and names the candidates that a guess
    on one candidate would exclude (`affects`). The closed set of constraint
    kinds is one datatype. */
module Rules {
  import opened Candidates
  import opened Boards

  /** Row, Col and Digit allow one True per line of the cube; Cell one True
      per digit among its cells; Given fixes one candidate; LessThan orders
      the digits of two cells. */
  datatype Rule =
    | Row
    | Col
    | Digit
    | Cell(cells: seq<(nat, nat)>)
    | Given(pos: Pos)
    | LessThan(lpos: (nat, nat), hpos: (nat, nat))

  predicate CellInRange(n: nat, c: (nat, nat)) {
    c.0 < n && c.1 < n
  }

  /** Candidate z of cell c. */
  function CellPos(c: (nat, nat), z: nat): Pos {
    Pos(c.0, c.1, z)
  }

  /** Every cell and candidate a rule names lies on the board. */
  predicate WellFormed(r: Rule, n: nat) {
    match r
    case Cell(cells) => forall i :: 0 <= i < |cells| ==> CellInRange(n, cells[i])
    case Given(p) => InRange(n, p)
    case LessThan(l, h) => CellInRange(n, l) && CellInRange(n, h)
    case _ => true
  }

  predicate IsLine(r: Rule) {
    r.Row? || r.Col? || r.Digit?
  }

  predicate IsUnique(r: Rule) {
    IsLine(r) || r.Cell?
  }

  /** A True candidate p of a uniqueness rule forbids its peer q. */
  predicate Peer(r: Rule, p: Pos, q: Pos) {
    match r
    case Row => p.x == q.x && p.z == q.z
    case Col => p.y == q.y && p.z == q.z
    case Digit => p.x == q.x && p.y == q.y
    case Cell(cells) => p.z == q.z && (p.x, p.y) in cells && (q.x, q.y) in cells
    case _ => false
  }

  /** The coordinate a line rule runs along. */
  function LineCoord(r: Rule, q: Pos): nat
    requires IsLine(r)
  {
    if r.Row? then q.y else if r.Col? then q.x else q.z
  }

  /** The k-th candidate on the line of p. */
  function LinePos(r: Rule, p: Pos, k: nat): (q: Pos)
    requires IsLine(r)
    ensures Peer(r, p, q) && LineCoord(r, q) == k
  {
    if r.Row? then Pos(p.x, k, p.z) else if r.Col? then Pos(k, p.y, p.z) else Pos(p.x, p.y, k)
  }

  /** q is among the first k targets of the inner loop of `apply`. */
  predicate Below(r: Rule, q: Pos, k: nat)
    requires IsUnique(r)
  {
    if r.Cell? then (q.x, q.y) in r.cells[..if k <= |r.cells| then k else |r.cells|]
    else LineCoord(r, q) < k
  }

  /** The number of targets of the inner loop. */
  function Width(r: Rule, n: nat): nat
    requires IsUnique(r)
  {
    if r.Cell? then |r.cells| else n
  }

  // ----- only eliminations

  /** s' differs from s only where a Poss became False. */
  ghost predicate OnlyElims(s: seq<LogicVal>, s': seq<LogicVal>) {
    |s| == |s'| && forall i :: 0 <= i < |s| ==> s'[i] == s[i] || (s[i] == Poss && s'[i] == False)
  }

  /** Eliminations compose, and after two of them the board has changed iff
      either step changed it: `did` may be accumulated step by step. */
  lemma ElimsChain(g: seq<LogicVal>, a: seq<LogicVal>, b: seq<LogicVal>)
    requires OnlyElims(g, a) && OnlyElims(a, b)
    ensures OnlyElims(g, b)
    ensures b != g <==> a != g || b != a
  {
    if b != a {
      var i :| 0 <= i < |a| && b[i] != a[i];
      assert b[i] != g[i];
    }
    if a != g {
      var i :| 0 <= i < |a| && a[i] != g[i];
      assert b[i] != g[i];
    }
  }

  // ----- the inner loop: clearing the peers of one True candidate

  /** The board h after the inner loop has visited its first k targets for
      the True candidate p: those that were Poss are False. */
  ghost function Cleared(r: Rule, n: nat, h: seq<LogicVal>, p: Pos, k: nat): (h': seq<LogicVal>)
    requires IsUnique(r) && |h| == Cube(n)
    ensures |h'| == Cube(n)
  {
    seq(Cube(n), i requires 0 <= i < Cube(n) =>
      IndexDecode(n, i);
      if h[i] == Poss && Peer(r, p, Decode(n, i)) && Below(r, Decode(n, i), k) then False else h[i])
  }

  lemma ClearedAt(r: Rule, n: nat, h: seq<LogicVal>, p: Pos, k: nat, q: Pos)
    requires IsUnique(r) && |h| == Cube(n) && InRange(n, q)
    ensures At(n, Cleared(r, n, h, p, k), q)
      == if At(n, h, q) == Poss && Peer(r, p, q) && Below(r, q, k) then False else At(n, h, q)
  {
    DecodeIndex(n, q);
  }

  /** Visiting one more target t updates exactly t's slot. */
  lemma ClearedStep(r: Rule, n: nat, h: seq<LogicVal>, p: Pos, k: nat, t: Pos)
    requires IsUnique(r) && |h| == Cube(n) && InRange(n, t) && Peer(r, p, t)
    requires forall q :: InRange(n, q) && Peer(r, p, q) ==> (Below(r, q, k + 1) <==> Below(r, q, k) || q == t)
    ensures var c := Cleared(r, n, h, p, k); var v := At(n, c, t);
      Cleared(r, n, h, p, k + 1) == c[Index(n, t) := if v == Poss then False else v]
    ensures OnlyElims(h, Cleared(r, n, h, p, k))
  {
    var c := Cleared(r, n, h, p, k);
    var v := At(n, c, t);
    var c' := c[Index(n, t) := if v == Poss then False else v];
    forall q | InRange(n, q) ensures At(n, Cleared(r, n, h, p, k + 1), q) == At(n, c', q) {
      ClearedAt(r, n, h, p, k, q);
      ClearedAt(r, n, h, p, k + 1, q);
      if q != t {
        IndexInjective(n, q, t);
      }
    }
    EqualAtPositions(n, Cleared(r, n, h, p, k + 1), c');
  }

  lemma ClearedNone(r: Rule, n: nat, h: seq<LogicVal>, p: Pos)
    requires IsUnique(r) && |h| == Cube(n)
    ensures Cleared(r, n, h, p, 0) == h
  {
    forall q | InRange(n, q) ensures At(n, Cleared(r, n, h, p, 0), q) == At(n, h, q) {
      ClearedAt(r, n, h, p, 0, q);
    }
    EqualAtPositions(n, Cleared(r, n, h, p, 0), h);
  }

  /** The k-th target of the inner loop for the True candidate p. */
  function Target(r: Rule, p: Pos, k: nat): (t: Pos)
    requires IsUnique(r) && (r.Cell? ==> k < |r.cells|)
  {
    if r.Cell? then CellPos(r.cells[k], p.z) else LinePos(r, p, k)
  }

  /** Visiting target k adds exactly that target to the visited peers. */
  lemma BelowStep(r: Rule, n: nat, p: Pos, k: nat)
    requires IsUnique(r) && (r.Cell? ==> k < |r.cells|)
    ensures forall q :: InRange(n, q) && Peer(r, p, q) ==>
      (Below(r, q, k + 1) <==> Below(r, q, k) || q == Target(r, p, k))
  {
    if r.Cell? {
      assert r.cells[..k + 1] == r.cells[..k] + [r.cells[k]];
    }
  }

  /** One round of the inner loop: target k is on the board, becomes False
      if it was Poss, and the round changes the board iff it was. */
  lemma ClearPeersStep(r: Rule, n: nat, h: seq<LogicVal>, p: Pos, k: nat, c: seq<LogicVal>)
    requires IsUnique(r) && WellFormed(r, n) && |h| == Cube(n) && InRange(n, p)
    requires r.Cell? ==> (p.x, p.y) in r.cells
    requires k < Width(r, n) && c == Cleared(r, n, h, p, k)
    ensures InRange(n, Target(r, p, k))
    ensures var t := Target(r, p, k); var v := At(n, c, t);
      var c' := c[Index(n, t) := if v == Poss then False else v];
      c' == Cleared(r, n, h, p, k + 1) && (c' != h <==> c != h || v == Poss)
  {
    var t := Target(r, p, k);
    BelowStep(r, n, p, k);
    ClearedStep(r, n, h, p, k, t);
    var v := At(n, c, t);
    ElimsChain(h, c, c[Index(n, t) := if v == Poss then False else v]);
  }

  /** The inner loop of `apply` for a True candidate p: Row, Col and Digit
      walk the line of p, Cell walks its cell list at p's digit. Each Poss
      target becomes False, and `changed` records whether one did. */
  method ClearPeers(r: Rule, b: SdkBoard, p: Pos) returns (changed: bool)
    requires IsUnique(r) && WellFormed(r, b.size) && b.Valid() && InRange(b.size, p)
    requires r.Cell? ==> (p.x, p.y) in r.cells
    modifies b.data
    ensures b.data[..] == Cleared(r, b.size, old(b.data[..]), p, Width(r, b.size))
    ensures changed <==> b.data[..] != old(b.data[..])
  {
    ghost var h := b.data[..];
    var n := b.size;
    ClearedNone(r, n, h, p);
    changed := false;
    for k := 0 to Width(r, n)
      invariant b.data[..] == Cleared(r, n, h, p, k)
      invariant changed <==> b.data[..] != h
    {
      var t := Target(r, p, k);
      ghost var c := b.data[..];
      ClearPeersStep(r, n, h, p, k, c);
      var v := b.Get(t);
      b.data[Index(n, t)] := if v == Poss then False else v;
      changed := changed || v == Poss;
    }
  }

  // ----- the outer loops: which True candidates the scan has visited

  /** How far the outer loops of `apply` have got: Row, Col and Digit visit
      the candidates in slot order, Cell visits (cell k, digit z) for each
      entry k of its list in turn. */
  datatype Progress = Slots(upto: nat) | CellList(j: nat, z: nat)

  /** The outer loops have visited candidate p. */
  ghost predicate Visited(r: Rule, n: nat, d: Progress, p: Pos) {
    match d
    case Slots(i) => Index(n, p) < i
    case CellList(j, z) =>
      r.Cell? && exists k :: 0 <= k < |r.cells| && r.cells[k] == (p.x, p.y) && (k < j || (k == j && p.z < z))
  }

  /** A visited True candidate is a peer of q. */
  ghost predicate Fired(r: Rule, n: nat, g: seq<LogicVal>, d: Progress, q: Pos)
    requires |g| == Cube(n)
  {
    exists p :: InRange(n, p) && Visited(r, n, d, p) && Peer(r, p, q) && At(n, g, p) == True
  }

  /** The board g after the visits d: a Poss candidate with a visited True
      peer is False. True candidates are never touched, so the loops may
      test them on the current board or on g alike. */
  ghost function ScanState(r: Rule, n: nat, g: seq<LogicVal>, d: Progress): (h: seq<LogicVal>)
    requires |g| == Cube(n)
    ensures |h| == Cube(n)
  {
    seq(Cube(n), i requires 0 <= i < Cube(n) =>
      IndexDecode(n, i);
      if g[i] == Poss && Fired(r, n, g, d, Decode(n, i)) then False else g[i])
  }

  lemma ScanStateAt(r: Rule, n: nat, g: seq<LogicVal>, d: Progress, q: Pos)
    requires |g| == Cube(n) && InRange(n, q)
    ensures At(n, ScanState(r, n, g, d), q)
      == if At(n, g, q) == Poss && Fired(r, n, g, d, q) then False else At(n, g, q)
  {
    DecodeIndex(n, q);
  }

  /** Visiting p in addition fires q iff p is a True peer of q. */
  lemma FiredStep(r: Rule, n: nat, g: seq<LogicVal>, d: Progress, d': Progress, p: Pos, q: Pos)
    requires |g| == Cube(n) && InRange(n, p)
    requires forall q :: InRange(n, q) ==> (Visited(r, n, d', q) <==> Visited(r, n, d, q) || q == p)
    ensures Fired(r, n, g, d', q) <==> Fired(r, n, g, d, q) || (Peer(r, p, q) && At(n, g, p) == True)
  {
    if Fired(r, n, g, d', q) {
      var p' :| InRange(n, p') && Visited(r, n, d', p') && Peer(r, p', q) && At(n, g, p') == True;
      if p' != p {
        assert Visited(r, n, d, p');
      }
    }
    if Fired(r, n, g, d, q) {
      var p' :| InRange(n, p') && Visited(r, n, d, p') && Peer(r, p', q) && At(n, g, p') == True;
      assert Visited(r, n, d', p');
    }
    if Peer(r, p, q) && At(n, g, p) == True {
      assert Visited(r, n, d', p);
    }
  }

  /** Visiting one more candidate p: if p is True the board is the one the
      inner loop leaves behind for p, otherwise nothing changes. */
  lemma ScanStep(r: Rule, n: nat, g: seq<LogicVal>, d: Progress, d': Progress, p: Pos)
    requires IsUnique(r) && |g| == Cube(n) && InRange(n, p)
    requires forall q :: InRange(n, q) ==> (Visited(r, n, d', q) <==> Visited(r, n, d, q) || q == p)
    ensures At(n, ScanState(r, n, g, d), p) == True <==> At(n, g, p) == True
    ensures At(n, g, p) == True ==>
      ScanState(r, n, g, d') == Cleared(r, n, ScanState(r, n, g, d), p, Width(r, n))
    ensures At(n, g, p) != True ==> ScanState(r, n, g, d') == ScanState(r, n, g, d)
    ensures ScanState(r, n, g, d') != g <==>
      ScanState(r, n, g, d) != g || ScanState(r, n, g, d') != ScanState(r, n, g, d)
  {
    var h, h' := ScanState(r, n, g, d), ScanState(r, n, g, d');
    var c := if At(n, g, p) == True then Cleared(r, n, h, p, Width(r, n)) else h;
    ScanStateAt(r, n, g, d, p);
    forall q | InRange(n, q) ensures At(n, h', q) == At(n, c, q) {
      ScanStateAt(r, n, g, d, q);
      ScanStateAt(r, n, g, d', q);
      FiredStep(r, n, g, d, d', p, q);
      if At(n, g, p) == True {
        ClearedAt(r, n, h, p, Width(r, n), q);
        if r.Cell? {
          assert r.cells[..|r.cells|] == r.cells;
        }
      }
    }
    EqualAtPositions(n, h', c);
    forall i | 0 <= i < Cube(n) ensures h[i] == g[i] || (g[i] == Poss && h[i] == False) {
      IndexDecode(n, i);
      ScanStateAt(r, n, g, d, Decode(n, i));
    }
    forall i | 0 <= i < Cube(n) ensures h'[i] == h[i] || (h[i] == Poss && h'[i] == False) {
      IndexDecode(n, i);
      ScanStateAt(r, n, g, d, Decode(n, i));
      ScanStateAt(r, n, g, d', Decode(n, i));
      FiredStep(r, n, g, d, d', p, Decode(n, i));
    }
    ElimsChain(g, h, h');
  }

  /** A True candidate of a uniqueness rule lies on the cells it visits. */
  predicate Source(r: Rule, p: Pos) {
    r.Cell? ==> (p.x, p.y) in r.cells
  }

  /** Two progresses that visited the same possible sources give one board. */
  lemma ScanSame(r: Rule, n: nat, g: seq<LogicVal>, d: Progress, d': Progress)
    requires |g| == Cube(n)
    requires forall p :: InRange(n, p) && Source(r, p) ==> (Visited(r, n, d, p) <==> Visited(r, n, d', p))
    ensures ScanState(r, n, g, d) == ScanState(r, n, g, d')
  {
    forall q | InRange(n, q) ensures At(n, ScanState(r, n, g, d), q) == At(n, ScanState(r, n, g, d'), q) {
      ScanStateAt(r, n, g, d, q);
      ScanStateAt(r, n, g, d', q);
      if Fired(r, n, g, d, q) {
        var p :| InRange(n, p) && Visited(r, n, d, p) && Peer(r, p, q) && At(n, g, p) == True;
        assert Visited(r, n, d', p);
      }
      if Fired(r, n, g, d', q) {
        var p :| InRange(n, p) && Visited(r, n, d', p) && Peer(r, p, q) && At(n, g, p) == True;
        assert Visited(r, n, d, p);
      }
    }
    EqualAtPositions(n, ScanState(r, n, g, d), ScanState(r, n, g, d'));
  }

  /** Nothing visited: the board is untouched. */
  lemma ScanNone(r: Rule, n: nat, g: seq<LogicVal>, d: Progress)
    requires |g| == Cube(n) && (d == Slots(0) || d == CellList(0, 0))
    ensures ScanState(r, n, g, d) == g
  {
    forall q | InRange(n, q) ensures At(n, ScanState(r, n, g, d), q) == At(n, g, q) {
      ScanStateAt(r, n, g, d, q);
    }
    EqualAtPositions(n, ScanState(r, n, g, d), g);
  }

  /** In slot order, visiting p adds exactly p. */
  lemma VisitedSlots(r: Rule, n: nat, p: Pos)
    requires InRange(n, p)
    ensures forall q :: InRange(n, q) ==>
      (Visited(r, n, Slots(Index(n, p) + 1), q) <==> Visited(r, n, Slots(Index(n, p)), q) || q == p)
  {
    forall q | InRange(n, q) && q != p ensures Index(n, q) != Index(n, p) {
      IndexInjective(n, p, q);
    }
  }

  /** In cell-list order, visiting digit z of entry j adds exactly that candidate. */
  lemma VisitedCells(r: Rule, n: nat, j: nat, z: nat)
    requires r.Cell? && j < |r.cells|
    ensures forall q :: InRange(n, q) ==>
      (Visited(r, n, CellList(j, z + 1), q) <==> Visited(r, n, CellList(j, z), q) || q == CellPos(r.cells[j], z))
  {
    forall q | InRange(n, q) && q == CellPos(r.cells[j], z) ensures Visited(r, n, CellList(j, z + 1), q) {
      assert r.cells[j] == (q.x, q.y);
    }
  }

  /** All digits of entry j done is entry j + 1 begun. */
  lemma VisitedCellsNext(r: Rule, n: nat, j: nat)
    requires r.Cell?
    ensures forall q :: InRange(n, q) ==> (Visited(r, n, CellList(j, n), q) <==> Visited(r, n, CellList(j + 1, 0), q))
  {
  }

  /** The effect of a uniqueness rule's `apply`: every candidate visited. */
  ghost function Applied(r: Rule, n: nat, g: seq<LogicVal>): (h: seq<LogicVal>)
    requires |g| == Cube(n)
    ensures |h| == Cube(n)
  {
    ScanState(r, n, g, Slots(Cube(n)))
  }

  /** Some True candidate is a peer of q. */
  ghost predicate HasTruePeer(r: Rule, n: nat, g: seq<LogicVal>, q: Pos)
    requires |g| == Cube(n)
  {
    exists p :: InRange(n, p) && Peer(r, p, q) && At(n, g, p) == True
  }

  /** No Poss candidate has a True peer: the rule has nothing to remove. */
  ghost predicate Satisfied(r: Rule, n: nat, g: seq<LogicVal>)
    requires |g| == Cube(n)
  {
    forall q :: InRange(n, q) && At(n, g, q) == Poss ==> !HasTruePeer(r, n, g, q)
  }

  /** `apply` of a uniqueness rule turns exactly the Poss candidates with a
      True peer into False and leaves every other candidate as it was. */
  lemma AppliedAt(r: Rule, n: nat, g: seq<LogicVal>, q: Pos)
    requires |g| == Cube(n) && InRange(n, q)
    ensures At(n, Applied(r, n, g), q)
      == if At(n, g, q) == Poss && HasTruePeer(r, n, g, q) then False else At(n, g, q)
  {
    ScanStateAt(r, n, g, Slots(Cube(n)), q);
    if HasTruePeer(r, n, g, q) {
      var p :| InRange(n, p) && Peer(r, p, q) && At(n, g, p) == True;
      assert Visited(r, n, Slots(Cube(n)), p);
    }
  }

  /** After `apply` only eliminations have happened, and the rule holds: no
      Poss candidate is left beside a True peer. */
  lemma AppliedSound(r: Rule, n: nat, g: seq<LogicVal>)
    requires |g| == Cube(n)
    ensures OnlyElims(g, Applied(r, n, g))
    ensures Satisfied(r, n, Applied(r, n, g))
  {
    var h := Applied(r, n, g);
    forall i | 0 <= i < Cube(n) ensures h[i] == g[i] || (g[i] == Poss && h[i] == False) {
      IndexDecode(n, i);
      AppliedAt(r, n, g, Decode(n, i));
    }
    forall p, q | InRange(n, p) && InRange(n, q) && Peer(r, p, q) && At(n, h, p) == True
      ensures At(n, h, q) != Poss
    {
      AppliedAt(r, n, g, p);
      AppliedAt(r, n, g, q);
    }
  }

  /** `apply` reports no change exactly on boards where the rule holds. */
  lemma AppliedFixpoint(r: Rule, n: nat, g: seq<LogicVal>)
    requires |g| == Cube(n)
    ensures Applied(r, n, g) == g <==> Satisfied(r, n, g)
  {
    AppliedSound(r, n, g);
    if Satisfied(r, n, g) {
      forall q | InRange(n, q) ensures At(n, Applied(r, n, g), q) == At(n, g, q) {
        AppliedAt(r, n, g, q);
      }
      EqualAtPositions(n, Applied(r, n, g), g);
    }
  }

  /** A second `apply` of the same rule changes nothing. */
  lemma AppliedIdempotent(r: Rule, n: nat, g: seq<LogicVal>)
    requires |g| == Cube(n)
    ensures Applied(r, n, Applied(r, n, g)) == Applied(r, n, g)
  {
    AppliedSound(r, n, g);
    AppliedFixpoint(r, n, Applied(r, n, g));
  }

  /** Every entry of the list done: each listed cell was visited. */
  lemma VisitedCellsAll(r: Rule, n: nat)
    requires r.Cell?
    ensures forall p :: InRange(n, p) && Source(r, p) ==>
      (Visited(r, n, CellList(|r.cells|, 0), p) <==> Visited(r, n, Slots(Cube(n)), p))
  {
    forall p | InRange(n, p) && Source(r, p) ensures Visited(r, n, CellList(|r.cells|, 0), p) {
      var k :| 0 <= k < |r.cells| && r.cells[k] == (p.x, p.y);
    }
  }

  // ----- apply of the uniqueness rules

  /** The body of the innermost outer loop: if candidate p is True, clear
      its peers. The scan moves from visits d to d', which add p. */
  method Visit(r: Rule, b: SdkBoard, p: Pos, ghost g: seq<LogicVal>, ghost d: Progress, ghost d': Progress, did0: bool)
    returns (did: bool)
    requires IsUnique(r) && WellFormed(r, b.size) && b.Valid() && |g| == Cube(b.size)
    requires InRange(b.size, p) && Source(r, p)
    requires forall q :: InRange(b.size, q) ==> (Visited(r, b.size, d', q) <==> Visited(r, b.size, d, q) || q == p)
    requires b.data[..] == ScanState(r, b.size, g, d)
    requires did0 <==> b.data[..] != g
    modifies b.data
    ensures b.data[..] == ScanState(r, b.size, g, d')
    ensures did <==> b.data[..] != g
  {
    ScanStep(r, b.size, g, d, d', p);
    did := did0;
    if b.Get(p) == True {
      var changed := ClearPeers(r, b, p);
      did := did || changed;
    }
  }

  /** `apply` of Row, Col and Digit (constraints.rs), the x loop. */
  method ApplyLines(r: Rule, b: SdkBoard) returns (did: bool)
    requires IsLine(r) && b.Valid()
    modifies b.data
    ensures b.data[..] == Applied(r, b.size, old(b.data[..]))
    ensures did <==> b.data[..] != old(b.data[..])
  {
    ghost var g := b.data[..];
    did := false;
    IndexStep(b.size, 0, 0, 0);
    ScanNone(r, b.size, g, Slots(0));
    for x := 0 to b.size
      invariant b.data[..] == ScanState(r, b.size, g, Slots(Index(b.size, Pos(x, 0, 0))))
      invariant did <==> b.data[..] != g
    {
      did := ScanLinesRow(r, b, x, g, did);
    }
    IndexStep(b.size, b.size, 0, 0);
  }

  /** The y loop of `apply` of Row, Col and Digit for row x. */
  method ScanLinesRow(r: Rule, b: SdkBoard, x: nat, ghost g: seq<LogicVal>, did0: bool) returns (did: bool)
    requires IsLine(r) && b.Valid() && |g| == Cube(b.size) && x < b.size
    requires b.data[..] == ScanState(r, b.size, g, Slots(Index(b.size, Pos(x, 0, 0))))
    requires did0 <==> b.data[..] != g
    modifies b.data
    ensures b.data[..] == ScanState(r, b.size, g, Slots(Index(b.size, Pos(x + 1, 0, 0))))
    ensures did <==> b.data[..] != g
  {
    did := did0;
    for y := 0 to b.size
      invariant b.data[..] == ScanState(r, b.size, g, Slots(Index(b.size, Pos(x, y, 0))))
      invariant did <==> b.data[..] != g
    {
      did := ScanLinesCell(r, b, x, y, g, did);
    }
    IndexStep(b.size, x, b.size, 0);
  }

  /** The z loop of `apply` of Row, Col and Digit for cell (x, y). */
  method ScanLinesCell(r: Rule, b: SdkBoard, x: nat, y: nat, ghost g: seq<LogicVal>, did0: bool) returns (did: bool)
    requires IsLine(r) && b.Valid() && |g| == Cube(b.size) && x < b.size && y < b.size
    requires b.data[..] == ScanState(r, b.size, g, Slots(Index(b.size, Pos(x, y, 0))))
    requires did0 <==> b.data[..] != g
    modifies b.data
    ensures b.data[..] == ScanState(r, b.size, g, Slots(Index(b.size, Pos(x, y + 1, 0))))
    ensures did <==> b.data[..] != g
  {
    did := did0;
    for z := 0 to b.size
      invariant b.data[..] == ScanState(r, b.size, g, Slots(Index(b.size, Pos(x, y, z))))
      invariant did <==> b.data[..] != g
    {
      IndexNext(b.size, x, y, z);
      did := VisitSlot(r, b, Pos(x, y, z), g, did);
    }
    IndexNextCell(b.size, x, y);
  }

  /** The body of the z loop: visit candidate p, the next one in slot order. */
  method VisitSlot(r: Rule, b: SdkBoard, p: Pos, ghost g: seq<LogicVal>, did0: bool) returns (did: bool)
    requires IsLine(r) && b.Valid() && |g| == Cube(b.size) && InRange(b.size, p)
    requires b.data[..] == ScanState(r, b.size, g, Slots(Index(b.size, p)))
    requires did0 <==> b.data[..] != g
    modifies b.data
    ensures b.data[..] == ScanState(r, b.size, g, Slots(Index(b.size, p) + 1))
    ensures did <==> b.data[..] != g
  {
    VisitedSlots(r, b.size, p);
    did := Visit(r, b, p, g, Slots(Index(b.size, p)), Slots(Index(b.size, p) + 1), did0);
  }

  /** `apply` of Cell (constraints.rs), the loop over the cell list. */
  method ApplyCells(r: Rule, b: SdkBoard) returns (did: bool)
    requires r.Cell? && WellFormed(r, b.size) && b.Valid()
    modifies b.data
    ensures b.data[..] == Applied(r, b.size, old(b.data[..]))
    ensures did <==> b.data[..] != old(b.data[..])
  {
    ghost var g := b.data[..];
    did := false;
    ScanNone(r, b.size, g, CellList(0, 0));
    for j := 0 to |r.cells|
      invariant b.data[..] == ScanState(r, b.size, g, CellList(j, 0))
      invariant did <==> b.data[..] != g
    {
      did := ScanCellEntry(r, b, j, g, did);
    }
    VisitedCellsAll(r, b.size);
    ScanSame(r, b.size, g, CellList(|r.cells|, 0), Slots(Cube(b.size)));
  }

  /** The z loop of `apply` of Cell for entry j of the list. */
  method ScanCellEntry(r: Rule, b: SdkBoard, j: nat, ghost g: seq<LogicVal>, did0: bool) returns (did: bool)
    requires r.Cell? && WellFormed(r, b.size) && b.Valid() && |g| == Cube(b.size) && j < |r.cells|
    requires b.data[..] == ScanState(r, b.size, g, CellList(j, 0))
    requires did0 <==> b.data[..] != g
    modifies b.data
    ensures b.data[..] == ScanState(r, b.size, g, CellList(j + 1, 0))
    ensures did <==> b.data[..] != g
  {
    did := did0;
    var c := r.cells[j];
    for z := 0 to b.size
      invariant b.data[..] == ScanState(r, b.size, g, CellList(j, z))
      invariant did <==> b.data[..] != g
    {
      var p := CellPos(c, z);
      VisitedCells(r, b.size, j, z);
      did := Visit(r, b, p, g, CellList(j, z), CellList(j, z + 1), did);
    }
    VisitedCellsNext(r, b.size, j);
    ScanSame(r, b.size, g, CellList(j, b.size), CellList(j + 1, 0));
  }
}
