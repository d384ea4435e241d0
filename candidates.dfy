/** The candidate space of a 3-D digit-placement puzzle: the tri-state value
    every candidate holds, the (row, column, digit) identity of a candidate,
    its slot in the flat board, and the enumeration of all candidates. */
module Candidates {

  /** The state of one candidate: proven, still possible, or eliminated. */
  datatype LogicVal = True | Poss | False

  /** The hand-written equality on tri-state values. */
  function Equal(a: LogicVal, b: LogicVal): (r: bool)
    ensures r <==> a == b
  {
    match a
    case True => (match b case True => true case _ => false)
    case Poss => (match b case Poss => true case _ => false)
    case False => (match b case False => true case _ => false)
  }

  /** A candidate (row x, column y, digit z); `Tuple3D` in the program. */
  datatype Pos = Pos(x: nat, y: nat, z: nat)

  predicate InRange(n: nat, p: Pos) {
    p.x < n && p.y < n && p.z < n
  }

  /** Strict lexicographic order on candidates. */
  predicate LexLess(p: Pos, q: Pos) {
    p.x < q.x || (p.x == q.x && (p.y < q.y || (p.y == q.y && p.z < q.z)))
  }

  // ----- slot arithmetic ------------------------------------------------------
  //
  // Products are written with Mul, a recursive function, so that the solver
  // treats them as opaque terms and only the lemmas below reason about them
  // as multiplication.

  /** a * b, by repeated addition. */
  function Mul(a: nat, b: nat): nat
  {
    if b == 0 then 0 else Mul(a, b - 1) + a
  }

  lemma {:induction false} MulIsProduct(a: nat, b: nat)
    ensures Mul(a, b) == a * b
  {
    if b > 0 {
      MulIsProduct(a, b - 1);
    }
  }

  lemma {:induction false} MulMonotone(a: nat, b: nat, b': nat)
    requires b <= b'
    ensures Mul(a, b) <= Mul(a, b')
    decreases b' - b
  {
    if b < b' {
      MulMonotone(a, b, b' - 1);
    }
  }

  /** Number of candidates of an n-sized board, SIZE*SIZE*SIZE. */
  function Cube(n: nat): nat { Mul(n, Mul(n, n)) }

  /** The slot of candidate p in the flat board, SIZE*SIZE*x + SIZE*y + z,
      written as SIZE*(SIZE*x + y) + z. */
  function Index(n: nat, p: Pos): (i: nat)
    ensures InRange(n, p) ==> i < Cube(n)
  {
    if InRange(n, p) then IndexBound(n, p); Mul(n, Mul(n, p.x) + p.y) + p.z
    else Mul(n, Mul(n, p.x) + p.y) + p.z
  }

  lemma IndexIsProduct(n: nat, p: Pos)
    ensures Index(n, p) == n * n * p.x + n * p.y + p.z
  {
    MulIsProduct(n, p.x);
    MulIsProduct(n, Mul(n, p.x) + p.y);
    assert n * (n * p.x + p.y) == n * n * p.x + n * p.y;
  }

  /** Cell number c (that is, cell (x, y) with c = SIZE*x + y) is below
      SIZE*SIZE, and its digits end before the end of the board. */
  lemma CellBound(n: nat, x: nat, y: nat)
    requires x < n && y < n
    ensures Mul(n, x) + y < Mul(n, n)
    ensures Mul(n, Mul(n, x) + y) + n <= Cube(n)
  {
    MulMonotone(n, x + 1, n);
    MulMonotone(n, Mul(n, x) + y + 1, Mul(n, n));
  }

  lemma IndexBound(n: nat, p: Pos)
    requires InRange(n, p)
    ensures Mul(n, Mul(n, p.x) + p.y) + p.z < Cube(n)
  {
    CellBound(n, p.x, p.y);
  }

  /** The next slot in lexicographic order. */
  lemma IndexStep(n: nat, x: nat, y: nat, z: nat)
    ensures Index(n, Pos(x, y, z)) + 1 == Index(n, Pos(x, y, z + 1))
    ensures Index(n, Pos(x, y, n)) == Index(n, Pos(x, y + 1, 0))
    ensures Index(n, Pos(x, n, 0)) == Index(n, Pos(x + 1, 0, 0))
    ensures Index(n, Pos(0, 0, 0)) == 0 && Index(n, Pos(n, 0, 0)) == Cube(n)
  {
  }

  /** The slot after (x, y, z) is that of (x, y, z + 1). */
  lemma IndexNext(n: nat, x: nat, y: nat, z: nat)
    ensures Index(n, Pos(x, y, z)) + 1 == Index(n, Pos(x, y, z + 1))
  {
  }

  /** The slot after the last digit of cell (x, y) starts cell (x, y + 1). */
  lemma IndexNextCell(n: nat, x: nat, y: nat)
    ensures Index(n, Pos(x, y, n)) == Index(n, Pos(x, y + 1, 0))
  {
  }

  lemma MulLe(a: nat, b: nat, c: nat)
    requires a <= b
    ensures c * a <= c * b
  {
  }

  lemma DivModUnique(a: int, b: int, q: int, r: int)
    requires b > 0 && 0 <= r < b && a == b * q + r
    ensures a / b == q && a % b == r
  {
    var q', r' := a / b, a % b;
    assert b * q' + r' == b * q + r;
    assert b * (q' - q) == r - r';
    if q' - q >= 1 {
      MulLe(1, q' - q, b);
    } else if q' - q <= -1 {
      MulLe(1, q - q', b);
    }
  }

  /** The candidate stored in slot i (inverse of Index on in-range slots). */
  function Decode(n: nat, i: nat): Pos
    requires n > 0
  {
    Pos(i / (n * n), (i % (n * n)) / n, (i % (n * n)) % n)
  }

  lemma DecodeIndex(n: nat, p: Pos)
    requires InRange(n, p)
    ensures Decode(n, Index(n, p)) == p
  {
    IndexIsProduct(n, p);
    SlotSplit(n, n * n, Index(n, p), p.x, p.y, p.z);
  }

  lemma SlotSplit(n: nat, nn: nat, a: nat, x: nat, y: nat, z: nat)
    requires n > 0 && x < n && y < n && z < n && nn == n * n && a == nn * x + n * y + z
    ensures a / nn == x && (a % nn) / n == y && (a % nn) % n == z
  {
    var r := n * y + z;
    MulLe(y + 1, n, n);
    assert r < nn;
    DivModUnique(a, nn, x, r);
    DivModUnique(r, n, y, z);
  }

  lemma IndexDecode(n: nat, i: nat)
    requires i < Cube(n)
    ensures n > 0 && InRange(n, Decode(n, i)) && Index(n, Decode(n, i)) == i
  {
    MulIsProduct(n, n);
    MulIsProduct(n, n * n);
    SlotJoin(n, n * n, i, n * (n * n));
    IndexIsProduct(n, Decode(n, i));
  }

  lemma SlotJoin(n: nat, nn: nat, i: nat, c: nat)
    requires nn == n * n && c == n * nn && i < c
    ensures n > 0 && i / nn < n && (i % nn) / n < n
    ensures i == nn * (i / nn) + n * ((i % nn) / n) + (i % nn) % n
  {
    var r := i % nn;
    assert i == nn * (i / nn) + r;
    assert r == n * (r / n) + r % n;
    if i / nn >= n {
      MulLe(n, i / nn, nn);
      assert false;
    }
    if r / n >= n {
      MulLe(n, r / n, n);
      assert false;
    }
  }

  /** Slots of distinct in-range candidates differ. */
  lemma IndexInjective(n: nat, p: Pos, q: Pos)
    requires InRange(n, p) && InRange(n, q) && p != q
    ensures Index(n, p) != Index(n, q)
  {
    if Index(n, p) == Index(n, q) {
      DecodeIndex(n, p);
      DecodeIndex(n, q);
    }
  }

  /** The lexicographic order is the order of slots. */
  lemma IndexOrder(n: nat, p: Pos, q: Pos)
    requires InRange(n, p) && InRange(n, q)
    ensures LexLess(p, q) <==> Index(n, p) < Index(n, q)
  {
    if p.x < q.x {
      SlotsOrdered(n, p, q);
    } else if q.x < p.x {
      SlotsOrdered(n, q, p);
    } else if p.y < q.y {
      SlotsOrdered(n, p, q);
    } else if q.y < p.y {
      SlotsOrdered(n, q, p);
    }
  }

  lemma SlotsOrdered(n: nat, p: Pos, q: Pos)
    requires InRange(n, p) && InRange(n, q)
    requires p.x < q.x || (p.x == q.x && p.y < q.y)
    ensures Index(n, p) < Index(n, q)
  {
    var cp, cq := Mul(n, p.x) + p.y, Mul(n, q.x) + q.y;
    if p.x < q.x {
      MulMonotone(n, p.x + 1, q.x);
    }
    assert cp + 1 <= cq;
    MulMonotone(n, cp + 1, cq);
  }

  /** The value of candidate p in a flat board g. */
  function At(n: nat, g: seq<LogicVal>, p: Pos): LogicVal
    requires |g| == Cube(n) && InRange(n, p)
  {
    g[Index(n, p)]
  }

  /** Two boards that agree on every candidate are equal. */
  lemma EqualAtPositions(n: nat, g: seq<LogicVal>, h: seq<LogicVal>)
    requires |g| == Cube(n) && |h| == Cube(n)
    requires forall p :: InRange(n, p) ==> At(n, g, p) == At(n, h, p)
    ensures g == h
  {
    forall i | 0 <= i < |g| ensures g[i] == h[i] {
      IndexDecode(n, i);
      assert At(n, g, Decode(n, i)) == At(n, h, Decode(n, i));
    }
  }

  /** The candidate of every slot, in slot order. */
  function AllPositions(n: nat): (ps: seq<Pos>)
    ensures |ps| == Cube(n)
  {
    seq(Cube(n), i requires 0 <= i < Cube(n) => IndexDecode(n, i); Decode(n, i))
  }

  /** `positions` enumerates exactly the in-range candidates, each once, in
      strictly increasing lexicographic order. */
  lemma AllPositionsSpec(n: nat)
    ensures forall p :: p in AllPositions(n) <==> InRange(n, p)
    ensures forall p :: InRange(n, p) ==> AllPositions(n)[Index(n, p)] == p
    ensures forall i, j :: 0 <= i < j < Cube(n) ==> LexLess(AllPositions(n)[i], AllPositions(n)[j])
  {
    var ps := AllPositions(n);
    forall p | InRange(n, p) ensures ps[Index(n, p)] == p {
      DecodeIndex(n, p);
    }
    forall i | 0 <= i < Cube(n) ensures InRange(n, ps[i]) && Index(n, ps[i]) == i {
      IndexDecode(n, i);
    }
    forall i, j | 0 <= i < j < Cube(n) ensures LexLess(ps[i], ps[j]) {
      IndexOrder(n, ps[i], ps[j]);
    }
  }

  /** All slots before position i hold their decoded candidate. */
  ghost predicate DecodedPrefix(n: nat, ret: seq<Pos>) {
    forall i :: 0 <= i < |ret| ==> n > 0 && ret[i] == Decode(n, i)
  }

  /** `Tuple3D::positions`: the triple loop pushing every (x, y, z). */
  method Positions(n: nat) returns (ret: seq<Pos>)
    ensures ret == AllPositions(n)
  {
    ret := [];
    IndexStep(n, 0, 0, 0);
    for x := 0 to n
      invariant |ret| == Index(n, Pos(x, 0, 0)) && DecodedPrefix(n, ret)
    {
      ret := PushRow(n, x, ret);
    }
    IndexStep(n, n, 0, 0);
  }

  /** The y and z loops of `positions` for row x. */
  method PushRow(n: nat, x: nat, acc: seq<Pos>) returns (ret: seq<Pos>)
    requires x < n
    requires |acc| == Index(n, Pos(x, 0, 0)) && DecodedPrefix(n, acc)
    ensures |ret| == Index(n, Pos(x + 1, 0, 0)) && DecodedPrefix(n, ret)
  {
    ret := acc;
    for y := 0 to n
      invariant |ret| == Index(n, Pos(x, y, 0)) && DecodedPrefix(n, ret)
    {
      ret := PushCell(n, x, y, ret);
    }
    IndexStep(n, x, n, 0);
  }

  /** The z loop of `positions` for cell (x, y). */
  method PushCell(n: nat, x: nat, y: nat, acc: seq<Pos>) returns (ret: seq<Pos>)
    requires x < n && y < n
    requires |acc| == Index(n, Pos(x, y, 0)) && DecodedPrefix(n, acc)
    ensures |ret| == Index(n, Pos(x, y + 1, 0)) && DecodedPrefix(n, ret)
  {
    ret := acc;
    for z := 0 to n
      invariant |ret| == Index(n, Pos(x, y, z)) && DecodedPrefix(n, ret)
    {
      IndexStep(n, x, y, z);
      DecodeIndex(n, Pos(x, y, z));
      ret := ret + [Pos(x, y, z)];
    }
    IndexStep(n, x, y, n);
  }

  // ----- counting values --------------------------------------------------------

  /** Number of entries of s equal to v. */
  function Count(s: seq<LogicVal>, v: LogicVal): (c: nat)
    ensures c <= |s|
  {
    if |s| == 0 then 0
    else Count(s[..|s| - 1], v) + (if s[|s| - 1] == v then 1 else 0)
  }

  /** Count agrees with the size of the set of slots holding v. */
  lemma {:induction false} CountIsCardinality(s: seq<LogicVal>, v: LogicVal)
    ensures Count(s, v) == |set i | 0 <= i < |s| && s[i] == v|
  {
    if |s| > 0 {
      var t := s[..|s| - 1];
      CountIsCardinality(t, v);
      var a := set i | 0 <= i < |t| && t[i] == v;
      var b := set i | 0 <= i < |s| && s[i] == v;
      if s[|s| - 1] == v {
        assert b == a + {|s| - 1};
      } else {
        assert b == a;
      }
    }
  }

  /** s' refines s: every candidate keeps its value or leaves Poss. */
  ghost predicate Refines(s: seq<LogicVal>, s': seq<LogicVal>) {
    |s| == |s'| && forall i :: 0 <= i < |s| ==> s'[i] == s[i] || s[i] == Poss
  }

  /** A step allowed to a rule: keep, leave Poss, or False to True (the
      given rule sets its candidate whatever it held). */
  ghost predicate NoNewPoss(s: seq<LogicVal>, s': seq<LogicVal>) {
    |s| == |s'| && forall i :: 0 <= i < |s| ==> s'[i] == s[i] || s'[i] != Poss
  }

  /** No step creates a Poss, so the number of Poss never grows, and strictly
      drops when one Poss is settled. */
  lemma {:induction false} PossCountDrops(s: seq<LogicVal>, s': seq<LogicVal>)
    requires NoNewPoss(s, s')
    ensures Count(s', Poss) <= Count(s, Poss)
    ensures (exists i :: 0 <= i < |s| && s[i] == Poss && s'[i] != Poss) ==>
              Count(s', Poss) < Count(s, Poss)
  {
    if |s| > 0 {
      var k := |s| - 1;
      assert NoNewPoss(s[..k], s'[..k]);
      PossCountDrops(s[..k], s'[..k]);
      if exists i :: 0 <= i < |s| && s[i] == Poss && s'[i] != Poss {
        var i :| 0 <= i < |s| && s[i] == Poss && s'[i] != Poss;
        if i < k {
          assert s[..k][i] == Poss && s'[..k][i] != Poss;
        }
      }
    }
  }

  /** Under refinement the number of True entries never drops, and if it
      changed some Poss became True. */
  lemma {:induction false} NewTrueExists(s: seq<LogicVal>, s': seq<LogicVal>)
    requires Refines(s, s')
    ensures Count(s, True) <= Count(s', True)
    ensures Count(s, True) != Count(s', True) ==>
              exists i :: 0 <= i < |s| && s[i] == Poss && s'[i] == True
  {
    if |s| > 0 {
      var k := |s| - 1;
      assert Refines(s[..k], s'[..k]);
      NewTrueExists(s[..k], s'[..k]);
      if Count(s[..k], True) != Count(s'[..k], True) {
        var i :| 0 <= i < k && s[..k][i] == Poss && s'[..k][i] == True;
        assert s[i] == Poss && s'[i] == True;
      }
    }
  }
}
