/** `SdkBoard`: one tri-state value per candidate, stored in a flat buffer at
    slot SIZE*SIZE*x + SIZE*y + z, with the solved-count bookkeeping and the
    serialisation of a solved grid. */
module Boards {
  import opened Wrappers
  import opened Candidates
  import opened Decimal

  // ----- one cell -------------------------------------------------------------
  //
  // The SIZE digits of cell (x, y) occupy consecutive slots, starting at slot
  // SIZE * (SIZE*x + y); SIZE*x + y is the number of the cell in row-major
  // order.

  /** The SIZE digit values of cell number c. */
  function CellSlice(n: nat, g: seq<LogicVal>, c: nat): (s: seq<LogicVal>)
    requires |g| == Cube(n) && c < Mul(n, n)
    ensures |s| == n
  {
    SliceBound(n, c);
    g[Mul(n, c) .. Mul(n, c) + n]
  }

  lemma SliceBound(n: nat, c: nat)
    requires c < Mul(n, n)
    ensures Mul(n, c) + n <= Cube(n)
  {
    MulMonotone(n, c + 1, Mul(n, n));
  }

  /** The SIZE digit values of cell (x, y), digit z at position z. */
  function CellValues(n: nat, g: seq<LogicVal>, x: nat, y: nat): (s: seq<LogicVal>)
    requires |g| == Cube(n) && x < n && y < n
    ensures |s| == n
  {
    CellBound(n, x, y);
    CellSlice(n, g, Mul(n, x) + y)
  }

  lemma CellValuesAt(n: nat, g: seq<LogicVal>, x: nat, y: nat, z: nat)
    requires |g| == Cube(n) && x < n && y < n && z < n
    ensures CellValues(n, g, x, y)[z] == At(n, g, Pos(x, y, z))
  {
    CellBound(n, x, y);
  }

  /** The first position z' >= z of s that is True. */
  function FirstTrue(s: seq<LogicVal>, z: nat): (d: Option<nat>)
    ensures d.Some? ==> z <= d.value < |s| && s[d.value] == True
    ensures d.Some? ==> forall z' :: z <= z' < d.value ==> s[z'] != True
    ensures d.None? ==> forall z' :: z <= z' < |s| ==> s[z'] != True
    decreases |s| - z
  {
    if z >= |s| then None
    else if s[z] == True then Some(z)
    else FirstTrue(s, z + 1)
  }

  /** No two positions of s are True. */
  ghost predicate AtMostOneTrue(s: seq<LogicVal>) {
    forall i, j :: 0 <= i < j < |s| ==> s[i] != True || s[j] != True
  }

  /** With at most one True entry, the True count is at most one, and it is
      one exactly when there is a first True entry. */
  lemma OneTrueCount(s: seq<LogicVal>)
    requires AtMostOneTrue(s)
    ensures Count(s, True) <= 1
    ensures Count(s, True) == 1 <==> FirstTrue(s, 0).Some?
  {
    PrefixTrueCount(s, |s|);
    assert s[..|s|] == s;
  }

  lemma {:induction false} PrefixTrueCount(s: seq<LogicVal>, k: nat)
    requires k <= |s| && AtMostOneTrue(s)
    ensures Count(s[..k], True) <= 1
    ensures Count(s[..k], True) == 0 <==> forall i :: 0 <= i < k ==> s[i] != True
  {
    if k > 0 {
      PrefixTrueCount(s, k - 1);
      assert s[..k][..k - 1] == s[..k - 1];
    }
  }

  // ----- reading a solved grid ----------------------------------------------------

  /** The digit of cell number c: its first True digit, if any. */
  function CellDigitOf(n: nat, g: seq<LogicVal>, c: nat): Option<nat>
    requires |g| == Cube(n) && c < Mul(n, n)
  {
    FirstTrue(CellSlice(n, g, c), 0)
  }

  /** The digit of cell (x, y). */
  function CellDigit(n: nat, g: seq<LogicVal>, x: nat, y: nat): Option<nat>
    requires |g| == Cube(n) && x < n && y < n
  {
    CellBound(n, x, y);
    CellDigitOf(n, g, Mul(n, x) + y)
  }

  /** Every cell has a True digit. */
  ghost predicate AllCellsFilled(n: nat, g: seq<LogicVal>)
    requires |g| == Cube(n)
  {
    forall c :: 0 <= c < Mul(n, n) ==> CellDigitOf(n, g, c).Some?
  }

  /** No cell has two True digits (the invariant digit uniqueness keeps). */
  ghost predicate AtMostOneDigit(n: nat, g: seq<LogicVal>)
    requires |g| == Cube(n)
  {
    forall c :: 0 <= c < Mul(n, n) ==> AtMostOneTrue(CellSlice(n, g, c))
  }

  /** The digit of every cell, in row-major order. */
  function Digits(n: nat, g: seq<LogicVal>): (ds: seq<Option<nat>>)
    requires |g| == Cube(n)
    ensures |ds| == Mul(n, n)
  {
    seq(Mul(n, n), c requires 0 <= c < Mul(n, n) => CellDigitOf(n, g, c))
  }

  /** The text `serialize` writes for digit z: z + 1 in decimal and a comma. */
  function DigitWord(z: nat): string
  {
    NatToString(z + 1) + ","
  }

  /** The words of the first k cells, concatenated. */
  function Text(ds: seq<Option<nat>>, k: nat): string
    requires k <= |ds|
  {
    if k == 0 then ""
    else Text(ds, k - 1) + (match ds[k - 1] case Some(z) => DigitWord(z) case None => "")
  }

  /** What `serialize` has produced after the first k cells: None once a cell
      without a True digit has been met. */
  function Ser(ds: seq<Option<nat>>, k: nat): Option<string>
    requires k <= |ds|
  {
    if k == 0 then Some("")
    else
      match Ser(ds, k - 1)
      case None => None
      case Some(a) =>
        match ds[k - 1]
        case None => None
        case Some(z) => Some(a + DigitWord(z))
  }

  /** Cell (x, y) is entry SIZE*x + y of the digit sequence. */
  lemma DigitsAt(n: nat, g: seq<LogicVal>, x: nat, y: nat)
    requires |g| == Cube(n) && x < n && y < n
    ensures Mul(n, x) + y < Mul(n, n)
    ensures Digits(n, g)[Mul(n, x) + y] == CellDigit(n, g, x, y)
  {
    CellBound(n, x, y);
  }

  /** One step of the y loop of `serialize` past cell (x, y), whose digit
      is d; when d is None, the whole row fails. */
  lemma SerCellStep(n: nat, g: seq<LogicVal>, x: nat, y: nat, k: nat, s: string, d: Option<nat>)
    requires |g| == Cube(n) && x < n && y < n && k == Mul(n, x) + y < Mul(n, n)
    requires Ser(Digits(n, g), k) == Some(s) && d == CellDigit(n, g, x, y)
    ensures Mul(n, x + 1) <= Mul(n, n)
    ensures d.None? ==> Ser(Digits(n, g), Mul(n, x + 1)) == None
    ensures d.Some? ==> Ser(Digits(n, g), k + 1) == Some(s + DigitWord(d.value))
  {
    DigitsAt(n, g, x, y);
    MulMonotone(n, x + 1, n);
    SerStep(Digits(n, g), k, s);
    if d.None? {
      SerStaysNone(Digits(n, g), k + 1, Mul(n, x + 1));
    }
  }

  /** One step of serialisation past a cell with digit z. */
  lemma SerStep(ds: seq<Option<nat>>, k: nat, a: string)
    requires k < |ds| && Ser(ds, k) == Some(a)
    ensures ds[k].None? ==> Ser(ds, k + 1) == None
    ensures ds[k].Some? ==> Ser(ds, k + 1) == Some(a + DigitWord(ds[k].value))
  {
  }

  /** Once serialisation has failed it stays failed. */
  lemma {:induction false} SerStaysNone(ds: seq<Option<nat>>, j: nat, k: nat)
    requires j <= k <= |ds| && Ser(ds, j).None?
    ensures Ser(ds, k).None?
    decreases k
  {
    if j < k {
      SerStaysNone(ds, j, k - 1);
    }
  }

  /** Serialisation of the first k cells fails exactly when one of them has
      no digit. */
  lemma {:induction false} SerNone(ds: seq<Option<nat>>, k: nat)
    requires k <= |ds|
    ensures Ser(ds, k).None? <==> exists c :: 0 <= c < k && ds[c].None?
  {
    if k > 0 {
      SerNone(ds, k - 1);
    }
  }

  /** When it succeeds, it yields the concatenated words of the cells. */
  lemma {:induction false} SerText(ds: seq<Option<nat>>, k: nat)
    requires k <= |ds|
    ensures Ser(ds, k).Some? ==> Ser(ds, k).value == Text(ds, k)
  {
    if k > 0 {
      SerText(ds, k - 1);
    }
  }

  /** `serialize` yields a string exactly when every cell has a True digit,
      and the string lists each cell's digit plus one, comma-terminated, in
      row-major order. */
  lemma SerializeSpec(n: nat, g: seq<LogicVal>)
    requires |g| == Cube(n)
    ensures Ser(Digits(n, g), Mul(n, n)).None? <==> !AllCellsFilled(n, g)
    ensures Ser(Digits(n, g), Mul(n, n)).Some? ==>
              Ser(Digits(n, g), Mul(n, n)).value == Text(Digits(n, g), Mul(n, n))
  {
    var ds := Digits(n, g);
    SerNone(ds, Mul(n, n));
    SerText(ds, Mul(n, n));
    assert forall c :: 0 <= c < Mul(n, n) ==> ds[c] == CellDigitOf(n, g, c);
  }

  // ----- counting True candidates cell by cell ---------------------------------

  lemma {:induction false} CountAppend(a: seq<LogicVal>, b: seq<LogicVal>, v: LogicVal)
    ensures Count(a + b, v) == Count(a, v) + Count(b, v)
    decreases |b|
  {
    if |b| > 0 {
      var b' := b[..|b| - 1];
      CountAppend(a, b', v);
      assert (a + b)[..|a + b| - 1] == a + b';
    } else {
      assert a + b == a;
    }
  }

  lemma CountPrefixStep(s: seq<LogicVal>, k: nat, v: LogicVal)
    requires k < |s|
    ensures Count(s[..k + 1], v) == Count(s[..k], v) + (if s[k] == v then 1 else 0)
  {
    assert s[..k + 1][..k] == s[..k];
  }

  /** The slots before cell c + 1 are the slots before cell c and cell c. */
  lemma CountCellStep(n: nat, g: seq<LogicVal>, c: nat)
    requires |g| == Cube(n) && c < Mul(n, n)
    ensures Mul(n, c + 1) <= |g|
    ensures Count(g[..Mul(n, c + 1)], True) == Count(g[..Mul(n, c)], True) + Count(CellSlice(n, g, c), True)
  {
    SliceBound(n, c);
    assert g[..Mul(n, c + 1)] == g[..Mul(n, c)] + CellSlice(n, g, c);
    CountAppend(g[..Mul(n, c)], CellSlice(n, g, c), True);
  }

  /** The slots before row x, and before cell (x, y), lie in the board. */
  lemma CellStartBound(n: nat, x: nat, y: nat)
    requires x <= n && y <= n && (x == n ==> y == 0)
    ensures Mul(n, Mul(n, x) + y) <= Cube(n)
  {
    if x < n {
      MulMonotone(n, x + 1, n);
    }
    MulMonotone(n, Mul(n, x) + y, Mul(n, n));
  }

  /** The sum over the first k cells of their number of True digits. */
  function CellsCount(n: nat, g: seq<LogicVal>, k: nat): nat
    requires |g| == Cube(n) && k <= Mul(n, n)
  {
    if k == 0 then 0 else CellsCount(n, g, k - 1) + Count(CellSlice(n, g, k - 1), True)
  }

  lemma {:induction false} CountByCells(n: nat, g: seq<LogicVal>, k: nat)
    requires |g| == Cube(n) && k <= Mul(n, n)
    ensures Mul(n, k) <= |g|
    ensures Count(g[..Mul(n, k)], True) == CellsCount(n, g, k)
  {
    MulMonotone(n, k, Mul(n, n));
    if k > 0 {
      CountByCells(n, g, k - 1);
      CountCellStep(n, g, k - 1);
    }
  }

  /** Under AtMostOneDigit, cell c holds at most one True digit, and exactly
      one when it has a digit. */
  lemma CellCount(n: nat, g: seq<LogicVal>, c: nat)
    requires |g| == Cube(n) && c < Mul(n, n) && AtMostOneDigit(n, g)
    ensures Count(CellSlice(n, g, c), True) <= 1
    ensures Count(CellSlice(n, g, c), True) == 1 <==> CellDigitOf(n, g, c).Some?
  {
    OneTrueCount(CellSlice(n, g, c));
  }

  /** A sum of k terms, each at most one, is at most k, and reaches k exactly
      when every term is one. */
  lemma {:induction false} CellsCountFull(n: nat, g: seq<LogicVal>, k: nat)
    requires |g| == Cube(n) && k <= Mul(n, n) && AtMostOneDigit(n, g)
    ensures CellsCount(n, g, k) <= k
    ensures CellsCount(n, g, k) == k <==> forall c :: 0 <= c < k ==> CellDigitOf(n, g, c).Some?
  {
    if k > 0 {
      CellsCountFull(n, g, k - 1);
      CellCount(n, g, k - 1);
    }
  }

  /** While no cell has two True digits, the True count reaches the solve
      target `max_solved` = SIZE*SIZE exactly when every cell is filled, that
      is, exactly when `serialize` succeeds. */
  lemma FullIffFilled(n: nat, g: seq<LogicVal>)
    requires |g| == Cube(n) && AtMostOneDigit(n, g)
    ensures Count(g, True) <= n * n
    ensures Count(g, True) == n * n <==> AllCellsFilled(n, g)
  {
    MulIsProduct(n, n);
    CountByCells(n, g, Mul(n, n));
    assert g[..Cube(n)] == g;
    CellsCountFull(n, g, Mul(n, n));
  }

  // ----- the board ------------------------------------------------------------------

  class SdkBoard {
    const size: nat
    const data: array<LogicVal>

    ghost predicate Valid()
      reads this
    {
      data.Length == Cube(size)
    }

    /** The board of `Puzzle::init`: every candidate possible. */
    constructor (n: nat)
      ensures Valid() && size == n && fresh(data)
      ensures forall i :: 0 <= i < data.Length ==> data[i] == Poss
    {
      size := n;
      data := new LogicVal[Cube(n)](_ => Poss);
    }

    /** `get`: the value of candidate p. */
    function Get(p: Pos): LogicVal
      reads this, data
      requires Valid() && InRange(size, p)
    {
      data[Index(size, p)]
    }

    /** A write through `getm`: candidate p gets v, and no other slot changes. */
    method Set(p: Pos, v: LogicVal)
      requires Valid() && InRange(size, p)
      modifies data
      ensures data[..] == old(data[..])[Index(size, p) := v]
      ensures forall q :: InRange(size, q) && q != p ==> Get(q) == old(Get(q))
      ensures Get(p) == v
    {
      data[Index(size, p)] := v;
      forall q | InRange(size, q) && q != p ensures Get(q) == old(Get(q)) {
        IndexInjective(size, p, q);
      }
    }

    /** `num_solved`: the number of True candidates of the board. */
    method NumSolved() returns (num: nat)
      requires Valid()
      ensures num == Count(data[..], True)
    {
      num := 0;
      IndexStep(size, 0, 0, 0);
      for x := 0 to size
        invariant Index(size, Pos(x, 0, 0)) <= data.Length
        invariant num == Count(data[..][..Index(size, Pos(x, 0, 0))], True)
      {
        num := CountRow(x, num);
      }
      IndexStep(size, size, 0, 0);
      assert data[..][..Cube(size)] == data[..];
    }

    /** The y loop of `num_solved`: acc counts the True candidates of the
        rows before x, and the result also counts those of row x. */
    method CountRow(x: nat, acc: nat) returns (num: nat)
      requires Valid() && x < size
      requires acc == Count(data[..][..Index(size, Pos(x, 0, 0))], True)
      ensures Index(size, Pos(x + 1, 0, 0)) <= data.Length
      ensures num == Count(data[..][..Index(size, Pos(x + 1, 0, 0))], True)
    {
      num := acc;
      for y := 0 to size
        invariant Index(size, Pos(x, y, 0)) <= data.Length
        invariant num == Count(data[..][..Index(size, Pos(x, y, 0))], True)
      {
        num := CountCell(x, y, num);
      }
      IndexStep(size, x, size, 0);
      IndexStep(size, size, 0, 0);
    }

    /** The z loop of `num_solved`: adds the True digits of cell (x, y) to
        the count acc of the slots before the cell. */
    method CountCell(x: nat, y: nat, acc: nat) returns (num: nat)
      requires Valid() && x < size && y < size
      requires acc == Count(data[..][..Index(size, Pos(x, y, 0))], True)
      ensures Index(size, Pos(x, y + 1, 0)) <= data.Length
      ensures num == Count(data[..][..Index(size, Pos(x, y + 1, 0))], True)
    {
      num := acc;
      ghost var g := data[..];
      for z := 0 to size
        invariant Index(size, Pos(x, y, z)) <= |g|
        invariant num == Count(g[..Index(size, Pos(x, y, z))], True)
      {
        var i := Index(size, Pos(x, y, z));
        IndexStep(size, x, y, z);
        CountPrefixStep(g, i, True);
        if data[i] == True {
          num := num + 1;
        }
      }
      IndexStep(size, x, y, size);
    }

    /** `max_solved`: the solve target, one True candidate per cell. */
    function MaxSolved(): nat
      reads this
    {
      size * size
    }

    /** `clone`: a fresh board with the same contents. */
    method Clone() returns (b: SdkBoard)
      requires Valid()
      ensures fresh(b) && fresh(b.data) && b.Valid()
      ensures b.size == size && b.data[..] == data[..]
    {
      b := new SdkBoard(size);
      forall i | 0 <= i < data.Length {
        b.data[i] := data[i];
      }
    }

    /** The digit scan of `serialize` for cell (x, y): the first True digit
        of the cell, if any. */
    method FirstTrueDigit(x: nat, y: nat) returns (d: Option<nat>)
      requires Valid() && x < size && y < size
      ensures d == CellDigit(size, data[..], x, y)
    {
      ghost var cell := CellValues(size, data[..], x, y);
      var z := 0;
      while z < size
        invariant z <= size
        invariant FirstTrue(cell, z) == FirstTrue(cell, 0)
      {
        var v := Get(Pos(x, y, z));
        CellValuesAt(size, data[..], x, y, z);
        if v == True {
          return Some(z);
        }
        z := z + 1;
      }
      return None;
    }

    /** One cell of the y loop: its first True digit, and what that does
        to the text so far. */
    method CellWord(x: nat, y: nat, ghost k: nat, ghost s: string) returns (d: Option<nat>)
      requires Valid() && x < size && y < size && k == Mul(size, x) + y < Mul(size, size)
      requires Ser(Digits(size, data[..]), k) == Some(s)
      ensures d == CellDigit(size, data[..], x, y)
      ensures Mul(size, x + 1) <= Mul(size, size)
      ensures d.None? ==> Ser(Digits(size, data[..]), Mul(size, x + 1)) == None
      ensures d.Some? ==> Ser(Digits(size, data[..]), k + 1) == Some(s + DigitWord(d.value))
    {
      d := FirstTrueDigit(x, y);
      SerCellStep(size, data[..], x, y, k, s, d);
    }

    /** The y loop of `serialize` for row x: acc is the text of the rows
        before x; the result appends the words of row x, or is None at the
        first cell of the row without a True digit. */
    method SerializeRow(x: nat, acc: string) returns (r: Option<string>)
      requires Valid() && x < size
      requires Mul(size, x + 1) <= Mul(size, size)
      requires Ser(Digits(size, data[..]), Mul(size, x)) == Some(acc)
      ensures r == Ser(Digits(size, data[..]), Mul(size, x + 1))
    {
      ghost var ds := Digits(size, data[..]);
      ghost var k := Mul(size, x);
      var s := acc;
      for y := 0 to size
        invariant k == Mul(size, x) + y
        invariant Ser(ds, k) == Some(s)
      {
        CellBound(size, x, y);
        var d := CellWord(x, y, k, s);
        if d.None? {
          return None;
        }
        s := s + DigitWord(d.value);
        k := k + 1;
      }
      assert k == Mul(size, x + 1);
      return Some(s);
    }

    /** `serialize`: the digit plus one and a comma for every cell in
        row-major order, or None as soon as a cell has no True digit. */
    method Serialize() returns (s: Option<string>)
      requires Valid()
      ensures s == Ser(Digits(size, data[..]), Mul(size, size))
    {
      ghost var ds := Digits(size, data[..]);
      var acc := "";
      for x := 0 to size
        invariant Mul(size, x) <= Mul(size, size)
        invariant Ser(ds, Mul(size, x)) == Some(acc)
      {
        MulMonotone(size, x + 1, size);
        var r := SerializeRow(x, acc);
        if r.None? {
          SerStaysNone(ds, Mul(size, x + 1), Mul(size, size));
          return None;
        }
        acc := r.value;
      }
      return Some(acc);
    }
  }
}
