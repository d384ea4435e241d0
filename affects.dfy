/** The read-only `affects` query of every constraint (constraints.rs): the
    Poss candidates a rule would remove if candidate p were True. */
module Affects {
  import opened Candidates
  import opened Boards
  import opened Rules

  /** q is among the candidates `affects` of rule r reports for p: both are
      Poss, q is not p, and r links them. Row, Col and Digit link the other
      candidates of p's line; Cell the same digit in the other listed cells,
      when p's cell is listed; LessThan, from a low digit z the high cell's
      digits below z, and from a high digit z the low cell's digits above z;
      Given links nothing. */
  ghost predicate Reports(r: Rule, n: nat, g: seq<LogicVal>, p: Pos, q: Pos)
    requires |g| == Cube(n) && InRange(n, p)
  {
    At(n, g, p) == Poss && InRange(n, q) && q != p && At(n, g, q) == Poss &&
    match r
    case Given(_) => false
    case LessThan(l, h) =>
      if (p.x, p.y) == l then (q.x, q.y) == h && q.z < p.z
      else (p.x, p.y) == h && (q.x, q.y) == l && q.z > p.z
    case _ => Peer(r, p, q)
  }

  /** On a line, the coordinate along the line determines the candidate. */
  lemma LineDetermined(r: Rule, p: Pos, q: Pos)
    requires IsLine(r) && Peer(r, p, q)
    ensures q == LinePos(r, p, LineCoord(r, q))
    ensures q == p <==> LineCoord(r, q) == LineCoord(r, p)
  {
  }

  /** `affects` of Row, Col and Digit: the other Poss candidates of p's line,
      in increasing order along the line; nothing when p is not Poss. */
  method LineAffects(r: Rule, b: SdkBoard, p: Pos) returns (ret: seq<Pos>)
    requires IsLine(r) && b.Valid() && InRange(b.size, p)
    ensures forall q :: q in ret <==> Reports(r, b.size, b.data[..], p, q)
    ensures forall i, j :: 0 <= i < j < |ret| ==> LineCoord(r, ret[i]) < LineCoord(r, ret[j])
  {
    ret := [];
    if b.Get(p) != Poss {
      return;
    }
    for k := 0 to b.size
      invariant forall q :: q in ret <==> Reports(r, b.size, b.data[..], p, q) && LineCoord(r, q) < k
      invariant forall i :: 0 <= i < |ret| ==> LineCoord(r, ret[i]) < k
      invariant forall i, j :: 0 <= i < j < |ret| ==> LineCoord(r, ret[i]) < LineCoord(r, ret[j])
    {
      if k == LineCoord(r, p) {
        forall q | Reports(r, b.size, b.data[..], p, q) ensures LineCoord(r, q) != k {
          LineDetermined(r, p, q);
        }
        continue;
      }
      var q := LinePos(r, p, k);
      forall q' | Reports(r, b.size, b.data[..], p, q') && LineCoord(r, q') == k ensures q' == q {
        LineDetermined(r, p, q');
      }
      LineDetermined(r, p, q);
      if b.Get(q) == Poss {
        ret := ret + [q];
      }
    }
  }

  /** `affects` of Cell: the same digit, still Poss, in the other listed
      cells; nothing when p is not Poss or its cell is not listed. */
  method CellAffects(r: Rule, b: SdkBoard, p: Pos) returns (ret: seq<Pos>)
    requires r.Cell? && WellFormed(r, b.size) && b.Valid() && InRange(b.size, p)
    ensures forall q :: q in ret <==> Reports(r, b.size, b.data[..], p, q)
  {
    ret := [];
    if b.Get(p) != Poss || (p.x, p.y) !in r.cells {
      return;
    }
    for k := 0 to |r.cells|
      invariant forall q :: q in ret <==> Reports(r, b.size, b.data[..], p, q) && (q.x, q.y) in r.cells[..k]
    {
      assert r.cells[..k + 1] == r.cells[..k] + [r.cells[k]];
      var c := r.cells[k];
      if c == (p.x, p.y) {
        continue;
      }
      var q := CellPos(c, p.z);
      if b.Get(q) == Poss {
        ret := ret + [q];
      }
    }
    assert r.cells[..|r.cells|] == r.cells;
  }

  /** `affects` of LessThan: from a Poss low digit z, the Poss high digits
      below z; from a Poss high digit z, the Poss low digits above z; in
      increasing digit order. */
  method LessThanAffects(r: Rule, b: SdkBoard, p: Pos) returns (ret: seq<Pos>)
    requires r.LessThan? && WellFormed(r, b.size) && b.Valid() && InRange(b.size, p)
    ensures forall q :: q in ret <==> Reports(r, b.size, b.data[..], p, q)
    ensures forall i, j :: 0 <= i < j < |ret| ==> ret[i].z < ret[j].z
  {
    ret := [];
    if b.Get(p) != Poss || !((p.x, p.y) == r.lpos || (p.x, p.y) == r.hpos) {
      return;
    }
    if (p.x, p.y) == r.lpos {
      for zh := 0 to p.z
        invariant forall q :: q in ret <==> Reports(r, b.size, b.data[..], p, q) && q.z < zh
        invariant forall i :: 0 <= i < |ret| ==> ret[i].z < zh
        invariant forall i, j :: 0 <= i < j < |ret| ==> ret[i].z < ret[j].z
      {
        var q := CellPos(r.hpos, zh);
        if b.Get(q) == Poss {
          ret := ret + [q];
        }
      }
    } else {
      for zl := p.z + 1 to b.size
        invariant forall q :: q in ret <==> Reports(r, b.size, b.data[..], p, q) && q.z < zl
        invariant forall i :: 0 <= i < |ret| ==> p.z < ret[i].z < zl
        invariant forall i, j :: 0 <= i < j < |ret| ==> ret[i].z < ret[j].z
      {
        var q := CellPos(r.lpos, zl);
        if b.Get(q) == Poss {
          ret := ret + [q];
        }
      }
    }
  }

  /** A uniqueness rule's `affects` agrees with its `apply`: every candidate
      reported for p is removed by `apply` once p is True. */
  lemma ReportsRemovedByApply(r: Rule, n: nat, g: seq<LogicVal>, p: Pos, q: Pos)
    requires IsUnique(r) && |g| == Cube(n) && InRange(n, p)
    requires Reports(r, n, g, p, q)
    ensures At(n, Applied(r, n, g[Index(n, p) := True]), q) == False
  {
    var g' := g[Index(n, p) := True];
    IndexInjective(n, p, q);
    assert At(n, g', p) == True;
    assert HasTruePeer(r, n, g', q);
    AppliedAt(r, n, g', q);
  }

  /** The reported relation is symmetric, except for a LessThan between a
      cell and itself. */
  lemma ReportsSymmetric(r: Rule, n: nat, g: seq<LogicVal>, p: Pos, q: Pos)
    requires |g| == Cube(n) && InRange(n, p) && InRange(n, q)
    requires r.LessThan? ==> r.lpos != r.hpos
    ensures Reports(r, n, g, p, q) <==> Reports(r, n, g, q, p)
  {
  }
}
