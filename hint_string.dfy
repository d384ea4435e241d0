/** `get_hint_string` of main.rs: the text shown for a hint, naming each
    cell by a row letter and a 1-based column number. */
module HintText {
  import opened Wrappers
  import opened Candidates
  import opened Decimal

  /** The row letter: `65 + row as u8`, the cast and the sum both kept to
      eight bits, read as a character. */
  function RowLetter(row: nat): (c: char)
    ensures c as int < 256
    ensures row < 191 ==> c as int == 65 + row
  {
    ((65 + row % 256) % 256) as char
  }

  /** One entry of the list: the row letter, the column plus one, ", ". */
  function Entry(p: Pos): string
  {
    [RowLetter(p.x)] + NatToString(p.y + 1) + ", "
  }

  /** The entries of the cells, in order. */
  function Entries(v: seq<Pos>): string
  {
    if |v| == 0 then "" else Entries(v[..|v| - 1]) + Entry(v[|v| - 1])
  }

  /** The heading: singular for at most one cell, plural otherwise. */
  function Heading(count: nat): (h: string)
  {
    if count <= 1 then "Consider cell: " else "Consider cells: "
  }

  /** The hint text for the cells v. */
  function HintString(v: seq<Pos>): string
  {
    Heading(|v|) + Entries(v)
  }

  /** `get_hint_string`: append the entries one by one, then the heading in
      front. */
  method GetHintString(v: seq<Pos>) returns (s: string)
    ensures s == HintString(v)
  {
    var entries := "";
    for k := 0 to |v|
      invariant entries == Entries(v[..k])
    {
      var pos := v[k];
      var row := ((65 + pos.x % 256) % 256) as char;
      assert v[..k + 1][..k] == v[..k];
      entries := entries + [row] + NatToString(pos.y + 1) + ", ";
    }
    assert v[..|v|] == v;
    if |v| <= 1 {
      s := "Consider cell: " + entries;
    } else {
      s := "Consider cells: " + entries;
    }
  }

  // ----- reading a hint back

  /** The length of the run of digits s starts with. */
  function DigitRun(s: string): (k: nat)
    ensures k <= |s|
    ensures forall i :: 0 <= i < k ==> IsDigit(s[i])
    ensures k < |s| ==> !IsDigit(s[k])
  {
    if |s| == 0 || !IsDigit(s[0]) then 0 else 1 + DigitRun(s[1..])
  }

  /** A list of entries read back as (row, column) pairs: a letter from
      'A', a positive numeral, ", ", and so on to the end. */
  function ParseEntries(s: string): Option<seq<(nat, nat)>>
    decreases |s|
  {
    if |s| == 0 then Some([])
    else
      var k := DigitRun(s[1..]);
      if s[0] as int < 65 || k == 0 || |s| < k + 3 || s[k + 1..k + 3] != ", " then None
      else
        var col := ParseDecimal(s[1..k + 1]);
        if col == 0 then None
        else match ParseEntries(s[k + 3..])
          case None => None
          case Some(rest) => Some([(s[0] as int - 65, col - 1)] + rest)
  }

  /** A hint text read back: the heading, which must agree with the number
      of entries, then the entries. */
  function ParseHint(s: string): Option<seq<(nat, nat)>>
  {
    if |s| >= 16 && s[..16] == "Consider cells: " then
      match ParseEntries(s[16..])
      case Some(cells) => if |cells| > 1 then Some(cells) else None
      case None => None
    else if |s| >= 15 && s[..15] == "Consider cell: " then
      match ParseEntries(s[15..])
      case Some(cells) => if |cells| <= 1 then Some(cells) else None
      case None => None
    else None
  }

  /** The (row, column) pairs of the cells. */
  function Cells(v: seq<Pos>): (r: seq<(nat, nat)>)
    ensures |r| == |v|
    ensures forall i :: 0 <= i < |v| ==> r[i] == (v[i].x, v[i].y)
  {
    if |v| == 0 then [] else [(v[0].x, v[0].y)] + Cells(v[1..])
  }

  /** The digit run of a numeral followed by ", " is the numeral. */
  lemma {:induction false} DigitRunOfNumeral(d: string, t: string)
    requires forall i :: 0 <= i < |d| ==> IsDigit(d[i])
    requires |t| > 0 && !IsDigit(t[0])
    ensures DigitRun(d + t) == |d|
  {
    if |d| > 0 {
      DigitRunOfNumeral(d[1..], t);
      assert (d + t)[1..] == d[1..] + t;
    }
  }

  /** Entries are built first to last, so they also split off the first. */
  lemma {:induction false} EntriesCons(v: seq<Pos>)
    requires |v| > 0
    ensures Entries(v) == Entry(v[0]) + Entries(v[1..])
  {
    if |v| > 1 {
      EntriesCons(v[..|v| - 1]);
      assert v[..|v| - 1][1..] == v[1..][..|v[1..]| - 1];
      assert v[..|v| - 1][0] == v[0];
    } else {
      assert v[1..] == [];
    }
  }

  /** A letter, a positive numeral and ", " in front of more text read
      back as one pair in front of what the rest reads as. */
  lemma ParseEntriesStep(c: char, d: string, rest: string)
    requires c as int >= 65 && |d| > 0
    requires forall i :: 0 <= i < |d| ==> IsDigit(d[i])
    requires ParseDecimal(d) > 0
    ensures ParseEntries([c] + d + ", " + rest) ==
      match ParseEntries(rest)
      case None => None
      case Some(r) => Some([(c as int - 65, ParseDecimal(d) - 1)] + r)
  {
    var s := [c] + d + ", " + rest;
    assert s[1..] == d + (", " + rest);
    DigitRunOfNumeral(d, ", " + rest);
    assert s[1..|d| + 1] == d;
    assert s[|d| + 1..|d| + 3] == ", ";
    assert s[|d| + 3..] == rest;
  }

  /** One entry followed by more text reads back as its cell. */
  lemma EntryParses(p: Pos, rest: string)
    requires p.x < 191
    ensures ParseEntries(Entry(p) + rest) ==
      match ParseEntries(rest)
      case None => None
      case Some(r) => Some([(p.x, p.y)] + r)
  {
    var d := NatToString(p.y + 1);
    NatToStringRoundTrip(p.y + 1);
    assert Entry(p) + rest == [RowLetter(p.x)] + d + ", " + rest;
    ParseEntriesStep(RowLetter(p.x), d, rest);
  }

  /** Reading the entries back gives the cells, when every row has a
      letter of its own (below 191 the eight-bit sum does not wrap). */
  lemma {:induction false} EntriesRoundTrip(v: seq<Pos>)
    requires forall i :: 0 <= i < |v| ==> v[i].x < 191
    ensures ParseEntries(Entries(v)) == Some(Cells(v))
  {
    if |v| > 0 {
      EntriesCons(v);
      EntriesRoundTrip(v[1..]);
      EntryParses(v[0], Entries(v[1..]));
    }
  }

  /** The hint text reads back as its cells, in order. */
  lemma {:induction false} HintRoundTrip(v: seq<Pos>)
    requires forall i :: 0 <= i < |v| ==> v[i].x < 191
    ensures ParseHint(HintString(v)) == Some(Cells(v))
  {
    var s := HintString(v);
    EntriesRoundTrip(v);
    if |v| <= 1 {
      assert s[..15] == "Consider cell: " && s[15..] == Entries(v);
      if |s| >= 16 {
        assert s[14] == ' ' && s[..16][14] == s[14];
      }
    } else {
      assert s[..16] == "Consider cells: " && s[16..] == Entries(v);
    }
  }
}
