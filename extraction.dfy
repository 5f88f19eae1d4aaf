/** Turning the rows of the "Support & Resistance" widget into a table: every
    row's cells are trimmed, the first two become key and value, and the row
    is assigned into the result only when both are non-empty. */
module Extraction {
  import opened Tables

  /** The code points `String.prototype.trim` removes: the ECMAScript
      WhiteSpace and LineTerminator characters. */
  predicate IsTrimmable(c: char)
  {
    var n := c as int;
    n == 0x09 || n == 0x0A || n == 0x0B || n == 0x0C || n == 0x0D || n == 0x20 ||
    n == 0xA0 || n == 0x1680 || (0x2000 <= n <= 0x200A) || n == 0x2028 ||
    n == 0x2029 || n == 0x202F || n == 0x205F || n == 0x3000 || n == 0xFEFF
  }

  /** `s` without its leading whitespace. */
  function TrimStart(s: string): (r: string)
    ensures |r| <= |s| && r == s[|s| - |r|..]
    ensures forall i :: 0 <= i < |s| - |r| ==> IsTrimmable(s[i])
    ensures r != [] ==> !IsTrimmable(r[0])
  {
    if s != [] && IsTrimmable(s[0]) then TrimStart(s[1..]) else s
  }

  /** `s` without its trailing whitespace. */
  function TrimEnd(s: string): (r: string)
    ensures |r| <= |s| && r == s[..|r|]
    ensures forall i :: |r| <= i < |s| ==> IsTrimmable(s[i])
    ensures r != [] ==> !IsTrimmable(r[|r| - 1])
  {
    if s != [] && IsTrimmable(s[|s| - 1]) then TrimEnd(s[..|s| - 1]) else s
  }

  /** `s.trim()`: the slice of `s` left once its leading and trailing
      whitespace is removed. It is empty exactly when `s` is all whitespace,
      and otherwise neither starts nor ends with whitespace. */
  function Trim(s: string): (r: string)
    ensures |r| <= |s|
    ensures exists i :: (0 <= i <= |s| - |r| && r == s[i..][..|r|] &&
      (forall m :: 0 <= m < i ==> IsTrimmable(s[m])) &&
      (forall m :: i + |r| <= m < |s| ==> IsTrimmable(s[m])))
    ensures r == [] <==> forall i :: 0 <= i < |s| ==> IsTrimmable(s[i])
    ensures r != [] ==> !IsTrimmable(r[0]) && !IsTrimmable(r[|r| - 1])
  {
    TrimSlice(s, |s| - |TrimStart(s)|);
    TrimBlank(s);
    TrimEnds(s);
    TrimEnd(TrimStart(s))
  }

  /** Trimming cuts the `i` leading whitespace characters and a suffix of
      whitespace off `s`. */
  lemma TrimSlice(s: string, i: nat)
    requires i == |s| - |TrimStart(s)|
    ensures var r := TrimEnd(TrimStart(s));
      i + |r| <= |s| && r == s[i..][..|r|] &&
      (forall m :: 0 <= m < i ==> IsTrimmable(s[m])) &&
      (forall m :: i + |r| <= m < |s| ==> IsTrimmable(s[m]))
  {
    var a := TrimStart(s);
    var r := TrimEnd(a);
    assert a == s[i..];
    forall m | i + |r| <= m < |s|
      ensures IsTrimmable(s[m])
    {
      assert s[m] == a[m - i];
    }
  }

  /** Trimming leaves nothing exactly when every character is whitespace. */
  lemma TrimBlank(s: string)
    ensures TrimEnd(TrimStart(s)) == [] <==> forall i :: 0 <= i < |s| ==> IsTrimmable(s[i])
  {
    var a := TrimStart(s);
    if a != [] {
      assert !IsTrimmable(a[0]);
      assert a[0] == s[|s| - |a|];
    }
  }

  /** What trimming leaves starts and ends with a non-whitespace character. */
  lemma TrimEnds(s: string)
    ensures var r := TrimEnd(TrimStart(s));
      r != [] ==> !IsTrimmable(r[0]) && !IsTrimmable(r[|r| - 1])
  {
    var a := TrimStart(s);
    var r := TrimEnd(a);
    if r != [] {
      assert a[0] == r[0];
    }
  }

  /** A table row, as the `innerText` of its `td` cells. */
  type Row = seq<string>

  /** The key/value pair a row contributes: its first two trimmed cells, when
      it has at least two cells and neither is blank once trimmed. */
  function RowPair(row: Row): (r: Option<Entry>)
    ensures r.Some? <==> |row| >= 2 && Trim(row[0]) != [] && Trim(row[1]) != []
    ensures r.Some? ==> r.value == (Trim(row[0]), Trim(row[1]))
  {
    if |row| < 2 then None
    else
      var k, v := Trim(row[0]), Trim(row[1]);
      if k != [] && v != [] then Some((k, v)) else None
  }

  /** The pair of each row, in row order. */
  function RowPairs(rows: seq<Row>): (ps: seq<Option<Entry>>)
    ensures |ps| == |rows|
    ensures forall i :: 0 <= i < |rows| ==> ps[i] == RowPair(rows[i])
  {
    seq(|rows|, i requires 0 <= i < |rows| => RowPair(rows[i]))
  }

  /** The pairs that are present, in order. */
  function Present(ps: seq<Option<Entry>>): (es: seq<Entry>)
    ensures |es| <= |ps|
  {
    if ps == [] then []
    else
      var init := Present(ps[..|ps| - 1]);
      match ps[|ps| - 1]
      case None => init
      case Some(e) => init + [e]
  }

  /** The assignments the row loop performs, in row order. */
  function KeptEntries(rows: seq<Row>): seq<Entry>
  {
    Present(RowPairs(rows))
  }

  /** The object the row loop builds. */
  function Extracted(rows: seq<Row>): Table
  {
    Build(KeptEntries(rows))
  }

  /** The row loop of the scraper: each row's first two trimmed cells become
      a property of the object when both are non-empty. */
  method ExtractTable(rows: seq<Row>) returns (o: Table)
    ensures o == Extracted(rows)
    ensures Distinct(Keys(o))
  {
    o := [];
    for i := 0 to |rows|
      invariant o == Extracted(rows[..i])
    {
      ExtractedSnoc(rows, i);
      var row := rows[i];
      if |row| >= 2 {
        var k, v := Trim(row[0]), Trim(row[1]);
        if k != [] && v != [] {
          o := Assign(o, k, v);
        }
      }
    }
    assert rows[..|rows|] == rows;
  }

  /** One more row assigns its pair, when it has one, into the object built
      from the rows before it. */
  lemma {:induction false} ExtractedSnoc(rows: seq<Row>, i: nat)
    requires i < |rows|
    ensures RowPair(rows[i]).None? ==> Extracted(rows[..i + 1]) == Extracted(rows[..i])
    ensures RowPair(rows[i]).Some? ==>
      Extracted(rows[..i + 1]) == Assign(Extracted(rows[..i]), RowPair(rows[i]).value.0, RowPair(rows[i]).value.1)
  {
    var ps, qs := RowPairs(rows[..i + 1]), RowPairs(rows[..i]);
    assert ps[..i] == qs;
    if RowPair(rows[i]).Some? {
      BuildSnoc(Present(qs), RowPair(rows[i]).value);
    }
  }

  /** A present pair is among the results. */
  lemma {:induction false} PresentHas(ps: seq<Option<Entry>>, i: nat)
    requires i < |ps| && ps[i].Some?
    ensures ps[i].value in Present(ps)
  {
    var n := |ps| - 1;
    var init := ps[..n];
    if i < n {
      assert init[i] == ps[i];
      PresentHas(init, i);
    }
  }

  /** Every result is a present pair, found at index `i`. */
  lemma {:induction false} PresentFrom(ps: seq<Option<Entry>>, e: Entry) returns (i: nat)
    requires e in Present(ps)
    ensures i < |ps| && ps[i] == Some(e)
  {
    var n := |ps| - 1;
    var init := ps[..n];
    if e in Present(init) {
      i := PresentFrom(init, e);
      assert init[i] == ps[i];
    } else {
      i := n;
    }
  }

  /** The last present pair with key `k` gives the last value for `k`. */
  lemma {:induction false} PresentLastValue(ps: seq<Option<Entry>>, i: nat)
    requires i < |ps| && ps[i].Some?
    requires forall j :: i < j < |ps| && ps[j].Some? ==> ps[j].value.0 != ps[i].value.0
    ensures LastValue(Present(ps), ps[i].value.0) == Some(ps[i].value.1)
  {
    var n := |ps| - 1;
    var init := ps[..n];
    var es := Present(ps);
    if i < n {
      assert init[i] == ps[i];
      forall j | i < j < |init| && init[j].Some?
        ensures init[j].value.0 != ps[i].value.0
      {
        assert init[j] == ps[j];
      }
      PresentLastValue(init, i);
      if ps[n].Some? {
        assert es[..|es| - 1] == Present(init);
      }
    }
  }

  /** Every key and value of the extracted table is non-empty. */
  lemma {:induction false} ExtractedNonEmpty(rows: seq<Row>)
    ensures forall e :: e in Extracted(rows) ==> e.0 != [] && e.1 != []
  {
    forall e | e in Extracted(rows)
      ensures e.0 != [] && e.1 != []
    {
      var i := PresentFrom(RowPairs(rows), e);
    }
  }

  /** Every row with two non-blank leading cells is assigned. */
  lemma {:induction false} RowPairAssigned(rows: seq<Row>, i: nat)
    requires i < |rows| && RowPair(rows[i]).Some?
    ensures RowPair(rows[i]).value in KeptEntries(rows)
  {
    PresentHas(RowPairs(rows), i);
  }

  /** Every assigned pair comes from a row, found at index `i`. */
  lemma {:induction false} AssignedFromRow(rows: seq<Row>, e: Entry) returns (i: nat)
    requires e in KeptEntries(rows)
    ensures i < |rows| && RowPair(rows[i]) == Some(e)
  {
    i := PresentFrom(RowPairs(rows), e);
  }

  /** A key is present exactly when some row carries it with a non-blank value. */
  lemma {:induction false} ExtractedHasKey(rows: seq<Row>, k: string)
    ensures k in Keys(Extracted(rows)) <==>
            exists i :: 0 <= i < |rows| && RowPair(rows[i]).Some? && RowPair(rows[i]).value.0 == k
  {
    var es := KeptEntries(rows);
    BuildKeys(es);
    if k in Keys(Extracted(rows)) {
      assert k in Keys(es);
      var j :| 0 <= j < |es| && Keys(es)[j] == k;
      var i := AssignedFromRow(rows, es[j]);
    }
    if exists i :: 0 <= i < |rows| && RowPair(rows[i]).Some? && RowPair(rows[i]).value.0 == k {
      var i :| 0 <= i < |rows| && RowPair(rows[i]).Some? && RowPair(rows[i]).value.0 == k;
      RowPairAssigned(rows, i);
      var j :| 0 <= j < |es| && es[j] == RowPair(rows[i]).value;
      assert Keys(es)[j] == k;
    }
  }

  /** Keys appear once each, in the order of the first row carrying them, and
      there are no more keys than rows. */
  lemma {:induction false} ExtractedKeyOrder(rows: seq<Row>)
    ensures Keys(Extracted(rows)) == Dedup(Keys(KeptEntries(rows)))
    ensures |Extracted(rows)| <= |rows|
  {
    BuildKeys(KeptEntries(rows));
  }

  /** A later row with the same key overwrites the value: the value of a key
      is that of the last row carrying it. */
  lemma {:induction false} ExtractedLastRowWins(rows: seq<Row>, i: nat)
    requires i < |rows| && RowPair(rows[i]).Some?
    requires forall j :: i < j < |rows| && RowPair(rows[j]).Some? ==>
      RowPair(rows[j]).value.0 != RowPair(rows[i]).value.0
    ensures Lookup(Extracted(rows), RowPair(rows[i]).value.0) == Some(RowPair(rows[i]).value.1)
  {
    var ps := RowPairs(rows);
    BuildLookup(KeptEntries(rows), ps[i].value.0);
    PresentLastValue(ps, i);
  }
}
