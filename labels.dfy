/** Renaming the English row labels of the widget to the Chinese display
    labels used in the stored snapshot and in the message. */
module Labels {
  import opened Tables

  /** The static lookup table from page label to display label. */
  const LabelMap: map<string, string> := map[
    "3rd Resistance Point" := "第 3 個阻力點",
    "2nd Resistance Point" := "第 2 阻力點",
    "1st Resistance Point" := "第 1 阻力點",
    "Last Price"           := "最新價",
    "1st Support Level"    := "第 1 支撐級別",
    "2nd Support Level"    := "第 2 支撐級別",
    "3rd Support Level"    := "第 3 支撐級別"
  ]

  /** `labelMap[k] || k`: the mapped label when there is a non-empty one,
      otherwise the key itself. */
  function Label(k: string): string
  {
    if k in LabelMap && LabelMap[k] != [] then LabelMap[k] else k
  }

  /** The entries of `t` with their keys relabelled, values untouched. */
  function Relabeled(t: Table): (es: seq<Entry>)
    ensures |es| == |t|
    ensures forall i :: 0 <= i < |t| ==> es[i] == (Label(t[i].0), t[i].1)
  {
    seq(|t|, i requires 0 <= i < |t| => (Label(t[i].0), t[i].1))
  }

  /** The object built by assigning every relabelled entry into a fresh `{}`. */
  function Normalized(t: Table): Table
  {
    Build(Relabeled(t))
  }

  /** The relabelling loop: `sr[labelMap[k] || k] = v` for every entry of the
      raw table, in order. */
  method Normalize(raw: Table) returns (sr: Table)
    ensures sr == Normalized(raw)
    ensures Distinct(Keys(sr))
  {
    sr := [];
    for i := 0 to |raw|
      invariant sr == Build(Relabeled(raw[..i]))
    {
      var (k, v) := raw[i];
      var display := Label(k);
      assert Relabeled(raw[..i + 1])[..i] == Relabeled(raw[..i]);
      sr := Assign(sr, display, v);
    }
    assert raw[..|raw|] == raw;
  }

  /** A key is renamed exactly when it is a page label of the lookup table,
      and then to its display label. */
  lemma {:induction false} LabelRenamesExactlyMapped(k: string)
    ensures Label(k) != k <==> k in LabelMap
    ensures k in LabelMap ==> Label(k) == LabelMap[k]
  {
    if k in LabelMap {
      assert k == "3rd Resistance Point" || k == "2nd Resistance Point" ||
             k == "1st Resistance Point" || k == "Last Price" ||
             k == "1st Support Level" || k == "2nd Support Level" ||
             k == "3rd Support Level";
    }
  }

  /** Two different keys get the same label only when one of them already is
      a display label that is not itself a page label. */
  lemma {:induction false} LabelCollision(a: string, b: string)
    requires a != b && Label(a) == Label(b)
    ensures (a !in LabelMap && a in LabelMap.Values) || (b !in LabelMap && b in LabelMap.Values)
  {
    LabelRenamesExactlyMapped(a);
    LabelRenamesExactlyMapped(b);
  }

  /** Keys of the result are the labels in order of first occurrence; there
      are never more entries than in the input. */
  lemma {:induction false} NormalizedKeyOrder(t: Table)
    ensures Keys(Normalized(t)) == Dedup(Keys(Relabeled(t)))
    ensures |Normalized(t)| <= |t|
  {
    BuildKeys(Relabeled(t));
  }

  /** The value under a label is the value of the last input entry carrying
      that label. */
  lemma {:induction false} NormalizedLookup(t: Table, display: string)
    ensures Lookup(Normalized(t), display) == LastValue(Relabeled(t), display)
  {
    BuildLookup(Relabeled(t), display);
  }

  /** Every entry of the result is an input value, verbatim, under the label
      of its input key. */
  lemma {:induction false} NormalizedValuesVerbatim(t: Table, e: Entry)
    requires e in Normalized(t)
    ensures exists i :: 0 <= i < |t| && e == (Label(t[i].0), t[i].1)
  {
    var es := Relabeled(t);
    assert e in es;
    var i :| 0 <= i < |es| && es[i] == e;
  }

  /** When no two keys share a label, normalization keeps every entry, in
      order. */
  lemma {:induction false} NormalizedWithoutCollision(t: Table)
    requires Distinct(Keys(Relabeled(t)))
    ensures Normalized(t) == Relabeled(t)
    ensures |Normalized(t)| == |t|
  {
    BuildDistinct(Relabeled(t));
  }

  /** A table with distinct keys, none of which is already a display label,
      keeps its size under normalization. */
  lemma {:induction false} NormalizedKeepsSize(t: Table)
    requires Distinct(Keys(t))
    requires forall i :: 0 <= i < |t| ==> t[i].0 !in LabelMap.Values
    ensures Normalized(t) == Relabeled(t)
    ensures |Normalized(t)| == |t|
  {
    var ks := Keys(Relabeled(t));
    forall i, j | 0 <= i < j < |ks|
      ensures ks[i] != ks[j]
    {
      assert Keys(t)[i] != Keys(t)[j];
      if ks[i] == ks[j] {
        LabelCollision(t[i].0, t[j].0);
      }
    }
    NormalizedWithoutCollision(t);
  }
}
