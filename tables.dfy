/** Ordered string-keyed tables with the assignment semantics of a plain
    JavaScript object whose keys are not integer-like: assigning a new key
    appends it, assigning an existing key overwrites its value in place and
    keeps its position. Both the raw table scraped from the page and the
    relabelled table are built this way, by assigning into a fresh `{}`. */
module Tables {

  datatype Option<T> = None | Some(value: T)

  /** One property of an object: its key and its string value. */
  type Entry = (string, string)

  /** The own properties of an object, in enumeration order. */
  type Table = seq<Entry>

  function Keys(es: seq<Entry>): (ks: seq<string>)
    ensures |ks| == |es|
    ensures forall i :: 0 <= i < |es| ==> ks[i] == es[i].0
  {
    seq(|es|, i requires 0 <= i < |es| => es[i].0)
  }

  predicate Distinct(s: seq<string>)
  {
    forall i, j :: 0 <= i < j < |s| ==> s[i] != s[j]
  }

  /** Property access `o[k]`: the value of the first entry with key `k`. */
  function Lookup(t: Table, k: string): (r: Option<string>)
    ensures r.None? <==> k !in Keys(t)
    ensures r.Some? ==> (k, r.value) in t
  {
    if t == [] then None
    else if t[0].0 == k then Some(t[0].1)
    else
      assert Keys(t) == [t[0].0] + Keys(t[1..]);
      Lookup(t[1..], k)
  }

  /** Property assignment `o[k] = v`. */
  function Assign(t: Table, k: string, v: string): (r: Table)
    ensures Keys(r) == if k in Keys(t) then Keys(t) else Keys(t) + [k]
    ensures forall e :: e in r ==> e in t || e == (k, v)
  {
    if t == [] then [(k, v)]
    else
      assert t == [t[0]] + t[1..];
      KeysCons(t[0], t[1..]);
      if t[0].0 == k then
        KeysCons((k, v), t[1..]);
        [(k, v)] + t[1..]
      else
        var rest := Assign(t[1..], k, v);
        KeysCons(t[0], rest);
        assert k !in Keys(t[1..]) ==> [t[0].0] + (Keys(t[1..]) + [k]) == Keys(t) + [k];
        [t[0]] + rest
  }

  lemma {:induction false} KeysCons(e: Entry, t: Table)
    ensures Keys([e] + t) == [e.0] + Keys(t)
  {
    var a, b := Keys([e] + t), [e.0] + Keys(t);
    forall i | 0 <= i < |a|
      ensures a[i] == b[i]
    {
      if i > 0 {
        assert ([e] + t)[i] == t[i - 1];
      }
    }
  }

  /** Assigning a key that is not yet present appends it. */
  lemma {:induction false} AssignFresh(t: Table, k: string, v: string)
    requires k !in Keys(t)
    ensures Assign(t, k, v) == t + [(k, v)]
  {
    if t != [] {
      assert Keys(t) == [t[0].0] + Keys(t[1..]);
      AssignFresh(t[1..], k, v);
      assert t == [t[0]] + t[1..];
    }
  }

  /** After `o[k] = v`, `o[k]` is `v` and every other key reads as before. */
  lemma {:induction false} AssignLookup(t: Table, k: string, v: string, k': string)
    ensures Lookup(Assign(t, k, v), k') == if k' == k then Some(v) else Lookup(t, k')
  {
    if t != [] && t[0].0 != k {
      AssignLookup(t[1..], k, v, k');
    }
  }

  /** The object obtained by assigning the entries of `es`, in order, into a
      fresh `{}`. */
  function Build(es: seq<Entry>): (t: Table)
    ensures Distinct(Keys(t))
    ensures forall e :: e in t ==> e in es
  {
    if es == [] then []
    else
      var init, last := es[..|es| - 1], es[|es| - 1];
      var t0 := Build(init);
      assert es == init + [last];
      DistinctSnoc(Keys(t0), last.0);
      Assign(t0, last.0, last.1)
  }

  /** Appending an element not yet present keeps a sequence free of repetitions. */
  lemma {:induction false} DistinctSnoc(s: seq<string>, x: string)
    requires Distinct(s)
    ensures x !in s ==> Distinct(s + [x])
  {
  }

  /** Assigning one more entry. */
  lemma {:induction false} BuildSnoc(es: seq<Entry>, e: Entry)
    ensures Build(es + [e]) == Assign(Build(es), e.0, e.1)
  {
    assert (es + [e])[..|es|] == es;
  }

  /** The elements of `s`, each once, in the order of their first occurrence. */
  function Dedup(s: seq<string>): (d: seq<string>)
    ensures Distinct(d)
    ensures |d| <= |s|
    ensures forall x :: x in d <==> x in s
  {
    if s == [] then []
    else
      var d0 := Dedup(s[..|s| - 1]);
      var x := s[|s| - 1];
      assert s == s[..|s| - 1] + [x];
      if x in d0 then d0 else d0 + [x]
  }

  /** The value of the last entry of `es` whose key is `k`. */
  function LastValue(es: seq<Entry>, k: string): (r: Option<string>)
    ensures r.Some? ==> (k, r.value) in es
    ensures r.None? <==> k !in Keys(es)
  {
    if es == [] then None
    else if es[|es| - 1].0 == k then Some(es[|es| - 1].1)
    else
      var init := es[..|es| - 1];
      assert Keys(es) == Keys(init) + [es[|es| - 1].0];
      LastValue(init, k)
  }

  /** Keys of the built object appear once each, in the order in which they
      were first assigned. */
  lemma {:induction false} BuildKeys(es: seq<Entry>)
    ensures Keys(Build(es)) == Dedup(Keys(es))
  {
    if es != [] {
      var init := es[..|es| - 1];
      BuildKeys(init);
      assert Keys(es)[..|es| - 1] == Keys(init);
    }
  }

  /** Reading a key of the built object gives the value last assigned to it. */
  lemma {:induction false} BuildLookup(es: seq<Entry>, k: string)
    ensures Lookup(Build(es), k) == LastValue(es, k)
  {
    if es != [] {
      BuildLookup(es[..|es| - 1], k);
      AssignLookup(Build(es[..|es| - 1]), es[|es| - 1].0, es[|es| - 1].1, k);
    }
  }

  /** When no key is assigned twice the built object is the entry list itself. */
  lemma {:induction false} BuildDistinct(es: seq<Entry>)
    requires Distinct(Keys(es))
    ensures Build(es) == es
  {
    if es != [] {
      var n := |es| - 1;
      var init, last := es[..n], es[n];
      assert es == init + [last];
      LastKeyFresh(es);
      BuildDistinct(init);
      AssignFresh(init, last.0, last.1);
    }
  }

  /** In an entry list without repeated keys, the entries before the last
      have no repeated key either, and none of them has the last one's key. */
  lemma {:induction false} LastKeyFresh(es: seq<Entry>)
    requires es != [] && Distinct(Keys(es))
    ensures Distinct(Keys(es[..|es| - 1]))
    ensures es[|es| - 1].0 !in Keys(es[..|es| - 1])
  {
    var n := |es| - 1;
    var ks, ki := Keys(es), Keys(es[..n]);
    assert ki == ks[..n];
    forall i | 0 <= i < n
      ensures ki[i] != es[n].0
    {
      assert ks[i] != ks[n];
    }
  }
}
