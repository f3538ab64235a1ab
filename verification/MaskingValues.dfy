/** `mask_dict`: the masks over nested values. */
module MaskingValues {
  import opened Masking
  import opened MaskingPieces
  import opened MaskingProofs

  datatype Entry = Entry(key: string, value: Value)

  /** What a decoded log record or report holds. Entries keep their order, as in
      a Python dict; `Other` is any value that is neither text nor a container. */
  datatype Value = Text(text: string) | Dict(entries: seq<Entry>) | List(items: seq<Value>) | Other(value: int)

  function MaskAny(v: Value): Value
    decreases v, 1
  {
    match v
    case Text(s) => Text(MaskString(s))
    case Dict(es) => Dict(MaskEntries(es))
    case List(vs) => List(MaskItems(vs))
    case Other(_) => v
  }

  function MaskEntries(es: seq<Entry>): seq<Entry>
    decreases es, 0
  {
    if es == [] then []
    else [Entry(es[0].key, MaskAny(es[0].value))] + MaskEntries(es[1..])
  }

  function MaskItems(vs: seq<Value>): seq<Value>
    decreases vs, 0
  {
    if vs == [] then [] else [MaskAny(vs[0])] + MaskItems(vs[1..])
  }

  /** `w` is `v` with every text masked, at any depth: the same keys in the same
      order, the same shape, the same values that are not text. */
  ghost predicate IsMaskedValue(v: Value, w: Value)
    decreases v, 1
  {
    match v
    case Text(s) => w.Text? && IsMasked(s, w.text)
    case Dict(es) => w.Dict? && AreMaskedEntries(es, w.entries)
    case List(vs) => w.List? && AreMaskedItems(vs, w.items)
    case Other(_) => w == v
  }

  ghost predicate AreMaskedEntries(es: seq<Entry>, fs: seq<Entry>)
    decreases es, 0
  {
    && |es| == |fs|
    && (es != [] ==>
          fs[0].key == es[0].key && IsMaskedValue(es[0].value, fs[0].value) && AreMaskedEntries(es[1..], fs[1..]))
  }

  ghost predicate AreMaskedItems(vs: seq<Value>, ws: seq<Value>)
    decreases vs, 0
  {
    |vs| == |ws| && (vs != [] ==> IsMaskedValue(vs[0], ws[0]) && AreMaskedItems(vs[1..], ws[1..]))
  }

  lemma {:induction false} MaskAnyIff(v: Value, w: Value)
    ensures w == MaskAny(v) <==> IsMaskedValue(v, w)
    decreases v, 1
  {
    match v {
      case Text(s) => if w.Text? { MaskStringIff(s, w.text); }
      case Dict(es) => if w.Dict? { MaskEntriesIff(es, w.entries); }
      case List(vs) => if w.List? { MaskItemsIff(vs, w.items); }
      case Other(_) =>
    }
  }

  lemma {:induction false} MaskEntriesIff(es: seq<Entry>, fs: seq<Entry>)
    ensures fs == MaskEntries(es) <==> AreMaskedEntries(es, fs)
    decreases es, 0
  {
    if es != [] && fs != [] {
      MaskAnyIff(es[0].value, fs[0].value);
      MaskEntriesIff(es[1..], fs[1..]);
      assert fs == [fs[0]] + fs[1..] && MaskEntries(es)[1..] == MaskEntries(es[1..]);
    }
  }

  lemma {:induction false} MaskItemsIff(vs: seq<Value>, ws: seq<Value>)
    ensures ws == MaskItems(vs) <==> AreMaskedItems(vs, ws)
    decreases vs, 0
  {
    if vs != [] && ws != [] {
      MaskAnyIff(vs[0], ws[0]);
      MaskItemsIff(vs[1..], ws[1..]);
      assert ws == [ws[0]] + ws[1..] && MaskItems(vs)[1..] == MaskItems(vs[1..]);
    }
  }

  /** `mask_dict` and `_mask_any` as the code runs them. */
  method MaskDict(d: seq<Entry>) returns (out: seq<Entry>)
    ensures out == MaskEntries(d) && AreMaskedEntries(d, out)
    decreases d, 1
  {
    out := [];
    var i := 0;
    while i < |d|
      invariant i <= |d|
      invariant out + MaskEntries(d[i..]) == MaskEntries(d)
    {
      ghost var before := out;
      var v := MaskAnyValue(d[i].value);
      out := out + [Entry(d[i].key, v)];
      assert d[i..][1..] == d[i + 1..];
      assert MaskEntries(d[i..]) == [Entry(d[i].key, v)] + MaskEntries(d[i + 1..]);
      assert before + ([Entry(d[i].key, v)] + MaskEntries(d[i + 1..])) == out + MaskEntries(d[i + 1..]);
      i := i + 1;
    }
    assert d[i..] == [];
    assert out + [] == out;
    MaskEntriesIff(d, out);
  }

  method MaskAnyValue(v: Value) returns (out: Value)
    ensures out == MaskAny(v) && IsMaskedValue(v, out)
    decreases v, 0
  {
    match v {
      case Text(s) => out := Text(MaskString(s));
      case Dict(es) =>
        var masked := MaskDict(es);
        out := Dict(masked);
      case List(vs) => out := List(MaskItems(vs));
      case Other(_) => out := v;
    }
    MaskAnyIff(v, out);
  }

  /** Every text in `v`, at any depth, satisfies the masks' guarantee. */
  ghost predicate AllHidden(v: Value)
    decreases v, 1
  {
    match v
    case Text(s) => !ContainsIpv4(s) && !ContainsCpf(s)
    case Dict(es) => EntriesHidden(es)
    case List(vs) => ItemsHidden(vs)
    case Other(_) => true
  }

  ghost predicate EntriesHidden(es: seq<Entry>)
    decreases es, 0
  {
    es != [] ==> AllHidden(es[0].value) && EntriesHidden(es[1..])
  }

  ghost predicate ItemsHidden(vs: seq<Value>)
    decreases vs, 0
  {
    vs != [] ==> AllHidden(vs[0]) && ItemsHidden(vs[1..])
  }

  /** Same keys in the same order, same shape, same non-text values. */
  ghost predicate SameShape(v: Value, w: Value)
    decreases v, 1
  {
    match v
    case Text(_) => w.Text?
    case Dict(es) => w.Dict? && EntriesSameShape(es, w.entries)
    case List(vs) => w.List? && ItemsSameShape(vs, w.items)
    case Other(_) => w == v
  }

  ghost predicate EntriesSameShape(es: seq<Entry>, fs: seq<Entry>)
    decreases es, 0
  {
    && |es| == |fs|
    && (es != [] ==>
          fs[0].key == es[0].key && SameShape(es[0].value, fs[0].value) && EntriesSameShape(es[1..], fs[1..]))
  }

  ghost predicate ItemsSameShape(vs: seq<Value>, ws: seq<Value>)
    decreases vs, 0
  {
    |vs| == |ws| && (vs != [] ==> SameShape(vs[0], ws[0]) && ItemsSameShape(vs[1..], ws[1..]))
  }

  /** Masking a nested value hides addresses and CPFs in every text at any depth
      and keeps keys, order, shape and everything that is not text. */
  lemma {:induction false} MaskAnyHidesEverywhere(v: Value)
    ensures AllHidden(MaskAny(v)) && SameShape(v, MaskAny(v))
    decreases v, 1
  {
    match v {
      case Text(s) => MaskStringHidesAddressesAndCpfs(s);
      case Dict(es) => MaskEntriesHides(es);
      case List(vs) => MaskItemsHides(vs);
      case Other(_) =>
    }
  }

  lemma {:induction false} MaskEntriesHides(es: seq<Entry>)
    ensures EntriesHidden(MaskEntries(es)) && EntriesSameShape(es, MaskEntries(es))
    decreases es, 0
  {
    if es != [] {
      MaskAnyHidesEverywhere(es[0].value);
      MaskEntriesHides(es[1..]);
      assert MaskEntries(es)[1..] == MaskEntries(es[1..]);
    }
  }

  lemma {:induction false} MaskItemsHides(vs: seq<Value>)
    ensures ItemsHidden(MaskItems(vs)) && ItemsSameShape(vs, MaskItems(vs))
    decreases vs, 0
  {
    if vs != [] {
      MaskAnyHidesEverywhere(vs[0]);
      MaskItemsHides(vs[1..]);
      assert MaskItems(vs)[1..] == MaskItems(vs[1..]);
    }
  }
}
