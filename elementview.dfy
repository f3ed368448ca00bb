/** Selecting fields of one element by index (data/view/element.hpp). A view of an element
    is the list of positions it refers to; reading it gives the selected fields, and writing
    through one of its references writes the element's field at that position. */
module ElementView {
  import opened Element

  /** What a selection yields: the field itself for one index (`std::get`), a tuple of the
      fields for several (`std::tie` or `std::make_tuple`). */
  datatype Selection = Single(field: Atom) | Several(fields: Tuple)

  /** Every selected index names a field of the element; at least one is selected. */
  predicate Selects(t: Tuple, indexes: seq<nat>)
  {
    |indexes| > 0 && forall k :: 0 <= k < |indexes| ==> indexes[k] < |t|
  }

  /** The fields of a selection, one index giving a one-field tuple. */
  function Flatten(s: Selection): Tuple
  {
    match s
    case Single(a) => [a]
    case Several(fs) => fs
  }

  /** `element_copy<Indexes...>(ele)`, and the values `element_view` refers to. */
  function ElementCopy(t: Tuple, indexes: seq<nat>): (r: Selection)
    requires Selects(t, indexes)
    ensures r.Single? <==> |indexes| == 1
    ensures r.Single? ==> r.field == t[indexes[0]]
    ensures |Flatten(r)| == |indexes|
    ensures forall k :: 0 <= k < |indexes| ==> Flatten(r)[k] == t[indexes[k]]
  {
    if |indexes| == 1 then Single(t[indexes[0]])
    else Several(seq(|indexes|, k requires 0 <= k < |indexes| => t[indexes[k]]))
  }

  /** Selecting every index in order copies the whole element. */
  lemma CopyAllIndexes(t: Tuple)
    requires |t| >= 2
    ensures ElementCopy(t, seq(|t|, i => i)) == Several(t)
  {
    var r := ElementCopy(t, seq(|t|, i => i));
    assert Flatten(r) == t;
  }

  /** The inner selection of a selection, as positions of the element. */
  function Compose(outer: seq<nat>, inner: seq<nat>): (r: seq<nat>)
    requires forall j :: 0 <= j < |inner| ==> inner[j] < |outer|
    ensures |r| == |inner|
  {
    seq(|inner|, j requires 0 <= j < |inner| => outer[inner[j]])
  }

  /** Selecting from a selection is one selection by the composed indexes: the indexes are
      applied in the order given. */
  lemma CopyOfCopy(t: Tuple, outer: seq<nat>, inner: seq<nat>)
    requires Selects(t, outer) && Selects(Flatten(ElementCopy(t, outer)), inner)
    ensures Selects(t, Compose(outer, inner))
    ensures ElementCopy(Flatten(ElementCopy(t, outer)), inner) == ElementCopy(t, Compose(outer, inner))
  {
    var c := Compose(outer, inner);
    var lhs := ElementCopy(Flatten(ElementCopy(t, outer)), inner);
    var rhs := ElementCopy(t, c);
    assert Flatten(lhs) == Flatten(rhs);
  }

  /** Assigning v through the k-th reference of the view `indexes` of t. */
  function WriteThrough(t: Tuple, indexes: seq<nat>, k: nat, v: Atom): (r: Tuple)
    requires Selects(t, indexes) && k < |indexes|
    ensures |r| == |t| && r[indexes[k]] == v
    ensures forall p :: 0 <= p < |t| && p != indexes[k] ==> r[p] == t[p]
  {
    t[indexes[k] := v]
  }

  /** A view aliases its element: after writing through one reference, every view whose
      reference names the same position reads the new value, and views of other
      positions read what they read before. */
  lemma ViewSeesWrite(t: Tuple, indexes: seq<nat>, k: nat, v: Atom, other: seq<nat>, j: nat)
    requires Selects(t, indexes) && k < |indexes| && Selects(t, other) && j < |other|
    ensures Selects(WriteThrough(t, indexes, k, v), other)
    ensures other[j] == indexes[k] ==> Flatten(ElementCopy(WriteThrough(t, indexes, k, v), other))[j] == v
    ensures other[j] != indexes[k] ==>
      Flatten(ElementCopy(WriteThrough(t, indexes, k, v), other))[j] == Flatten(ElementCopy(t, other))[j]
  {
  }
}
