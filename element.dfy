/** Elements: the toolkit's records, tuples of attributes whose last component is the label. */
module Element {

  /** One component of a tuple: an arithmetic value, or anything else (a string label). */
  datatype Atom = Num(v: real) | Text(s: string)

  /** A heterogeneous tuple, `std::tuple<T...>`. */
  type Tuple = seq<Atom>

  /** The dispatch tags chosen per component type. */
  datatype AtomTag = ArithmeticAtomTag | SkipAtomTag

  /** `should_skip_atom_v`: everything that is not arithmetic is skipped. */
  predicate ShouldSkipAtom(a: Atom) { !a.Num? }

  /** `select_atom_tag_t`. */
  function SelectAtomTag(a: Atom): (t: AtomTag)
    ensures t == ArithmeticAtomTag <==> a.Num?
    ensures t == SkipAtomTag <==> ShouldSkipAtom(a)
  {
    if ShouldSkipAtom(a) then SkipAtomTag else ArithmeticAtomTag
  }

  /** `get_label`, on a tuple (`std::get<sizeof...(T)-1>`) and on a container (element
      size()-1): the last component. A tuple type has at least one component; a container
      must not be empty. The record is its front followed by its label. */
  function Label<T>(c: seq<T>): (last: T)
    requires |c| > 0
    ensures c == c[..|c| - 1] + [last]
  {
    c[|c| - 1]
  }

  /** Two tuples of one tuple type: same length, same kind of component at each position. */
  predicate SameShape(a: Tuple, b: Tuple)
  {
    |a| == |b| && forall i :: 0 <= i < |a| ==> a[i].Num? == b[i].Num?
  }
}
