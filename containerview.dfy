/** Views of a whole container and the copying and mapping loops (data/view/container.hpp).
    A view keeps a reference to its container, so it always reads the container's current
    rows, and a write through it changes them. */
module ContainerView {
  import opened Element
  import opened ElementView

  /** A container of tuples whose rows are changed in place. */
  class Table {
    var rows: seq<Tuple>

    constructor (rows: seq<Tuple>)
      ensures this.rows == rows
    {
      this.rows := rows;
    }
  }

  /** Every row of the container has the selected fields. */
  predicate SelectsAll(rows: seq<Tuple>, indexes: seq<nat>)
  {
    forall i :: 0 <= i < |rows| ==> Selects(rows[i], indexes)
  }

  /** `view_container<Container, Indexes...>`: the container it refers to and the selected
      indexes. */
  class ViewContainer {
    const ref: Table
    const indexes: seq<nat>

    /** `view_container(cont)`. */
    constructor (cont: Table, indexes: seq<nat>)
      requires |indexes| > 0
      ensures ref == cont && this.indexes == indexes
    {
      ref := cont;
      this.indexes := indexes;
    }

    /** `size()`: the number of rows of the container at the time of the call. */
    function Size(): (n: nat)
      reads ref
      ensures n == |ref.rows|
    {
      |ref.rows|
    }

    /** `operator[](index)`: the selected fields of the container's current row. */
    function At(index: nat): (s: Selection)
      reads ref
      requires index < |ref.rows| && Selects(ref.rows[index], indexes)
      ensures |Flatten(s)| == |indexes|
      ensures forall k :: 0 <= k < |indexes| ==> Flatten(s)[k] == ref.rows[index][indexes[k]]
    {
      ElementCopy(ref.rows[index], indexes)
    }

    /** Assigning v through the k-th field of `view[index]`: the container's row changes at
        that field and nowhere else. */
    method Assign(index: nat, k: nat, v: Atom)
      requires index < |ref.rows| && k < |indexes| && Selects(ref.rows[index], indexes)
      modifies ref
      ensures ref.rows == old(ref.rows)[index := WriteThrough(old(ref.rows)[index], indexes, k, v)]
      ensures Flatten(At(index))[k] == v
    {
      ref.rows := ref.rows[index := WriteThrough(ref.rows[index], indexes, k, v)];
    }
  }

  /** `view<Indexes...>(cont)`: at least one index must be given. */
  method View(cont: Table, indexes: seq<nat>) returns (v: ViewContainer)
    requires |indexes| > 0
    ensures fresh(v) && v.ref == cont && v.indexes == indexes
  {
    v := new ViewContainer(cont, indexes);
  }

  /** Two views of one container share its rows: a write through the first is read
      through the second when both select that field, and the container keeps its row
      count. */
  method SharedWrite(cont: Table, first: seq<nat>, second: seq<nat>, index: nat, k: nat, j: nat, v: Atom)
    returns (seen: Atom)
    requires index < |cont.rows| && k < |first| && j < |second| && first[k] == second[j]
    requires Selects(cont.rows[index], first) && Selects(cont.rows[index], second)
    modifies cont
    ensures seen == v
    ensures |cont.rows| == |old(cont.rows)|
  {
    var a := View(cont, first);
    var b := View(cont, second);
    a.Assign(index, k, v);
    seen := Flatten(b.At(index))[j];
  }

  /** The projection of every row, in order. */
  function Copied(rows: seq<Tuple>, indexes: seq<nat>): (r: seq<Selection>)
    requires |indexes| > 0 && SelectsAll(rows, indexes)
    ensures |r| == |rows|
  {
    seq(|rows|, i requires 0 <= i < |rows| => ElementCopy(rows[i], indexes))
  }

  /** `copy<Indexes...>(cont)`: a new vector, one projection per row. */
  method Copy(cont: seq<Tuple>, indexes: seq<nat>) returns (vec: seq<Selection>)
    requires |indexes| > 0 && SelectsAll(cont, indexes)
    ensures vec == Copied(cont, indexes)
  {
    vec := [];
    for i := 0 to |cont|
      invariant vec == Copied(cont[..i], indexes)
    {
      assert cont[..i + 1] == cont[..i] + [cont[i]];
      vec := vec + [ElementCopy(cont[i], indexes)];
    }
    assert cont[..|cont|] == cont;
  }

  /** The copy of a container holds, at every row, what a view of the container reads
      there. */
  lemma CopyIsView(cont: Table, v: ViewContainer, i: nat)
    requires v.ref == cont && |v.indexes| > 0 && SelectsAll(cont.rows, v.indexes) && i < |cont.rows|
    ensures Copied(cont.rows, v.indexes)[i] == v.At(i)
  {
  }

  /** `map(cont, func)`: a new vector holding func of each element, in order. */
  function Mapped<T, U>(cont: seq<T>, f: T --> U): (r: seq<U>)
    requires forall i :: 0 <= i < |cont| ==> f.requires(cont[i])
    ensures |r| == |cont|
  {
    seq(|cont|, i requires 0 <= i < |cont| => f(cont[i]))
  }

  /** `map(cont, func)`'s loop. */
  method Map<T, U>(cont: seq<T>, f: T --> U) returns (vec: seq<U>)
    requires forall i :: 0 <= i < |cont| ==> f.requires(cont[i])
    ensures vec == Mapped(cont, f)
  {
    vec := [];
    for i := 0 to |cont|
      invariant vec == Mapped(cont[..i], f)
    {
      assert cont[..i + 1] == cont[..i] + [cont[i]];
      vec := vec + [f(cont[i])];
    }
    assert cont[..|cont|] == cont;
  }

  /** Mapping twice is mapping once by the composition. */
  lemma MapMap<T, U, W>(cont: seq<T>, f: T -> U, g: U -> W)
    ensures Mapped(Mapped(cont, f), g) == Mapped(cont, x => g(f(x)))
  {
  }

  /** Copying is mapping the element copy over the rows. */
  lemma CopyIsMap(rows: seq<Tuple>, indexes: seq<nat>)
    requires |indexes| > 0 && SelectsAll(rows, indexes)
    ensures Copied(rows, indexes) == Mapped(rows, t requires Selects(t, indexes) => ElementCopy(t, indexes))
  {
  }
}
