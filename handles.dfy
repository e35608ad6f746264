/** Typed entity handles.
    A handle is an integer tag scoped to one entity kind; the value -1 is the
    invalid sentinel. The kind is a phantom type parameter, so handles of
    different kinds are different types and never compare with each other. */
module Handles {

  // The eight entity kinds.
  datatype AssemblyKind = AssemblyKind
  datatype PartKind = PartKind
  datatype BodyKind = BodyKind
  datatype FaceKind = FaceKind
  datatype EdgeKind = EdgeKind
  datatype VertexKind = VertexKind
  datatype LoopKind = LoopKind
  datatype ShellKind = ShellKind

  /** The sentinel index of an invalid handle. */
  const Sentinel: int := -1

  /** The number of values of the C++ `size_t` a hash is returned in. */
  const SizeRange: int := 0x1_0000_0000_0000_0000

  const Int32Min: int := -0x8000_0000
  const Int32Max: int := 0x7fff_ffff

  /** `BaseHandle`: a value wrapping one integer. Construction from `n` keeps `n`. */
  datatype Handle<Kind> = Handle(idx: int)
  {
    /** `isValid()`: only the sentinel is invalid; other negative values are valid. */
    predicate IsValid() {
      idx != Sentinel
    }

    /** `reset()`: the handle afterwards holds the sentinel. */
    function Reset(): (h: Handle<Kind>)
      ensures !h.IsValid()
    {
      Handle(Sentinel)
    }

    /** `invalidate()` is `reset()`. */
    function Invalidate(): (h: Handle<Kind>)
      ensures h == Reset()
    {
      Reset()
    }

    /** `operator<`: numeric order of the indices. */
    predicate Less(other: Handle<Kind>) {
      idx < other.idx
    }

    /** `HandleHash`: the index converted to `size_t`, i.e. taken modulo 2^64. */
    function Hash(): (r: int)
      ensures 0 <= r < SizeRange
      ensures 0 <= idx < SizeRange ==> r == idx
    {
      idx % SizeRange
    }
  }

  /** The default-constructed handle of any kind. */
  function Invalid<Kind>(): Handle<Kind> {
    Handle(Sentinel)
  }

  type AssemblyHandle = Handle<AssemblyKind>
  type PartHandle = Handle<PartKind>
  type BodyHandle = Handle<BodyKind>
  type FaceHandle = Handle<FaceKind>
  type EdgeHandle = Handle<EdgeKind>
  type VertexHandle = Handle<VertexKind>
  type LoopHandle = Handle<LoopKind>
  type ShellHandle = Handle<ShellKind>

  /** A default-constructed handle has index -1 and is invalid, and a handle
      is valid exactly when it differs from the default one. */
  lemma DefaultIsInvalid<Kind>(h: Handle<Kind>)
    ensures Invalid<Kind>().idx == -1 && !Invalid<Kind>().IsValid()
    ensures h.IsValid() <==> h != Invalid<Kind>()
  {
  }

  /** Every kind's constructor keeps its argument. */
  lemma ConstructorKeepsIndex<Kind>(n: int)
    ensures var h: Handle<Kind> := Handle(n); h.idx == n && (h.IsValid() <==> n != -1)
  {
  }

  /** `reset` and `invalidate` agree, make the handle invalid, and a second
      application changes nothing further. */
  lemma ResetIsIdempotent<Kind>(h: Handle<Kind>)
    ensures h.Reset() == h.Invalidate() == Invalid<Kind>()
    ensures h.Reset().Reset() == h.Reset()
    ensures h.Invalidate().Invalidate() == h.Invalidate()
  {
  }

  /** `==`, `!=` and `<` coincide with the integer relations on the index,
      so `<` is a strict total order. */
  lemma ComparisonsFollowIndex<Kind>(a: Handle<Kind>, b: Handle<Kind>, c: Handle<Kind>)
    ensures (a == b) <==> (a.idx == b.idx)
    ensures (a != b) <==> (a.idx != b.idx)
    ensures a.Less(b) <==> a.idx < b.idx
    ensures !a.Less(a)
    ensures a.Less(b) && b.Less(c) ==> a.Less(c)
    ensures a.Less(b) || a == b || b.Less(a)
    ensures a.Less(b) ==> !b.Less(a)
  {
  }

  /** Equal handles hash equally, and on the 32-bit range of the C++ `int`
      index the hash is injective, so distinct handles hash differently. */
  lemma HashIsInjectiveOnInt32<Kind>(a: Handle<Kind>, b: Handle<Kind>)
    requires Int32Min <= a.idx <= Int32Max && Int32Min <= b.idx <= Int32Max
    ensures a == b <==> a.Hash() == b.Hash()
  {
    assert a.Hash() == if a.idx < 0 then a.idx + SizeRange else a.idx;
    assert b.Hash() == if b.idx < 0 then b.idx + SizeRange else b.idx;
  }
}
