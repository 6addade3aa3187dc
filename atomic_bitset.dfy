/**
 * The per-tile validity set (atomic_bitset.h).  The C++ class packs the bits
 * into an array of 64-bit atomic words; the model keeps one `bool` per bit
 * in an `array<bool>` and states the word/bit split separately.
 */
module Bitset {
  /** `kBitsPerContainer`: the digits of `unsigned long long`. */
  const BitsPerContainer: nat := 64

  /** `container_index`: the word holding bit `index`. */
  function ContainerIndex(index: nat): nat
  {
    index / BitsPerContainer
  }

  /** `bit_index`: the position of bit `index` inside its word. */
  function BitIndex(index: nat): nat
  {
    index % BitsPerContainer
  }

  /** Every index is recovered from its word and bit position. */
  lemma IndexSplit(index: nat)
    ensures ContainerIndex(index) * BitsPerContainer + BitIndex(index) == index
    ensures BitIndex(index) < BitsPerContainer
  {
  }

  /** Distinct indices never share both word and bit position. */
  lemma IndexSplitInjective(i: nat, j: nat)
    requires ContainerIndex(i) == ContainerIndex(j) && BitIndex(i) == BitIndex(j)
    ensures i == j
  {
    IndexSplit(i);
    IndexSplit(j);
  }

  class AtomicBitset {
    /** The bits; a default-constructed or moved-from set holds none. */
    var data: array<bool>

    /** `Size()`. */
    function Size(): nat
      reads this
    {
      data.Length
    }

    /** `IsSet(i)`; `operator[]` is the same query. */
    predicate IsSet(index: nat)
      requires index < Size()
      reads this, data
    {
      data[index]
    }

    /** The default constructor: an uninitialised set of size 0. */
    constructor Empty()
      ensures Size() == 0 && fresh(data)
    {
      data := new bool[0];
    }

    /** `AtomicBitset(size)`: `size` bits, all unset. */
    constructor (size: nat)
      ensures Size() == size && fresh(data)
      ensures forall i :: 0 <= i < size ==> !data[i]
    {
      data := new bool[size](_ => false);
    }

    /** The move constructor: takes every bit of `other`, which is left empty. */
    constructor MoveFrom(other: AtomicBitset)
      modifies other
      ensures data == old(other.data)
      ensures other.Size() == 0
    {
      data := other.data;
      new;
      other.data := new bool[0];
    }

    /** Move assignment: as the move constructor, onto an existing set. */
    method MoveAssign(other: AtomicBitset)
      requires other != this
      modifies this, other
      ensures data == old(other.data)
      ensures other.Size() == 0 && fresh(other.data)
    {
      data := other.data;
      other.data := new bool[0];
    }

    /** `Set(i)`: sets bit `i` and no other. */
    method Set(index: nat)
      requires index < Size()
      modifies data
      ensures data[..] == old(data[..])[index := true]
    {
      data[index] := true;
    }

    /** `Reset(i)`: unsets bit `i` and no other. */
    method Reset(index: nat)
      requires index < Size()
      modifies data
      ensures data[..] == old(data[..])[index := false]
    {
      data[index] := false;
    }

    /** `ResetRange(a, b)`: unsets exactly the bits `a..b`, both inclusive. */
    method ResetRange(indexStart: nat, indexEnd: nat)
      requires indexStart <= indexEnd < Size()
      modifies data
      ensures forall i :: 0 <= i < data.Length ==>
                data[i] == (if indexStart <= i <= indexEnd then false else old(data[i]))
    {
      var i := indexStart;
      while i <= indexEnd
        invariant indexStart <= i <= indexEnd + 1
        invariant forall k :: 0 <= k < data.Length ==>
                    data[k] == (if indexStart <= k < i then false else old(data[k]))
      {
        data[i] := false;
        i := i + 1;
      }
    }

    /** `Clear()`: unsets every bit. */
    method Clear()
      modifies data
      ensures forall i :: 0 <= i < data.Length ==> !data[i]
    {
      var i := 0;
      while i < data.Length
        invariant 0 <= i <= data.Length
        invariant forall k :: 0 <= k < i ==> !data[k]
      {
        data[i] := false;
        i := i + 1;
      }
    }
  }
}
