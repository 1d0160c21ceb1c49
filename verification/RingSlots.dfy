/** The two ways the code turns a range of positions into ring slots. */
module RingSlots {
  import opened Words

  /** Where the masked traversal finds item k of a range. */
  function MaskedIndex(capacity: nat, first: nat, k: nat): nat
    requires capacity > 0
  {
    And(Wrap(first + k), capacity - 1)
  }

  /** How many items the first of the two spans holds. */
  function Contiguous(capacity: nat, first: nat, count: nat): (n: nat)
    requires capacity > 0
    ensures n <= count
  {
    var firstIndex := And(first, capacity - 1);
    if count < capacity - firstIndex then count else capacity - firstIndex
  }

  /** Where the two-span traversal finds item k of a range. */
  function SpanIndex(capacity: nat, first: nat, count: nat, k: nat): nat
    requires capacity > 0
  {
    var contiguous := Contiguous(capacity, first, count);
    if k < contiguous then And(first, capacity - 1) + k else k - contiguous
  }

  /** Both traversals visit the slot of the true position. */
  lemma TraversalsAgree(capacity: nat, position: nat, count: nat, k: nat)
    requires ValidCapacity(capacity) && k < count <= capacity
    ensures MaskedIndex(capacity, Wrap(position), k) == SpanIndex(capacity, Wrap(position), count, k)
         == (position + k) % capacity < capacity
  {
    WrapAdd(position, k);
    MaskedSlot(position + k, capacity);
    MaskedSlot(position, capacity);
    SpanSlot(position, k, capacity);
  }
}
