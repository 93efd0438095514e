/**
 * The host heap as the generators see it: `malloc` either hands out a fresh
 * buffer or fails, and `free` gives a buffer back.  Whether an allocation
 * succeeds is decided by the environment, so it is an input (`ok`) rather
 * than anything the model computes.  `live` is the set of buffers that have
 * been allocated and not yet released; a routine that leaves `live` as it
 * found it leaks nothing.
 */
module Heap {

  class Allocator {
    /** Buffers currently allocated and not yet freed. */
    ghost var live: set<object>

    constructor ()
      ensures live == {}
    {
      live := {};
    }

    /** `malloc(n * sizeof(T))`: a fresh buffer of `n` elements, or null when allocation fails. */
    method Malloc<T(0)>(n: nat, ok: bool) returns (a: array?<T>)
      modifies this
      ensures ok ==> a != null && fresh(a) && a.Length == n && live == old(live) + {a}
      ensures !ok ==> a == null && live == old(live)
    {
      if ok {
        a := new T[n];
        live := live + {a};
      } else {
        a := null;
      }
    }

    /** `free(a)`: releases a live buffer; freeing null does nothing. */
    method Free(a: object?)
      requires a == null || a in live
      modifies this
      ensures a == null ==> live == old(live)
      ensures a != null ==> live == old(live) - {a}
    {
      if a != null {
        live := live - {a};
      }
    }
  }
}
