/** np1/fixed_homogenous_heap.hpp: a fixed number of equal blocks, the free ones threaded on a list
    through their headers. A block is named by its number, -1 is the null pointer. */
module FixedHeap {
  const NULL: int := -1

  class FixedHeap {
    const headers: array<int>
    var freeList: int
    /** The free blocks in the order they will be handed out. */
    ghost var free: seq<nat>

    ghost predicate Valid()
      reads this, headers
    {
      && (forall i :: 0 <= i < |free| ==> free[i] < headers.Length)
      && (forall i, j :: 0 <= i < j < |free| ==> free[i] != free[j])
      && freeList == (if free == [] then NULL else free[0])
      && (forall i :: 0 <= i < |free| - 1 ==> headers[free[i]] == free[i + 1])
      && (free != [] ==> headers[free[|free| - 1]] == NULL)
    }

    /** All blocks start out free, in address order. */
    constructor (numberBlocks: nat)
      ensures Valid() && fresh(headers) && headers.Length == numberBlocks
      ensures |free| == numberBlocks && forall i :: 0 <= i < numberBlocks ==> free[i] == i
    {
      headers := new int[numberBlocks](_ => 0);
      freeList := if numberBlocks == 0 then NULL else 0;
      free := seq(numberBlocks, i => i);
      new;
      var ii := 0;
      while ii != headers.Length
        invariant 0 <= ii <= headers.Length && headers.Length == numberBlocks && fresh(headers)
        invariant free == seq(numberBlocks, i => i) && freeList == if numberBlocks == 0 then NULL else 0
        invariant forall i :: 0 <= i < ii ==> headers[i] == if i + 1 < numberBlocks then i + 1 else NULL
      {
        var next := ii + 1;
        if next >= headers.Length {
          headers[ii] := NULL;
        } else {
          headers[ii] := next;
        }
        ii := next;
      }
    }

    /** `ok` is false where the source aborts: no block is free. */
    method Alloc() returns (ok: bool, p: nat)
      requires Valid()
      modifies this
      ensures Valid() && ok == (old(free) != [])
      ensures ok ==> p < headers.Length && p !in free && old(free) == [p] + free
      ensures !ok ==> free == old(free)
    {
      if freeList == NULL { return false, 0; }
      ghost var before := free;
      p := freeList;
      freeList := headers[freeList];
      free := before[1..];
      assert before == [before[0]] + free;
      assert forall i :: 0 <= i < |free| ==> free[i] == before[i + 1];
      ok := true;
    }

    /** Give back a block that is in use. Only its header is written. */
    method Free(p: nat)
      requires Valid() && p < headers.Length && p !in free
      modifies this, headers
      ensures Valid() && free == [p] + old(free)
    {
      headers[p] := freeList;
      freeList := p;
      free := [p] + free;
    }
  }
}
