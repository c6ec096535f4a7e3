/**
 The allocator exerciser pmt: seven phases over an array of heap blocks. Every operation
 of the heap demands what C demands of its caller, so running the phases without a
 broken demand is the safety of the whole run.
 */
module Pmt {

  const INT_MAX: int := 0x7fff_ffff
  const POINTER_SIZE: int := 8

  const NULL: nat := 0

  type Pointer = nat
  type Address = p: Pointer | p != NULL witness 1

  /** The live blocks: their contents by address. */
  type Blocks = map<Address, seq<nat>>

  function Without(blocks: Blocks, p: Pointer): Blocks {
    if p == NULL then blocks else blocks - {p}
  }

  /** With a block of that size there, filled to its end; a null pointer has none. */
  function WithFull(blocks: Blocks, p: Pointer, size: nat): Blocks {
    if p == NULL then blocks else blocks[p := Filled(size, 0xff)]
  }

  function Filled(n: nat, byte: nat): (s: seq<nat>)
    ensures |s| == n && forall i :: 0 <= i < n ==> s[i] == byte
  {
    seq(n, i => byte)
  }

  lemma {:induction false} AddressBound(keys: set<Address>) returns (bound: nat)
    ensures forall p :: p in keys ==> p <= bound
    decreases |keys|
  {
    if keys == {} {
      bound := 0;
    } else {
      var q :| q in keys;
      var rest := AddressBound(keys - {q});
      bound := if q > rest then q else rest;
      forall p | p in keys ensures p <= bound {
        if p != q {
          assert p in keys - {q};
        }
      }
    }
  }

  lemma FreshAddress(keys: set<Address>)
    ensures exists p: Address :: p !in keys
  {
    var bound := AddressBound(keys);
    var p: Address := bound + 1;
    assert p !in keys;
  }

  class Heap {
    var blocks: Blocks

    constructor (blocks: Blocks)
      ensures this.blocks == blocks
    {
      this.blocks := blocks;
    }

    /** A new block, anywhere that is not in use; an empty one may be a null pointer instead. */
    method Malloc(size: nat) returns (p: Pointer)
      modifies this
      ensures p == NULL ==> size == 0 && blocks == old(blocks)
      ensures p != NULL ==> p !in old(blocks) && p in blocks && |blocks[p]| == size
      ensures p != NULL ==> blocks == old(blocks)[p := blocks[p]]
    {
      var contents: seq<nat> := *;
      if |contents| != size {
        contents := Filled(size, 0);
      }
      p := Place(contents);
    }

    method Calloc(n: nat, size: nat) returns (p: Pointer)
      modifies this
      ensures p == NULL ==> n * size == 0 && blocks == old(blocks)
      ensures p != NULL ==> p !in old(blocks) && blocks == old(blocks)[p := Filled(n * size, 0)]
    {
      p := Place(Filled(n * size, 0));
    }

    method Place(contents: seq<nat>) returns (p: Pointer)
      modifies this
      ensures p == NULL ==> contents == [] && blocks == old(blocks)
      ensures p != NULL ==> p !in old(blocks) && blocks == old(blocks)[p := contents]
    {
      var unique: bool := *;
      if contents == [] && !unique {
        return NULL;
      }
      FreshAddress(blocks.Keys);
      var q: Address :| q !in blocks.Keys;
      blocks := blocks[q := contents];
      p := q;
    }

    /** A live block is given up, exactly once; a null pointer is ignored. */
    method Free(p: Pointer)
      requires p == NULL || p in blocks
      modifies this
      ensures blocks == Without(old(blocks), p)
    {
      if p != NULL {
        blocks := blocks - {p};
      }
    }

    /** A live block is moved or resized in place; what fits of its contents stays. */
    method Realloc(p: Pointer, size: nat) returns (q: Pointer)
      requires p == NULL || p in blocks
      modifies this
      ensures q == NULL ==> size == 0 && blocks == Without(old(blocks), p)
      ensures q != NULL ==> (q == p || q !in old(blocks)) && q in blocks && |blocks[q]| == size
      ensures q != NULL ==> blocks == Without(old(blocks), p)[q := blocks[q]]
      ensures p != NULL && q != NULL ==>
                forall i :: 0 <= i < |old(blocks)[p]| && i < size ==> blocks[q][i] == old(blocks)[p][i]
    {
      if p == NULL {
        q := Malloc(size);
        return;
      }
      var contents := blocks[p];
      var resized := if |contents| >= size then contents[..size] else contents + Filled(size - |contents|, 0);
      var stays: bool := *;
      if stays {
        q := p;
        blocks := blocks[p := resized];
      } else {
        q := Place(resized);
        blocks := blocks - {p};
      }
    }

    /** Writing stays inside one live block; through a null pointer nothing may be written. */
    method Memset(p: Pointer, byte: nat, n: nat)
      requires if p == NULL then n == 0 else p in blocks && n <= |blocks[p]|
      modifies this
      ensures p == NULL ==> blocks == old(blocks)
      ensures p != NULL ==> blocks == old(blocks)[p := Filled(n, byte) + old(blocks)[p][n..]]
      ensures p != NULL && n == |old(blocks)[p]| ==> blocks == old(blocks)[p := Filled(n, byte)]
    {
      if p != NULL {
        assert n == |blocks[p]| ==> Filled(n, byte) + blocks[p][n..] == Filled(n, byte);
        blocks := blocks[p := Filled(n, byte) + blocks[p][n..]];
      }
    }
  }

  // ---------------------------------------------------------------- ownership

  /**
   The blocks are those there were before, unchanged, and one block of its own for every
   slot outside lo..hi, of the wanted size and filled to its end, or none where the size
   is zero; the slots inside hold stale or unset pointers.
   */
  ghost predicate Owns(base: Blocks, blocks: Blocks, slots: seq<Pointer>, lo: int, hi: int, sizes: seq<nat>) {
    && 0 <= lo <= hi <= |slots| == |sizes|
    && (forall p :: p in base ==> p in blocks && blocks[p] == base[p])
    && (forall j :: 0 <= j < |slots| && !(lo <= j < hi) ==>
                      if slots[j] == NULL then sizes[j] == 0
                      else && slots[j] in blocks && slots[j] !in base
                           && blocks[slots[j]] == Filled(sizes[j], 0xff))
    && (forall j, k :: 0 <= j < k < |slots| && !(lo <= j < hi) && !(lo <= k < hi) && slots[j] != NULL ==>
                         slots[j] != slots[k])
    && (forall p :: p in blocks && p !in base ==> exists j :: 0 <= j < |slots| && !(lo <= j < hi) && slots[j] == p)
  }

  /** The first unset slot receives a new block. */
  lemma OwnsAllocated(base: Blocks, blocks: Blocks, slots: seq<Pointer>, lo: int, hi: int, sizes: seq<nat>, p: Pointer)
    requires Owns(base, blocks, slots, lo, hi, sizes) && lo < hi
    requires if p == NULL then sizes[lo] == 0 else p !in blocks
    ensures Owns(base, WithFull(blocks, p, sizes[lo]), slots[lo := p], lo + 1, hi, sizes)
  {
    var blocks', slots' := WithFull(blocks, p, sizes[lo]), slots[lo := p];
    forall j | 0 <= j < |slots'| && !(lo + 1 <= j < hi) && slots'[j] != NULL
      ensures slots'[j] in blocks' && slots'[j] !in base && blocks'[slots'[j]] == Filled(sizes[j], 0xff)
    {
      assert j != lo ==> slots'[j] == slots[j] != p;
    }
    forall q | q in blocks' && q !in base
      ensures exists j :: 0 <= j < |slots'| && !(lo + 1 <= j < hi) && slots'[j] == q
    {
      if q == p {
        assert slots'[lo] == q;
      } else {
        var j :| 0 <= j < |slots| && !(lo <= j < hi) && slots[j] == q;
        assert slots'[j] == q;
      }
    }
  }

  /** The slot after the unset ones gives its block up. */
  lemma OwnsFreed(base: Blocks, blocks: Blocks, slots: seq<Pointer>, lo: int, hi: int, sizes: seq<nat>)
    requires Owns(base, blocks, slots, lo, hi, sizes) && hi < |slots|
    ensures slots[hi] == NULL || slots[hi] in blocks
    ensures Owns(base, Without(blocks, slots[hi]), slots, lo, hi + 1, sizes)
  {
  }

  /** Moving and refilling a block is giving it up and receiving a new one. */
  lemma OwnsMoved(base: Blocks, blocks: Blocks, slots: seq<Pointer>, sizes: seq<nat>, i: int, q: Pointer, size: nat)
    requires Owns(base, blocks, slots, |slots|, |slots|, sizes) && 0 <= i < |slots|
    requires if q == NULL then size == 0 else q == slots[i] || q !in blocks
    ensures Owns(base, WithFull(Without(blocks, slots[i]), q, size), slots[i := q], |slots|, |slots|, sizes[i := size])
  {
    var without := Without(blocks, slots[i]);
    NoSlotUnset(base, blocks, slots, |slots|, i, sizes);
    OwnsFreed(base, blocks, slots, i, i, sizes);
    OtherSize(base, without, slots, i, sizes, size);
    OwnsAllocated(base, without, slots, i, i + 1, sizes[i := size], q);
    NoSlotUnset(base, WithFull(without, q, size), slots[i := q], i + 1, |slots|, sizes[i := size]);
  }

  /** When no slot is unset, it does not matter where. */
  lemma NoSlotUnset(base: Blocks, blocks: Blocks, slots: seq<Pointer>, at: int, other: int, sizes: seq<nat>)
    requires Owns(base, blocks, slots, at, at, sizes) && 0 <= other <= |slots|
    ensures Owns(base, blocks, slots, other, other, sizes)
  {
  }

  /** The size wanted for an unset slot is free to change. */
  lemma OtherSize(base: Blocks, blocks: Blocks, slots: seq<Pointer>, i: int, sizes: seq<nat>, size: nat)
    requires 0 <= i < |slots| && Owns(base, blocks, slots, i, i + 1, sizes)
    ensures Owns(base, blocks, slots, i, i + 1, sizes[i := size])
  {
  }

  lemma OwnsNothing(base: Blocks, blocks: Blocks, slots: seq<Pointer>, sizes: seq<nat>)
    requires Owns(base, blocks, slots, 0, |slots|, sizes)
    ensures blocks == base
  {
  }

  // ---------------------------------------------------------------- the program

  function Capped(size: nat, maxSize: nat): nat {
    if size > maxSize then maxSize else size
  }

  /** The sizes of the blocks after the first allocation. */
  function Allocated(count: nat, maxSize: nat): seq<nat> {
    seq(count, j requires 0 <= j => Capped(0x20 * j + 0x50, maxSize))
  }

  /** From slot 16 on the second round has blocks of half the size, rounded. */
  function Cleared(count: nat, maxSize: nat): seq<nat> {
    seq(count, j requires 0 <= j =>
      if j < 16 then Capped(0x20 * j + 0x50, maxSize) else (Capped(0x20 * j + 0x50, maxSize) / 4) * 2)
  }

  /** Even slots below `done` were resized. */
  function Resized(count: nat, maxSize: nat, done: int): seq<nat> {
    seq(count, j requires 0 <= j < count =>
      if j % 2 == 0 && j < done then Capped(0x20 * j + 0x90, maxSize) else Cleared(count, maxSize)[j])
  }

  /** The first half was allocated anew. */
  function Renewed(count: nat, maxSize: nat): seq<nat> {
    seq(count, j requires 0 <= j < count =>
      if j < count / 2 then Capped(0x11 * j + 0x20, maxSize) else Resized(count, maxSize, count)[j])
  }

  lemma NoneResized(count: nat, maxSize: nat)
    ensures Resized(count, maxSize, 0) == Cleared(count, maxSize)
  {
  }

  lemma OneMoreResized(count: nat, maxSize: nat, i: nat)
    requires i < count && i % 2 == 0
    ensures Resized(count, maxSize, i + 2) == Resized(count, maxSize, i)[i := Capped(0x20 * i + 0x90, maxSize)]
  {
  }

  lemma AllResized(count: nat, maxSize: nat, i: nat)
    requires count <= i
    ensures Resized(count, maxSize, i) == Resized(count, maxSize, count)
  {
  }

  class Exerciser {
    const heap: Heap
    const slots: array<Pointer>
    const count: nat
    const maxSize: nat
    ghost const base: Blocks

    /** The slots' blocks, apart from those in lo..hi, have these sizes and nobody else has them. */
    ghost predicate Holds(lo: int, hi: int, sizes: seq<nat>)
      reads heap, slots
    {
      count == slots.Length && Owns(base, heap.blocks, slots[..], lo, hi, sizes)
    }

    /** Sizes are computed in ints. */
    predicate Fits() {
      0x20 * count + 0x90 <= INT_MAX
    }

    constructor (heap: Heap, count: nat, maxSize: nat)
      ensures this.heap == heap && this.count == count && this.maxSize == maxSize && base == heap.blocks
      ensures fresh(slots) && Holds(0, count, Allocated(count, maxSize))
    {
      this.heap := heap;
      this.count := count;
      this.maxSize := maxSize;
      base := heap.blocks;
      slots := new Pointer[count](i => NULL);
    }

    method FreeSlot(i: nat, ghost lo: nat, ghost sizes: seq<nat>)
      requires lo <= i < slots.Length && Holds(lo, i, sizes)
      modifies heap
      ensures Holds(lo, i + 1, sizes)
    {
      OwnsFreed(base, heap.blocks, slots[..], lo, i, sizes);
      heap.Free(slots[i]);
    }

    /** Allocate a block into the slot and fill it. */
    method AllocateInto(i: nat, size: nat, ghost hi: nat, ghost sizes: seq<nat>)
      requires i < hi <= slots.Length && Holds(i, hi, sizes) && sizes[i] == size
      modifies heap, slots
      ensures Holds(i + 1, hi, sizes)
    {
      ghost var before, old_ := heap.blocks, slots[..];
      slots[i] := heap.Malloc(size);
      heap.Memset(slots[i], 0xff, size);
      OwnsAllocated(base, before, old_, i, hi, sizes, slots[i]);
      assert heap.blocks == WithFull(before, slots[i], size);
      assert slots[..] == old_[i := slots[i]];
    }

    method AllocateAll()
      requires Fits() && Holds(0, count, Allocated(count, maxSize))
      modifies heap, slots
      ensures Holds(count, count, Allocated(count, maxSize))
    {
      var i := 0;
      while i < count
        invariant 0 <= i <= count
        invariant Holds(i, count, Allocated(count, maxSize))
      {
        assert 0x20 * i + 0x50 <= INT_MAX;
        AllocateInto(i, Capped(0x20 * i + 0x50, maxSize), count, Allocated(count, maxSize));
        i := i + 1;
      }
    }

    method FreeTail()
      requires Holds(count, count, Allocated(count, maxSize))
      modifies heap
      ensures Holds(if count < 16 then count else 16, count, Allocated(count, maxSize))
    {
      ghost var lo := if count < 16 then count else 16;
      assert Holds(lo, lo, Allocated(count, maxSize));
      var i := 16;
      while i < count
        invariant 16 <= i && (i <= count || i == 16)
        invariant Holds(lo, if i < count then i else count, Allocated(count, maxSize))
      {
        FreeSlot(i, lo, Allocated(count, maxSize));
        i := i + 1;
      }
    }

    method CallocInto(i: nat, n: nat, ghost sizes: seq<nat>)
      requires i < count && Holds(i, count, sizes) && sizes[i] == n * 2
      modifies heap, slots
      ensures Holds(i + 1, count, sizes)
    {
      ghost var before, old_ := heap.blocks, slots[..];
      slots[i] := heap.Calloc(n, 2);
      heap.Memset(slots[i], 0xff, n * 2);
      OwnsAllocated(base, before, old_, i, count, sizes, slots[i]);
      assert heap.blocks == WithFull(before, slots[i], n * 2);
      assert slots[..] == old_[i := slots[i]];
    }

    method CallocTail()
      requires Fits() && Holds(if count < 16 then count else 16, count, Allocated(count, maxSize))
      modifies heap, slots
      ensures Holds(count, count, Cleared(count, maxSize))
    {
      var i := 16;
      while i < count
        invariant 16 <= i && (i <= count || i == 16)
        invariant Holds(if i < count then i else count, count, Cleared(count, maxSize))
      {
        assert 0x20 * i + 0x50 <= INT_MAX;
        var size := Capped(0x20 * i + 0x50, maxSize);
        CallocInto(i, size / 4, Cleared(count, maxSize));
        i := i + 1;
      }
    }

    method ReallocSlot(i: nat, size: nat, ghost sizes: seq<nat>)
      requires i < count && Holds(count, count, sizes)
      modifies heap, slots
      ensures Holds(count, count, sizes[i := size])
    {
      ghost var before, old_ := heap.blocks, slots[..];
      assert old_[i] == NULL || old_[i] in before;
      slots[i] := heap.Realloc(slots[i], size);
      heap.Memset(slots[i], 0xff, size);
      OwnsMoved(base, before, old_, sizes, i, slots[i], size);
      assert heap.blocks == WithFull(Without(before, old_[i]), slots[i], size);
      assert slots[..] == old_[i := slots[i]];
    }

    method ReallocEven()
      requires Fits() && Holds(count, count, Cleared(count, maxSize))
      modifies heap, slots
      ensures Holds(count, count, Resized(count, maxSize, count))
    {
      hide Owns, Cleared;
      NoneResized(count, maxSize);
      var i := 0;
      while i < count
        invariant 0 <= i && i % 2 == 0
        invariant Holds(count, count, Resized(count, maxSize, i))
      {
        assert 0x20 * i + 0x90 <= INT_MAX;
        var size := Capped(0x20 * i + 0x90, maxSize);
        ReallocSlot(i, size, Resized(count, maxSize, i));
        OneMoreResized(count, maxSize, i);
        i := i + 2;
      }
      AllResized(count, maxSize, i);
    }

    method FreeFirstHalf()
      requires Holds(count, count, Resized(count, maxSize, count))
      modifies heap
      ensures Holds(0, count / 2, Resized(count, maxSize, count))
    {
      assert Holds(0, 0, Resized(count, maxSize, count));
      var i := 0;
      while i < count / 2
        invariant 0 <= i <= count / 2
        invariant Holds(0, i, Resized(count, maxSize, count))
      {
        FreeSlot(i, 0, Resized(count, maxSize, count));
        i := i + 1;
      }
    }

    method AllocateFirstHalf()
      requires Fits() && Holds(0, count / 2, Resized(count, maxSize, count))
      modifies heap, slots
      ensures Holds(count, count, Renewed(count, maxSize))
    {
      var i := 0;
      while i < count / 2
        invariant 0 <= i <= count / 2
        invariant Holds(i, count / 2, Renewed(count, maxSize))
      {
        assert 0x11 * i + 0x20 <= INT_MAX;
        AllocateInto(i, Capped(0x11 * i + 0x20, maxSize), count / 2, Renewed(count, maxSize));
        i := i + 1;
      }
    }

    method FreeAll()
      requires Holds(count, count, Renewed(count, maxSize))
      modifies heap
      ensures heap.blocks == base
    {
      assert Holds(0, 0, Renewed(count, maxSize));
      var i := 0;
      while i < count
        invariant 0 <= i <= count
        invariant Holds(0, i, Renewed(count, maxSize))
      {
        FreeSlot(i, 0, Renewed(count, maxSize));
        i := i + 1;
      }
      OwnsNothing(base, heap.blocks, slots[..], Renewed(count, maxSize));
    }
  }

  /**
   The whole run, for every count and cap: it keeps every demand of the heap and leaves
   exactly the blocks it found. It gives up only where the array itself is empty and the
   heap has no block for it. `count` is bounded only so that the sizes fit an int.
   */
  method Exercise(heap: Heap, count: nat, maxSize: nat) returns (exitCode: int)
    requires maxSize <= INT_MAX && 0x20 * count + 0x90 <= INT_MAX
    modifies heap
    ensures heap.blocks == old(heap.blocks)
    ensures exitCode == 0 || (exitCode == 1 && count == 0)
  {
    hide Owns, Allocated, Cleared, Resized, Renewed;
    var bufs := heap.Malloc(count * POINTER_SIZE);
    if bufs == NULL {
      return 1;
    }
    var e := new Exerciser(heap, count, maxSize);
    e.AllocateAll();
    e.FreeTail();
    e.CallocTail();
    e.ReallocEven();
    e.FreeFirstHalf();
    e.AllocateFirstHalf();
    e.FreeAll();
    heap.Free(bufs);
    exitCode := 0;
  }
}
