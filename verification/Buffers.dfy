/**
 The growable byte buffer (rpc/buffer.c) and the growable list of names
 (rpc/type/stringlist.c).

 The same struct serves as an output buffer, where `capacity` is the length of the
 allocation, and as a bounded cursor over a received message, where `size` is the
 position and `capacity` is the limit.
 */
module Buffers {
  import opened Words

  const MIN_CAPACITY: nat := 16

  /** The capacity the doubling loop stops at. */
  function Grown(capacity: nat, needed: nat): (c: nat)
    requires capacity > 0
    ensures capacity <= c && needed <= c
    ensures needed <= capacity ==> c == capacity
    ensures needed > capacity ==> 2 * capacity <= c < 2 * needed
    decreases if needed > capacity then needed - capacity else 0
  {
    if needed <= capacity then capacity else Grown(2 * capacity, needed)
  }

  function CapacityAfter(capacity: nat, needs: seq<nat>): (c: nat)
    requires capacity > 0
    ensures c >= capacity
    decreases needs
  {
    if needs == [] then capacity else CapacityAfter(Grown(capacity, needs[0]), needs[1..])
  }

  /** Bytes moved by reallocation over a run of reservations: each one that grows
      moves the whole old allocation. */
  function BytesMoved(capacity: nat, needs: seq<nat>): nat
    requires capacity > 0
    decreases needs
  {
    if needs == [] then 0
    else (if needs[0] > capacity then capacity else 0) + BytesMoved(Grown(capacity, needs[0]), needs[1..])
  }

  /** Growth is amortised: however the reservations come, all moves together cost
      less than the final capacity, which stays within twice the largest need. */
  lemma {:induction false} AmortisedGrowth(capacity: nat, needs: seq<nat>, bound: nat)
    requires capacity > 0
    requires forall n | n in needs :: n <= bound
    ensures BytesMoved(capacity, needs) <= CapacityAfter(capacity, needs) - capacity
    ensures CapacityAfter(capacity, needs) == capacity || CapacityAfter(capacity, needs) < 2 * bound
    decreases needs
  {
    if needs == [] {
    } else {
      assert needs[0] in needs;
      assert forall n | n in needs[1..] :: n in needs;
      AmortisedGrowth(Grown(capacity, needs[0]), needs[1..], bound);
    }
  }

  class Buffer {
    var data: array<byte>
    var size: nat
    var capacity: nat
    // The capacity the buffer started with, and the bytes reallocation has moved.
    ghost var initial: nat
    ghost var moved: nat

    /** An output buffer. */
    ghost predicate Valid()
      reads this
    {
      && capacity == data.Length
      && size <= capacity
      && MIN_CAPACITY <= initial <= capacity
      && moved <= capacity - initial
    }

    /** A cursor; its position may start past its limit. */
    ghost predicate Bounded()
      reads this
    {
      capacity <= data.Length
    }

    ghost function Contents(): (s: seq<byte>)
      reads this, data
      requires Valid()
    {
      data[..size]
    }

    constructor (initialCapacity: nat)
      ensures Valid() && fresh(data)
      ensures size == 0 && Contents() == []
      ensures capacity == initial == if initialCapacity > 16 then initialCapacity else 16
      ensures moved == 0
    {
      var cap := if initialCapacity > MIN_CAPACITY then initialCapacity else MIN_CAPACITY;
      data := new byte[cap];
      size := 0;
      capacity := cap;
      initial := cap;
      moved := 0;
    }

    /** A read cursor over another buffer's allocation. */
    constructor View(data: array<byte>, position: nat, limit: nat)
      requires limit <= data.Length
      ensures Bounded()
      ensures this.data == data && size == position && capacity == limit
    {
      this.data := data;
      size := position;
      capacity := limit;
      initial, moved := 0, 0;
    }

    method Reserve(needed: nat)
      requires Valid()
      modifies this
      ensures Valid()
      ensures capacity == Grown(old(capacity), needed)
      ensures size == old(size) && initial == old(initial)
      ensures data == old(data) || fresh(data)
      ensures needed <= old(capacity) ==> data == old(data)
      ensures data[..old(capacity)] == old(data[..])
      ensures moved == old(moved) + BytesMoved(old(capacity), [needed])
      ensures moved == old(moved) + if needed > old(capacity) then old(capacity) else 0
    {
      if needed > capacity {
        var newCapacity := capacity * 2;
        while needed > newCapacity
          invariant newCapacity > 0
          invariant Grown(capacity, needed) == Grown(newCapacity, needed)
          invariant newCapacity >= 2 * capacity
          decreases needed - newCapacity
        {
          newCapacity := newCapacity * 2;
        }
        var bigger := new byte[newCapacity];
        forall i | 0 <= i < capacity {
          bigger[i] := data[i];
        }
        moved := moved + capacity;
        data := bigger;
        capacity := newCapacity;
      }
    }

    method Reset()
      requires Valid()
      modifies this`size
      ensures Valid() && size == 0
    {
      size := 0;
    }

    method Write(bytes: seq<byte>)
      requires Valid()
      modifies this, data
      ensures Valid()
      ensures data == old(data) || fresh(data)
      ensures Contents() == old(Contents()) + bytes
      ensures capacity == Grown(old(capacity), old(size) + |bytes|)
      ensures initial == old(initial)
    {
      Reserve(size + |bytes|);
      Copy(size, bytes);
      size := size + |bytes|;
    }

    /** memcpy into the allocation. */
    method Copy(offset: nat, bytes: seq<byte>)
      requires Valid()
      requires offset + |bytes| <= capacity
      modifies data
      ensures data[..] == old(data[..offset]) + bytes + old(data[offset + |bytes|..])
    {
      forall i | 0 <= i < |bytes| {
        data[offset + i] := bytes[i];
      }
    }

    method WriteAt(offset: nat, bytes: seq<byte>)
      requires Valid()
      modifies this, data
      ensures Valid()
      ensures data == old(data) || fresh(data)
      ensures size == old(size) && initial == old(initial)
      ensures capacity == Grown(old(capacity), offset + |bytes|)
      ensures data[offset..offset + |bytes|] == bytes
      ensures forall i :: 0 <= i < old(capacity) && !(offset <= i < offset + |bytes|) ==> data[i] == old(data[i])
    {
      Reserve(offset + |bytes|);
      assert forall i :: 0 <= i < old(capacity) ==> data[i] == data[..old(capacity)][i];
      assert data[..old(capacity)] == old(data[..]);
      Copy(offset, bytes);
    }

    method Skip(count: nat)
      requires Valid()
      modifies this
      ensures Valid()
      ensures data == old(data) || fresh(data)
      ensures size == old(size) + count && initial == old(initial)
      ensures capacity == Grown(old(capacity), old(size) + count)
      ensures data[..old(size)] == old(Contents())
    {
      Reserve(size + count);
      assert data[..old(size)] == data[..old(capacity)][..old(size)];
      size := size + count;
    }

    /** Advances the cursor over `count` bytes, or fails and leaves it. The result
        is the offset of the bytes in `data`. */
    method Read(count: nat) returns (ok: bool, at: nat)
      requires Bounded()
      modifies this`size
      ensures ok == (old(size) + count <= capacity)
      ensures size == if ok then old(size) + count else old(size)
      ensures at == old(size)
    {
      at := size;
      ok := capacity >= size + count;
      if ok {
        size := size + count;
      }
    }
  }

  const INITIAL_LIST_CAPACITY: nat := 16

  /** A list of names; `entries` is an array that doubles when it is full. */
  class NameList {
    var entries: array<seq<byte>>
    var size: nat
    var capacity: nat
    ghost var moved: nat

    ghost predicate Valid()
      reads this
    {
      && capacity == entries.Length
      && size <= capacity
      && INITIAL_LIST_CAPACITY <= capacity
      && moved <= capacity - INITIAL_LIST_CAPACITY
    }

    ghost function Contents(): seq<seq<byte>>
      reads this, entries
      requires Valid()
    {
      entries[..size]
    }

    constructor ()
      ensures Valid() && fresh(entries) && capacity == 16
      ensures Contents() == [] && moved == 0
    {
      entries := new seq<byte>[INITIAL_LIST_CAPACITY];
      capacity := INITIAL_LIST_CAPACITY;
      size := 0;
      moved := 0;
    }

    /** The callback handed to `readdir`; it never reports that the list is full. */
    method Add(name: seq<byte>) returns (full: int)
      requires Valid()
      modifies this, entries
      ensures Valid() && (entries == old(entries) || fresh(entries))
      ensures Contents() == old(Contents()) + [name]
      ensures capacity == Grown(old(capacity), old(size) + 1)
      ensures full == 0
    {
      if size >= capacity {
        var newCapacity := capacity * 2;
        var bigger := new seq<byte>[newCapacity];
        forall i | 0 <= i < capacity {
          bigger[i] := entries[i];
        }
        moved := moved + capacity;
        entries := bigger;
        capacity := newCapacity;
      }
      entries[size] := name;
      size := size + 1;
      full := 0;
    }
  }
}
