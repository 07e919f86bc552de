/** The breadcrumb ring buffer: a fixed array written at an insertion pointer that wraps around. */
module BreadcrumbRing {
  import opened Basics

  /** The last `n` items, or all of them if there are fewer. */
  function LastOf<T>(items: seq<T>, n: nat): (r: seq<T>)
    ensures |r| == if |items| < n then |items| else n
  {
    if |items| < n then items else items[|items| - n..]
  }

  /** They are the end of the list. */
  lemma LastOfIsEnd<T>(items: seq<T>, n: nat)
    ensures items == items[..|items| - |LastOf(items, n)|] + LastOf(items, n)
  {
  }

  /** The slot of the n-th item: slots are numbered 0 to capacity - 1, turn after turn. */
  ghost function Slot(n: nat, capacity: nat): (slot: nat)
    requires capacity >= 1
    ensures slot < capacity
    ensures n < capacity ==> slot == n
    decreases n
  {
    if n < capacity then n else Slot(n - capacity, capacity)
  }

  /** Items less than one full turn apart are in different slots. */
  lemma {:induction false} DifferentSlots(a: nat, b: nat, capacity: nat)
    requires capacity >= 1 && a < b < a + capacity
    ensures Slot(a, capacity) != Slot(b, capacity)
    decreases a
  {
    if a >= capacity { DifferentSlots(a - capacity, b - capacity, capacity); }
  }

  function Advance(head: nat, distance: nat, capacity: nat): (r: nat)
    requires capacity >= 1
    ensures r < capacity
  {
    (head + distance) % capacity
  }

  /** Walking on from a slot, the pointer wraps around at the end. */
  lemma {:induction false} WalkedSlot(n: nat, i: nat, capacity: nat)
    requires capacity >= 1 && i <= capacity
    ensures Slot(n + i, capacity) == Advance(Slot(n, capacity), i, capacity)
    decreases n
  {
    if n >= capacity {
      WalkedSlot(n - capacity, i, capacity);
    } else {
      WrapAround(n + i, capacity);
      assert Slot(n + i, capacity) == if n + i < capacity then n + i else Slot(n + i - capacity, capacity);
    }
  }

  lemma SlotATurnLater(n: nat, capacity: nat)
    requires capacity >= 1
    ensures Slot(n + capacity, capacity) == Slot(n, capacity)
  {
  }

  lemma WrapAround(a: nat, capacity: nat)
    requires capacity >= 1 && a < 2 * capacity
    ensures a % capacity == if a < capacity then a else a - capacity
  {
  }

  /** The last items, as many as there is room for, are in their slots. */
  ghost predicate Holds<T>(slots: seq<Option<T>>, added: seq<T>) {
    && |slots| >= 1
    && forall n :: 0 <= n < |added| && |added| - |slots| <= n ==> slots[Slot(n, |slots|)] == Some(added[n])
  }

  lemma HoldsOneMore<T>(slots: seq<Option<T>>, added: seq<T>, item: T)
    requires Holds(slots, added)
    ensures Holds(slots[Slot(|added|, |slots|) := Some(item)], added + [item])
  {
    var last := |added|;
    forall n | 0 <= n < last && last + 1 - |slots| <= n ensures Slot(n, |slots|) != Slot(last, |slots|) {
      DifferentSlots(n, last, |slots|);
    }
  }

  lemma HoldsAt<T>(slots: seq<Option<T>>, added: seq<T>, n: nat)
    requires Holds(slots, added) && |added| - |slots| <= n < |added|
    ensures slots[Slot(n, |slots|)] == Some(added[n])
  {
  }

  class RingBuffer<T> {
    const capacity: nat
    var buffer: array<Option<T>>
    var head: nat
    var length: nat
    /** Everything added since construction or the last clear. */
    ghost var added: seq<T>

    ghost predicate Valid()
      reads this, buffer
    {
      && capacity >= 1 && buffer.Length == capacity
      && length == |LastOf(added, capacity)|
      && head == Slot(|added|, capacity)
      && Holds(buffer[..], added)
    }

    constructor (requested: int)
      ensures Valid() && fresh(buffer) && added == []
      ensures capacity == if requested < 1 then 1 else requested
    {
      var size: nat := if requested < 1 then 1 else requested;
      capacity := size;
      buffer := new Option<T>[size](_ => None);
      head, length := 0, 0;
      added := [];
    }

    method Add(crumb: T)
      requires Valid()
      modifies this, buffer
      ensures Valid() && buffer == old(buffer)
      ensures added == old(added) + [crumb]
    {
      hide Slot, Advance, Holds;
      HoldsOneMore(buffer[..], added, crumb);
      WalkedSlot(|added|, 1, capacity);
      buffer[head] := Some(crumb);
      head := Advance(head, 1, capacity);
      if length < capacity {
        length := length + 1;
      }
      added := added + [crumb];
    }

    /** MAIN RESULT. Through any number of turns, the buffer holds the last items, oldest first. */
    method GetAll() returns (result: seq<T>)
      requires Valid()
      ensures result == LastOf(added, capacity)
    {
      hide Slot, Advance, Holds;
      result := [];
      ghost var first := |added| - length;
      if length < capacity {
        for i := 0 to length
          invariant result == added[..i]
        {
          HoldsAt(buffer[..], added, i);
          result := result + [buffer[i].value];
        }
      } else {
        for i := 0 to capacity
          invariant result == added[first..first + i]
        {
          WalkedSlot(first, i, capacity);
          SlotATurnLater(first, capacity);
          HoldsAt(buffer[..], added, first + i);
          var index := Advance(head, i, capacity);
          result := result + [buffer[index].value];
        }
      }
    }

    method Clear()
      requires Valid()
      modifies this
      ensures Valid() && fresh(buffer) && added == []
    {
      buffer := new Option<T>[capacity](_ => None);
      head := 0;
      length := 0;
      added := [];
    }

    method Size() returns (n: nat)
      requires Valid()
      ensures n == |LastOf(added, capacity)|
    {
      n := length;
    }
  }

  // ---------------------------------------------------------------------------
  // What is remembered over a run of calls

  datatype Call<T> = Add(item: T) | Clear

  /** How `added` grows over a run, as the contracts of Add and Clear say. */
  function AddedBy<T>(calls: seq<Call<T>>): seq<T> {
    if calls == [] then []
    else
      match calls[|calls| - 1]
      case Add(item) => AddedBy(calls[..|calls| - 1]) + [item]
      case Clear => []
  }

  function Items<T>(calls: seq<Call<T>>): (r: seq<T>)
    requires forall i :: 0 <= i < |calls| ==> calls[i].Add?
    ensures |r| == |calls|
  {
    seq(|calls|, i requires 0 <= i < |calls| => calls[i].item)
  }

  /** After a clear followed by additions only, exactly those additions are remembered. */
  lemma {:induction false} AddedSinceClear<T>(before: seq<Call<T>>, additions: seq<Call<T>>)
    requires before == [] || before[|before| - 1].Clear?
    requires forall i :: 0 <= i < |additions| ==> additions[i].Add?
    ensures AddedBy(before + additions) == Items(additions)
  {
    if additions == [] {
      assert before + additions == before;
    } else {
      var init := additions[..|additions| - 1];
      assert (before + additions)[..|before + additions| - 1] == before + init;
      AddedSinceClear(before, init);
    }
  }

  /** A ring buffer that has gone through the calls, and the list `getAll` then returns. */
  method Replay<T>(requested: int, calls: seq<Call<T>>) returns (result: seq<T>, size: nat)
    ensures result == LastOf(AddedBy(calls), if requested < 1 then 1 else requested)
    ensures size == |result|
  {
    hide LastOf, Slot, Holds;
    var ring := new RingBuffer<T>(requested);
    for i := 0 to |calls|
      invariant ring.Valid() && fresh(ring) && fresh(ring.buffer)
      invariant ring.added == AddedBy(calls[..i])
    {
      assert calls[..i + 1][..i] == calls[..i];
      match calls[i]
      case Add(item) => ring.Add(item);
      case Clear => ring.Clear();
    }
    assert calls[..|calls|] == calls;
    result := ring.GetAll();
    size := ring.Size();
  }
}
