/**
 The growing ring buffer behind wQueue (winpr/libwinpr/utils/collections/Queue.c)
 and wMessageQueue (MessageQueue.c): a first-in first-out queue kept in an array
 that wraps around and doubles before it would fill up.
 */
module RingQueue {
  import opened WinprStream

  /** The items queued in a ring, oldest first. */
  function Unrolled<T>(ring: seq<T>, head: nat, size: nat): (s: seq<T>)
    requires head < |ring| && size <= |ring|
    ensures |s| == size
  {
    if head + size <= |ring| then ring[head..head + size]
    else ring[head..] + ring[..head + size - |ring|]
  }

  function Wrap(k: nat, n: nat): (r: nat)
    requires k < 2 * n
    ensures r < n
  {
    if k < n then k else k - n
  }

  lemma WrapIsRemainder(k: nat, n: nat)
    requires k < n
    ensures (k + 1) % n == Wrap(k + 1, n)
  {
    if k + 1 < n {
      assert (k + 1) % n == k + 1;
    }
  }

  lemma PushUnrolled<T>(ring: seq<T>, head: nat, size: nat, x: T)
    requires head < |ring| && size < |ring|
    ensures Unrolled(ring[Wrap(head + size, |ring|) := x], head, size + 1) == Unrolled(ring, head, size) + [x]
  {
  }

  lemma PopUnrolled<T>(ring: seq<T>, head: nat, size: nat, zero: T)
    requires head < |ring| && 0 < size < |ring|
    ensures Unrolled(ring, head, size)[0] == ring[head]
    ensures Unrolled(ring[head := zero], Wrap(head + 1, |ring|), size - 1) == Unrolled(ring, head, size)[1..]
  {
  }

  /** The doubled ring: when the old one was wrapped, its beginning is copied behind its end. */
  function Grown<T>(ring: seq<T>, head: nat, tail: nat, zero: T): (r: seq<T>)
    requires tail <= |ring|
    ensures |r| == 2 * |ring|
  {
    if tail <= head then ring + ring[..tail] + seq(|ring| - tail, _ => zero)
    else ring + seq(|ring|, _ => zero)
  }

  lemma GrownUnrolled<T>(ring: seq<T>, head: nat, size: nat, zero: T)
    requires head < |ring| && 0 < size < |ring|
    ensures Unrolled(Grown(ring, head, Wrap(head + size, |ring|), zero), head, size) == Unrolled(ring, head, size)
  {
  }

  class Queue<T(0)> {
    var items: array<T>
    var head: nat
    var tail: nat
    var size: nat

    ghost predicate Valid()
      reads this
    {
      2 <= items.Length && head < items.Length && size < items.Length && tail == Wrap(head + size, items.Length)
    }

    ghost function Contents(): (s: seq<T>)
      requires Valid()
      reads this, items
    {
      Unrolled(items[..], head, size)
    }

    constructor (fill: T)
      ensures Valid() && fresh(items) && Contents() == []
    {
      items := new T[32](_ => fill);
      head, tail, size := 0, 0, 0;
    }

    /** Queue_EnsureCapacity(queue, 1): afterwards one more item leaves a free place. */
    method EnsureCapacity(zero: T)
      requires Valid()
      modifies this`items, this`tail
      ensures Valid() && (items == old(items) || fresh(items))
      ensures size + 1 < items.Length && Contents() == old(Contents())
      ensures items.Length == if size + 1 < old(items.Length) then old(items.Length) else 2 * old(items.Length)
    {
      if size + 1 >= items.Length {
        ghost var before := items[..];
        var grown := Grown(items[..], head, tail, zero);
        GrownUnrolled(before, head, size, zero);
        if tail <= head {
          tail := tail + items.Length;
        }
        items := new T[|grown|](i requires 0 <= i < |grown| => grown[i]);
        assert items[..] == grown;
      }
    }

    method Enqueue(x: T, zero: T)
      requires Valid()
      modifies this, items
      ensures Valid() && (items == old(items) || fresh(items))
      ensures Contents() == old(Contents()) + [x]
    {
      EnsureCapacity(zero);
      Append(x);
    }

    method Append(x: T)
      requires Valid() && size + 1 < items.Length
      modifies this`tail, this`size, items
      ensures Valid() && Contents() == old(Contents()) + [x]
    {
      PushUnrolled(items[..], head, size, x);
      WrapIsRemainder(tail, items.Length);
      items[tail] := x;
      tail := (tail + 1) % items.Length;
      size := size + 1;
    }

    method Dequeue(zero: T) returns (r: Option<T>)
      requires Valid()
      modifies this`head, this`size, items
      ensures Valid()
      ensures r == if old(Contents()) == [] then None else Some(old(Contents())[0])
      ensures Contents() == if old(Contents()) == [] then [] else old(Contents())[1..]
    {
      r := None;
      if size > 0 {
        PopUnrolled(items[..], head, size, zero);
        WrapIsRemainder(head, items.Length);
        r := Some(items[head]);
        items[head] := zero;
        head := (head + 1) % items.Length;
        size := size - 1;
      }
    }
  }
}
