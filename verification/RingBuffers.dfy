/** The ring buffer as an object: an array indexed by two wrapped 64-bit counters.
    This is the behaviour of a call that runs to completion without the other side moving;
    interleavings are the subject of RingProtocol. */
module RingBuffers {
  import opened Words

  /** The `n` elements that start at the counter `t`. */
  function View<T>(slots: seq<T>, t: nat, n: nat): (s: seq<T>)
    requires 0 < |slots|
    ensures |s| == n && forall i :: 0 <= i < n ==> s[i] == slots[SlotFrom(t, i, |slots|)]
  {
    seq(n, i requires 0 <= i < n => slots[SlotFrom(t, i, |slots|)])
  }

  lemma ViewPushed<T>(slots: seq<T>, t: nat, n: nat, x: T)
    requires PowerOfTwo(|slots|) && n < |slots| < WORD
    ensures View(slots[SlotFrom(t, n, |slots|) := x], t, n + 1) == View(slots, t, n) + [x]
  {
    hide PowerOfTwo, SlotFrom;
    forall i: nat | i < n ensures SlotFrom(t, i, |slots|) != SlotFrom(t, n, |slots|) {
      SlotsFromDistinct(t, i, n, |slots|);
    }
  }

  lemma ViewPopped<T>(slots: seq<T>, t: nat, n: nat)
    requires 0 < |slots| && 0 < n
    ensures View(slots, t, n) == [slots[SlotFrom(t, 0, |slots|)]] + View(slots, WrapInc(t), n - 1)
  {
    hide SlotFrom, WrapInc;
    var rest := View(slots, WrapInc(t), n - 1);
    forall i | 0 <= i < n - 1 ensures View(slots, t, n)[i + 1] == rest[i] {
      SlotFromNext(t, i, |slots|);
    }
  }

  lemma AfterPush(h: nat, t: nat)
    requires h < WORD && t < WORD && WrapSub(h, t) < WORD - 1
    ensures (t + WrapSub(h, t)) % WORD == h
    ensures WrapSub(WrapInc(h), t) == WrapSub(h, t) + 1
  {
    var n := WrapSub(h, t);
    WrapSubInverse(h, t);
    WrapIncOfCounter(t + n);
    WrapSubOfCounters(t + n + 1, t);
  }

  lemma AfterPop(h: nat, t: nat)
    requires h < WORD && t < WORD && h != t
    ensures 0 < WrapSub(h, t) && WrapSub(h, WrapInc(t)) == WrapSub(h, t) - 1
  {
    WrapSubInverse(h, t);
    WrapSubOfCounters(t + WrapSub(h, t), t + 1);
  }

  lemma MaskIsSlot(h: nat, t: nat, capacity: nat)
    requires h < WORD && t < WORD && 0 < capacity
    ensures And(h, capacity - 1) == SlotFrom(t, WrapSub(h, t), capacity)
    ensures And(t, capacity - 1) == SlotFrom(t, 0, capacity)
  {
    hide And;
    WrapSubInverse(h, t);
  }

  /** A push on the slots and the counters: the slot written is free, and the view grows at its end. */
  lemma PushStep<T>(slots: seq<T>, h: nat, t: nat, x: T)
    requires PowerOfTwo(|slots|) && |slots| < WORD && h < WORD && t < WORD && WrapSub(h, t) < |slots|
    ensures WrapSub(WrapInc(h), t) == WrapSub(h, t) + 1
    ensures View(slots[And(h, |slots| - 1) := x], t, WrapSub(WrapInc(h), t)) == View(slots, t, WrapSub(h, t)) + [x]
  {
    hide PowerOfTwo, And, SlotFrom, View, WrapSub, WrapInc;
    AfterPush(h, t);
    MaskIsSlot(h, t, |slots|);
    ViewPushed(slots, t, WrapSub(h, t), x);
  }

  /** A pop on the counters: the view loses its front. */
  lemma PopStep<T>(slots: seq<T>, h: nat, t: nat)
    requires 0 < |slots| && h < WORD && t < WORD && h != t
    ensures WrapSub(h, t) > 0 && WrapSub(h, WrapInc(t)) == WrapSub(h, t) - 1
    ensures View(slots, t, WrapSub(h, t)) ==
            [slots[And(t, |slots| - 1)]] + View(slots, WrapInc(t), WrapSub(h, WrapInc(t)))
  {
    hide And, SlotFrom, View, WrapSub, WrapInc;
    AfterPop(h, t);
    MaskIsSlot(h, t, |slots|);
    ViewPopped(slots, t, WrapSub(h, t));
  }

  lemma EqualCounters(h: nat, t: nat)
    requires h < WORD && t < WORD
    ensures h == t <==> WrapSub(h, t) == 0
  {
    WrapSubInverse(h, t);
  }

  class RingBuffer<T(0)> {
    const capacity: nat
    const buffer: array<T>
    var head: nat
    var tail: nat

    ghost predicate Valid()
      reads this
    {
      && PowerOfTwo(capacity) && capacity < WORD && buffer.Length == capacity
      && head < WORD && tail < WORD && WrapSub(head, tail) <= capacity
    }

    ghost function Contents(): (s: seq<T>)
      requires Valid()
      reads this, buffer
      ensures |s| == WrapSub(head, tail)
    {
      View(buffer[..], tail, WrapSub(head, tail))
    }

    constructor (n: nat)
      requires PowerOfTwo(n) && n < WORD
      ensures Valid() && capacity == n && Contents() == [] && fresh(buffer)
    {
      capacity := n;
      buffer := new T[n];
      head, tail := 0, 0;
    }

    method TryPush(item: T) returns (ok: bool)
      requires Valid()
      modifies this`head, buffer
      ensures Valid()
      ensures ok <==> |old(Contents())| < capacity
      ensures Contents() == if ok then old(Contents()) + [item] else old(Contents())
    {
      assert 0 < capacity;
      hide And, PowerOfTwo, SlotFrom, View, WrapSub, WrapInc;
      if WrapSub(head, tail) == capacity {
        return false;
      }
      PushStep(buffer[..], head, tail, item);
      buffer[And(head, capacity - 1)] := item;
      head := WrapInc(head);
      return true;
    }

    method TryPop() returns (ok: bool, out: T)
      requires Valid()
      modifies this`tail
      ensures Valid()
      ensures ok <==> old(Contents()) != []
      ensures ok ==> old(Contents()) == [out] + Contents()
      ensures !ok ==> Contents() == old(Contents())
    {
      assert 0 < capacity;
      hide And, PowerOfTwo, SlotFrom, View, WrapSub, WrapInc;
      EqualCounters(head, tail);
      out := buffer[And(tail, capacity - 1)];
      if head == tail {
        return false, out;
      }
      PopStep(buffer[..], head, tail);
      tail := WrapInc(tail);
      return true, out;
    }

    method Empty() returns (r: bool)
      requires Valid()
      ensures r <==> Contents() == []
    {
      EqualCounters(head, tail);
      r := head == tail;
    }

    method Full() returns (r: bool)
      requires Valid()
      ensures r <==> |Contents()| == capacity
    {
      r := WrapSub(head, tail) == capacity;
    }

    method Size() returns (n: nat)
      requires Valid()
      ensures n == |Contents()| <= capacity
    {
      n := WrapSub(head, tail);
    }
  }
}
