/** The single-producer single-consumer ring buffer, one call at a time. */
module SpscQueue {
  import opened Messages
  import opened RingIndex

  class SpscQueue<T> {
    const bits: nat                    // the capacity is 2^bits
    const slots: array<T>
    var head: nat
    var tail: nat
    ghost var pushed: seq<T>           // every value ever pushed
    ghost var popped: nat              // how many of them have been popped

    ghost predicate Valid()
      reads this, slots
    {
      && 1 <= bits <= 64 && slots.Length == Pow2(bits)
      && popped <= |pushed| < popped + slots.Length
      && head == |pushed| % slots.Length
      && tail == popped % slots.Length
      && forall i :: popped <= i < |pushed| ==> slots[i % slots.Length] == pushed[i]
    }

    ghost function Contents(): seq<T>
      requires popped <= |pushed|
      reads this
    {
      pushed[popped..]
    }

    constructor (bits: nat, blank: T)
      requires 1 <= bits <= 64
      ensures Valid() && Contents() == [] && this.bits == bits && fresh(slots)
    {
      this.bits := bits;
      slots := new T[Pow2(bits)](_ => blank);
      head, tail, pushed, popped := 0, 0, [], 0;
    }

    /** Push unless the ring is full, which it is one short of its capacity. */
    method TryPush(value: T) returns (ok: bool)
      requires Valid()
      modifies this, slots
      ensures Valid()
      ensures ok <==> |old(Contents())| < Pow2(bits) - 1
      ensures Contents() == if ok then old(Contents()) + [value] else old(Contents())
    {
      ghost var cap := slots.Length;
      MaskIsModulo(head + 1, bits);
      ModStep(|pushed|, cap);
      var next := And(head + 1, Pow2(bits) - 1);
      FullTest(|pushed|, popped, cap);
      if next == tail {
        return false;
      }
      ghost var n := |pushed|;
      forall i | popped <= i < n
        ensures i % cap != n % cap
      {
        SlotsApart(i, n, cap);
      }
      slots[head] := value;
      head := next;
      pushed := pushed + [value];
      return true;
    }

    /** Pop the oldest value unless the ring is empty. */
    method TryPop() returns (r: Option<T>)
      requires Valid()
      modifies this`tail, this`popped
      ensures Valid()
      ensures r == if old(Contents()) == [] then None else Some(old(Contents())[0])
      ensures Contents() == if old(Contents()) == [] then [] else old(Contents())[1..]
    {
      ghost var cap := slots.Length;
      EmptyTest(|pushed|, popped, cap);
      if tail == head {
        return None;
      }
      r := Some(slots[tail]);
      MaskIsModulo(tail + 1, bits);
      ModStep(popped, cap);
      tail := And(tail + 1, Pow2(bits) - 1);
      popped := popped + 1;
    }

    method Size() returns (n: nat)
      requires Valid()
      ensures n == |Contents()|
    {
      SizeOfWindow(|pushed|, popped, bits);
      n := And(SubWrap(head, tail), Pow2(bits) - 1);
    }

    method Empty() returns (empty: bool)
      requires Valid()
      ensures empty <==> Contents() == []
    {
      EmptyTest(|pushed|, popped, slots.Length);
      empty := head == tail;
    }
  }

  /** One position ahead of `h` meets `t` exactly when the window is one short of a lap. */
  lemma FullTest(h: nat, t: nat, cap: nat)
    requires cap > 0 && t <= h < t + cap
    ensures (h + 1) % cap == t % cap <==> h - t == cap - 1
  {
    if h - t == cap - 1 {
      var q, r := t / cap, t % cap;
      assert t == q * cap + r;
      assert h + 1 == (q + 1) * cap + r;
      ModUnique(h + 1, cap, q + 1, r);
    } else {
      SlotsApart(t, h + 1, cap);
    }
  }

  lemma EmptyTest(h: nat, t: nat, cap: nat)
    requires cap > 0 && t <= h < t + cap
    ensures t % cap == h % cap <==> h == t
  {
    if t < h {
      SlotsApart(t, h, cap);
    }
  }
}
