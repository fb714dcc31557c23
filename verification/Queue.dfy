/** The packet queue of `queue.c`: buffers linked from a head to a tail. */
module Queue {
  class Buf<T> {
    var next: Buf?<T>
    const data: T

    constructor (data: T)
      ensures this.data == data && next == null
    {
      this.data := data;
      next := null;
    }
  }

  function Data<T>(s: seq<Buf<T>>): seq<T> { seq(|s|, i requires 0 <= i < |s| => s[i].data) }

  class Queue<T> {
    var n: nat
    var head: Buf?<T>
    var tail: Buf?<T>
    ghost var bufs: seq<Buf<T>>

    ghost predicate Linked(i: nat)
      requires i < |bufs|
      reads this, bufs
    {
      bufs[i].next == if i + 1 < |bufs| then bufs[i + 1] else null
    }

    ghost predicate Valid()
      reads this, bufs
    {
      && n == |bufs|
      && head == (if bufs == [] then null else bufs[0])
      && tail == (if bufs == [] then null else bufs[n - 1])
      && (forall i :: 0 <= i < n ==> Linked(i))
      && (forall i, j :: 0 <= i < j < n ==> bufs[i] != bufs[j])
    }

    constructor ()
      ensures Valid() && bufs == []
    {
      n, head, tail, bufs := 0, null, null, [];
    }

    method PushTail(b: Buf<T>)
      requires Valid() && b !in bufs
      modifies this, bufs, b
      ensures Valid() && bufs == old(bufs) + [b] && Data(bufs) == old(Data(bufs)) + [b.data]
    {
      b.next := null;
      if n != 0 {
        assert tail == bufs[n - 1];
        tail.next := b;
      } else {
        head := b;
      }
      n := n + 1;
      tail := b;
      bufs := bufs + [b];
      forall i | 0 <= i < n ensures Linked(i) {
        if i < n - 2 { assert old(Linked(i)); }
      }
    }

    /** Drops the head, whose successor the caller has saved because the head itself may be gone. */
    method AdvanceHead(next: Buf?<T>)
      requires Valid() && n > 0 && next == head.next
      modifies this
      ensures Valid() && bufs == old(bufs)[1..]
    {
      assert Linked(0);
      head := next;
      if head == null {
        tail := null;
      }
      n := n - 1;
      bufs := bufs[1..];
      forall i | 0 <= i < n ensures Linked(i) { assert old(Linked(i + 1)); }
    }

    method PopHead() returns (b: Buf<T>)
      requires Valid() && n > 0
      modifies this
      ensures Valid() && b == old(bufs)[0] && bufs == old(bufs)[1..] && Data(old(bufs)) == [b.data] + Data(bufs)
    {
      b := head;
      AdvanceHead(b.next);
    }
  }
}
