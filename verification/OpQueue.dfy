/** MANUAL_Q: the ring buffer behind Rebuild_Logger. */
module OpQueues {

  /** The fields of the queue, as a value. */
  datatype Buffer<T> = Buffer(q: seq<T>, head: nat, tail: nat, counter: nat, isEmpty: bool)

  /** The position after `i`. */
  function Following(i: nat, len: nat): (j: nat)
    requires i < len
    ensures j < len
  {
    (i + 1) % len
  }

  predicate InBounds<T>(b: Buffer<T>) {
    b.head < |b.q| && b.tail < |b.q|
  }

  /** Head, tail and counter agree and the buffer is not overrun. */
  predicate Intact<T>(b: Buffer<T>) {
    InBounds(b) && b.counter <= |b.q| && b.tail == (b.head + b.counter) % |b.q| && (b.isEmpty <==> b.counter == 0)
  }

  /** The queued entries, oldest first. */
  ghost function Queued<T>(b: Buffer<T>): seq<T>
    requires InBounds(b)
  {
    Ring(b.q, b.head, b.counter)
  }

  function Pushed<T>(b: Buffer<T>, x: T): (c: Buffer<T>)
    requires InBounds(b)
    ensures InBounds(c)
  {
    Buffer(b.q[b.tail := x], b.head, Following(b.tail, |b.q|), b.counter + 1, false)
  }

  function Popped<T>(b: Buffer<T>): (c: Buffer<T>)
    requires InBounds(b)
    ensures InBounds(c)
  {
    if b.counter == 0 then b
    else Buffer(b.q, Following(b.head, |b.q|), b.tail, b.counter - 1, b.isEmpty || b.counter == 1)
  }

  /**
   push has no overflow check. With room it appends; on a full buffer it overwrites the oldest entry,
   so that the next front() is the newest one.
   */
  lemma PushExactly<T>(b: Buffer<T>, x: T)
    requires Intact(b)
    ensures Intact(Pushed(b, x)) <==> b.counter < |b.q|
    ensures b.counter < |b.q| ==> Queued(Pushed(b, x)) == Queued(b) + [x]
    ensures b.counter == |b.q| ==> Pushed(b, x).q[b.head] == x
  {
    NextTail(b.head, b.counter, |b.q|);
    if b.counter < |b.q| { RingPush(b.q, b.head, b.counter, x); }
  }

  lemma PopIntact<T>(b: Buffer<T>)
    requires Intact(b)
    ensures Intact(Popped(b))
  {
    if b.counter > 0 {
      AdvanceTogether(b.head, b.counter, |b.q|);
    }
  }

  lemma PopExactly<T>(b: Buffer<T>)
    requires Intact(b)
    ensures Queued(Popped(b)) == if b.counter == 0 then [] else Queued(b)[1..]
  {
    if b.counter > 0 { RingPop(b.q, b.head, b.counter); }
  }

  lemma FrontIsOldest<T>(b: Buffer<T>)
    requires InBounds(b) && b.counter > 0
    ensures Queued(b)[0] == b.q[b.head]
  {
    ModOnce(b.head, |b.q|);
  }

  class OpQueue<T(0)> {
    const q: array<T>
    var head: nat
    var tail: nat
    var counter: nat
    var isEmpty: bool

    ghost function Now(): Buffer<T>
      reads this, q
    {
      Buffer(q[..], head, tail, counter, isEmpty)
    }

    ghost predicate Valid()
      reads this, q
    {
      Intact(Now())
    }

    ghost function Contents(): seq<T>
      requires InBounds(Now())
      reads this, q
    {
      Queued(Now())
    }

    /** The buffer as the KD_TREE constructor leaves it: allocated, then cleared. */
    constructor (length: nat)
      requires length > 0
      ensures Valid() && fresh(q) && q.Length == length && Contents() == []
    {
      q := new T[length];
      head, tail, counter, isEmpty := 0, 0, 0, true;
    }

    method Clear()
      requires q.Length > 0
      modifies this
      ensures Valid() && Contents() == []
    {
      head, tail, counter, isEmpty := 0, 0, 0, true;
    }

    method Pop()
      requires InBounds(Now())
      modifies this
      ensures Now() == Popped(old(Now()))
      ensures old(Valid()) ==>
        Valid() && Contents() == if old(counter) == 0 then [] else old(Contents())[1..]
    {
      if Intact(Now()) { PopIntact(Now()); PopExactly(Now()); }
      if counter == 0 {
        return;
      }
      head := head + 1;
      head := head % q.Length;
      counter := counter - 1;
      if counter == 0 {
        isEmpty := true;
      }
    }

    method Front() returns (x: T)
      requires InBounds(Now())
      ensures x == q[head] && (Valid() && counter > 0 ==> x == Contents()[0])
    {
      if counter > 0 { FrontIsOldest(Now()); }
      x := q[head];
    }

    /** push, which never fails. */
    method Push(op: T)
      requires InBounds(Now())
      modifies this, q
      ensures Now() == Pushed(old(Now()), op)
      ensures old(Valid()) ==> (Valid() <==> old(counter) < q.Length)
      ensures old(Valid()) && old(counter) < q.Length ==> Contents() == old(Contents()) + [op]
      ensures old(Valid()) && old(counter) == q.Length ==> q[head] == op
    {
      if Intact(Now()) { PushExactly(Now(), op); }
      q[tail] := op;
      counter := counter + 1;
      if isEmpty {
        isEmpty := false;
      }
      tail := tail + 1;
      tail := tail % q.Length;
    }

    method Empty() returns (empty: bool)
      requires Valid()
      ensures empty <==> Contents() == []
    {
      empty := isEmpty;
    }

    method Size() returns (n: nat)
      requires Valid()
      ensures n == |Contents()|
    {
      n := counter;
    }
  }

  /** `n` entries of the ring `s` from position `h` on. */
  ghost function Ring<T>(s: seq<T>, h: nat, n: nat): (r: seq<T>)
    requires |s| > 0
    ensures |r| == n && forall i :: 0 <= i < n ==> r[i] == s[(h + i) % |s|]
  {
    seq(n, i requires 0 <= i && |s| > 0 => s[(h + i) % |s|])
  }

  lemma ModOnce(x: nat, n: nat)
    requires n > 0
    ensures x < n ==> x % n == x
    ensures n <= x < 2 * n ==> x % n == x - n
  {
  }

  lemma ModShift(a: nat, b: nat, n: nat)
    requires n > 0 && a < n && b < n
    ensures (a + 1 + b) % n == ((a + 1) % n + b) % n
  {
    ModOnce(a + 1, n);
    ModOnce(a + 1 + b, n);
    ModOnce((a + 1) % n + b, n);
  }

  lemma RingPop<T>(s: seq<T>, h: nat, n: nat)
    requires h < |s| && 0 < n <= |s|
    ensures Ring(s, (h + 1) % |s|, n - 1) == Ring(s, h, n)[1..]
  {
    forall i | 0 <= i < n - 1
      ensures Ring(s, (h + 1) % |s|, n - 1)[i] == Ring(s, h, n)[1..][i]
    {
      ModShift(h, i, |s|);
    }
  }

  lemma AdvanceTogether(h: nat, n: nat, len: nat)
    requires h < len && 0 < n <= len
    ensures (Following(h, len) + (n - 1)) % len == (h + n) % len
  {
    ModShift(h, n - 1, len);
  }

  lemma NextTail(h: nat, n: nat, len: nat)
    requires h < len && n <= len
    ensures (h + n) % len < len
    ensures ((h + n) % len + 1) % len == (h + n + 1) % len
    ensures n == len ==> (h + n) % len == h
  {
    ModOnce(h + n, len);
    ModOnce(h + n + 1, len);
    ModOnce((h + n) % len + 1, len);
    if h + n + 1 == 2 * len {
      assert (2 * len) % len == 0;
    }
  }

  lemma TailIsFree(h: nat, n: nat, i: nat, len: nat)
    requires h < len && i < n < len
    ensures (h + i) % len != (h + n) % len
  {
    ModOnce(h + n, len);
    ModOnce(h + i, len);
  }

  /** Writing at the tail appends and disturbs no queued entry. */
  lemma RingPush<T>(s: seq<T>, h: nat, n: nat, x: T)
    requires h < |s| && n < |s|
    ensures Ring(s[(h + n) % |s| := x], h, n + 1) == Ring(s, h, n) + [x]
  {
    var u := s[(h + n) % |s| := x];
    var l, r := Ring(u, h, n + 1), Ring(s, h, n) + [x];
    forall i | 0 <= i < n + 1
      ensures l[i] == r[i]
    {
      if i < n {
        TailIsFree(h, n, i, |s|);
        assert l[i] == u[(h + i) % |s|] == s[(h + i) % |s|];
      }
    }
  }
}
