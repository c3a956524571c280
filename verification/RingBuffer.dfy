/** The ring buffer: a queue of bytes in a fixed array. */
module RingBuffer {
  import opened Arith

  type Byte = bv8

  function Least(a: nat, b: nat): nat {
    if a < b then a else b
  }

  /** The place `i` bytes behind place `p`; place `size` is place 0. */
  function Place(p: nat, i: nat, size: nat): (q: nat)
    requires p <= size && i < size
    ensures q < size
  {
    if p + i < size then p + i else p + i - size
  }

  /** The bytes from `tail` to `head`. */
  function Between(head: nat, tail: nat, size: nat): (n: nat)
    requires head <= size && tail <= size && size > 0
    ensures n < size
  {
    (size + head - tail) % size
  }

  lemma BetweenIs(head: nat, tail: nat, size: nat)
    requires head <= size && tail <= size && size > 0
    ensures Between(head, tail, size) ==
            if head == size && tail == 0 then 0 else if head >= tail then (if head == tail + size then 0 else head - tail) else
            if tail == head + size then 0 else size + head - tail
  {
    var x := size + head - tail;
    if x < size {
      QuotientOf(0, x, size);
    } else if x < 2 * size {
      QuotientOf(1, x - size, size);
    } else {
      QuotientOf(2, 0, size);
    }
  }

  /** The queue that the buffer holds. */
  function Queue(data: seq<Byte>, head: nat, tail: nat): (q: seq<Byte>)
    requires head <= |data| && tail <= |data| && |data| > 0
  {
    seq(Between(head, tail, |data|), i requires 0 <= i < Between(head, tail, |data|) => data[Place(tail, i, |data|)])
  }

  class Buffer {
    const data: array<Byte>
    var head: nat
    var tail: nat

    ghost predicate Valid()
      reads this
    {
      head <= data.Length && tail <= data.Length
    }

    ghost function Contents(): (q: seq<Byte>)
      requires Valid()
      reads this, data
      ensures data.Length > 0 ==> |q| < data.Length
    {
      if data.Length > 0 then Queue(data[..], head, tail) else []
    }

    /** `rb_init`; without any data bytes the buffer cannot be used, because sizes are taken modulo
        their number. */
    constructor (size: nat)
      ensures Valid() && Contents() == [] && data.Length == size && fresh(data)
    {
      data := new Byte[size](_ => 0);
      head, tail := 0, 0;
    }

    method Available() returns (n: nat)
      requires Valid() && data.Length > 0
      ensures n == |Contents()|
    {
      n := (data.Length + head - tail) % data.Length;
    }

    method Capacity() returns (n: nat)
      requires Valid() && data.Length > 0
      ensures n == data.Length - 1 - |Contents()|
    {
      var available := Available();
      n := data.Length - available - 1;
    }

    method Clear()
      requires Valid()
      modifies this`tail
      ensures Valid() && Contents() == []
    {
      tail := head;
    }

    /** `rb_write` takes as many of the bytes as there is room for. */
    method Write(src: seq<Byte>) returns (n: nat)
      requires Valid() && data.Length > 0
      modifies this`head, data
      ensures Valid() && n == Least(|src|, data.Length - 1 - |old(Contents())|)
      ensures Contents() == old(Contents()) + src[..n]
    {
      hide Between, Place;
      var room := Capacity();
      n := Least(|src|, room);
      ghost var data0, head0 := data[..], head;
      CopyIn(src[..n]);
      Appended(data0, data[..], head0, head, tail, src[..n]);
    }

    /** Copy the bytes in from the head on, and move the head behind them. */
    method CopyIn(src: seq<Byte>)
      requires head <= data.Length && |src| < data.Length
      modifies this`head, data
      ensures head == if old(head) + |src| <= data.Length then old(head) + |src| else old(head) + |src| - data.Length
      ensures forall i :: 0 <= i < |src| ==> data[Place(old(head), i, data.Length)] == src[i]
      ensures forall p :: 0 <= p < data.Length && (forall i :: 0 <= i < |src| ==> Place(old(head), i, data.Length) != p) ==>
                data[p] == old(data[p])
    {
      var right := data.Length - head;
      if |src| <= right {
        forall i | 0 <= i < |src| { data[head + i] := src[i]; }
        head := head + |src|;
      } else {
        forall i | 0 <= i < right { data[head + i] := src[i]; }
        var left := |src| - right;
        forall i | 0 <= i < left { data[i] := src[right + i]; }
        head := left;
      }
    }

    /** `rb_read` gives as many bytes as were asked for and are there. */
    method Read(size: nat, dst: array<Byte>) returns (n: nat)
      requires Valid() && data.Length > 0 && dst != data && dst.Length >= Least(size, |Contents()|)
      modifies this`tail, dst
      ensures Valid() && n == Least(size, |old(Contents())|)
      ensures dst[..n] == old(Contents())[..n] && Contents() == old(Contents())[n..]
    {
      hide Between, Place;
      var available := Available();
      n := Least(size, available);
      ghost var tail0 := tail;
      CopyOut(n, dst);
      Removed(data[..], head, tail0, tail, dst[..n]);
    }

    /** Copy `n` bytes out from the tail on, and move the tail behind them. */
    method CopyOut(n: nat, dst: array<Byte>)
      requires tail <= data.Length && n < data.Length && dst != data && n <= dst.Length
      modifies this`tail, dst
      ensures tail == if old(tail) + n <= data.Length then old(tail) + n else old(tail) + n - data.Length
      ensures forall i :: 0 <= i < n ==> dst[i] == data[Place(old(tail), i, data.Length)]
    {
      var right := data.Length - tail;
      if n <= right {
        forall i | 0 <= i < n { dst[i] := data[tail + i]; }
        tail := tail + n;
      } else {
        forall i | 0 <= i < right { dst[i] := data[tail + i]; }
        var left := n - right;
        forall i | 0 <= i < left { dst[right + i] := data[i]; }
        tail := left;
      }
    }
  }

  /** Writing `src` from the head on. */
  lemma Appended(data: seq<Byte>, data': seq<Byte>, head: nat, head': nat, tail: nat, src: seq<Byte>)
    requires 0 < |data| == |data'| && head <= |data| && tail <= |data|
    requires |src| < |data| - Between(head, tail, |data|)
    requires head' == if head + |src| <= |data| then head + |src| else head + |src| - |data|
    requires forall i :: 0 <= i < |src| ==> data'[Place(head, i, |data|)] == src[i]
    requires forall p :: 0 <= p < |data| && (forall i :: 0 <= i < |src| ==> Place(head, i, |data|) != p) ==> data'[p] == data[p]
    ensures Queue(data', head', tail) == Queue(data, head, tail) + src
  {
    BetweenIs(head, tail, |data|);
    BetweenIs(head', tail, |data|);
  }

  lemma Removed(data: seq<Byte>, head: nat, tail: nat, tail': nat, dst: seq<Byte>)
    requires head <= |data| && tail <= |data| && |data| > 0 && |dst| <= Between(head, tail, |data|)
    requires tail' == if tail + |dst| <= |data| then tail + |dst| else tail + |dst| - |data|
    requires forall i :: 0 <= i < |dst| ==> dst[i] == data[Place(tail, i, |data|)]
    ensures var q := Queue(data, head, tail); dst == q[..|dst|] && Queue(data, head, tail') == q[|dst|..]
  {
    BetweenIs(head, tail, |data|);
    BetweenIs(head, tail', |data|);
  }

  // ---- Runs

  datatype Request = Put(src: seq<Byte>) | Get(size: nat) | Reset

  /** What a run of requests comes to: the bytes accepted, the bytes given out, and the queue left. */
  datatype Account = Account(accepted: seq<Byte>, received: seq<Byte>, queue: seq<Byte>)

  /** One more request to a queue of bounded length. */
  function Serve(t: Account, capacity: nat, request: Request): (u: Account)
    requires |t.queue| <= capacity
    ensures |u.queue| <= capacity
  {
    match request
    case Put(src) =>
      var n := Least(|src|, capacity - |t.queue|);
      Account(t.accepted + src[..n], t.received, t.queue + src[..n])
    case Get(size) =>
      var n := Least(size, |t.queue|);
      Account(t.accepted, t.received + t.queue[..n], t.queue[n..])
    case Reset =>
      t.(queue := [])
  }

  /** The account of a queue that holds `q` at first. */
  function Served(q: seq<Byte>, capacity: nat, requests: seq<Request>): (t: Account)
    requires |q| <= capacity
    ensures |t.queue| <= capacity
  {
    if requests == [] then Account([], [], q)
    else Serve(Served(q, capacity, requests[..|requests| - 1]), capacity, requests[|requests| - 1])
  }

  predicate Resets(requests: seq<Request>) {
    exists i :: 0 <= i < |requests| && requests[i] == Reset
  }

  /** First in, first out: unless the queue was cleared, what was given out, followed by what is left,
      is what was there, followed by what was accepted. */
  lemma {:induction false} ServedInOrder(q: seq<Byte>, capacity: nat, requests: seq<Request>)
    requires |q| <= capacity && !Resets(requests)
    ensures var t := Served(q, capacity, requests); t.received + t.queue == q + t.accepted
  {
    if requests != [] {
      var rest, last := requests[..|requests| - 1], requests[|requests| - 1];
      assert !Resets(rest) && last != Reset by {
        assert forall i :: 0 <= i < |rest| ==> rest[i] == requests[i];
      }
      ServedInOrder(q, capacity, rest);
      var t := Served(q, capacity, rest);
      match last {
        case Put(src) => Regrouped(t.received, t.queue, src[..Least(|src|, capacity - |t.queue|)], q, t.accepted);
        case Get(size) => Split(t.received, t.queue, Least(size, |t.queue|));
      }
    }
  }

  /** Over any run of writes, reads and clears, the buffer keeps the account of a queue of one byte
      less than its size. */
  method Run(buffer: Buffer, requests: seq<Request>) returns (accepted: seq<Byte>, received: seq<Byte>)
    requires buffer.Valid() && buffer.data.Length > 0
    modifies buffer, buffer.data
    ensures buffer.Valid()
    ensures Account(accepted, received, buffer.Contents()) ==
            Served(old(buffer.Contents()), buffer.data.Length - 1, requests)
  {
    hide *;
    accepted, received := [], [];
    ghost var q, capacity: nat := buffer.Contents(), buffer.data.Length - 1;
    WithinCapacity(buffer);
    NoneServed(q, capacity, requests);
    for i := 0 to |requests|
      invariant buffer.Valid() && |q| <= capacity
      invariant Account(accepted, received, buffer.Contents()) == Served(q, capacity, requests[..i])
    {
      NextServed(q, capacity, requests, i);
      accepted, received := Handle(buffer, requests[i], accepted, received);
    }
    assert requests[..|requests|] == requests;
  }

  lemma WithinCapacity(buffer: Buffer)
    requires buffer.Valid() && buffer.data.Length > 0
    ensures |buffer.Contents()| < buffer.data.Length
  {}

  lemma NoneServed(q: seq<Byte>, capacity: nat, requests: seq<Request>)
    requires |q| <= capacity
    ensures Served(q, capacity, requests[..0]) == Account([], [], q)
  {}

  lemma NextServed(q: seq<Byte>, capacity: nat, requests: seq<Request>, i: nat)
    requires |q| <= capacity && i < |requests|
    ensures Served(q, capacity, requests[..i + 1]) == Serve(Served(q, capacity, requests[..i]), capacity, requests[i])
  {
    assert requests[..i + 1][..i] == requests[..i];
  }

  method Handle(buffer: Buffer, request: Request, accepted: seq<Byte>, received: seq<Byte>)
      returns (accepted': seq<Byte>, received': seq<Byte>)
    requires buffer.Valid() && buffer.data.Length > 0
    modifies buffer, buffer.data
    ensures buffer.Valid() && |old(buffer.Contents())| < buffer.data.Length
    ensures Account(accepted', received', buffer.Contents()) ==
            Serve(Account(accepted, received, old(buffer.Contents())), buffer.data.Length - 1, request)
  {
    hide Between, Place, Queue;
    WithinCapacity(buffer);
    accepted', received' := accepted, received;
    match request {
      case Put(src) =>
        var n := buffer.Write(src);
        accepted' := accepted + src[..n];
      case Get(size) =>
        var dst := new Byte[size](_ => 0);
        var n := buffer.Read(size, dst);
        received' := received + dst[..n];
      case Reset =>
        buffer.Clear();
    }
  }

  lemma Regrouped(r: seq<Byte>, q: seq<Byte>, s: seq<Byte>, q0: seq<Byte>, a: seq<Byte>)
    requires r + q == q0 + a
    ensures r + (q + s) == q0 + (a + s)
  {
    assert r + (q + s) == (r + q) + s == (q0 + a) + s == q0 + (a + s);
  }

  lemma Split(r: seq<Byte>, q: seq<Byte>, n: nat)
    requires n <= |q|
    ensures (r + q[..n]) + q[n..] == r + q
  {}
}
