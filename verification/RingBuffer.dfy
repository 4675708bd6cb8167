/** The bounded provenance buffer: a ring in an array, against its value and against a plain queue. */
module Provenance {
  import opened Basics

  datatype Record = Record(
    timestamp: int, requestId: string, envelopeId: Bytes, tokenId: Bytes, actionHash: string, decision: string,
    reasonCode: string, latencyNs: int)

  const NO_RECORD := Record(0, "", [], [], "", "", "", 0)

  /** What a record takes from a token and from a request. */
  datatype TokenPart = TokenPart(id: Bytes, actionHash: string)

  datatype RequestPart = RequestPart(id: string, latencyNs: int)

  function AllowRecord(now: int, envelopeId: Bytes, tok: TokenPart, req: RequestPart): Record {
    Record(now, req.id, envelopeId, tok.id, tok.actionHash, "ALLOW", "", req.latencyNs)
  }

  function DenyRecord(now: int, envelopeId: Bytes, tok: TokenPart, req: RequestPart, reason: string): Record {
    Record(now, req.id, envelopeId, tok.id, tok.actionHash, "DENY", reason, req.latencyNs)
  }

  datatype Ring = Ring(cells: seq<Record>, head: nat, count: nat) {

    ghost predicate Valid() {
      count <= |cells| && (if cells == [] then head == 0 else head < |cells|)
    }

    /** The pending records, oldest first. */
    function Window(): (w: seq<Record>)
      requires Valid()
      ensures |w| == count
    {
      seq(count, i requires 0 <= i < count => cells[(head + i) % |cells|])
    }

    function Push(r: Record): (bool, Ring)
      requires Valid()
    {
      if count >= |cells| then (false, this)
      else (true, Ring(cells[(head + count) % |cells| := r], head, count + 1))
    }

    function Drain(): (seq<Record>, Ring)
      requires Valid()
    {
      if count == 0 then ([], this) else (Window(), Ring(cells, (head + count) % |cells|, 0))
    }
  }

  lemma WrapsOnce(n: nat, k: nat)
    requires k < 2 * n
    ensures k % n == if k < n then k else k - n
  {
  }

  lemma DistinctCells(n: nat, head: nat, i: nat, j: nat)
    requires head < n && i < j < n
    ensures (head + i) % n != (head + j) % n
  {
    WrapsOnce(n, head + i);
    WrapsOnce(n, head + j);
  }

  /** A record that is accepted goes behind all pending ones and overwrites none of them; one that is refused changes
      nothing, and that happens exactly when the buffer is full. */
  lemma PushAppends(ring: Ring, r: Record)
    requires ring.Valid()
    ensures var (ok, next) := ring.Push(r);
            && next.Valid() && |next.cells| == |ring.cells|
            && (ok <==> ring.count < |ring.cells|)
            && next.Window() == if ok then ring.Window() + [r] else ring.Window()
  {
    var (ok, next) := ring.Push(r);
    if ok {
      forall i | 0 <= i < ring.count ensures next.Window()[i] == ring.Window()[i] {
        PushKeeps(ring, r, i);
      }
      assert next.Window()[ring.count] == r;
    }
  }

  lemma PushKeeps(ring: Ring, r: Record, i: nat)
    requires ring.Valid() && i < ring.count < |ring.cells|
    ensures ring.Push(r).1.Window()[i] == ring.Window()[i]
  {
    DistinctCells(|ring.cells|, ring.head, i, ring.count);
  }

  lemma DrainEmpties(ring: Ring)
    requires ring.Valid()
    ensures var (batch, next) := ring.Drain();
            && next.Valid() && |next.cells| == |ring.cells|
            && batch == ring.Window() && next.Window() == []
  {
  }

  datatype RingOp = AcceptOp(record: Record) | FlushOp

  /** What a sequence of operations leaves, what it has accepted and what it has handed off. */
  datatype Outcome = Outcome(ring: Ring, accepted: seq<Record>, handedOff: seq<Record>)

  ghost function RunOps(ring: Ring, ops: seq<RingOp>): (o: Outcome)
    requires ring.Valid()
    ensures o.ring.Valid()
    decreases |ops|
  {
    if ops == [] then Outcome(ring, [], [])
    else
      var front := RunOps(ring, ops[..|ops| - 1]);
      match ops[|ops| - 1]
      case AcceptOp(r) =>
        PushAppends(front.ring, r);
        var (ok, next) := front.ring.Push(r);
        Outcome(next, if ok then front.accepted + [r] else front.accepted, front.handedOff)
      case FlushOp =>
        DrainEmpties(front.ring);
        var (batch, next) := front.ring.Drain();
        Outcome(next, front.accepted, front.handedOff + batch)
  }

  /** Over every sequence of operations on a buffer of any capacity, zero included: what has been handed off, followed by
      what is pending, is what has been accepted, in order, each record once; and never more is pending than fits. */
  lemma {:induction false} BoundedFifo(capacity: nat, ops: seq<RingOp>)
    ensures var empty := Ring(seq(capacity, _ => NO_RECORD), 0, 0);
            && empty.Valid()
            && var o := RunOps(empty, ops);
            && o.handedOff + o.ring.Window() == o.accepted
            && |o.ring.cells| == capacity && o.ring.count <= capacity
    decreases |ops|
  {
    if ops != [] {
      var empty := Ring(seq(capacity, _ => NO_RECORD), 0, 0);
      BoundedFifo(capacity, ops[..|ops| - 1]);
      var front := RunOps(empty, ops[..|ops| - 1]);
      match ops[|ops| - 1]
      case AcceptOp(r) => PushAppends(front.ring, r);
      case FlushOp => DrainEmpties(front.ring);
    }
  }

  class RingBuffer {
    const events: array<Record>
    const capacity: nat
    var head: nat
    var count: nat

    ghost predicate Valid()
      reads this, events
    {
      events.Length == capacity && View().Valid()
    }

    ghost function View(): Ring
      reads this, events
    {
      Ring(events[..], head, count)
    }

    constructor (capacity: nat)
      ensures Valid() && this.capacity == capacity && fresh(events)
      ensures View() == Ring(seq(capacity, _ => NO_RECORD), 0, 0)
    {
      var cells := new Record[capacity](_ => NO_RECORD);
      this.events, this.capacity, this.head, this.count := cells, capacity, 0, 0;
      new;
      assert cells[..] == seq(capacity, _ => NO_RECORD);
    }

    /** Records an allowed request; refuses when full. */
    method Accept(envelopeId: Bytes, tok: TokenPart, req: RequestPart, now: int) returns (ok: bool)
      requires Valid()
      modifies this, events
      ensures Valid() && (ok, View()) == old(View()).Push(AllowRecord(now, envelopeId, tok, req))
      ensures ok <==> old(count) < capacity
      ensures ok ==> View().Window() == old(View()).Window()
                                        + [Record(now, req.id, envelopeId, tok.id, tok.actionHash, "ALLOW", "",
                                                  req.latencyNs)]
    {
      PushAppends(View(), AllowRecord(now, envelopeId, tok, req));
      ok := Append(AllowRecord(now, envelopeId, tok, req));
    }

    /** Records a denied request; refuses when full, and when there is no envelope or no token to name. */
    method AcceptDenied(envelopeId: Option<Bytes>, tok: Option<TokenPart>, req: RequestPart, reason: string, now: int)
      returns (ok: bool)
      requires Valid()
      modifies this, events
      ensures Valid()
      ensures (ok, View()) ==
              if envelopeId.None? || tok.None? then (false, old(View()))
              else old(View()).Push(DenyRecord(now, envelopeId.value, tok.value, req, reason))
      ensures ok <==> envelopeId.Some? && tok.Some? && old(count) < capacity
      ensures ok ==> View().Window() == old(View()).Window()
                                        + [Record(now, req.id, envelopeId.value, tok.value.id, tok.value.actionHash, "DENY",
                                                  reason, req.latencyNs)]
    {
      if envelopeId.None? || tok.None? {
        return false;
      }
      PushAppends(View(), DenyRecord(now, envelopeId.value, tok.value, req, reason));
      ok := Append(DenyRecord(now, envelopeId.value, tok.value, req, reason));
    }

    method Append(r: Record) returns (ok: bool)
      requires Valid()
      modifies this, events
      ensures Valid() && (ok, View()) == old(View()).Push(r)
    {
      if count >= capacity {
        return false;
      }
      ghost var before := View();
      var index := (head + count) % capacity;
      events[index] := r;
      count := count + 1;
      PushAppends(before, r);
      return true;
    }

    /** Takes everything pending out of the ring. */
    method Flush() returns (toFlush: seq<Record>)
      requires Valid()
      modifies this
      ensures Valid() && (toFlush, View()) == old(View()).Drain()
      ensures toFlush == old(View()).Window() && count == 0
    {
      if count == 0 {
        return [];
      }
      toFlush := [];
      for i := 0 to count
        invariant head == old(head) && count == old(count)
        invariant toFlush == View().Window()[..i]
      {
        var index := (head + i) % capacity;
        toFlush := toFlush + [events[index]];
      }
      assert toFlush == old(View()).Window();
      head := (head + count) % capacity;
      count := 0;
    }
  }
}
