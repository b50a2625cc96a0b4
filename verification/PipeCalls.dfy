/** How a call on a pipe comes out, from what the pipe holds and who has it open. */
module PipeCalls {
  import opened Pipes

  /** The call has returned `d`, and nothing else but the queue and its records changed. */
  ghost predicate Returned(s: System, r: System, id: Id, d: Done)
  {
    r.ops == s.ops - {id} && r.done == s.done[id := d]
  }

  /** A read takes all there is up to its size, from the front. With nothing there it ends
      if nobody writes, and otherwise waits or, non-blocking, gives up. */
  lemma ReadCall(s: System, id: Id)
    requires Inv(s) && id in s.ops && s.ops[id].Reading?
    ensures var r, max := Next(s, Turns(id)), s.ops[id].max;
            && r.accepted == s.accepted && r.q.readers == s.q.readers && r.q.writers == s.q.writers
            && if s.q.data != [] then
                 && id in r.done && r.done[id].Got? && Returned(s, r, id, r.done[id])
                 && s.q.data == r.done[id].bytes + r.q.data && r.taken == s.taken + r.done[id].bytes
                 && |r.done[id].bytes| <= max && (|r.done[id].bytes| == max || r.q.data == [])
               else
                 && r.q.data == [] && r.taken == s.taken
                 && if s.q.writers == 0 then Returned(s, r, id, Got([]))
                    else if s.ops[id].nonblock then Returned(s, r, id, Failed(EAGAIN))
                    else r == s
  {
    assert OpOk(s, id);
  }

  /** The room that a write needs: all of it up to 4096 bytes, one byte beyond that. */
  predicate HasRoom(q: Queue, left: int)
  {
    |q.data| + (if left <= 4096 then left else 1) <= 65536
  }

  /** What a write that cannot go on returns: the bytes it has got rid of, or else the error. */
  function Partial(op: Op, e: Errno): Done
    requires op.Writing?
  {
    if op.written == 0 then Failed(e) else Wrote(op.buf, op.written)
  }

  /** A write with nobody to read it ends, and one without room waits or, non-blocking, gives
      up: with what it has written, if anything, or else with the error. */
  lemma WriteStops(s: System, id: Id)
    requires Inv(s) && id in s.ops && s.ops[id].Writing?
    ensures var r, op := Next(s, Turns(id)), s.ops[id];
            && op.written < |op.buf|
            && (s.q.readers == 0 ==> r.q == s.q && Returned(s, r, id, Partial(op, EPIPE)))
            && (s.q.readers > 0 && !HasRoom(s.q, |op.buf| - op.written) ==>
                  if op.nonblock then r.q == s.q && Returned(s, r, id, Partial(op, EAGAIN)) else r == s)
  {
    assert OpOk(s, id);
  }

  /** A write with room puts bytes at the end of the queue until the queue is full or the
      write is done, and returns once it is. */
  lemma WriteMoves(s: System, id: Id)
    requires Inv(s) && id in s.ops && s.ops[id].Writing?
    requires s.q.readers > 0 && HasRoom(s.q, |s.ops[id].buf| - s.ops[id].written)
    ensures var r, op := Next(s, Turns(id)), s.ops[id];
            op.written < |op.buf| &&
            if id in r.done then
              r.q == s.q.(data := s.q.data + op.buf[op.written..]) && Returned(s, r, id, Wrote(op.buf, |op.buf|))
            else
              && id in r.ops && r.ops[id].Writing? && op.written < r.ops[id].written < |op.buf| && |r.q.data| == 65536
              && r == s.(q := r.q, accepted := r.accepted, ops := s.ops[id := op.(written := r.ops[id].written)])
              && r.q == s.q.(data := s.q.data + op.buf[op.written..r.ops[id].written])
  {
    assert OpOk(s, id);
    var op := s.ops[id];
    var rest := op.buf[op.written..];
    var n := Least(|rest|, PIPE_CAPACITY - |s.q.data|);
    assert rest[..n] == op.buf[op.written..op.written + n];
  }

  /** A call that a signal interrupts returns what it has written, or EINTR. */
  lemma InterruptCall(s: System, id: Id)
    requires Inv(s) && Allowed(s, Interrupt(id))
    ensures var r, op := Next(s, Interrupt(id)), s.ops[id];
            && r.q == s.q && r.taken == s.taken && r.accepted == s.accepted
            && Returned(s, r, id, if op.Writing? && op.written > 0 then Wrote(op.buf, op.written) else Failed(EINTR))
  {
  }

  /** A new call begins, except that one of no bytes is over at once. */
  lemma StartCall(s: System, id: Id, max: nat, buf: seq<byte>, nonblock: bool)
    requires Inv(s) && id !in s.ops && id !in s.done
    ensures Next(s, StartRead(id, max, nonblock))
         == if max > 0 then s.(ops := s.ops[id := Reading(max, nonblock)]) else s.(done := s.done[id := Got([])])
    ensures Next(s, StartWrite(id, buf, nonblock))
         == if buf != [] then s.(ops := s.ops[id := Writing(buf, 0, nonblock)])
            else s.(done := s.done[id := Wrote([], 0)])
  {
  }

  /** Who waits, and for what: a reader for data or the last writer to go, a writer for room
      or the last reader to go. */
  lemma WaitsWhen(s: System, id: Id)
    requires Inv(s) && id in s.ops
    ensures OpWaits(s, s.ops[id]) <==>
              if s.ops[id].Reading? then s.q.data == [] && s.q.writers > 0
              else s.q.readers > 0 && !HasRoom(s.q, |s.ops[id].buf| - s.ops[id].written)
  {
    assert OpOk(s, id);
  }
}
