/** Pipes (`fs/pipe.rs`): a bounded byte queue shared by any number of readers and
    writers, each operation a loop of waits and atomic turns. */
module Pipes {

  const PIPE_CAPACITY: nat := 65536
  const PIPE_BUF: nat := 4096

  type byte = x: int | 0 <= x < 256
  type Id = nat

  datatype Errno = EAGAIN | EPIPE | EINTR

  // ---------------------------------------------------------------- one turn

  datatype Queue = Queue(data: seq<byte>, readers: nat, writers: nat)

  /** What a turn does: it moves bytes, ends the call, or waits. */
  datatype Turn = Moved(bytes: seq<byte>) | EndOfFile | Broken | Waits

  function Least(a: nat, b: nat): nat
  {
    if a < b then a else b
  }

  function ReadTurn(q: Queue, max: nat): Turn
  {
    if q.data != [] then Moved(q.data[..Least(max, |q.data|)])
    else if q.writers == 0 then EndOfFile
    else Waits
  }

  /** A write of at most PIPE_BUF bytes waits until all of it fits, a longer one
      until a byte does. */
  function Need(rest: seq<byte>): nat
  {
    if |rest| <= PIPE_BUF then |rest| else 1
  }

  function WriteTurn(q: Queue, rest: seq<byte>): Turn
    requires |q.data| <= PIPE_CAPACITY
  {
    if q.readers == 0 then Broken
    else if PIPE_CAPACITY - |q.data| < Need(rest) then Waits
    else Moved(rest[..Least(|rest|, PIPE_CAPACITY - |q.data|)])
  }

  // ---------------------------------------------------------------- calls

  datatype Op =
    | Reading(max: nat, nonblock: bool)
    | Writing(buf: seq<byte>, written: nat, nonblock: bool)

  datatype Done =
    | Got(bytes: seq<byte>)
    | Wrote(buf: seq<byte>, n: nat)
    | Failed(errno: Errno)

  datatype Tagged = Tagged(id: Id, value: byte)

  /** The queue, the calls under way and the calls that have returned, with a record
      of the bytes accepted (and from whom) and of the bytes given to readers. */
  datatype System = System(
    q: Queue,
    ops: map<Id, Op>,
    done: map<Id, Done>,
    accepted: seq<Tagged>,
    taken: seq<byte>)

  datatype Step =
    | Open(write: bool)
    | Close(write: bool)
    | StartRead(id: Id, max: nat, nonblock: bool)
    | StartWrite(id: Id, buf: seq<byte>, nonblock: bool)
    | Turns(id: Id)
    | Interrupt(id: Id)

  function Boot(): System
  {
    System(Queue([], 0, 0), map[], map[], [], [])
  }

  function Finish(s: System, id: Id, d: Done): System
  {
    s.(ops := s.ops - {id}, done := s.done[id := d])
  }

  /** How a write call returns when it cannot go on. */
  function Short(op: Op, e: Errno): Done
    requires op.Writing?
  {
    if op.written > 0 then Wrote(op.buf, op.written) else Failed(e)
  }

  /** A signal interrupts a call that would wait; a non-blocking write looks for signals
      before it gives up, a non-blocking read does not. */
  predicate Allowed(s: System, st: Step)
  {
    match st
    case Open(_) => true
    case Close(w) => if w then s.q.writers > 0 else s.q.readers > 0
    case StartRead(id, _, _) => id !in s.ops && id !in s.done
    case StartWrite(id, _, _) => id !in s.ops && id !in s.done
    case Turns(id) => id in s.ops
    case Interrupt(id) => id in s.ops && OpWaits(s, s.ops[id]) && (s.ops[id].Reading? ==> !s.ops[id].nonblock)
  }

  predicate OpWaits(s: System, op: Op)
  {
    if op.Reading? then ReadTurn(s.q, op.max) == Waits
    else |s.q.data| <= PIPE_CAPACITY && op.written <= |op.buf| && WriteTurn(s.q, op.buf[op.written..]) == Waits
  }

  function ReadNext(s: System, id: Id, op: Op): System
    requires op.Reading?
  {
    match ReadTurn(s.q, op.max)
    case Moved(b) =>
      Finish(s.(q := s.q.(data := s.q.data[|b|..]), taken := s.taken + b), id, Got(b))
    case EndOfFile => Finish(s, id, Got([]))
    case Broken => s
    case Waits => if op.nonblock then Finish(s, id, Failed(EAGAIN)) else s
  }

  function Tag(id: Id, b: seq<byte>): (r: seq<Tagged>)
    ensures |r| == |b|
  {
    seq(|b|, i requires 0 <= i < |b| => Tagged(id, b[i]))
  }

  function WriteNext(s: System, id: Id, op: Op): System
    requires op.Writing? && op.written <= |op.buf| && |s.q.data| <= PIPE_CAPACITY
  {
    match WriteTurn(s.q, op.buf[op.written..])
    case Moved(b) =>
      var n := op.written + |b|;
      var s1 := s.(q := s.q.(data := s.q.data + b), accepted := s.accepted + Tag(id, b));
      if n >= |op.buf| then Finish(s1, id, Wrote(op.buf, n))
      else s1.(ops := s.ops[id := op.(written := n)])
    case EndOfFile => s
    case Broken => Finish(s, id, Short(op, EPIPE))
    case Waits => if op.nonblock then Finish(s, id, Short(op, EAGAIN)) else s
  }

  function Next(s: System, st: Step): System
    requires Inv(s) && Allowed(s, st)
  {
    match st
    case Open(w) =>
      s.(q := if w then s.q.(writers := s.q.writers + 1) else s.q.(readers := s.q.readers + 1))
    case Close(w) =>
      s.(q := if w then s.q.(writers := s.q.writers - 1) else s.q.(readers := s.q.readers - 1))
    case StartRead(id, max, nb) =>
      if max == 0 then s.(done := s.done[id := Got([])]) else s.(ops := s.ops[id := Reading(max, nb)])
    case StartWrite(id, buf, nb) =>
      if buf == [] then s.(done := s.done[id := Wrote([], 0)]) else s.(ops := s.ops[id := Writing(buf, 0, nb)])
    case Turns(id) =>
      assert OpOk(s, id);
      if s.ops[id].Reading? then ReadNext(s, id, s.ops[id]) else WriteNext(s, id, s.ops[id])
    case Interrupt(id) =>
      if s.ops[id].Reading? then Finish(s, id, Failed(EINTR)) else Finish(s, id, Short(s.ops[id], EINTR))
  }

  // ---------------------------------------------------------------- invariant

  function Values(t: seq<Tagged>): seq<byte>
  {
    if t == [] then [] else [t[0].value] + Values(t[1..])
  }

  /** The bytes of one call, in the order they were accepted. */
  function Of(t: seq<Tagged>, id: Id): seq<byte>
  {
    if t == [] then [] else (if t[0].id == id then [t[0].value] else []) + Of(t[1..], id)
  }

  /** The bytes of `buf` stand next to each other in the stream. */
  ghost predicate Together(t: seq<Tagged>, id: Id, buf: seq<byte>)
  {
    exists k :: StandsAt(t, k, id, buf)
  }

  predicate StandsAt(t: seq<Tagged>, k: int, id: Id, buf: seq<byte>)
  {
    0 <= k && k + |buf| <= |t| && t[k..k + |buf|] == Tag(id, buf)
  }

  /** A call under way: what it has written is in the stream, and a small write is
      all or nothing. */
  ghost predicate OpOk(s: System, id: Id)
  {
    id in s.ops ==>
      && id !in s.done
      && (s.ops[id].Reading? ==> Of(s.accepted, id) == [] && s.ops[id].max > 0)
      && (s.ops[id].Writing? ==>
            && s.ops[id].written < |s.ops[id].buf|
            && Of(s.accepted, id) == s.ops[id].buf[..s.ops[id].written]
            && (|s.ops[id].buf| <= PIPE_BUF ==> s.ops[id].written == 0))
  }

  /** A call that has returned: a write reported what the stream holds of it, in one
      piece if it was small. A call that was never made is not in the stream. */
  ghost predicate DoneOk(s: System, id: Id)
  {
    && (id !in s.ops && id !in s.done ==> Of(s.accepted, id) == [])
    && (id in s.done ==>
      && (!s.done[id].Wrote? ==> Of(s.accepted, id) == [])
      && (s.done[id].Wrote? ==>
            && s.done[id].n <= |s.done[id].buf|
            && Of(s.accepted, id) == s.done[id].buf[..s.done[id].n]
            && (|s.done[id].buf| <= PIPE_BUF ==>
                  s.done[id].n == |s.done[id].buf| && Together(s.accepted, id, s.done[id].buf))))
  }

  ghost predicate Inv(s: System)
  {
    && |s.q.data| <= PIPE_CAPACITY
    && s.taken + s.q.data == Values(s.accepted)
    && (forall id {:trigger OpOk(s, id)} :: OpOk(s, id))
    && (forall id {:trigger DoneOk(s, id)} :: DoneOk(s, id))
  }

  lemma BootInv()
    ensures Inv(Boot())
  {
  }

  // ---------------------------------------------------------------- the stream

  lemma {:induction false} ValuesAppend(a: seq<Tagged>, b: seq<Tagged>)
    ensures Values(a + b) == Values(a) + Values(b)
  {
    if a == [] {
      assert a + b == b;
    } else {
      assert (a + b)[1..] == a[1..] + b;
      ValuesAppend(a[1..], b);
    }
  }

  lemma {:induction false} OfAppend(a: seq<Tagged>, b: seq<Tagged>, id: Id)
    ensures Of(a + b, id) == Of(a, id) + Of(b, id)
  {
    if a == [] {
      assert a + b == b;
    } else {
      assert (a + b)[1..] == a[1..] + b;
      OfAppend(a[1..], b, id);
      var head := if a[0].id == id then [a[0].value] else [];
      assert head + (Of(a[1..], id) + Of(b, id)) == (head + Of(a[1..], id)) + Of(b, id);
    }
  }

  lemma {:induction false} TagIs(id: Id, b: seq<byte>, x: Id)
    ensures Values(Tag(id, b)) == b
    ensures Of(Tag(id, b), x) == if x == id then b else []
  {
    if b != [] {
      TagIs(id, b[1..], x);
      assert Tag(id, b)[1..] == Tag(id, b[1..]);
      assert b == [b[0]] + b[1..];
    }
  }

  /** What a turn adds to the stream, seen by each call. */
  lemma Accepting(t: seq<Tagged>, id: Id, b: seq<byte>, x: Id)
    ensures Values(t + Tag(id, b)) == Values(t) + b
    ensures Of(t + Tag(id, b), x) == Of(t, x) + if x == id then b else []
  {
    ValuesAppend(t, Tag(id, b));
    OfAppend(t, Tag(id, b), x);
    TagIs(id, b, x);
  }

  lemma TogetherGrows(t: seq<Tagged>, more: seq<Tagged>, id: Id, buf: seq<byte>)
    requires Together(t, id, buf)
    ensures Together(t + more, id, buf)
  {
    var k :| StandsAt(t, k, id, buf);
    assert (t + more)[k..k + |buf|] == t[k..k + |buf|];
    assert StandsAt(t + more, k, id, buf);
  }

  lemma TogetherNew(t: seq<Tagged>, id: Id, buf: seq<byte>)
    ensures Together(t + Tag(id, buf), id, buf)
  {
    assert StandsAt(t + Tag(id, buf), |t|, id, buf);
  }

  // ---------------------------------------------------------------- every step keeps it

  lemma StartKeepsInv(s: System, st: Step)
    requires Inv(s) && Allowed(s, st) && !st.Turns? && !st.Interrupt?
    ensures Inv(Next(s, st))
  {
    var r := Next(s, st);
    forall x
      ensures OpOk(r, x) && DoneOk(r, x)
    {
      assert OpOk(s, x) && DoneOk(s, x);
      if st.StartWrite? && st.buf == [] && x == st.id {
        TogetherNew(s.accepted, x, []);
        assert s.accepted + Tag(x, []) == s.accepted;
      }
    }
  }

  /** A call that ends without moving bytes. */
  lemma FinishKeepsInv(s: System, id: Id, d: Done)
    requires Inv(s) && id in s.ops
    requires if s.ops[id].Reading? then !d.Wrote? else exists e :: d == Short(s.ops[id], e)
    ensures Inv(Finish(s, id, d))
  {
    var r := Finish(s, id, d);
    forall x
      ensures OpOk(r, x) && DoneOk(r, x)
    {
      assert OpOk(s, x) && DoneOk(s, x);
    }
  }

  lemma ReadKeepsInv(s: System, id: Id)
    requires Inv(s) && id in s.ops && s.ops[id].Reading?
    ensures Inv(ReadNext(s, id, s.ops[id]))
  {
    var op := s.ops[id];
    var t := ReadTurn(s.q, op.max);
    if t.Moved? {
      var m := s.(q := s.q.(data := s.q.data[|t.bytes|..]), taken := s.taken + t.bytes);
      assert t.bytes + s.q.data[|t.bytes|..] == s.q.data;
      assert m.taken + m.q.data == s.taken + s.q.data;
      forall x
        ensures OpOk(m, x) && DoneOk(m, x)
      {
        assert OpOk(s, x) && DoneOk(s, x);
      }
      FinishKeepsInv(m, id, Got(t.bytes));
    } else if t.EndOfFile? {
      FinishKeepsInv(s, id, Got([]));
    } else if op.nonblock {
      FinishKeepsInv(s, id, Failed(EAGAIN));
    }
  }

  /** The state after a write turn has put `b` in the queue, for the writer... */
  lemma MovedKeepsOwn(s: System, id: Id, b: seq<byte>, r: System)
    requires Inv(s) && id in s.ops && s.ops[id].Writing?
    requires s.ops[id].written <= |s.ops[id].buf| && WriteTurn(s.q, s.ops[id].buf[s.ops[id].written..]) == Moved(b)
    requires r == WriteNext(s, id, s.ops[id])
    ensures OpOk(r, id) && DoneOk(r, id) && (id in r.ops || id in r.done)
  {
    var op := s.ops[id];
    assert OpOk(s, id) && DoneOk(s, id);
    Accepting(s.accepted, id, b, id);
    assert op.buf[..op.written] + b == op.buf[..op.written + |b|];
    if |op.buf| <= PIPE_BUF {
      assert b == op.buf;
      TogetherNew(s.accepted, id, op.buf);
    }
    assert op.buf[..|op.buf|] == op.buf;
  }

  /** ... and for every other call. */
  lemma MovedKeepsOthers(s: System, id: Id, b: seq<byte>, r: System, x: Id)
    requires Inv(s) && id in s.ops && x != id
    requires r.accepted == s.accepted + Tag(id, b)
    requires x in r.ops <==> x in s.ops
    requires x in s.ops ==> r.ops[x] == s.ops[x]
    requires x in r.done <==> x in s.done
    requires x in s.done ==> r.done[x] == s.done[x]
    ensures OpOk(r, x) && DoneOk(r, x)
  {
    assert OpOk(s, x) && DoneOk(s, x);
    Accepting(s.accepted, id, b, x);
    if x in s.done && s.done[x].Wrote? && |s.done[x].buf| <= PIPE_BUF {
      TogetherGrows(s.accepted, Tag(id, b), x, s.done[x].buf);
    }
  }

  lemma MovedKeepsInv(s: System, id: Id, b: seq<byte>)
    requires Inv(s) && id in s.ops && s.ops[id].Writing?
    requires s.ops[id].written <= |s.ops[id].buf| && WriteTurn(s.q, s.ops[id].buf[s.ops[id].written..]) == Moved(b)
    ensures Inv(WriteNext(s, id, s.ops[id]))
  {
    var r := WriteNext(s, id, s.ops[id]);
    forall x
      ensures OpOk(r, x) && DoneOk(r, x)
    {
      if x == id {
        MovedKeepsOwn(s, id, b, r);
      } else {
        MovedKeepsOthers(s, id, b, r, x);
      }
    }
    Accepting(s.accepted, id, b, id);
    assert s.taken + (s.q.data + b) == (s.taken + s.q.data) + b;
  }

  lemma WriteKeepsInv(s: System, id: Id)
    requires Inv(s) && id in s.ops && s.ops[id].Writing?
    ensures OpOk(s, id) && Inv(WriteNext(s, id, s.ops[id]))
  {
    assert OpOk(s, id);
    var op := s.ops[id];
    var t := WriteTurn(s.q, op.buf[op.written..]);
    if t.Moved? {
      MovedKeepsInv(s, id, t.bytes);
    } else if t.Broken? {
      FinishKeepsInv(s, id, Short(op, EPIPE));
    } else if op.nonblock {
      FinishKeepsInv(s, id, Short(op, EAGAIN));
    }
  }

  lemma NextKeepsInv(s: System, st: Step)
    requires Inv(s) && Allowed(s, st)
    ensures Inv(Next(s, st))
  {
    if st.Turns? {
      if s.ops[st.id].Reading? {
        ReadKeepsInv(s, st.id);
      } else {
        WriteKeepsInv(s, st.id);
      }
    } else if st.Interrupt? {
      FinishKeepsInv(s, st.id, if s.ops[st.id].Reading? then Failed(EINTR) else Short(s.ops[st.id], EINTR));
    } else {
      StartKeepsInv(s, st);
    }
  }

  // ---------------------------------------------------------------- runs

  ghost predicate RunAllowed(s: System, steps: seq<Step>)
    requires Inv(s)
    decreases |steps|
  {
    steps == [] ||
    (Allowed(s, steps[0]) && (NextKeepsInv(s, steps[0]); RunAllowed(Next(s, steps[0]), steps[1..])))
  }

  ghost function RunFrom(s: System, steps: seq<Step>): (r: System)
    requires Inv(s) && RunAllowed(s, steps)
    ensures Inv(r)
    decreases |steps|
  {
    if steps == [] then s
    else NextKeepsInv(s, steps[0]); RunFrom(Next(s, steps[0]), steps[1..])
  }

  /** What a step gives to a reader. */
  function Given(s: System, r: System, st: Step): seq<byte>
  {
    if st.Turns? && st.id !in s.done && st.id in r.done && r.done[st.id].Got? then r.done[st.id].bytes else []
  }

  /** The bytes handed out are exactly those that readers got, the record of accepted
      bytes only grows, and a call that has returned stays returned. */
  lemma StepStream(s: System, st: Step)
    requires Inv(s) && Allowed(s, st)
    ensures var r := Next(s, st);
            && r.taken == s.taken + Given(s, r, st)
            && s.accepted <= r.accepted
            && (forall id :: id in s.done ==> id in r.done && r.done[id] == s.done[id])
  {
    if st.Turns? {
      assert OpOk(s, st.id) && DoneOk(s, st.id);
    } else if st.Interrupt? {
      assert OpOk(s, st.id);
    }
  }

  ghost function AllGiven(s: System, steps: seq<Step>): seq<byte>
    requires Inv(s) && RunAllowed(s, steps)
    decreases |steps|
  {
    if steps == [] then []
    else
      NextKeepsInv(s, steps[0]);
      Given(s, Next(s, steps[0]), steps[0]) + AllGiven(Next(s, steps[0]), steps[1..])
  }

  lemma Chained(s: System, m: System, r: System, g: seq<byte>, rest: seq<byte>)
    requires m.taken == s.taken + g && r.taken == m.taken + rest && s.accepted <= m.accepted <= r.accepted
    ensures r.taken == s.taken + (g + rest) && s.accepted <= r.accepted
  {
  }

  lemma {:induction false} RunStream(s: System, steps: seq<Step>)
    requires Inv(s) && RunAllowed(s, steps)
    ensures var r := RunFrom(s, steps); r.taken == s.taken + AllGiven(s, steps) && s.accepted <= r.accepted
    decreases |steps|
  {
    if steps != [] {
      StepStream(s, steps[0]);
      NextKeepsInv(s, steps[0]);
      var m := Next(s, steps[0]);
      RunStream(m, steps[1..]);
      Chained(s, m, RunFrom(m, steps[1..]), Given(s, m, steps[0]), AllGiven(m, steps[1..]));
    }
  }

  /** Over any interleaving of any number of readers and writers: what readers got,
      in the order they got it, followed by what is buffered, is what was accepted,
      in the order it was accepted; and the buffer is never over capacity. */
  lemma StreamLaw(steps: seq<Step>)
    requires Inv(Boot()) && RunAllowed(Boot(), steps)
    ensures var r := RunFrom(Boot(), steps);
            AllGiven(Boot(), steps) + r.q.data == Values(r.accepted) && |r.q.data| <= PIPE_CAPACITY
  {
    RunStream(Boot(), steps);
    var r := RunFrom(Boot(), steps);
    assert Inv(r);
    assert Boot().taken + AllGiven(Boot(), steps) == AllGiven(Boot(), steps);
  }

  /** Every write call that returned: the stream holds of it exactly what it
      reported; one of at most PIPE_BUF bytes was taken whole, in one piece, or not
      at all. */
  lemma WriteLaw(steps: seq<Step>, id: Id)
    requires Inv(Boot()) && RunAllowed(Boot(), steps) && id in RunFrom(Boot(), steps).done
    ensures var r := RunFrom(Boot(), steps); var d := r.done[id];
            if d.Wrote? then
              && d.n <= |d.buf| && Of(r.accepted, id) == d.buf[..d.n]
              && (|d.buf| <= PIPE_BUF ==> d.n == |d.buf| && Together(r.accepted, id, d.buf))
            else Of(r.accepted, id) == []
  {
    assert DoneOk(RunFrom(Boot(), steps), id);
  }

  /** A read into a non-empty buffer returns nothing only when everything has been
      drained and no writer is left. */
  lemma EofLaw(s: System, st: Step)
    requires Inv(s) && Allowed(s, st) && st.Turns? && s.ops[st.id].Reading?
    requires st.id in Next(s, st).done && Next(s, st).done[st.id] == Got([])
    ensures s.q.data == [] && s.q.writers == 0 && s.taken == Values(s.accepted)
  {
    assert OpOk(s, st.id);
    assert s.taken + [] == s.taken;
  }

  /** A reader and a writer are never both waiting. */
  lemma NeverBothWait(s: System, a: Id, b: Id)
    requires Inv(s) && a in s.ops && b in s.ops && s.ops[a].Reading? && s.ops[b].Writing?
    ensures !(OpWaits(s, s.ops[a]) && OpWaits(s, s.ops[b]))
  {
    assert OpOk(s, b);
  }

  /** A blocking write with nobody interrupting it and readers present comes back
      only when everything has been written. */
  lemma BlockingWriteWhole(s: System, st: Step)
    requires Inv(s) && Allowed(s, st) && st.Turns? && s.ops[st.id].Writing? && !s.ops[st.id].nonblock && s.q.readers > 0
    ensures var r := Next(s, st); st.id in r.done ==> r.done[st.id] == Wrote(s.ops[st.id].buf, |s.ops[st.id].buf|)
  {
    assert OpOk(s, st.id);
  }
}
