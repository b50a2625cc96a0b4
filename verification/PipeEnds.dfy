/** The pipe object and its two kinds of ends, turn by turn. */
module PipeEnds {
  import opened Pipes

  class Pipe {
    var data: seq<byte>
    var readers: nat
    var writers: nat

    ghost function State(): Queue
      reads this
    {
      Queue(data, readers, writers)
    }

    constructor ()
      ensures State() == Queue([], 0, 0)
    {
      data, readers, writers := [], 0, 0;
    }

    /** Opens an end: with a writer there is no end of file, with a reader no broken pipe. */
    method Open(write: bool)
      modifies this
      ensures forall s: System :: Inv(s) && s.q == old(State()) ==> Next(s, Pipes.Open(write)) == s.(q := State())
      ensures write ==> forall max :: ReadTurn(State(), max) != EndOfFile
      ensures !write && |data| <= PIPE_CAPACITY ==> forall rest :: WriteTurn(State(), rest) != Broken
    {
      if write {
        writers := writers + 1;
      } else {
        readers := readers + 1;
      }
    }

    /** Closes an end: readers see the end of file from when the last writer has gone and
        the data with it, writers a broken pipe from when the last reader has. */
    method Drop(write: bool)
      requires if write then writers > 0 else readers > 0
      modifies this
      ensures forall s: System :: Inv(s) && s.q == old(State()) ==> Next(s, Close(write)) == s.(q := State())
      ensures write ==> forall max :: ReadTurn(State(), max) == EndOfFile <==> old(data) == [] && old(writers) == 1
      ensures !write && |data| <= PIPE_CAPACITY ==>
                forall rest :: WriteTurn(State(), rest) == Broken <==> old(readers) == 1
    {
      if write {
        writers := writers - 1;
      } else {
        readers := readers - 1;
      }
    }

    /** One turn of `read`: drains what fits into `buf`. */
    method Read(buf: array<byte>) returns (t: Turn)
      requires buf.Length > 0
      modifies this, buf
      ensures t == ReadTurn(old(State()), buf.Length)
      ensures t.Moved? ==> 0 < |t.bytes| && buf[..|t.bytes|] == t.bytes && old(data) == t.bytes + data
      ensures !t.Moved? ==> data == old(data)
      ensures forall i :: (if t.Moved? then |t.bytes| else 0) <= i < buf.Length ==> buf[i] == old(buf[i])
      ensures readers == old(readers) && writers == old(writers)
    {
      if data != [] {
        var n := Least(buf.Length, |data|);
        var i := 0;
        while i < n
          invariant 0 <= i <= n && n == Least(buf.Length, |old(data)|)
          invariant readers == old(readers) && writers == old(writers)
          invariant data == old(data)[i..]
          invariant forall k :: 0 <= k < i ==> buf[k] == old(data)[k]
          invariant forall k :: i <= k < buf.Length ==> buf[k] == old(buf[k])
        {
          buf[i] := data[0];
          data := data[1..];
          i := i + 1;
        }
        assert buf[..n] == old(data)[..n];
        return Moved(buf[..n]);
      }
      if writers == 0 {
        return EndOfFile;
      }
      t := Waits;
    }

    /** One turn of `write`. */
    method Write(rest: seq<byte>) returns (t: Turn)
      requires |data| <= PIPE_CAPACITY && rest != []
      modifies this`data
      ensures |data| <= PIPE_CAPACITY
      ensures t == WriteTurn(old(State()), rest)
      ensures t.Moved? ==> 0 < |t.bytes| && t.bytes <= rest && data == old(data) + t.bytes
      ensures t.Moved? && |rest| <= PIPE_BUF ==> t.bytes == rest
      ensures !t.Moved? ==> data == old(data)
    {
      var need := if |rest| <= PIPE_BUF then |rest| else 1;
      if readers == 0 {
        return Broken;
      }
      if PIPE_CAPACITY - |data| < need {
        return Waits;
      }
      var n := Least(|rest|, PIPE_CAPACITY - |data|);
      data := data + rest[..n];
      t := Moved(rest[..n]);
    }

    /** The loop of `write` up to the point where it returns or must sleep: it stops
        short only when it has to wait or nobody reads. */
    method WriteAll(buf: seq<byte>) returns (written: nat, last: Turn)
      requires |data| <= PIPE_CAPACITY
      modifies this`data
      ensures |data| <= PIPE_CAPACITY && written <= |buf| && data == old(data) + buf[..written]
      ensures written == |buf| || (last == WriteTurn(State(), buf[written..]) && (last.Waits? || last.Broken?))
      ensures 0 < |buf| <= PIPE_BUF ==> written == 0 || written == |buf|
    {
      written := 0;
      last := Waits;
      while written < |buf|
        invariant |data| <= PIPE_CAPACITY && written <= |buf| && data == old(data) + buf[..written]
        invariant |buf| <= PIPE_BUF ==> written == 0 || written == |buf|
      {
        last := Write(buf[written..]);
        if !last.Moved? {
          return;
        }
        assert buf[..written] + last.bytes == buf[..written + |last.bytes|];
        written := written + |last.bytes|;
      }
    }
  }
}
