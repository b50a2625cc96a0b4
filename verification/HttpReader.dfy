/** Reading an HTTP response (`net/http.rs`): lines, counted bytes and chunked bodies
    taken from a byte stream that arrives in pieces of any size. */
module HttpReader {

  type byte = x: int | 0 <= x < 256

  const CR: byte := 13
  const LF: byte := 10
  const USIZE: nat := 0x1_0000_0000_0000_0000

  datatype Result<+T> = Ok(value: T) | BadResponse

  // ---------------------------------------------------------------- lines

  /** The index of the first CRLF, the length if there is none. */
  function FirstCrlf(s: seq<byte>): (n: nat)
    ensures n <= |s| && (n + 2 <= |s| ==> s[n] == CR && s[n + 1] == LF)
  {
    if |s| < 2 then |s| else if s[0] == CR && s[1] == LF then 0 else 1 + FirstCrlf(s[1..])
  }

  predicate HasCrlf(s: seq<byte>)
  {
    FirstCrlf(s) + 2 <= |s|
  }

  lemma {:induction false} FirstCrlfBound(s: seq<byte>)
    ensures HasCrlf(s) || FirstCrlf(s) == |s|
  {
    if |s| >= 2 && !(s[0] == CR && s[1] == LF) {
      FirstCrlfBound(s[1..]);
    }
  }

  /** More bytes behind a CRLF do not move it. */
  lemma {:induction false} FirstCrlfStays(s: seq<byte>, more: seq<byte>)
    requires HasCrlf(s)
    ensures FirstCrlf(s + more) == FirstCrlf(s)
  {
    if !(s[0] == CR && s[1] == LF) {
      assert (s + more)[1..] == s[1..] + more;
      FirstCrlfStays(s[1..], more);
    }
  }

  /** A line and what follows it. */
  datatype Line = Line(text: seq<byte>, rest: seq<byte>)

  /** A CRLF ends a line; so does the end of the stream, unless nothing is left. */
  function TakeLine(s: seq<byte>): Result<Line>
  {
    if HasCrlf(s) then Ok(Line(s[..FirstCrlf(s)], s[FirstCrlf(s) + 2..]))
    else if s == [] then BadResponse
    else Ok(Line(s, []))
  }

  lemma TakeLineShrinks(s: seq<byte>)
    ensures TakeLine(s).Ok? ==> |TakeLine(s).value.rest| < |s|
  {
  }

  function Least(a: nat, b: nat): nat
  {
    if a < b then a else b
  }

  // ---------------------------------------------------------------- chunk sizes

  predicate IsSpace(b: byte)
  {
    b == 32 || 9 <= b <= 13
  }

  function TrimLeft(s: seq<byte>): seq<byte>
  {
    if s != [] && IsSpace(s[0]) then TrimLeft(s[1..]) else s
  }

  function TrimRight(s: seq<byte>): seq<byte>
  {
    if s != [] && IsSpace(s[|s| - 1]) then TrimRight(s[..|s| - 1]) else s
  }

  function BeforeSemicolon(s: seq<byte>): seq<byte>
  {
    if s == [] || s[0] == 59 then [] else [s[0]] + BeforeSemicolon(s[1..])
  }

  function DigitOf(b: byte): Result<nat>
  {
    if 48 <= b <= 57 then Ok(b - 48)
    else if 97 <= b <= 102 then Ok(b - 87)
    else if 65 <= b <= 70 then Ok(b - 55)
    else BadResponse
  }

  function HexValue(s: seq<byte>): Result<nat>
  {
    if s == [] then Ok(0)
    else
      var head := HexValue(s[..|s| - 1]);
      var d := DigitOf(s[|s| - 1]);
      if head.Ok? && d.Ok? && 16 * head.value + d.value < USIZE then Ok(16 * head.value + d.value) else BadResponse
  }

  /** A hexadecimal number, perhaps with a plus sign; extensions after a semicolon
      and spaces around it are ignored. */
  function ParseSize(line: seq<byte>): Result<nat>
  {
    var t := TrimRight(TrimLeft(BeforeSemicolon(line)));
    var digits := if t != [] && t[0] == 43 then t[1..] else t;
    if digits == [] then BadResponse else HexValue(digits)
  }

  // ---------------------------------------------------------------- bodies

  /** The body of a chunked stream, given what has been decoded. */
  function Chunked(s: seq<byte>, body: seq<byte>): Result<seq<byte>>
    decreases |s|
  {
    var l := TakeLine(s);
    if !l.Ok? then BadResponse
    else
      var size := ParseSize(l.value.text);
      if !size.Ok? then BadResponse
      else if size.value == 0 then Ok(body)
      else
        TakeLineShrinks(s);
        var rest := l.value.rest;
        var n := Least(size.value, |rest|);
        Chunked(SkipLine(rest[n..]), body + rest[..n])
  }

  /** Drops a line if there is one. */
  function SkipLine(s: seq<byte>): (r: seq<byte>)
    ensures |r| <= |s|
  {
    var l := TakeLine(s);
    if l.Ok? then l.value.rest else s
  }

  datatype Framing = NoBody | InChunks | Counted(n: nat) | UntilClose | Invalid

  function Body(f: Framing, s: seq<byte>): Result<seq<byte>>
  {
    match f
    case NoBody => Ok([])
    case InChunks => Chunked(s, [])
    case Counted(n) => Ok(s[..Least(n, |s|)])
    case UntilClose => Ok(s)
    case Invalid => BadResponse
  }

  datatype Head = Head(status: seq<byte>, fields: seq<seq<byte>>, rest: seq<byte>)

  /** Header lines up to the empty one. */
  function Fields(s: seq<byte>, sofar: seq<seq<byte>>): Result<(seq<seq<byte>>, seq<byte>)>
    decreases |s|
  {
    var l := TakeLine(s);
    if !l.Ok? then BadResponse
    else if l.value.text == [] then Ok((sofar, l.value.rest))
    else
      TakeLineShrinks(s);
      Fields(l.value.rest, sofar + [l.value.text])
  }

  datatype Response = Response(status: seq<byte>, fields: seq<seq<byte>>, body: seq<byte>)

  /** The response in a stream. How the body is framed is read off the status line
      and the header lines by `framing`. */
  function Parse(s: seq<byte>, framing: (seq<byte>, seq<seq<byte>>) -> Framing): Result<Response>
  {
    var l := TakeLine(s);
    if !l.Ok? then BadResponse
    else
      var f := Fields(l.value.rest, []);
      if !f.Ok? then BadResponse
      else
        var b := Body(framing(l.value.text, f.value.0), f.value.1);
        if b.Ok? then Ok(Response(l.value.text, f.value.0, b.value)) else BadResponse
  }

  // ---------------------------------------------------------------- the connection

  /** A connection delivers `rest` in pieces; `cuts` says how the network happens to
      cut it. */
  class Conn {
    var rest: seq<byte>
    var cuts: seq<nat>
    var buf: seq<byte>

    /** What has not been consumed yet. */
    ghost function Stream(): seq<byte>
      reads this
    {
      buf + rest
    }

    constructor (stream: seq<byte>, cuts: seq<nat>)
      ensures Stream() == stream && buf == []
    {
      rest, buf, this.cuts := stream, [], cuts;
    }

    /** `Conn::read`: at least one byte unless the stream has ended. */
    method Read(max: nat) returns (data: seq<byte>)
      requires max > 0
      modifies this`rest, this`cuts
      ensures old(rest) == data + rest && |data| <= max && (data == [] <==> old(rest) == [])
    {
      var n := Least(max, |rest|);
      if cuts != [] {
        n := Least(n, cuts[0] + 1);
        cuts := cuts[1..];
      }
      data := rest[..n];
      rest := rest[n..];
    }

    /** `read_line`: takes a line off the stream, however it was cut. */
    method ReadLine() returns (r: Result<seq<byte>>)
      modifies this
      ensures var l := TakeLine(old(Stream()));
              && r.Ok? == l.Ok? && (r.Ok? ==> r.value == l.value.text && Stream() == l.value.rest)
              && (!r.Ok? ==> Stream() == old(Stream()))
    {
      while true
        invariant Stream() == old(Stream())
        decreases |rest|
      {
        FirstCrlfBound(buf);
        var pos := FirstCrlf(buf);
        if pos + 2 <= |buf| {
          FirstCrlfStays(buf, rest);
          var line := buf[..pos];
          assert (buf + rest)[..pos] == line && (buf + rest)[pos + 2..] == buf[pos + 2..] + rest;
          buf := buf[pos + 2..];
          return Ok(line);
        }
        ghost var was := rest;
        var data := Read(2048);
        if data == [] {
          assert buf + rest == buf;
          if buf == [] {
            return BadResponse;
          }
          var line := buf;
          buf := [];
          return Ok(line);
        }
        assert buf + was == buf + data + rest;
        buf := buf + data;
      }
      r := BadResponse;
    }

    /** `read_exact`: `want` bytes, or all that come before the end. */
    method ReadExact(want: nat) returns (out: seq<byte>)
      modifies this
      ensures var n := Least(want, |old(Stream())|); out == old(Stream())[..n] && Stream() == old(Stream())[n..]
    {
      var take := Least(want, |buf|);
      out := buf[..take];
      buf := buf[take..];
      assert old(Stream()) == out + (buf + rest);
      while |out| < want
        invariant |out| <= want && old(Stream()) == out + (buf + rest)
        invariant |out| < want ==> buf == []
        decreases |rest|
      {
        ghost var was := rest;
        var data := Read(8192);
        if data == [] {
          break;
        }
        var need := want - |out|;
        var use := Least(need, |data|);
        ghost var before := out;
        out := out + data[..use];
        buf := buf + data[use..];
        assert data[..use] + data[use..] == data;
        assert before + (data + rest) == out + (data[use..] + rest);
      }
      ghost var n := Least(want, |old(Stream())|);
      assert |out| == n;
      assert (out + (buf + rest))[..n] == out && (out + (buf + rest))[n..] == buf + rest;
    }

    /** Everything up to the end of the stream. */
    method ReadToEnd() returns (body: seq<byte>)
      modifies this
      ensures body == old(Stream()) && Stream() == []
    {
      body := buf;
      buf := [];
      while true
        invariant buf == [] && body + rest == old(Stream())
        decreases |rest|
      {
        ghost var was := rest;
        var data := Read(8192);
        if data == [] {
          assert body + was == body;
          return;
        }
        assert body + was == (body + data) + rest;
        body := body + data;
      }
    }

    /** The chunked loop of `fetch`. */
    method ReadChunked() returns (r: Result<seq<byte>>)
      modifies this
      ensures r == Chunked(old(Stream()), [])
    {
      var body: seq<byte> := [];
      while true
        invariant Chunked(Stream(), body) == Chunked(old(Stream()), [])
        decreases |Stream()|
      {
        TakeLineShrinks(Stream());
        var line := ReadLine();
        if !line.Ok? {
          return BadResponse;
        }
        var size := ParseSize(line.value);
        if !size.Ok? {
          return BadResponse;
        }
        if size.value == 0 {
          var last := ReadLine();
          return Ok(body);
        }
        var chunk := ReadExact(size.value);
        body := body + chunk;
        var end := ReadLine();
      }
      r := BadResponse;
    }

    /** One response off the stream: the same for every way of cutting it. */
    method Fetch(framing: (seq<byte>, seq<seq<byte>>) -> Framing) returns (r: Result<Response>)
      modifies this
      ensures r == Parse(old(Stream()), framing)
    {
      var status := ReadLine();
      if !status.Ok? {
        return BadResponse;
      }
      var fields: seq<seq<byte>> := [];
      ghost var s := Stream();
      while true
        invariant Fields(Stream(), fields) == Fields(s, [])
        decreases |Stream()|
      {
        TakeLineShrinks(Stream());
        var line := ReadLine();
        if !line.Ok? {
          return BadResponse;
        }
        if line.value == [] {
          break;
        }
        fields := fields + [line.value];
      }
      var body := ReadBody(framing(status.value, fields));
      if !body.Ok? {
        return BadResponse;
      }
      r := Ok(Response(status.value, fields, body.value));
    }

    method ReadBody(f: Framing) returns (r: Result<seq<byte>>)
      modifies this
      ensures r == Body(f, old(Stream()))
    {
      match f {
        case NoBody => r := Ok([]);
        case InChunks => r := ReadChunked();
        case Counted(n) =>
          var out := ReadExact(n);
          r := Ok(out);
        case UntilClose =>
          var out := ReadToEnd();
          r := Ok(out);
        case Invalid => r := BadResponse;
      }
    }
  }

  // ---------------------------------------------------------------- well-formed chunked streams

  const CRLF: seq<byte> := [CR, LF]

  /** A chunk: its size line, without the CRLF, and its data. */
  datatype Chunk = Chunk(header: seq<byte>, data: seq<byte>)

  /** No CRLF inside, so the one that follows ends the line. */
  predicate OneLine(h: seq<byte>)
  {
    !HasCrlf(h)
  }

  predicate WellFormed(c: Chunk)
  {
    OneLine(c.header) && c.data != [] && ParseSize(c.header) == Ok(|c.data|)
  }

  function Encoded(chunks: seq<Chunk>, last: seq<byte>): seq<byte>
  {
    if chunks == [] then last + CRLF
    else chunks[0].header + CRLF + (chunks[0].data + CRLF + Encoded(chunks[1..], last))
  }

  function Joined(chunks: seq<Chunk>): seq<byte>
  {
    if chunks == [] then [] else chunks[0].data + Joined(chunks[1..])
  }

  lemma {:induction false} CrlfAt(h: seq<byte>, more: seq<byte>)
    requires OneLine(h)
    ensures HasCrlf(h + CRLF + more) && FirstCrlf(h + CRLF + more) == |h|
  {
    FirstCrlfBound(h);
    var s := h + CRLF + more;
    if h != [] {
      assert s[1..] == h[1..] + CRLF + more;
      if |h| >= 2 {
        FirstCrlfBound(h[1..]);
        assert s[0] == h[0] && s[1] == h[1];
        CrlfAt(h[1..], more);
      } else {
        assert h[1..] == [] && s[1] == CR;
        CrlfAt([], more);
        assert h[1..] + CRLF + more == [] + CRLF + more;
      }
    }
  }

  lemma LineAt(h: seq<byte>, more: seq<byte>)
    requires OneLine(h)
    ensures TakeLine(h + CRLF + more) == Ok(Line(h, more))
  {
    CrlfAt(h, more);
    var s := h + CRLF + more;
    assert s[..|h|] == h && s[|h| + 2..] == more;
  }

  lemma SkipEmpty(next: seq<byte>)
    ensures SkipLine(CRLF + next) == next
  {
    LineAt([], next);
    assert [] + CRLF + next == CRLF + next;
  }

  lemma SplitData(c: seq<byte>, next: seq<byte>)
    ensures var d := c + (CRLF + next); |d| >= |c| && d[..|c|] == c && d[|c|..] == CRLF + next
  {
  }

  lemma OneChunk(c: Chunk, next: seq<byte>, body: seq<byte>)
    requires WellFormed(c)
    ensures Chunked(c.header + CRLF + (c.data + (CRLF + next)), body) == Chunked(next, body + c.data)
  {
    LineAt(c.header, c.data + (CRLF + next));
    SplitData(c.data, next);
    SkipEmpty(next);
  }

  lemma EncodedAfter(chunks: seq<Chunk>, last: seq<byte>, after: seq<byte>)
    requires chunks != []
    ensures Encoded(chunks, last) + after ==
            chunks[0].header + CRLF + (chunks[0].data + (CRLF + (Encoded(chunks[1..], last) + after)))
  {
  }

  /** A well-formed chunked stream decodes to its chunks, one after the other, no
      matter what follows it. */
  lemma {:induction false} ChunkedDecodes(chunks: seq<Chunk>, last: seq<byte>, after: seq<byte>, body: seq<byte>)
    requires (forall i :: 0 <= i < |chunks| ==> WellFormed(chunks[i])) && OneLine(last) && ParseSize(last) == Ok(0)
    ensures Chunked(Encoded(chunks, last) + after, body) == Ok(body + Joined(chunks))
    decreases |chunks|
  {
    if chunks == [] {
      LineAt(last, after);
      assert body + Joined(chunks) == body;
    } else {
      EncodedAfter(chunks, last, after);
      OneChunk(chunks[0], Encoded(chunks[1..], last) + after, body);
      ChunkedDecodes(chunks[1..], last, after, body + chunks[0].data);
      assert (body + chunks[0].data) + Joined(chunks[1..]) == body + Joined(chunks);
    }
  }

  // ---------------------------------------------------------------- sizes as a sender writes them

  function HexDigit(d: nat): byte
    requires d < 16
  {
    if d < 10 then 48 + d else 87 + d
  }

  function HexOf(n: nat): (r: seq<byte>)
    ensures r != []
  {
    if n < 16 then [HexDigit(n)] else HexOf(n / 16) + [HexDigit(n % 16)]
  }

  predicate HexChars(s: seq<byte>)
  {
    forall i :: 0 <= i < |s| ==> 48 <= s[i] <= 57 || 97 <= s[i] <= 102
  }

  lemma {:induction false} HexOfIs(n: nat)
    requires n < USIZE
    ensures HexValue(HexOf(n)) == Ok(n) && HexChars(HexOf(n))
  {
    if n >= 16 {
      HexOfIs(n / 16);
      var s := HexOf(n);
      assert s[..|s| - 1] == HexOf(n / 16) && s[|s| - 1] == HexDigit(n % 16);
    } else {
      assert [HexDigit(n)][..0] == [];
    }
  }

  lemma {:induction false} NoSemicolon(s: seq<byte>, ext: seq<byte>)
    requires HexChars(s) && (ext == [] || ext[0] == 59)
    ensures BeforeSemicolon(s + ext) == s
  {
    if s == [] {
      assert s + ext == ext;
    } else {
      assert (s + ext)[1..] == s[1..] + ext;
      NoSemicolon(s[1..], ext);
      assert s == [s[0]] + s[1..];
    }
  }

  lemma TrimHex(s: seq<byte>)
    requires HexChars(s) && s != []
    ensures TrimRight(TrimLeft(s)) == s && s[0] != 43
  {
    assert !IsSpace(s[0]) && !IsSpace(s[|s| - 1]);
  }

  /** A size written in hexadecimal, with or without extensions, is read back. */
  lemma SizeRoundTrip(n: nat, ext: seq<byte>)
    requires n < USIZE && (ext == [] || ext[0] == 59)
    ensures ParseSize(HexOf(n) + ext) == Ok(n)
  {
    HexOfIs(n);
    NoSemicolon(HexOf(n), ext);
    TrimHex(HexOf(n));
  }
}
