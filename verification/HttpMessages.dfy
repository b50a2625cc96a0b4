/** Whole responses as a server writes them, and what the reader makes of them. */
module HttpMessages {
  import opened HttpReader

  function HeaderLines(fields: seq<seq<byte>>): seq<byte>
  {
    if fields == [] then CRLF else fields[0] + CRLF + HeaderLines(fields[1..])
  }

  /** Status line, header lines in order, an empty line, and then `rest`. */
  function Message(status: seq<byte>, fields: seq<seq<byte>>, rest: seq<byte>): seq<byte>
  {
    status + CRLF + (HeaderLines(fields) + rest)
  }

  predicate HeaderLine(f: seq<byte>)
  {
    OneLine(f) && f != []
  }

  lemma {:induction false} FieldsInOrder(fields: seq<seq<byte>>, rest: seq<byte>, sofar: seq<seq<byte>>)
    requires forall i :: 0 <= i < |fields| ==> HeaderLine(fields[i])
    ensures Fields(HeaderLines(fields) + rest, sofar) == Ok((sofar + fields, rest))
    decreases |fields|
  {
    if fields == [] {
      LineAt([], rest);
      assert [] + CRLF + rest == HeaderLines(fields) + rest;
      assert sofar + fields == sofar;
    } else {
      FieldRead(fields, rest, sofar);
      FieldsInOrder(fields[1..], rest, sofar + [fields[0]]);
      assert sofar + [fields[0]] + fields[1..] == sofar + fields;
    }
  }

  lemma FieldRead(fields: seq<seq<byte>>, rest: seq<byte>, sofar: seq<seq<byte>>)
    requires fields != [] && HeaderLine(fields[0])
    ensures Fields(HeaderLines(fields) + rest, sofar)
         == Fields(HeaderLines(fields[1..]) + rest, sofar + [fields[0]])
  {
    var more := HeaderLines(fields[1..]) + rest;
    assert HeaderLines(fields) + rest == fields[0] + CRLF + more;
    LineAt(fields[0], more);
  }

  /** A response is read back: its status line, its header lines in order, and the body
      that their framing stands for. */
  lemma ResponseRoundTrip(status: seq<byte>, fields: seq<seq<byte>>, rest: seq<byte>,
                          framing: (seq<byte>, seq<seq<byte>>) -> Framing)
    requires OneLine(status) && forall i :: 0 <= i < |fields| ==> HeaderLine(fields[i])
    ensures var r := Parse(Message(status, fields, rest), framing); var f := framing(status, fields);
            && (f.NoBody? ==> r == Ok(Response(status, fields, [])))
            && (f.UntilClose? ==> r == Ok(Response(status, fields, rest)))
            && (f.Invalid? ==> r == BadResponse)
            && (f.Counted? ==> r == Ok(Response(status, fields, if f.n < |rest| then rest[..f.n] else rest)))
            && (f.InChunks? ==> r == match Chunked(rest, [])
                                     case Ok(body) => Ok(Response(status, fields, body))
                                     case BadResponse => BadResponse)
  {
    LineAt(status, HeaderLines(fields) + rest);
    FieldsInOrder(fields, rest, []);
    assert [] + fields == fields && rest[..|rest|] == rest;
  }

  /** So a counted body comes back whole, and so does a chunked one, whatever follows. */
  lemma BodyRoundTrip(status: seq<byte>, fields: seq<seq<byte>>, body: seq<byte>, after: seq<byte>,
                      framing: (seq<byte>, seq<seq<byte>>) -> Framing)
    requires OneLine(status) && forall i :: 0 <= i < |fields| ==> HeaderLine(fields[i])
    requires framing(status, fields) == Counted(|body|)
    ensures Parse(Message(status, fields, body + after), framing) == Ok(Response(status, fields, body))
  {
    ResponseRoundTrip(status, fields, body + after, framing);
    assert (body + after)[..|body|] == body && (after == [] ==> body + after == body);
  }

  lemma ChunksRoundTrip(status: seq<byte>, fields: seq<seq<byte>>, chunks: seq<Chunk>, last: seq<byte>,
                        after: seq<byte>, framing: (seq<byte>, seq<seq<byte>>) -> Framing)
    requires OneLine(status) && forall i :: 0 <= i < |fields| ==> HeaderLine(fields[i])
    requires framing(status, fields) == InChunks
    requires (forall i :: 0 <= i < |chunks| ==> WellFormed(chunks[i])) && OneLine(last) && ParseSize(last) == Ok(0)
    ensures Parse(Message(status, fields, Encoded(chunks, last) + after), framing)
         == Ok(Response(status, fields, Joined(chunks)))
  {
    ResponseRoundTrip(status, fields, Encoded(chunks, last) + after, framing);
    ChunkedDecodes(chunks, last, after, []);
    assert [] + Joined(chunks) == Joined(chunks);
  }

  // ---------------------------------------------------------------- messages cut short

  function LinesOnly(fields: seq<seq<byte>>): seq<byte>
  {
    if fields == [] then [] else fields[0] + CRLF + LinesOnly(fields[1..])
  }

  lemma {:induction false} FieldsCut(fields: seq<seq<byte>>, sofar: seq<seq<byte>>)
    requires forall i :: 0 <= i < |fields| ==> HeaderLine(fields[i])
    ensures Fields(LinesOnly(fields), sofar) == BadResponse
    decreases |fields|
  {
    if fields != [] {
      LineAt(fields[0], LinesOnly(fields[1..]));
      FieldsCut(fields[1..], sofar + [fields[0]]);
    }
  }

  /** A response that ends before its empty line is refused, however many header lines
      came. */
  lemma HeadCut(status: seq<byte>, fields: seq<seq<byte>>, framing: (seq<byte>, seq<seq<byte>>) -> Framing)
    requires OneLine(status) && forall i :: 0 <= i < |fields| ==> HeaderLine(fields[i])
    ensures Parse(status + CRLF + LinesOnly(fields), framing) == BadResponse && Parse([], framing) == BadResponse
  {
    LineAt(status, LinesOnly(fields));
    FieldsCut(fields, []);
  }

  // ---------------------------------------------------------------- sizes

  function Upper(s: seq<byte>): (r: seq<byte>)
    ensures |r| == |s| && forall i :: 0 <= i < |s| ==> r[i] == if 97 <= s[i] <= 122 then s[i] - 32 else s[i]
  {
    seq(|s|, i requires 0 <= i < |s| => if 97 <= s[i] <= 122 then (s[i] - 32) as byte else s[i])
  }

  lemma {:induction false} UpperSame(s: seq<byte>)
    requires HexChars(s)
    ensures HexValue(Upper(s)) == HexValue(s)
  {
    if s != [] {
      var u, n := Upper(s), |s| - 1;
      assert u[..n] == Upper(s[..n]);
      UpperSame(s[..n]);
    }
  }

  lemma {:induction false} HexBad(s: seq<byte>, i: nat)
    requires i < |s| && DigitOf(s[i]) == BadResponse
    ensures HexValue(s) == BadResponse
  {
    if i < |s| - 1 {
      HexBad(s[..|s| - 1], i);
    }
  }

  lemma {:induction false} HexTooLarge(n: nat)
    requires n >= USIZE
    ensures HexValue(HexOf(n)) == BadResponse
  {
    var s := HexOf(n);
    assert s[..|s| - 1] == HexOf(n / 16) && s[|s| - 1] == HexDigit(n % 16);
    if n / 16 >= USIZE {
      HexTooLarge(n / 16);
    } else {
      HexOfIs(n / 16);
    }
  }

  predicate Spaces(s: seq<byte>)
  {
    forall i :: 0 <= i < |s| ==> s[i] == 32 || s[i] == 9
  }

  lemma {:induction false} TrimLeftSpaces(a: seq<byte>, s: seq<byte>)
    requires Spaces(a) && s != [] && !IsSpace(s[0])
    ensures TrimLeft(a + s) == s
  {
    if a == [] {
      assert a + s == s;
    } else {
      assert (a + s)[1..] == a[1..] + s;
      TrimLeftSpaces(a[1..], s);
    }
  }

  lemma {:induction false} TrimRightSpaces(s: seq<byte>, b: seq<byte>)
    requires Spaces(b) && s != [] && !IsSpace(s[|s| - 1])
    ensures TrimRight(s + b) == s
    decreases |b|
  {
    if b == [] {
      assert s + b == s;
    } else {
      assert (s + b)[..|s + b| - 1] == s + b[..|b| - 1];
      TrimRightSpaces(s, b[..|b| - 1]);
    }
  }

  lemma {:induction false} CutAtSemicolon(s: seq<byte>, ext: seq<byte>)
    requires (forall i :: 0 <= i < |s| ==> s[i] != 59) && (ext == [] || ext[0] == 59)
    ensures BeforeSemicolon(s + ext) == s
  {
    if s == [] {
      assert s + ext == ext;
    } else {
      assert (s + ext)[1..] == s[1..] + ext;
      CutAtSemicolon(s[1..], ext);
      assert s == [s[0]] + s[1..];
    }
  }

  /** A size is what its digits say, with spaces around it, perhaps a plus sign before and
      extensions behind. */
  lemma SizeOf(digits: seq<byte>, plus: bool, a: seq<byte>, b: seq<byte>, ext: seq<byte>)
    requires digits != [] && forall i :: 0 <= i < |digits| ==> DigitOf(digits[i]).Ok?
    requires Spaces(a) && Spaces(b) && (ext == [] || ext[0] == 59)
    ensures ParseSize(a + ((if plus then [43] else []) + digits) + b + ext) == HexValue(digits)
  {
    var s := (if plus then [43] else []) + digits;
    assert if plus then s[0] == 43 && s[1..] == digits else s == digits;
    LineSize(a, s, b, ext);
  }

  lemma LineSize(a: seq<byte>, s: seq<byte>, b: seq<byte>, ext: seq<byte>)
    requires s != [] && !IsSpace(s[0]) && !IsSpace(s[|s| - 1]) && forall i :: 0 <= i < |s| ==> s[i] != 59
    requires Spaces(a) && Spaces(b) && (ext == [] || ext[0] == 59)
    ensures ParseSize(a + s + b + ext)
         == var digits := if s[0] == 43 then s[1..] else s;
            if digits == [] then BadResponse else HexValue(digits)
  {
    CutAtSemicolon(a + s + b, ext);
    Trimmed(a, s, b);
  }

  lemma Trimmed(a: seq<byte>, s: seq<byte>, b: seq<byte>)
    requires Spaces(a) && Spaces(b) && s != [] && !IsSpace(s[0]) && !IsSpace(s[|s| - 1])
    ensures TrimRight(TrimLeft(a + s + b)) == s
  {
    TrimLeftSpaces(a, s + b);
    assert a + s + b == a + (s + b);
    TrimRightSpaces(s, b);
  }

  /** Upper or lower case, a size is read back if it fits a word, and refused if not. */
  lemma SizeRead(n: nat, upper: bool, plus: bool, a: seq<byte>, b: seq<byte>, ext: seq<byte>)
    requires Spaces(a) && Spaces(b) && (ext == [] || ext[0] == 59)
    ensures var digits := if upper then Upper(HexOf(n)) else HexOf(n);
            ParseSize(a + ((if plus then [43] else []) + digits) + b + ext)
            == if n < USIZE then Ok(n) else BadResponse
  {
    HexCharsOf(n);
    UpperSame(HexOf(n));
    var digits := if upper then Upper(HexOf(n)) else HexOf(n);
    assert forall i :: 0 <= i < |digits| ==> DigitOf(digits[i]).Ok?;
    SizeOf(digits, plus, a, b, ext);
    if n < USIZE {
      HexOfIs(n);
    } else {
      HexTooLarge(n);
    }
  }

  lemma {:induction false} HexCharsOf(n: nat)
    ensures HexChars(HexOf(n))
  {
    if n >= 16 {
      HexCharsOf(n / 16);
    }
  }

  /** A size line with anything else in its digits is refused. */
  lemma SizeRefused(s: seq<byte>, i: nat)
    requires i < |s| && DigitOf(s[i]) == BadResponse && s[i] != 59 && (s[0] == 43 ==> i > 0)
    requires forall k :: 0 <= k < |s| ==> s[k] != 59 && !IsSpace(s[k])
    ensures ParseSize(s) == BadResponse
  {
    LineSize([], s, [], []);
    assert [] + s + [] + [] == s;
    if s[0] == 43 {
      assert s[1..][i - 1] == s[i];
      HexBad(s[1..], i - 1);
    } else {
      HexBad(s, i);
    }
  }
}
