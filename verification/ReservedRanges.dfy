/** `Reserved::subtract` of `mm/frame.rs`: the parts of a range of physical
    memory that no reserved range covers. */
module ReservedRanges {

  const MAX_RESERVED: nat := 8
  const MAX_PIECES: nat := 17

  datatype Range = Range(lo: int, hi: int)

  predicate Covers(r: Range, a: int)
  {
    r.lo <= a < r.hi
  }

  predicate CoveredBy(rs: seq<Range>, a: int)
  {
    exists i :: 0 <= i < |rs| && Covers(rs[i], a)
  }

  predicate Separate(a: Range, b: Range)
  {
    a.hi <= b.lo || b.hi <= a.lo
  }

  predicate PairwiseSeparate(rs: seq<Range>)
  {
    forall i, j :: 0 <= i < j < |rs| ==> Separate(rs[i], rs[j])
  }

  /** What is left of piece `p` when `r` is taken out of it. */
  function Cut(p: Range, r: Range): seq<Range>
  {
    if r.hi <= p.lo || r.lo >= p.hi then [p]
    else (if p.lo < r.lo then [Range(p.lo, r.lo)] else []) + (if r.hi < p.hi then [Range(r.hi, p.hi)] else [])
  }

  function CutAll(ps: seq<Range>, r: Range): seq<Range>
  {
    if ps == [] then [] else CutAll(ps[..|ps| - 1], r) + Cut(ps[|ps| - 1], r)
  }

  lemma CoveredAppend(a: seq<Range>, b: seq<Range>, x: int)
    ensures CoveredBy(a + b, x) <==> CoveredBy(a, x) || CoveredBy(b, x)
  {
    if i :| 0 <= i < |a| && Covers(a[i], x) {
      assert (a + b)[i] == a[i];
    }
    if i :| 0 <= i < |b| && Covers(b[i], x) {
      assert (a + b)[|a| + i] == b[i];
    }
  }

  lemma CutCoverage(p: Range, r: Range, x: int)
    requires r.lo <= r.hi
    ensures CoveredBy(Cut(p, r), x) <==> Covers(p, x) && !Covers(r, x)
  {
    var c := Cut(p, r);
    if Covers(p, x) && !Covers(r, x) {
      assert Covers(c[0], x) || (|c| > 1 && Covers(c[1], x));
    }
  }

  lemma {:induction false} CutAllCoverage(ps: seq<Range>, r: Range, x: int)
    requires r.lo <= r.hi
    ensures CoveredBy(CutAll(ps, r), x) <==> CoveredBy(ps, x) && !Covers(r, x)
  {
    if ps != [] {
      var front, last := ps[..|ps| - 1], ps[|ps| - 1];
      CutAllCoverage(front, r, x);
      CutCoverage(last, r, x);
      CoveredAppend(CutAll(front, r), Cut(last, r), x);
      assert ps == front + [last];
      CoveredAppend(front, [last], x);
      assert CoveredBy([last], x) <==> Covers(last, x) by {
        assert [last][0] == last;
      }
    }
  }

  /** Every piece of a cut lies inside a piece it was cut from. */
  lemma {:induction false} CutAllWithin(ps: seq<Range>, r: Range, q: Range) returns (k: nat)
    requires r.lo <= r.hi && q in CutAll(ps, r)
    ensures k < |ps| && ps[k].lo <= q.lo && q.hi <= ps[k].hi
  {
    var front := ps[..|ps| - 1];
    if q in CutAll(front, r) {
      k := CutAllWithin(front, r, q);
    } else {
      k := |ps| - 1;
    }
  }

  lemma {:induction false} CutAllSeparate(ps: seq<Range>, r: Range)
    requires r.lo <= r.hi && PairwiseSeparate(ps)
    ensures PairwiseSeparate(CutAll(ps, r))
  {
    if ps != [] {
      var front, last := ps[..|ps| - 1], ps[|ps| - 1];
      CutAllSeparate(front, r);
      var a, b := CutAll(front, r), Cut(last, r);
      forall i, j | 0 <= i < |a| && 0 <= j < |b| ensures Separate(a[i], b[j]) {
        CutFromLast(ps, r, a[i], b[j]);
      }
      SeparateAppend(a, b);
    }
  }

  lemma SeparateAppend(a: seq<Range>, b: seq<Range>)
    requires PairwiseSeparate(a) && PairwiseSeparate(b)
    requires forall i, j :: 0 <= i < |a| && 0 <= j < |b| ==> Separate(a[i], b[j])
    ensures PairwiseSeparate(a + b)
  {
  }

  lemma CutFromLast(ps: seq<Range>, r: Range, x: Range, y: Range)
    requires ps != [] && r.lo <= r.hi && PairwiseSeparate(ps)
    requires x in CutAll(ps[..|ps| - 1], r) && y in Cut(ps[|ps| - 1], r)
    ensures Separate(x, y)
  {
    var front := ps[..|ps| - 1];
    var k := CutAllWithin(front, r, x);
    assert Separate(ps[k], ps[|ps| - 1]);
  }

  /** Only one of several separate pieces can be cut in two. */
  lemma {:induction false} CutAllGrowth(ps: seq<Range>, r: Range)
    requires r.lo <= r.hi && PairwiseSeparate(ps)
    ensures |CutAll(ps, r)| <= |ps| + 1
    ensures |CutAll(ps, r)| == |ps| + 1 ==> exists k :: 0 <= k < |ps| && Splits(r, ps[k])
  {
    if ps != [] {
      var front, last := ps[..|ps| - 1], ps[|ps| - 1];
      assert PairwiseSeparate(front);
      CutAllGrowth(front, r);
      if |CutAll(front, r)| == |front| + 1 {
        var k :| 0 <= k < |front| && Splits(r, front[k]);
        assert Separate(ps[k], last);
        assert Splits(r, ps[k]);
      }
      assert |Cut(last, r)| == 2 ==> Splits(r, ps[|ps| - 1]);
    }
  }

  predicate Splits(r: Range, p: Range)
  {
    p.lo < r.lo && r.hi < p.hi
  }

  /** The pieces of `whole` that none of the ranges in `reserved` covers. */
  ghost predicate Remainder(ps: seq<Range>, whole: Range, reserved: seq<Range>)
  {
    && PairwiseSeparate(ps)
    && |ps| <= |reserved| + 1
    && forall x :: CoveredBy(ps, x) <==> Covers(whole, x) && !CoveredBy(reserved, x)
  }

  lemma RemainderStep(ps: seq<Range>, whole: Range, reserved: seq<Range>, r: Range)
    requires Remainder(ps, whole, reserved) && r.lo <= r.hi
    ensures Remainder(CutAll(ps, r), whole, reserved + [r])
  {
    CutAllSeparate(ps, r);
    CutAllGrowth(ps, r);
    forall x ensures CoveredBy(CutAll(ps, r), x) <==> Covers(whole, x) && !CoveredBy(reserved + [r], x) {
      CutAllCoverage(ps, r, x);
      CoveredAppend(reserved, [r], x);
      assert CoveredBy([r], x) <==> Covers(r, x) by {
        assert [r][0] == r;
      }
    }
  }

  /** The piece array never overflows, and the ranges handed out are exactly the
      uncovered addresses, without overlap and without empty ranges. */
  method Subtract(reserved: seq<Range>, start: int, end: int) returns (out: seq<Range>)
    requires |reserved| <= MAX_RESERVED && forall i :: 0 <= i < |reserved| ==> reserved[i].lo <= reserved[i].hi
    ensures forall x :: CoveredBy(out, x) <==> start <= x < end && !CoveredBy(reserved, x)
    ensures PairwiseSeparate(out) && forall i :: 0 <= i < |out| ==> out[i].lo < out[i].hi
  {
    var pieces := new Range[MAX_PIECES](i => Range(start, end));
    var count := 1;
    assert pieces[..1] == [Range(start, end)];
    forall x ensures CoveredBy(pieces[..1], x) <==> Covers(Range(start, end), x) {
      assert pieces[..1][0] == Range(start, end);
    }
    for i := 0 to |reserved|
      invariant pieces.Length == MAX_PIECES && fresh(pieces) && 0 <= count <= i + 1
      invariant Remainder(pieces[..count], Range(start, end), reserved[..i])
    {
      RemainderStep(pieces[..count], Range(start, end), reserved[..i], reserved[i]);
      assert reserved[..i + 1] == reserved[..i] + [reserved[i]];
      pieces, count := CutPieces(pieces, count, reserved[i]);
    }
    assert reserved[..|reserved|] == reserved;
    out := Emit(pieces[..count]);
  }

  /** One pass of the inner loop: `next` receives what `r` leaves of each piece. */
  method CutPieces(pieces: array<Range>, count: nat, r: Range) returns (next: array<Range>, m: nat)
    requires pieces.Length == MAX_PIECES && count <= MAX_RESERVED + 1 && r.lo <= r.hi
    requires PairwiseSeparate(pieces[..count])
    ensures next.Length == MAX_PIECES && fresh(next) && m <= MAX_PIECES
    ensures next[..m] == CutAll(pieces[..count], r)
  {
    next := new Range[MAX_PIECES](i => Range(0, 0));
    m := 0;
    ghost var ps := pieces[..count];
    for k := 0 to count
      invariant m <= k + 1 && next[..m] == CutAll(ps[..k], r)
    {
      CutAllNext(ps, k, r);
      m := CutOne(next, m, pieces[k], r);
    }
    assert ps[..count] == ps;
  }

  lemma CutAllNext(ps: seq<Range>, k: nat, r: Range)
    requires k < |ps| && r.lo <= r.hi && PairwiseSeparate(ps)
    ensures CutAll(ps[..k + 1], r) == CutAll(ps[..k], r) + Cut(ps[k], r)
    ensures |CutAll(ps[..k + 1], r)| <= k + 2
  {
    var more := ps[..k + 1];
    assert more[..k] == ps[..k] && more[k] == ps[k];
    assert PairwiseSeparate(more);
    CutAllGrowth(more, r);
  }

  /** Appends what `r` leaves of one piece. */
  method CutOne(next: array<Range>, m: nat, p: Range, r: Range) returns (n: nat)
    requires m + |Cut(p, r)| <= next.Length && r.lo <= r.hi
    modifies next
    ensures n == m + |Cut(p, r)| && next[..n] == old(next[..m]) + Cut(p, r)
  {
    n := m;
    if r.hi <= p.lo || r.lo >= p.hi {
      next[n] := p;
      n := n + 1;
    } else {
      if p.lo < r.lo {
        next[n] := Range(p.lo, r.lo);
        n := n + 1;
      }
      if r.hi < p.hi {
        next[n] := Range(r.hi, p.hi);
        n := n + 1;
      }
    }
  }

  /** The final loop: hand out the pieces that are not empty. */
  method Emit(ps: seq<Range>) returns (out: seq<Range>)
    requires PairwiseSeparate(ps)
    ensures forall x :: CoveredBy(out, x) <==> CoveredBy(ps, x)
    ensures PairwiseSeparate(out) && forall i :: 0 <= i < |out| ==> out[i].lo < out[i].hi
  {
    out := [];
    for k := 0 to |ps|
      invariant forall i :: 0 <= i < |out| ==> out[i].lo < out[i].hi && out[i] in ps[..k]
      invariant PairwiseSeparate(out)
      invariant forall x :: CoveredBy(out, x) <==> CoveredBy(ps[..k], x)
    {
      assert ps[..k + 1] == ps[..k] + [ps[k]];
      forall x ensures CoveredBy(ps[..k + 1], x) <==> CoveredBy(ps[..k], x) || Covers(ps[k], x) {
        CoveredAppend(ps[..k], [ps[k]], x);
        assert [ps[k]][0] == ps[k];
      }
      if ps[k].hi > ps[k].lo {
        forall i | 0 <= i < |out| ensures Separate(out[i], ps[k]) {
          var j :| 0 <= j < k && ps[..k][j] == out[i];
          assert Separate(ps[j], ps[k]);
        }
        forall x ensures CoveredBy(out + [ps[k]], x) <==> CoveredBy(out, x) || Covers(ps[k], x) {
          CoveredAppend(out, [ps[k]], x);
          assert [ps[k]][0] == ps[k];
        }
        out := out + [ps[k]];
      }
    }
    assert ps[..|ps|] == ps;
  }
}
