/** Splitting a span of bytes into lines the way a buffered line reader
    does: each line ends at a line feed, which is dropped together with a
    carriage return just before it; a last segment with no line feed is
    still a line when it is not empty. */
module Text {
  import opened Bytes

  type Line = seq<Byte>

  /** Index of the first line feed in `x`, or `|x|` when there is none. */
  function NewlineAt(x: seq<Byte>): (k: nat)
    ensures k <= |x|
    ensures k < |x| ==> x[k] == LF
    ensures forall i :: 0 <= i < k ==> x[i] != LF
  {
    if |x| == 0 then 0
    else if x[0] == LF then 0
    else 1 + NewlineAt(x[1..])
  }

  /** The first line feed is the least index holding one. */
  lemma NewlineAtIsFirst(x: seq<Byte>, k: nat)
    requires k <= |x|
    requires k < |x| ==> x[k] == LF
    requires forall i :: 0 <= i < k ==> x[i] != LF
    ensures NewlineAt(x) == k
  {
  }

  /** Drops one carriage return at the end of a line. */
  function StripCr(l: Line): (r: Line)
    ensures r == l || (|l| > 0 && l[|l| - 1] == CR && r == l[..|l| - 1])
    ensures |r| <= |l|
  {
    if |l| > 0 && l[|l| - 1] == CR then l[..|l| - 1] else l
  }

  /** The lines of a span, in file order. */
  function Lines(x: seq<Byte>): (r: seq<Line>)
    decreases |x|
  {
    if |x| == 0 then []
    else
      var k := NewlineAt(x);
      if k == |x| then [x]
      else [StripCr(x[..k])] + Lines(x[k + 1..])
  }

  /** No line holds a line feed, and none is longer than the span. */
  lemma {:induction false} LinesShape(x: seq<Byte>)
    ensures forall i :: 0 <= i < |Lines(x)| ==> LF !in Lines(x)[i] && |Lines(x)[i]| <= |x|
    decreases |x|
  {
    if |x| > 0 {
      var k := NewlineAt(x);
      if k < |x| {
        LinesShape(x[k + 1..]);
        var l := StripCr(x[..k]);
        assert LF !in x[..k];
        assert LF !in l;
        assert Lines(x) == [l] + Lines(x[k + 1..]);
      }
    }
  }

  /** A span ends at a line boundary when it is empty or its last byte is a
      line feed. */
  predicate AtLineBoundary(x: seq<Byte>)
  {
    |x| == 0 || x[|x| - 1] == LF
  }

  lemma BoundaryAppend(a: seq<Byte>, b: seq<Byte>)
    requires AtLineBoundary(a) && AtLineBoundary(b)
    ensures AtLineBoundary(a + b)
  {
  }

  /** The first line feed of `a + b` is that of `a` when `a` has one. */
  lemma NewlineAtAppend(a: seq<Byte>, b: seq<Byte>)
    requires NewlineAt(a) < |a|
    ensures NewlineAt(a + b) == NewlineAt(a)
  {
    var k := NewlineAt(a);
    assert (a + b)[k] == LF;
    forall i | 0 <= i < k ensures (a + b)[i] != LF {
      assert (a + b)[i] == a[i];
    }
    NewlineAtIsFirst(a + b, k);
  }

  /** Splitting is a homomorphism across a line boundary: the lines of a
      span that ends with a line feed, followed by more bytes, are the
      lines of the first part followed by the lines of the second. */
  lemma {:induction false} LinesAppend(a: seq<Byte>, b: seq<Byte>)
    requires AtLineBoundary(a)
    ensures Lines(a + b) == Lines(a) + Lines(b)
    decreases |a|
  {
    if |a| == 0 {
      assert a + b == b;
    } else {
      var k := NewlineAt(a);
      assert k < |a|;
      NewlineAtAppend(a, b);
      assert (a + b)[..k] == a[..k];
      assert (a + b)[k + 1..] == a[k + 1..] + b;
      assert AtLineBoundary(a[k + 1..]);
      LinesAppend(a[k + 1..], b);
    }
  }

  /** A line a writer can emit whole: no line feed inside and no carriage
      return at the end (which the reader would drop). */
  predicate Writable(l: Line)
  {
    LF !in l && !(|l| > 0 && l[|l| - 1] == CR)
  }

  /** The bytes of whole lines, each followed by a line feed. */
  function JoinLines(ls: seq<Line>): (x: seq<Byte>)
    decreases |ls|
  {
    if |ls| == 0 then [] else ls[0] + [LF] + JoinLines(ls[1..])
  }

  lemma {:induction false} JoinLinesAtBoundary(ls: seq<Line>)
    ensures AtLineBoundary(JoinLines(ls))
    decreases |ls|
  {
    if |ls| > 0 {
      JoinLinesAtBoundary(ls[1..]);
      var rest := JoinLines(ls[1..]);
      assert JoinLines(ls) == (ls[0] + [LF]) + rest;
      if |rest| > 0 {
        assert JoinLines(ls)[|JoinLines(ls)| - 1] == rest[|rest| - 1];
      }
    }
  }

  /** Reading back written lines returns exactly those lines. */
  lemma {:induction false} LinesOfJoin(ls: seq<Line>)
    requires forall i :: 0 <= i < |ls| ==> Writable(ls[i])
    ensures Lines(JoinLines(ls)) == ls
    decreases |ls|
  {
    if |ls| > 0 {
      var h := ls[0];
      var rest := JoinLines(ls[1..]);
      var x := JoinLines(ls);
      assert NewlineAt(x) == |h| && x[..|h|] == h && x[|h| + 1..] == rest by {
        assert x == h + [LF] + rest;
        forall i | 0 <= i < |h| ensures x[i] != LF {
          assert x[i] == h[i];
        }
        NewlineAtIsFirst(x, |h|);
      }
      assert Lines(x) == [h] + Lines(rest) by {
        assert StripCr(h) == h;
      }
      LinesOfJoin(ls[1..]);
      assert ls == [h] + ls[1..];
    }
  }

  /** Joining is line by line. */
  lemma JoinCons(h: Line, ls: seq<Line>)
    ensures JoinLines([h] + ls) == h + [LF] + JoinLines(ls)
  {
    assert ([h] + ls)[0] == h;
    assert ([h] + ls)[1..] == ls;
  }

  /** A span whose first line feed is at `k` is the bytes before it, that
      line feed, and the rest. */
  lemma SplitAtNewline(x: seq<Byte>, k: nat)
    requires k < |x| && x[k] == LF
    ensures x == x[..k] + [LF] + x[k + 1..]
  {
    assert x[..k + 1] == x[..k] + [LF];
    assert x == x[..k + 1] + x[k + 1..];
  }

  /** The first line of a span is kept whole when it has no carriage
      return. */
  lemma FirstLineWhole(x: seq<Byte>, k: nat)
    requires k < |x| && NewlineAt(x) == k && CR !in x[..k]
    ensures Lines(x) == [x[..k]] + Lines(x[k + 1..])
  {
    assert StripCr(x[..k]) == x[..k];
  }

  /** A suffix of a span with no carriage return that ends at a line
      boundary is one too. */
  lemma SuffixAtBoundary(x: seq<Byte>, j: nat)
    requires j <= |x| && AtLineBoundary(x) && CR !in x
    ensures CR !in x[j..] && AtLineBoundary(x[j..])
  {
    var rest := x[j..];
    assert forall i :: 0 <= i < |rest| ==> rest[i] == x[j + i];
    if |rest| > 0 {
      assert rest[|rest| - 1] == x[|x| - 1];
    }
  }

  /** Conversely, a span that ends at a line boundary and holds no carriage
      return is the join of its own lines. */
  lemma {:induction false} JoinOfLines(x: seq<Byte>)
    requires AtLineBoundary(x)
    requires CR !in x
    ensures JoinLines(Lines(x)) == x
    decreases |x|
  {
    if |x| > 0 {
      var k := NewlineAt(x);
      assert CR !in x[..k];
      SplitAtNewline(x, k);
      FirstLineWhole(x, k);
      SuffixAtBoundary(x, k + 1);
      JoinOfLines(x[k + 1..]);
      JoinCons(x[..k], Lines(x[k + 1..]));
    }
  }

  /** End of the last complete line of `x`: just past its last line feed,
      or 0 when it has none. */
  function CompleteEnd(x: seq<Byte>): (c: nat)
    ensures c <= |x|
    ensures AtLineBoundary(x[..c])
    ensures forall i :: c <= i < |x| ==> x[i] != LF
    decreases |x|
  {
    if |x| == 0 then 0
    else if x[|x| - 1] == LF then |x|
    else
      var c := CompleteEnd(x[..|x| - 1]);
      assert x[..|x| - 1][..c] == x[..c];
      c
  }

  /** A span with no line feed has no complete line. */
  lemma {:induction false} CompleteEndNone(x: seq<Byte>)
    requires LF !in x
    ensures CompleteEnd(x) == 0
    decreases |x|
  {
    if |x| > 0 {
      assert x[|x| - 1] != LF;
      assert LF !in x[..|x| - 1];
      CompleteEndNone(x[..|x| - 1]);
    }
  }
}
