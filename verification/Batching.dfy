/** The loop over a file that only grows: every capture is of a trigger
    line appended after the session started, each such line fires exactly
    once, and how the appends are spread over notifications does not
    matter, provided every look at the file ends on a line boundary. A
    reader that leaves the unfinished last line for later needs no such
    proviso. */
module Batching {
  import opened Bytes
  import opened Text
  import opened Trigger
  import opened Tail
  import opened Session

  /** `b` is `a` with bytes appended. */
  predicate Extends(a: seq<Byte>, b: seq<Byte>)
  {
    |a| <= |b| && b[..|a|] == a
  }

  /** Every look at the file is healthy and sees the previous one with
      bytes appended. */
  predicate Grows(seen: seq<Byte>, ts: seq<Tick>)
    decreases |ts|
  {
    |ts| > 0 ==>
      && Extends(seen, ts[0].file.data)
      && ts[0].file.fault == Healthy
      && Grows(ts[0].file.data, ts[1..])
  }

  /** The file as the last look saw it. */
  function Latest(seen: seq<Byte>, ts: seq<Tick>): seq<Byte>
  {
    if |ts| == 0 then seen else ts[|ts| - 1].file.data
  }

  /** Every look sees, past the starting offset, only whole lines. */
  predicate WholeLineLooks(origin: seq<Byte>, ts: seq<Tick>)
  {
    forall i :: 0 <= i < |ts| ==>
      |origin| <= |ts[i].file.data| && AtLineBoundary(ts[i].file.data[|origin|..])
  }

  /** The captures so far are exactly the trigger lines between the
      starting offset and the current one, which sits on a line boundary of
      the file last seen. */
  predicate Scanned(s: State, origin: seq<Byte>, seen: seq<Byte>)
  {
    && Extends(origin, seen)
    && |origin| <= s.pos <= |seen|
    && AtLineBoundary(seen[|origin|..s.pos])
    && s.shots == Matching(Lines(seen[|origin|..s.pos]))
  }

  /** A session just opened on a file with content `origin` has scanned
      nothing of it. */
  lemma OpenedScannedNothing(absolute: Path -> Option<Path>, o: Opening)
    requires Open(absolute, o).Ok?
    ensures Scanned(Open(absolute, o).value, o.file, o.file)
  {
    var s := Open(absolute, o).value;
    assert o.file[|o.file|..s.pos] == [];
  }

  /** Growing the file leaves what was scanned as it was. */
  lemma ScannedGrows(s: State, origin: seq<Byte>, seen: seq<Byte>, d: seq<Byte>)
    requires Scanned(s, origin, seen) && Extends(seen, d)
    ensures Scanned(s, origin, d)
  {
    assert d[|origin|..s.pos] == seen[|origin|..s.pos] by {
      assert d[..|seen|] == seen;
    }
    assert d[..|origin|] == origin by {
      assert d[..|seen|][..|origin|] == seen[..|origin|];
    }
  }

  /** Scanning on from a line boundary: the trigger lines up to `p`
      followed by those from `p` to `q` are the trigger lines up to `q`. */
  lemma ScanOn(origin: nat, d: seq<Byte>, p: nat, q: nat)
    requires origin <= p <= q <= |d|
    requires AtLineBoundary(d[origin..p])
    ensures Matching(Lines(d[origin..p])) + Matching(Lines(d[p..q])) == Matching(Lines(d[origin..q]))
  {
    var done := d[origin..p];
    var added := d[p..q];
    assert d[origin..q] == done + added;
    LinesAppend(done, added);
    MatchingAppend(Lines(done), Lines(added));
  }

  /** The program's reader scans on to the end of file, which must be at a
      line boundary for the scanned part to end at one. */
  lemma ReadToEndScans(s: State, origin: seq<Byte>, d: seq<Byte>)
    requires Scanned(s, origin, d) && s.pos < |d|
    requires AtLineBoundary(d[|origin|..])
    ensures var c := Read(ToEnd, d, s.pos);
            Scanned(s.(pos := c.next, shots := s.shots + Matching(c.lines)), origin, d)
  {
    var c := Read(ToEnd, d, s.pos);
    var p := s.pos;
    var o := |origin|;
    assert c.next == |d|;
    assert d[p..c.next] == Span(d, p);
    assert d[o..c.next] == d[o..];
    ScanOn(o, d, p, c.next);
  }

  /** The corrected reader scans on to the end of the last complete line. */
  lemma ReadWholeLinesScans(s: State, origin: seq<Byte>, d: seq<Byte>)
    requires Scanned(s, origin, d) && s.pos < |d|
    ensures var c := Read(WholeLines, d, s.pos);
            Scanned(s.(pos := c.next, shots := s.shots + Matching(c.lines)), origin, d)
  {
    var c := Read(WholeLines, d, s.pos);
    var p := s.pos;
    var o := |origin|;
    BoundaryAppend(d[o..p], d[p..c.next]);
    assert d[o..c.next] == d[o..p] + d[p..c.next];
    ScanOn(o, d, p, c.next);
  }

  /** Reading the bytes appended since the offset extends the scanned
      part by exactly them. */
  lemma ReadScans(reader: Reader, s: State, origin: seq<Byte>, d: seq<Byte>)
    requires Scanned(s, origin, d) && s.pos < |d|
    requires reader == ToEnd ==> AtLineBoundary(d[|origin|..])
    ensures var c := Read(reader, d, s.pos);
            Scanned(s.(pos := c.next, shots := s.shots + Matching(c.lines)), origin, d)
  {
    match reader
    case ToEnd => ReadToEndScans(s, origin, d);
    case WholeLines => ReadWholeLinesScans(s, origin, d);
  }

  /** One step on a grown file keeps the captures equal to the trigger
      lines scanned so far. */
  lemma StepScans(reader: Reader, absolute: Path -> Option<Path>, s: State, origin: seq<Byte>,
                  seen: seq<Byte>, t: Tick)
    requires Scanned(s, origin, seen)
    requires Extends(seen, t.file.data) && t.file.fault == Healthy
    requires reader == ToEnd ==> AtLineBoundary(t.file.data[|origin|..])
    ensures Scanned(Step(reader, absolute, s, t), origin, t.file.data)
  {
    var d := t.file.data;
    ScannedGrows(s, origin, seen, d);
    HealthyStep(reader, absolute, s, t);
    if s.status == Watching && Targets(absolute, s, t.note) && |d| != s.pos {
      ReadScans(reader, s, origin, d);
    }
  }

  /** The loop over a growing file: the captures are exactly the trigger
      lines of the file between the starting offset and the final one, in
      file order, each firing once. */
  lemma {:induction false} RunScans(reader: Reader, absolute: Path -> Option<Path>, s: State,
                                    origin: seq<Byte>, seen: seq<Byte>, ts: seq<Tick>)
    requires Scanned(s, origin, seen)
    requires Grows(seen, ts)
    requires reader == ToEnd ==> WholeLineLooks(origin, ts)
    ensures Scanned(Run(reader, absolute, s, ts), origin, Latest(seen, ts))
    decreases |ts|
  {
    if |ts| > 0 {
      StepScans(reader, absolute, s, origin, seen, ts[0]);
      var m := Step(reader, absolute, s, ts[0]);
      if reader == ToEnd {
        assert WholeLineLooks(origin, ts[1..]) by {
          forall i | 0 <= i < |ts[1..]|
            ensures |origin| <= |ts[1..][i].file.data| && AtLineBoundary(ts[1..][i].file.data[|origin|..])
          {
            assert ts[1..][i] == ts[i + 1];
          }
        }
      }
      RunScans(reader, absolute, m, origin, ts[0].file.data, ts[1..]);
      assert Latest(ts[0].file.data, ts[1..]) == Latest(seen, ts);
    }
  }

  /** However the same appends are spread over notifications, two runs
      that end at the same offset of the same file fired the same captures. */
  lemma CapturesIndependentOfBatching(reader: Reader, absolute: Path -> Option<Path>, o: Opening,
                                      ts1: seq<Tick>, ts2: seq<Tick>)
    requires Open(absolute, o).Ok?
    requires Grows(o.file, ts1) && Grows(o.file, ts2)
    requires reader == ToEnd ==> WholeLineLooks(o.file, ts1) && WholeLineLooks(o.file, ts2)
    requires Latest(o.file, ts1) == Latest(o.file, ts2)
    requires Run(reader, absolute, Open(absolute, o).value, ts1).pos
             == Run(reader, absolute, Open(absolute, o).value, ts2).pos
    ensures Run(reader, absolute, Open(absolute, o).value, ts1).shots
            == Run(reader, absolute, Open(absolute, o).value, ts2).shots
  {
    OpenedScannedNothing(absolute, o);
    RunScans(reader, absolute, Open(absolute, o).value, o.file, o.file, ts1);
    RunScans(reader, absolute, Open(absolute, o).value, o.file, o.file, ts2);
  }

  /** Every notification names the watched file. */
  predicate AllTargeted(absolute: Path -> Option<Path>, target: Path, ts: seq<Tick>)
  {
    forall i :: 0 <= i < |ts| ==>
      && ts[i].note.Event? && ts[i].note.kind != Other && |ts[i].note.paths| > 0
      && absolute(ts[i].note.paths[0]) == Some(target)
  }

  /** When every notification names the watched file, the program's reader
      keeps watching and ends at the length of the file it last saw. */
  lemma {:induction false} RunReachesEnd(absolute: Path -> Option<Path>, s: State,
                                         seen: seq<Byte>, ts: seq<Tick>)
    requires s.status == Watching && s.pos == |seen|
    requires Grows(seen, ts) && AllTargeted(absolute, s.target, ts)
    ensures Run(ToEnd, absolute, s, ts).status == Watching
    ensures Run(ToEnd, absolute, s, ts).pos == |Latest(seen, ts)|
    ensures Run(ToEnd, absolute, s, ts).target == s.target
    decreases |ts|
  {
    if |ts| > 0 {
      var m := Step(ToEnd, absolute, s, ts[0]);
      assert Targets(absolute, s, ts[0].note);
      assert m.status == Watching && m.pos == |ts[0].file.data|;
      assert AllTargeted(absolute, s.target, ts[1..]) by {
        forall i | 0 <= i < |ts[1..]|
          ensures ts[1..][i].note.Event? && ts[1..][i].note.kind != Other
                  && |ts[1..][i].note.paths| > 0
                  && absolute(ts[1..][i].note.paths[0]) == Some(s.target)
        {
          assert ts[1..][i] == ts[i + 1];
        }
      }
      RunReachesEnd(absolute, m, ts[0].file.data, ts[1..]);
      assert Latest(ts[0].file.data, ts[1..]) == Latest(seen, ts);
    }
  }

  /** Lines appended whole after the session started, reported in any
      batches: each appended trigger line fires exactly one capture, in
      file order, and nothing else fires. */
  lemma AppendedLinesFireOnce(absolute: Path -> Option<Path>, o: Opening, ls: seq<Line>, ts: seq<Tick>)
    requires Open(absolute, o).Ok?
    requires forall i :: 0 <= i < |ls| ==> Writable(ls[i])
    requires Grows(o.file, ts) && WholeLineLooks(o.file, ts)
    requires AllTargeted(absolute, Open(absolute, o).value.target, ts)
    requires Latest(o.file, ts) == o.file + JoinLines(ls)
    ensures Run(ToEnd, absolute, Open(absolute, o).value, ts).shots == Matching(ls)
    ensures |Run(ToEnd, absolute, Open(absolute, o).value, ts).shots| == CountMatching(ls)
  {
    var s := Open(absolute, o).value;
    OpenedScannedNothing(absolute, o);
    RunScans(ToEnd, absolute, s, o.file, o.file, ts);
    RunReachesEnd(absolute, s, o.file, ts);
    var fin := Latest(o.file, ts);
    assert fin[|o.file|..|fin|] == JoinLines(ls);
    LinesOfJoin(ls);
    MatchingCount(ls);
  }

  /** The file last seen extends every earlier look. */
  lemma {:induction false} GrowsLatest(seen: seq<Byte>, ts: seq<Tick>)
    requires Grows(seen, ts)
    ensures Extends(seen, Latest(seen, ts))
    decreases |ts|
  {
    if |ts| > 0 {
      var d := ts[0].file.data;
      GrowsLatest(d, ts[1..]);
      var fin := Latest(d, ts[1..]);
      assert fin == Latest(seen, ts);
      assert fin[..|seen|] == fin[..|d|][..|seen|];
    }
  }

  /** One step of the corrected reader on a healthy look at the watched
      file moves the offset forward over whole lines only, up to the start
      of the unfinished last line. */
  lemma WholeLinesStep(absolute: Path -> Option<Path>, s: State, t: Tick)
    requires s.status == Watching && Targets(absolute, s, t.note)
    requires t.file.fault == Healthy && s.pos <= |t.file.data|
    ensures var m := Step(WholeLines, absolute, s, t);
            var d := t.file.data;
            && m.status == Watching
            && s.pos <= m.pos <= |d|
            && AtLineBoundary(d[s.pos..m.pos])
            && forall i :: m.pos <= i < |d| ==> d[i] != LF
  {
    HealthyStep(WholeLines, absolute, s, t);
  }

  /** Two spans of a file that end at line boundaries join into one. */
  lemma SpanJoin(fin: seq<Byte>, d: seq<Byte>, a: nat, b: nat, c: nat)
    requires Extends(d, fin) && a <= b <= |d| && b <= c <= |fin|
    requires AtLineBoundary(d[a..b]) && AtLineBoundary(fin[b..c])
    ensures AtLineBoundary(fin[a..c])
  {
    assert fin[a..b] == d[a..b] by {
      assert forall i :: a <= i < b ==> fin[i] == fin[..|d|][i];
    }
    assert fin[a..c] == fin[a..b] + fin[b..c];
    BoundaryAppend(fin[a..b], fin[b..c]);
  }

  /** With the reader that keeps the unfinished line, when every
      notification names the watched file, the offset ends at the start
      of the unfinished last line of the file last seen: it moved forward
      over whole lines only, and no line feed follows it. */
  lemma {:induction false} WholeLinesCatchUp(absolute: Path -> Option<Path>, s: State,
                                             seen: seq<Byte>, ts: seq<Tick>)
    requires s.status == Watching && s.pos <= |seen|
    requires |ts| > 0 && Grows(seen, ts) && AllTargeted(absolute, s.target, ts)
    ensures var r := Run(WholeLines, absolute, s, ts);
            var fin := Latest(seen, ts);
            && r.status == Watching
            && s.pos <= r.pos <= |fin|
            && AtLineBoundary(fin[s.pos..r.pos])
            && forall i :: r.pos <= i < |fin| ==> fin[i] != LF
    decreases |ts|
  {
    var m := Step(WholeLines, absolute, s, ts[0]);
    var d := ts[0].file.data;
    assert Targets(absolute, s, ts[0].note);
    assert s.pos <= |d| by {
      assert Extends(seen, d);
    }
    WholeLinesStep(absolute, s, ts[0]);
    if |ts| > 1 {
      assert AllTargeted(absolute, s.target, ts[1..]) by {
        forall i | 0 <= i < |ts[1..]|
          ensures ts[1..][i].note.Event? && ts[1..][i].note.kind != Other
                  && |ts[1..][i].note.paths| > 0
                  && absolute(ts[1..][i].note.paths[0]) == Some(s.target)
        {
          assert ts[1..][i] == ts[i + 1];
        }
      }
      WholeLinesCatchUp(absolute, m, d, ts[1..]);
      var fin := Latest(d, ts[1..]);
      assert fin == Latest(seen, ts);
      GrowsLatest(d, ts[1..]);
      SpanJoin(fin, d, s.pos, m.pos, Run(WholeLines, absolute, m, ts[1..]).pos);
    } else {
      assert ts[1..] == [];
    }
  }

  /** Lines appended after the session started, their bytes reported in
      any batches and any split, with the reader that keeps the unfinished
      line: each complete appended trigger line fires exactly one capture,
      in file order, and nothing else fires. */
  lemma WholeLinesAnyBatching(absolute: Path -> Option<Path>, o: Opening, ls: seq<Line>,
                              partial: seq<Byte>, ts: seq<Tick>)
    requires Open(absolute, o).Ok?
    requires forall i :: 0 <= i < |ls| ==> Writable(ls[i])
    requires LF !in partial
    requires |ts| > 0 && Grows(o.file, ts)
    requires AllTargeted(absolute, Open(absolute, o).value.target, ts)
    requires Latest(o.file, ts) == o.file + JoinLines(ls) + partial
    ensures Run(WholeLines, absolute, Open(absolute, o).value, ts).shots == Matching(ls)
    ensures |Run(WholeLines, absolute, Open(absolute, o).value, ts).shots| == CountMatching(ls)
  {
    var s := Open(absolute, o).value;
    var r := Run(WholeLines, absolute, s, ts);
    OpenedScannedNothing(absolute, o);
    RunScans(WholeLines, absolute, s, o.file, o.file, ts);
    WholeLinesCatchUp(absolute, s, o.file, ts);
    var fin := Latest(o.file, ts);
    var j := JoinLines(ls);
    var e := |o.file| + |j|;
    JoinLinesAtBoundary(ls);
    assert fin[|o.file|..e] == j;
    assert r.pos == e;
    LinesOfJoin(ls);
    MatchingCount(ls);
  }
}
