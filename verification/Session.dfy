/** The watch session: opening the log file at its current end, then the
    loop that handles one watcher notification at a time. Each step either
    ends the loop, skips the notification, or reads what was appended since
    the remembered offset and fires one capture per trigger line. */
module Session {
  import opened Bytes
  import opened Text
  import opened Trigger
  import opened Tail

  type Path = string

  /** The kinds of change the watcher reports. `Other` is also what the
      stop request injects to wake the loop. */
  datatype Kind = Any | Access | Create | Modify | Remove | Other

  /** What the watcher channel delivers: an event, or a watcher error. */
  datatype Notification = Event(kind: Kind, paths: seq<Path>) | WatchError

  /** Where a look at the open file fails, if it does: the length query,
      the seek, the second length query, or the read of line `index` of
      the span (an I/O error or a line that is not valid UTF-8). */
  datatype Fault = Healthy | StatFails | SeekFails | RestatFails | LineFails(index: nat)

  /** The watched file as seen through the open handle while one
      notification is handled. */
  datatype FileView = FileView(data: seq<Byte>, fault: Fault)

  datatype Tick = Tick(note: Notification, file: FileView)

  /** Why a session ended with an error instead of closing. */
  datatype Failure =
    | NoCaptureProvider
    | PathUnresolved
    | OpenFailed
    | StatFailed
    | WatchFailed
    | EventWithoutPath
    | SeekFailed
    | ReadFailed

  datatype Status = Watching | Closed | Aborted(failure: Failure)

  /** `target` is the absolute path of the watched file, `pos` the
      remembered offset, `shots` the trigger lines that fired a capture, in
      the order the captures happened. */
  datatype State = State(target: Path, pos: nat, shots: seq<Line>, status: Status)

  datatype Result<T> = Ok(value: T) | Err(failure: Failure)

  datatype Option<T> = None | Some(value: T)

  /** What the environment answers while a session starts. */
  datatype Opening = Opening(
    providerFound: bool,
    path: Path,
    opens: bool,
    statOk: bool,
    file: seq<Byte>,
    watchOk: bool)

  /** Starting a session. `absolute` stands for path resolution against the
      working directory. The offset starts at the file's length, so what
      the file already holds is never scanned. */
  function Open(absolute: Path -> Option<Path>, o: Opening): (r: Result<State>)
    ensures r.Ok? <==>
              o.providerFound && absolute(o.path).Some? && o.opens && o.statOk && o.watchOk
    ensures r.Ok? ==> r.value == State(absolute(o.path).value, |o.file|, [], Watching)
    ensures !o.providerFound ==> r == Err(NoCaptureProvider)
    ensures o.providerFound && absolute(o.path).None? ==> r == Err(PathUnresolved)
  {
    if !o.providerFound then Err(NoCaptureProvider)
    else match absolute(o.path)
      case None => Err(PathUnresolved)
      case Some(target) =>
        if !o.opens then Err(OpenFailed)
        else if !o.statOk then Err(StatFailed)
        else if !o.watchOk then Err(WatchFailed)
        else Ok(State(target, |o.file|, [], Watching))
  }


  /** Does the notification name the watched file? */
  predicate Targets(absolute: Path -> Option<Path>, s: State, n: Notification)
  {
    n.Event? && n.kind != Other && |n.paths| > 0
    && absolute(n.paths[0]) == Some(s.target)
  }

  /** The part of a step that looks at the file, once the notification is
      known to name it. */
  function Refresh(reader: Reader, s: State, f: FileView): (r: State)
    ensures r.target == s.target
    ensures |s.shots| <= |r.shots| && r.shots[..|s.shots|] == s.shots
    ensures r.status == s.status || r.status.Aborted?
    ensures f.fault == Healthy ==> r.status == s.status
  {
    if f.fault == StatFails then s.(status := Aborted(StatFailed))
    else if |f.data| == s.pos then s
    else if f.fault == SeekFails then s.(status := Aborted(SeekFailed))
    else if f.fault == RestatFails then s.(status := Aborted(StatFailed))
    else
      var c := Read(reader, f.data, s.pos);
      if f.fault.LineFails? && f.fault.index < |c.lines| then
        s.(pos := c.next, shots := s.shots + Matching(c.lines[..f.fault.index]),
           status := Aborted(ReadFailed))
      else
        s.(pos := c.next, shots := s.shots + Matching(c.lines))
  }

  /** One turn of the watch loop. */
  function Step(reader: Reader, absolute: Path -> Option<Path>, s: State, t: Tick): (r: State)
    ensures r.target == s.target
    ensures |s.shots| <= |r.shots| && r.shots[..|s.shots|] == s.shots
    ensures !s.status.Watching? ==> r == s
  {
    if !s.status.Watching? then s
    else match t.note
      case WatchError => s
      case Event(kind, paths) =>
        if kind == Other then s.(status := Closed)
        else if |paths| == 0 then s.(status := Aborted(EventWithoutPath))
        else match absolute(paths[0])
          case None => s.(status := Aborted(PathUnresolved))
          case Some(p) =>
            if p != s.target then s
            else Refresh(reader, s, t.file)
  }

  /** The watch loop over the notifications in arrival order. */
  function Run(reader: Reader, absolute: Path -> Option<Path>, s: State, ts: seq<Tick>): (r: State)
    decreases |ts|
  {
    if |ts| == 0 then s else Run(reader, absolute, Step(reader, absolute, s, ts[0]), ts[1..])
  }

  // ---------------------------------------------------------------------
  // One step

  /** A watcher error is reported and the loop goes on unchanged. */
  lemma WatchErrorIgnored(reader: Reader, absolute: Path -> Option<Path>, s: State, f: FileView)
    ensures Step(reader, absolute, s, Tick(WatchError, f)) == s
  {
  }

  /** An `Other` event ends the loop, with the offset and the captures as
      they were. */
  lemma OtherCloses(reader: Reader, absolute: Path -> Option<Path>, s: State, paths: seq<Path>, f: FileView)
    requires s.status == Watching
    ensures Step(reader, absolute, s, Tick(Event(Other, paths), f)) == s.(status := Closed)
  {
  }

  /** A notification about another file reads nothing: the step leaves the
      state as it was, whatever the watched file holds. */
  lemma OtherPathIgnored(reader: Reader, absolute: Path -> Option<Path>, s: State, t: Tick, f: FileView)
    requires t.note.Event? && t.note.kind != Other && |t.note.paths| > 0
    requires absolute(t.note.paths[0]).Some? && absolute(t.note.paths[0]).value != s.target
    ensures Step(reader, absolute, s, t) == s
    ensures Step(reader, absolute, s, t.(file := f)) == s
  {
  }

  /** A notification naming the watched file whose length equals the
      remembered offset changes nothing (unless the length query fails). */
  lemma UnchangedLengthIgnored(reader: Reader, absolute: Path -> Option<Path>, s: State, t: Tick)
    requires Targets(absolute, s, t.note)
    requires |t.file.data| == s.pos && t.file.fault != StatFails
    ensures Step(reader, absolute, s, t) == s
  {
  }

  /** What a read fails on ends the session with that failure; only a
      failing line read has already fired the captures of the lines before
      it. */
  lemma FaultsAbort(reader: Reader, absolute: Path -> Option<Path>, s: State, t: Tick)
    requires s.status == Watching && Targets(absolute, s, t.note)
    ensures t.file.fault == StatFails ==>
              Step(reader, absolute, s, t) == s.(status := Aborted(StatFailed))
    ensures |t.file.data| != s.pos && t.file.fault == SeekFails ==>
              Step(reader, absolute, s, t) == s.(status := Aborted(SeekFailed))
    ensures |t.file.data| != s.pos && t.file.fault == RestatFails ==>
              Step(reader, absolute, s, t) == s.(status := Aborted(StatFailed))
    ensures var c := Read(reader, t.file.data, s.pos);
            |t.file.data| != s.pos && t.file.fault.LineFails? && t.file.fault.index < |c.lines| ==>
              Step(reader, absolute, s, t)
                == State(s.target, c.next, s.shots + Matching(c.lines[..t.file.fault.index]), Aborted(ReadFailed))
  {
  }

  /** A notification that is neither a watcher error nor about another
      file, on a session that is watching, but whose first path cannot be
      resolved or which has no path at all, ends the session. */
  lemma UnresolvedAborts(reader: Reader, absolute: Path -> Option<Path>, s: State, t: Tick)
    requires s.status == Watching && t.note.Event? && t.note.kind != Other
    requires |t.note.paths| == 0 || absolute(t.note.paths[0]).None?
    ensures Step(reader, absolute, s, t).status.Aborted?
    ensures Step(reader, absolute, s, t).pos == s.pos
    ensures Step(reader, absolute, s, t).shots == s.shots
  {
  }

  /** A processed notification: the offset becomes the file length, and
      the captures are exactly the trigger lines of the span between the
      old offset and the end of file, in file order. When the file has
      shrunk below the offset, the seek lands past the end: the offset
      drops to the new length and no line is scanned. */
  lemma ProcessedReadsToEnd(absolute: Path -> Option<Path>, s: State, t: Tick)
    requires s.status == Watching && Targets(absolute, s, t.note)
    requires t.file.fault == Healthy
    ensures var r := Step(ToEnd, absolute, s, t);
            && r.status == Watching
            && r.pos == |t.file.data|
            && (s.pos <= |t.file.data| ==> r.shots == s.shots + Matching(Lines(t.file.data[s.pos..])))
            && (|t.file.data| < s.pos ==> r.shots == s.shots)
  {
  }

  /** The offset only moves backwards on truncation, and then to the new
      length unless the step aborts; a session still watching never has
      its offset past the file length it was read from. */
  lemma OffsetMonotone(reader: Reader, absolute: Path -> Option<Path>, s: State, t: Tick)
    requires s.status == Watching && Targets(absolute, s, t.note)
    ensures var r := Step(reader, absolute, s, t);
            && (s.pos <= |t.file.data| ==> s.pos <= r.pos <= |t.file.data|)
            && (|t.file.data| < s.pos ==> r.pos == |t.file.data| || r.status.Aborted?)
            && (r.status == Watching ==> r.pos <= |t.file.data|)
  {
  }

  // ---------------------------------------------------------------------
  // The loop

  /** A notification the loop passes over without touching the state: a
      watcher error, an event about another file, or an event about the
      watched file that leaves its length at the offset. */
  predicate Ignorable(absolute: Path -> Option<Path>, s: State, t: Tick)
  {
    || t.note.WatchError?
    || (t.note.Event? && t.note.kind != Other && |t.note.paths| > 0
        && absolute(t.note.paths[0]).Some? && absolute(t.note.paths[0]).value != s.target)
    || (Targets(absolute, s, t.note) && |t.file.data| == s.pos && t.file.fault != StatFails)
  }

  /** Any run of such notifications leaves the session exactly as it was. */
  lemma {:induction false} IgnorableRun(reader: Reader, absolute: Path -> Option<Path>, s: State, ts: seq<Tick>)
    requires forall i :: 0 <= i < |ts| ==> Ignorable(absolute, s, ts[i])
    ensures Run(reader, absolute, s, ts) == s
    decreases |ts|
  {
    if |ts| > 0 {
      assert Ignorable(absolute, s, ts[0]);
      assert Step(reader, absolute, s, ts[0]) == s;
      assert forall i :: 0 <= i < |ts[1..]| ==> Ignorable(absolute, s, ts[1..][i]) by {
        forall i | 0 <= i < |ts[1..]| ensures Ignorable(absolute, s, ts[1..][i]) {
          assert ts[1..][i] == ts[i + 1];
        }
      }
      IgnorableRun(reader, absolute, s, ts[1..]);
    }
  }

  /** Once the loop has ended, no later notification is processed. */
  lemma {:induction false} RunFinished(reader: Reader, absolute: Path -> Option<Path>, s: State, ts: seq<Tick>)
    requires !s.status.Watching?
    ensures Run(reader, absolute, s, ts) == s
    decreases |ts|
  {
    if |ts| > 0 {
      RunFinished(reader, absolute, Step(reader, absolute, s, ts[0]), ts[1..]);
    }
  }

  /** The loop over two runs of notifications is the loop over the first,
      continued over the second. */
  lemma {:induction false} RunAppend(reader: Reader, absolute: Path -> Option<Path>, s: State, a: seq<Tick>, b: seq<Tick>)
    ensures Run(reader, absolute, s, a + b) == Run(reader, absolute, Run(reader, absolute, s, a), b)
    decreases |a|
  {
    if |a| == 0 {
      assert a + b == b;
    } else {
      assert (a + b)[0] == a[0];
      assert (a + b)[1..] == a[1..] + b;
      RunAppend(reader, absolute, Step(reader, absolute, s, a[0]), a[1..], b);
    }
  }

  /** An `Other` event ends the loop: whatever follows it, the offset and
      the captures are those from before it. */
  lemma OtherEndsRun(reader: Reader, absolute: Path -> Option<Path>, s: State, before: seq<Tick>, stop: Tick, after: seq<Tick>)
    requires stop.note.Event? && stop.note.kind == Other
    requires Run(reader, absolute, s, before).status == Watching
    ensures var r := Run(reader, absolute, s, before + [stop] + after);
            var m := Run(reader, absolute, s, before);
            r == m.(status := Closed)
  {
    var m := Run(reader, absolute, s, before);
    RunAppend(reader, absolute, s, before + [stop], after);
    RunAppend(reader, absolute, s, before, [stop]);
    assert Run(reader, absolute, m, [stop]) == Step(reader, absolute, m, stop);
    RunFinished(reader, absolute, m.(status := Closed), after);
  }

  /** Captures are only ever added, never taken back, and every capture is
      of a line holding the trigger phrase. */
  lemma {:induction false} RunKeepsShots(reader: Reader, absolute: Path -> Option<Path>, s: State, ts: seq<Tick>)
    requires forall i :: 0 <= i < |s.shots| ==> Contains(s.shots[i], Phrase)
    ensures var r := Run(reader, absolute, s, ts);
            && r.target == s.target
            && |s.shots| <= |r.shots| && r.shots[..|s.shots|] == s.shots
            && (forall i :: 0 <= i < |r.shots| ==> Contains(r.shots[i], Phrase))
    decreases |ts|
  {
    if |ts| > 0 {
      var m := Step(reader, absolute, s, ts[0]);
      forall i | 0 <= i < |m.shots| ensures Contains(m.shots[i], Phrase) {
        if i >= |s.shots| {
          StepShotsMatch(reader, absolute, s, ts[0], i);
        } else {
          assert m.shots[i] == m.shots[..|s.shots|][i];
        }
      }
      RunKeepsShots(reader, absolute, m, ts[1..]);
      var r := Run(reader, absolute, m, ts[1..]);
      assert r.shots[..|s.shots|] == r.shots[..|m.shots|][..|s.shots|];
    }
  }

  /** A step on a healthy file either reads from the offset, when it is
      watching, the event names the watched file and the length moved, or
      leaves the offset and the captures as they were. */
  lemma HealthyStep(reader: Reader, absolute: Path -> Option<Path>, s: State, t: Tick)
    requires t.file.fault == Healthy
    ensures var r := Step(reader, absolute, s, t);
            var c := Read(reader, t.file.data, s.pos);
            if s.status == Watching && Targets(absolute, s, t.note) && |t.file.data| != s.pos
            then r == s.(pos := c.next, shots := s.shots + Matching(c.lines))
            else r.pos == s.pos && r.shots == s.shots
  {
  }

  /** Every capture a step adds is of a line holding the trigger phrase. */
  lemma StepShotsMatch(reader: Reader, absolute: Path -> Option<Path>, s: State, t: Tick, i: nat)
    requires |s.shots| <= i < |Step(reader, absolute, s, t).shots|
    ensures Contains(Step(reader, absolute, s, t).shots[i], Phrase)
  {
    var r := Step(reader, absolute, s, t);
    var c := Read(reader, t.file.data, s.pos);
    var added := if t.file.fault.LineFails? && t.file.fault.index < |c.lines|
                 then Matching(c.lines[..t.file.fault.index]) else Matching(c.lines);
    assert r.shots == s.shots + added;
    assert r.shots[i] == added[i - |s.shots|];
  }
}
