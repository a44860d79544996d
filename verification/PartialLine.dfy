/** A trigger line that reaches the file in two writes. The program's
    reader scans the unfinished first half, remembers the end of file, and
    later scans only the second half: neither half holds the phrase, so the
    line never fires. The reader that keeps the unfinished line for later
    fires it once. */
module PartialLine {
  import opened Bytes
  import opened Text
  import opened Trigger
  import opened Tail
  import opened Session

  const LogPath: Path := "Player.log"

  function Resolve(p: Path): Option<Path>
  {
    Some(p)
  }

  /** The watcher reports a change to the log file, seen holding `data`. */
  function Write(data: seq<Byte>): Tick
  {
    Tick(Event(Modify, [LogPath]), FileView(data, Healthy))
  }

  /** The phrase is printable text: it holds no line feed and does not end
      with a carriage return. */
  lemma PhraseWritable()
    ensures |Phrase| == 41
    ensures Writable(Phrase)
  {
    var text := "Players finished generating the new floor";
    assert forall i :: 0 <= i < |text| ==> 32 <= text[i] as int < 127;
    assert Phrase[40] as int == 'r' as int;
  }

  /** The loop over two notifications is two steps. */
  lemma RunTwo(reader: Reader, s: State, t0: Tick, t1: Tick)
    ensures Run(reader, Resolve, s, [t0, t1])
            == Step(reader, Resolve, Step(reader, Resolve, s, t0), t1)
  {
    var ts := [t0, t1];
    var m := Step(reader, Resolve, s, t0);
    assert ts[0] == t0 && ts[1..] == [t1];
    assert Run(reader, Resolve, s, ts) == Run(reader, Resolve, m, [t1]);
    assert [t1][0] == t1 && [t1][1..] == [];
    assert Run(reader, Resolve, m, [t1]) == Run(reader, Resolve, Step(reader, Resolve, m, t1), []);
  }

  /** A written line reads back as that one line. */
  lemma OneLine(line: Line)
    requires Writable(line)
    ensures Lines(line + [LF]) == [line]
  {
    LinesOfJoin([line]);
    assert JoinLines([line]) == line + [LF];
  }

  /** A look whose new span is shorter than the phrase fires nothing with
      the program's reader, which still moves the offset to the end. */
  lemma ShortSpanFiresNothing(s: State, t: Tick)
    requires s.status == Watching && Targets(Resolve, s, t.note) && t.file.fault == Healthy
    requires s.pos <= |t.file.data| < s.pos + |Phrase|
    ensures Step(ToEnd, Resolve, s, t) == s.(pos := |t.file.data|)
  {
    var x := t.file.data[s.pos..];
    LinesShape(x);
    ShortLinesMatchNothing(Lines(x));
  }

  /** The program's reader misses a line written in two parts that are
      each shorter than the phrase. */
  lemma ToEndMissesSplitLine(line: Line, k: nat)
    requires 0 < k < |Phrase| && |line| + 1 - k < |Phrase| && k <= |line|
    ensures Run(ToEnd, Resolve, State(LogPath, 0, [], Watching),
                [Write(line[..k]), Write(line + [LF])]).shots == []
  {
    var s := State(LogPath, 0, [], Watching);
    var ts := [Write(line[..k]), Write(line + [LF])];
    ShortSpanFiresNothing(s, ts[0]);
    var a1 := s.(pos := k);
    ShortSpanFiresNothing(a1, ts[1]);
    RunTwo(ToEnd, s, ts[0], ts[1]);
  }

  /** With no line feed written yet, the corrected reader waits. */
  lemma WaitsForLineEnd(data: seq<Byte>)
    requires LF !in data
    ensures var s := State(LogPath, 0, [], Watching);
            Step(WholeLines, Resolve, s, Write(data)) == s
  {
    var s := State(LogPath, 0, [], Watching);
    assert Read(WholeLines, data, 0) == Chunk([], 0) by {
      assert data[0..] == data;
      CompleteEndNone(data);
      assert data[0..][..0] == [];
    }
    HealthyStep(WholeLines, Resolve, s, Write(data));
  }

  /** Once the line feed is written, the corrected reader reads the whole
      line. */
  lemma ReadsWholeLine(line: Line)
    requires Writable(line)
    ensures var s := State(LogPath, 0, [], Watching);
            Step(WholeLines, Resolve, s, Write(line + [LF]))
            == s.(pos := |line| + 1, shots := Matching([line]))
  {
    var s := State(LogPath, 0, [], Watching);
    var whole := line + [LF];
    assert Read(WholeLines, whole, 0) == Chunk(Lines(whole), |whole|) by {
      assert whole[0..] == whole;
      assert whole[|whole| - 1] == LF;
      assert CompleteEnd(whole) == |whole|;
      assert whole[0..][..|whole|] == whole;
    }
    OneLine(line);
    HealthyStep(WholeLines, Resolve, s, Write(whole));
  }

  /** The reader that keeps the unfinished line fires it once. */
  lemma WholeLinesFiresSplitLine(line: Line, k: nat)
    requires Writable(line) && Contains(line, Phrase) && 0 < k <= |line|
    ensures Run(WholeLines, Resolve, State(LogPath, 0, [], Watching),
                [Write(line[..k]), Write(line + [LF])]).shots == [line]
  {
    var s := State(LogPath, 0, [], Watching);
    assert LF !in line[..k];
    WaitsForLineEnd(line[..k]);
    ReadsWholeLine(line);
    assert Matching([line]) == [line];
    RunTwo(WholeLines, s, Write(line[..k]), Write(line + [LF]));
  }

  /** Session opened on an empty log; the watcher reports the first 20
      bytes of the trigger line, then the whole line with its line feed.
      The file then holds one trigger line: the program fires no capture,
      the reader that keeps the unfinished line fires one. */
  lemma SplitTriggerLine()
    ensures var s := State(LogPath, 0, [], Watching);
            var ts := [Write(Phrase[..20]), Write(Phrase + [LF])];
            && Matching(Lines(Phrase + [LF])) == [Phrase]
            && Run(ToEnd, Resolve, s, ts).shots == []
            && Run(WholeLines, Resolve, s, ts).shots == [Phrase]
  {
    PhraseWritable();
    ContainsSelf(Phrase);
    OneLine(Phrase);
    assert Matching([Phrase]) == [Phrase];
    ToEndMissesSplitLine(Phrase, 20);
    WholeLinesFiresSplitLine(Phrase, 20);
  }
}
