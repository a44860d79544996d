/** Detecting the trigger line: case-sensitive substring containment of a
    fixed phrase, and the selection of the lines of a span that fire a
    capture. */
module Trigger {
  import opened Bytes
  import opened Text

  /** The phrase the game writes when a new floor has been generated. */
  const Phrase: seq<Byte> := Ascii("Players finished generating the new floor")

  /** `pat` occurs in `line` at some offset. For valid UTF-8 this is the
      same as string containment, since no character's encoding starts in
      the middle of another's. */
  predicate Contains(line: Line, pat: seq<Byte>)
  {
    exists i :: 0 <= i <= |line| && OccursAt(line, pat, i)
  }

  /** `pat` occurs in `line` starting at byte `i`. */
  predicate OccursAt(line: Line, pat: seq<Byte>, i: nat)
  {
    i + |pat| <= |line| && line[i..i + |pat|] == pat
  }

  /** A line shorter than the phrase cannot contain it. */
  lemma ShortLineMisses(line: Line, pat: seq<Byte>)
    requires |line| < |pat|
    ensures !Contains(line, pat)
  {
  }

  /** A line holds itself. */
  lemma ContainsSelf(pat: seq<Byte>)
    ensures Contains(pat, pat)
  {
    assert pat[0..|pat|] == pat;
    assert OccursAt(pat, pat, 0);
  }

  /** The lines that fire a capture, one entry per matching line, in order. */
  function Matching(ls: seq<Line>): (r: seq<Line>)
    ensures |r| <= |ls|
    ensures forall i :: 0 <= i < |r| ==> Contains(r[i], Phrase)
    ensures forall l :: l in r ==> l in ls
    ensures forall i :: 0 <= i < |ls| && Contains(ls[i], Phrase) ==> ls[i] in r
    decreases |ls|
  {
    if |ls| == 0 then []
    else if Contains(ls[0], Phrase) then [ls[0]] + Matching(ls[1..])
    else Matching(ls[1..])
  }

  /** Matching distributes over concatenation: a batch of lines split in
      two fires the same captures, in the same order. */
  lemma {:induction false} MatchingAppend(a: seq<Line>, b: seq<Line>)
    ensures Matching(a + b) == Matching(a) + Matching(b)
    decreases |a|
  {
    if |a| == 0 {
      assert a + b == b;
    } else {
      assert (a + b)[0] == a[0];
      assert (a + b)[1..] == a[1..] + b;
      MatchingAppend(a[1..], b);
    }
  }

  /** The number of matching lines, counted independently of `Matching`. */
  function CountMatching(ls: seq<Line>): (n: nat)
    decreases |ls|
  {
    if |ls| == 0 then 0
    else (if Contains(ls[|ls| - 1], Phrase) then 1 else 0) + CountMatching(ls[..|ls| - 1])
  }

  /** Exactly one capture per matching line. */
  lemma {:induction false} MatchingCount(ls: seq<Line>)
    ensures |Matching(ls)| == CountMatching(ls)
    decreases |ls|
  {
    if |ls| > 0 {
      var init := ls[..|ls| - 1];
      var last := ls[|ls| - 1];
      assert ls == init + [last];
      MatchingAppend(init, [last]);
      MatchingCount(init);
      assert Matching([last]) == if Contains(last, Phrase) then [last] else [];
    }
  }

  /** Lines too short to hold the phrase fire nothing. */
  lemma {:induction false} ShortLinesMatchNothing(ls: seq<Line>)
    requires forall i :: 0 <= i < |ls| ==> |ls[i]| < |Phrase|
    ensures Matching(ls) == []
    decreases |ls|
  {
    if |ls| > 0 {
      ShortLineMisses(ls[0], Phrase);
      ShortLinesMatchNothing(ls[1..]);
    }
  }
}
