/** The running flag behind the Start and Stop buttons. The flag holds
    "should stop": it starts set, Start clears it and launches a watch
    session, Stop sets it (which also wakes the session so that it sees an
    `Other` event and closes). The window shows the session as running
    exactly when the flag is clear. */
module Controls {

  /** `launched` counts the watch sessions the Start button has spawned. */
  datatype Controls = Controls(shouldStop: bool, launched: nat)

  datatype Button = Start | Stop

  /** The status line: running is the negation of the flag. */
  predicate Running(c: Controls)
  {
    !c.shouldStop
  }

  /** The controls when the application comes up. */
  function Initial(): (c: Controls)
    ensures !Running(c)
    ensures c.launched == 0
  {
    Controls(true, 0)
  }

  /** One button press. Start has no guard against a session already
      running: every press launches one more. */
  function Click(c: Controls, b: Button): (r: Controls)
    ensures b == Start ==> Running(r) && r.launched == c.launched + 1
    ensures b == Stop ==> !Running(r) && r.launched == c.launched
  {
    match b
    case Start => Controls(false, c.launched + 1)
    case Stop => c.(shouldStop := true)
  }

  function Clicks(c: Controls, bs: seq<Button>): Controls
    decreases |bs|
  {
    if |bs| == 0 then c else Clicks(Click(c, bs[0]), bs[1..])
  }

  /** Stop is idempotent: a second press changes nothing, and pressing it
      when nothing runs changes nothing. */
  lemma StopIdempotent(c: Controls)
    ensures Click(Click(c, Stop), Stop) == Click(c, Stop)
    ensures !Running(c) ==> Click(c, Stop) == c
  {
  }

  /** Pressing Start while a session runs launches a second one instead of
      refusing. */
  lemma StartWhileRunning(c: Controls)
    requires Running(c)
    ensures Running(Click(c, Start))
    ensures Click(c, Start).launched == c.launched + 1
  {
  }

  function StartCount(bs: seq<Button>): nat
    decreases |bs|
  {
    if |bs| == 0 then 0 else (if bs[|bs| - 1] == Start then 1 else 0) + StartCount(bs[..|bs| - 1])
  }

  /** The clicks are a fold: clicking `a` then `b` is clicking `a + b`. */
  lemma {:induction false} ClicksAppend(c: Controls, a: seq<Button>, b: seq<Button>)
    ensures Clicks(c, a + b) == Clicks(Clicks(c, a), b)
    decreases |a|
  {
    if |a| == 0 {
      assert a + b == b;
    } else {
      assert (a + b)[0] == a[0];
      assert (a + b)[1..] == a[1..] + b;
      ClicksAppend(Click(c, a[0]), a[1..], b);
    }
  }

  /** After any presses from start-up, the window shows running exactly
      when the last press was Start, and one session was launched per
      Start press. */
  lemma {:induction false} ClicksStatus(bs: seq<Button>)
    ensures Running(Clicks(Initial(), bs)) <==> |bs| > 0 && bs[|bs| - 1] == Start
    ensures Clicks(Initial(), bs).launched == StartCount(bs)
    decreases |bs|
  {
    if |bs| > 0 {
      var init := bs[..|bs| - 1];
      var last := bs[|bs| - 1];
      assert bs == init + [last];
      ClicksAppend(Initial(), init, [last]);
      ClicksStatus(init);
      var m := Clicks(Initial(), init);
      assert [last][1..] == [];
      assert Clicks(m, [last]) == Click(m, last);
    }
  }
}
