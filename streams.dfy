/**
 * The relay loops over an exec channel: `while resp.is_open(): resp.update(...)`,
 * then print what stdout and stderr hold, stdout first.
 */
module Streams {
  import opened Wrappers
  import Text
  import opened Kube

  /**
   * How a relay prints a chunk: `cp_k8s` labels it ("STDOUT: ..."), kodman's
   * exec relay right-strips it, kocker's prints it as it is.
   */
  datatype Echo = Labelled | Stripped | Plain

  function Render(data: string, tag: string, echo: Echo): string {
    match echo
    case Labelled => tag + data
    case Stripped => Text.RStrip(data)
    case Plain => data
  }

  /** The prints of one update: stdout if it holds anything, then stderr if it does. */
  function FrameOutput(f: Frame, echo: Echo): seq<Effect> {
    (if f.stdout != "" then [Print(Render(f.stdout, "STDOUT: ", echo))] else [])
    + (if f.stderr != "" then [Print(Render(f.stderr, "STDERR: ", echo))] else [])
  }

  /** The exec relay over a channel that stays open for `frames`. */
  function RelayTrace(frames: seq<Frame>, echo: Echo): seq<Effect> {
    if |frames| == 0 then [] else [Update(5)] + FrameOutput(frames[0], echo) + RelayTrace(frames[1..], echo)
  }

  /** The lines a trace prints, in order. */
  function Prints(trace: seq<Effect>): seq<string> {
    if |trace| == 0 then []
    else (if trace[0].Print? then [trace[0].line] else []) + Prints(trace[1..])
  }

  function MapRStrip(lines: seq<string>): seq<string> {
    if |lines| == 0 then [] else [Text.RStrip(lines[0])] + MapRStrip(lines[1..])
  }

  lemma {:induction false} PrintsAppend(a: seq<Effect>, b: seq<Effect>)
    ensures Prints(a + b) == Prints(a) + Prints(b)
  {
    if |a| == 0 {
      assert a + b == b;
    } else {
      var head := if a[0].Print? then [a[0].line] else [];
      assert (a + b)[0] == a[0];
      assert (a + b)[1..] == a[1..] + b;
      PrintsAppend(a[1..], b);
      assert Prints(a + b) == head + Prints(a[1..] + b);
      assert head + (Prints(a[1..]) + Prints(b)) == (head + Prints(a[1..])) + Prints(b);
    }
  }

  lemma {:induction false} MapRStripAppend(a: seq<string>, b: seq<string>)
    ensures MapRStrip(a + b) == MapRStrip(a) + MapRStrip(b)
  {
    if |a| == 0 {
      assert a + b == b;
    } else {
      var head := [Text.RStrip(a[0])];
      assert (a + b)[0] == a[0];
      assert (a + b)[1..] == a[1..] + b;
      MapRStripAppend(a[1..], b);
      assert MapRStrip(a + b) == head + MapRStrip(a[1..] + b);
      assert head + (MapRStrip(a[1..]) + MapRStrip(b)) == (head + MapRStrip(a[1..])) + MapRStrip(b);
    }
  }

  /** The lines one update prints. */
  function FrameLines(f: Frame, echo: Echo): seq<string> {
    (if f.stdout != "" then [Render(f.stdout, "STDOUT: ", echo)] else [])
    + (if f.stderr != "" then [Render(f.stderr, "STDERR: ", echo)] else [])
  }

  lemma FramePrints(f: Frame, echo: Echo)
    ensures Prints([Update(5)] + FrameOutput(f, echo)) == FrameLines(f, echo)
  {
    var out := if f.stdout != "" then [Print(Render(f.stdout, "STDOUT: ", echo))] else [];
    var err := if f.stderr != "" then [Print(Render(f.stderr, "STDERR: ", echo))] else [];
    PrintsAppend([Update(5)], out + err);
    PrintsAppend(out, err);
    assert [Update(5)] + FrameOutput(f, echo) == [Update(5)] + (out + err);
  }

  /** The lines one round of the relay prints, followed by those of the later rounds. */
  lemma RelayPrintsStep(frames: seq<Frame>, echo: Echo)
    requires |frames| > 0
    ensures Prints(RelayTrace(frames, echo)) == FrameLines(frames[0], echo) + Prints(RelayTrace(frames[1..], echo))
  {
    var head := [Update(5)] + FrameOutput(frames[0], echo);
    assert RelayTrace(frames, echo) == head + RelayTrace(frames[1..], echo);
    PrintsAppend(head, RelayTrace(frames[1..], echo));
    FramePrints(frames[0], echo);
  }

  /** Right-stripping the plain lines of one update gives the stripped lines. */
  lemma FrameLinesStripped(f: Frame)
    ensures MapRStrip(FrameLines(f, Plain)) == FrameLines(f, Stripped)
  {
    var out := if f.stdout != "" then [f.stdout] else [];
    var err := if f.stderr != "" then [f.stderr] else [];
    assert FrameLines(f, Plain) == out + err;
    MapRStripAppend(out, err);
  }

  /**
   * Kodman's relay prints exactly the lines kocker's prints, in the same
   * order, each with its trailing whitespace removed.
   */
  lemma {:induction false} StrippedRelayIsPlainRStripped(frames: seq<Frame>)
    ensures Prints(RelayTrace(frames, Stripped)) == MapRStrip(Prints(RelayTrace(frames, Plain)))
  {
    if |frames| > 0 {
      var f := frames[0];
      var restS, restP := RelayTrace(frames[1..], Stripped), RelayTrace(frames[1..], Plain);
      StrippedRelayIsPlainRStripped(frames[1..]);
      RelayPrintsStep(frames, Stripped);
      RelayPrintsStep(frames, Plain);
      MapRStripAppend(FrameLines(f, Plain), Prints(restP));
      FrameLinesStripped(f);
    }
  }

  /** The relay over two stretches of frames is the relay over the first, then over the second. */
  lemma {:induction false} RelayTraceAppend(a: seq<Frame>, b: seq<Frame>, echo: Echo)
    ensures RelayTrace(a + b, echo) == RelayTrace(a, echo) + RelayTrace(b, echo)
  {
    if |a| == 0 {
      assert a + b == b;
    } else {
      var head := [Update(5)] + FrameOutput(a[0], echo);
      assert (a + b)[0] == a[0];
      assert (a + b)[1..] == a[1..] + b;
      RelayTraceAppend(a[1..], b, echo);
      AppendAssoc(head, RelayTrace(a[1..], echo), RelayTrace(b, echo));
    }
  }

  /** Round `i` of the relay: its update, its stdout and stderr prints, between the earlier and the later rounds. */
  lemma RelayRound(frames: seq<Frame>, i: nat, echo: Echo)
    requires i < |frames|
    ensures RelayTrace(frames, echo) ==
      RelayTrace(frames[..i], echo) + ([Update(5)] + FrameOutput(frames[i], echo)) + RelayTrace(frames[i + 1..], echo)
  {
    assert frames == frames[..i] + ([frames[i]] + frames[i + 1..]);
    RelayTraceAppend(frames[..i], [frames[i]] + frames[i + 1..], echo);
    RelayTraceAppend([frames[i]], frames[i + 1..], echo);
    assert [frames[i]][1..] == [];
    AppendAssoc(RelayTrace(frames[..i], echo), [Update(5)] + FrameOutput(frames[i], echo), RelayTrace(frames[i + 1..], echo));
  }

  /**
   * Every round of the relay is one update followed by that update's prints,
   * stdout before stderr, and nothing but updates and prints happens in it.
   */
  lemma {:induction false} RelayOutputOrder(frames: seq<Frame>, echo: Echo)
    ensures forall i :: 0 <= i < |frames| ==>
      RelayTrace(frames, echo) ==
        RelayTrace(frames[..i], echo) + ([Update(5)] + FrameOutput(frames[i], echo)) + RelayTrace(frames[i + 1..], echo)
    ensures forall i :: 0 <= i < |frames| && frames[i].stdout != "" && frames[i].stderr != "" ==>
      FrameOutput(frames[i], echo) ==
        [Print(Render(frames[i].stdout, "STDOUT: ", echo)), Print(Render(frames[i].stderr, "STDERR: ", echo))]
    ensures forall i :: 0 <= i < |RelayTrace(frames, echo)| ==>
      RelayTrace(frames, echo)[i].Update? || RelayTrace(frames, echo)[i].Print?
  {
    forall i | 0 <= i < |frames|
      ensures RelayTrace(frames, echo) ==
        RelayTrace(frames[..i], echo) + ([Update(5)] + FrameOutput(frames[i], echo)) + RelayTrace(frames[i + 1..], echo)
    {
      RelayRound(frames, i, echo);
    }
    if |frames| > 0 {
      RelayOutputOrder(frames[1..], echo);
      var head := [Update(5)] + FrameOutput(frames[0], echo);
      assert RelayTrace(frames, echo) == head + RelayTrace(frames[1..], echo);
      assert forall i :: 0 <= i < |head| ==> head[i].Update? || head[i].Print?;
    }
  }

  /** The exec relay creates and deletes no pod. */
  lemma RelayNeverChangesPods(frames: seq<Frame>, echo: Echo)
    ensures Count(RelayTrace(frames, echo), ChangesPods) == 0
  {
    RelayOutputOrder(frames, echo);
    CountNone(RelayTrace(frames, echo), ChangesPods);
  }

  /** The relay from round `i` on is that round's update and prints, then the later rounds. */
  lemma RelayStep(frames: seq<Frame>, i: nat, echo: Echo)
    requires i < |frames|
    ensures RelayTrace(frames[i..], echo) == ([Update(5)] + FrameOutput(frames[i], echo)) + RelayTrace(frames[i + 1..], echo)
  {
    assert frames[i..][0] == frames[i];
    assert frames[i..][1..] == frames[i + 1..];
  }

  /** One round's `peek_stdout()`/`read_stdout()` then `peek_stderr()`/`read_stderr()`. */
  method PrintAvailable(frame: Frame, echo: Echo) returns (printed: seq<Effect>)
    ensures |printed| == (if frame.stdout != "" then 1 else 0) + (if frame.stderr != "" then 1 else 0)
    ensures forall i :: 0 <= i < |printed| ==> printed[i].Print?
    ensures frame.stdout != "" ==> printed[0] == Print(Render(frame.stdout, "STDOUT: ", echo))
    ensures frame.stderr != "" ==> printed[|printed| - 1] == Print(Render(frame.stderr, "STDERR: ", echo))
    ensures printed == FrameOutput(frame, echo)
  {
    printed := [];
    if frame.stdout != "" {
      printed := printed + [Print(Render(frame.stdout, "STDOUT: ", echo))];
    }
    if frame.stderr != "" {
      printed := printed + [Print(Render(frame.stderr, "STDERR: ", echo))];
    }
  }

  /** The exec relay of `Backend.run`. */
  method ExecRelay(frames: seq<Frame>, echo: Echo) returns (trace: seq<Effect>)
    ensures trace == RelayTrace(frames, echo)
  {
    trace := [];
    var i := 0;
    while i < |frames|
      invariant 0 <= i <= |frames|
      invariant RelayTrace(frames, echo) == trace + RelayTrace(frames[i..], echo)
    {
      var printed := PrintAvailable(frames[i], echo);
      RelayStep(frames, i, echo);
      AppendAssoc(trace, [Update(5)] + printed, RelayTrace(frames[i + 1..], echo));
      trace := trace + ([Update(5)] + printed);
      i := i + 1;
    }
  }
}
