/**
 * Kodman's volume transfer: parsing each `-v src[:dst]` argument, choosing the
 * archive entry name, and `cp_k8s`, which streams one tar archive into
 * `tar xvf - -C /` running in the pod.
 */
module Volumes {
  import opened Wrappers
  import Text
  import opened Paths
  import opened Kube
  import opened Streams

  datatype Mount = Mount(source: Path, destination: Path)

  const NOT_ABSOLUTE: string := "Destination path must be absolute"

  /**
   * One volume argument: the source is the resolved first ":"-field, the
   * destination the second field, or the source when there is none.
   */
  function ParseVolume(spec: string, resolve: string -> Path): (r: Result<Mount, Exception>)
    ensures var fields := Text.Split(spec, ':');
      r.Success? <==> if |fields| >= 2 then |fields[1]| > 0 && fields[1][0] == '/' else resolve(fields[0]).absolute
    ensures r.Failure? ==> r.error == ValueError(NOT_ABSOLUTE)
    ensures r.Success? ==> r.value.source == resolve(Text.Split(spec, ':')[0]) && r.value.destination.absolute
  {
    var fields := Text.Split(spec, ':');
    var src := resolve(fields[0]);
    var dst := if |fields| >= 2 then ParsePath(fields[1]) else src;
    if dst.absolute then Success(Mount(src, dst)) else Failure(ValueError(NOT_ABSOLUTE))
  }

  /** Without a ":" the destination is the resolved source, accepted only if that is absolute. */
  lemma VolumeWithoutDestination(spec: string, resolve: string -> Path)
    requires ':' !in spec
    ensures ParseVolume(spec, resolve) ==
      if resolve(spec).absolute then Success(Mount(resolve(spec), resolve(spec)))
      else Failure(ValueError(NOT_ABSOLUTE))
  {
    Text.SplitWithoutSeparator(spec, ':');
  }

  /**
   * `Path.resolve()` always yields an absolute path, so with that host a
   * volume without ":" is always accepted and mounted at its own location.
   */
  lemma VolumeWithoutDestinationAccepted(spec: string, resolve: string -> Path)
    requires ':' !in spec
    requires resolve(spec).absolute
    ensures ParseVolume(spec, resolve) == Success(Mount(resolve(spec), resolve(spec)))
  {
    VolumeWithoutDestination(spec, resolve);
  }

  /**
   * With a ":" the destination is exactly the second field, whatever follows
   * it; it must start with "/", so `"src:"` (an empty destination, the
   * relative path ".") is rejected.
   */
  lemma VolumeDestinationIsSecondField(src: string, dst: string, rest: string, resolve: string -> Path)
    requires ':' !in src && ':' !in dst
    requires rest == "" || rest[0] == ':'
    ensures ParseVolume(src + ":" + dst + rest, resolve) ==
      if |dst| > 0 && dst[0] == '/' then Success(Mount(resolve(src), ParsePath(dst)))
      else Failure(ValueError(NOT_ABSOLUTE))
  {
    assert src + ":" + dst + rest == src + [':'] + (dst + rest);
    Text.SplitAfterField(src, ':', dst + rest);
    if rest == "" {
      assert dst + rest == dst;
      Text.SplitWithoutSeparator(dst, ':');
    } else {
      assert dst + rest == dst + [':'] + rest[1..];
      Text.SplitAfterField(dst, ':', rest[1..]);
    }
  }

  /**
   * The tar entry name: `dst/basename(src)` when the source is not a directory
   * and the destination is one (both asked of the local filesystem), `dst`
   * otherwise.
   */
  function ArcName(source: Path, destination: Path, sourceIsDir: bool, destinationIsDir: bool): (arcname: Path)
    ensures arcname.absolute == destination.absolute
    ensures arcname != destination <==> !sourceIsDir && destinationIsDir && Name(source) != ""
    ensures arcname != destination ==> arcname.parts == destination.parts + [Name(source)]
  {
    if !sourceIsDir && destinationIsDir then JoinName(destination, Name(source)) else destination
  }

  /** A file copied onto an existing directory keeps its base name. */
  lemma ArcNameKeepsFileName()
    ensures ArcName(Path(true, ["tmp", "f.txt"]), Path(true, ["work"]), false, true) == Path(true, ["work", "f.txt"])
  {
  }

  // ----- The write loop of `cp_k8s` -----

  /**
   * The loop over a channel open for `frames`: each round updates, prints, then
   * pops and writes the next chunk, or stops when none is left.
   */
  function CopyTrace(chunks: seq<Chunk>, frames: seq<Frame>): seq<Effect> {
    if |frames| == 0 then []
    else
      [Update(1)] + FrameOutput(frames[0], Labelled)
      + (if |chunks| > 0 then [WriteStdin(chunks[0])] + CopyTrace(chunks[1..], frames[1..]) else [])
  }

  /** The chunks a trace writes to a channel's stdin, in order. */
  function Writes(trace: seq<Effect>): seq<Chunk> {
    if |trace| == 0 then []
    else (if trace[0].WriteStdin? then [trace[0].chunk] else []) + Writes(trace[1..])
  }

  predicate IsUpdate(e: Effect) {
    e.Update?
  }

  predicate IsTarOpen(e: Effect) {
    e.OpenExec? && e.argv == TAR_EXTRACT
  }

  lemma {:induction false} WritesAppend(a: seq<Effect>, b: seq<Effect>)
    ensures Writes(a + b) == Writes(a) + Writes(b)
  {
    if |a| == 0 {
      assert a + b == b;
    } else {
      var head := if a[0].WriteStdin? then [a[0].chunk] else [];
      assert (a + b)[0] == a[0];
      assert (a + b)[1..] == a[1..] + b;
      WritesAppend(a[1..], b);
      assert Writes(a + b) == head + Writes(a[1..] + b);
      assert head + (Writes(a[1..]) + Writes(b)) == (head + Writes(a[1..])) + Writes(b);
    }
  }

  /** The prints of one round neither write nor update. */
  lemma FrameOutputOnlyPrints(f: Frame)
    ensures Writes(FrameOutput(f, Labelled)) == []
    ensures Count(FrameOutput(f, Labelled), IsUpdate) == 0
  {
    var out := if f.stdout != "" then [Print(Render(f.stdout, "STDOUT: ", Labelled))] else [];
    var err := if f.stderr != "" then [Print(Render(f.stderr, "STDERR: ", Labelled))] else [];
    WritesAppend(out, err);
    CountAppend(out, err, IsUpdate);
  }

  function Min(a: nat, b: nat): nat {
    if a <= b then a else b
  }

  /** One round of the write loop: update and print, then write the next chunk if there is one. */
  lemma CopyRound(chunks: seq<Chunk>, frames: seq<Frame>)
    requires |frames| > 0
    ensures Writes([Update(1)] + FrameOutput(frames[0], Labelled)) == []
    ensures Count([Update(1)] + FrameOutput(frames[0], Labelled), IsUpdate) == 1
  {
    FrameOutputOnlyPrints(frames[0]);
    WritesAppend([Update(1)], FrameOutput(frames[0], Labelled));
    CountAppend([Update(1)], FrameOutput(frames[0], Labelled), IsUpdate);
    assert [Update(1)][1..] == [];
  }

  /**
   * The loop writes the chunks in FIFO order, each at most once, for as long as
   * the channel stays open.
   */
  lemma {:induction false} CopyWritesFifoPrefix(chunks: seq<Chunk>, frames: seq<Frame>)
    ensures Writes(CopyTrace(chunks, frames)) == chunks[..Min(|chunks|, |frames|)]
  {
    if |frames| > 0 {
      var head := [Update(1)] + FrameOutput(frames[0], Labelled);
      CopyRound(chunks, frames);
      if |chunks| > 0 {
        var rest := CopyTrace(chunks[1..], frames[1..]);
        var m := Min(|chunks| - 1, |frames| - 1);
        assert CopyTrace(chunks, frames) == head + ([WriteStdin(chunks[0])] + rest);
        CopyWritesFifoPrefix(chunks[1..], frames[1..]);
        WritesAppend(head, [WriteStdin(chunks[0])] + rest);
        WritesAppend([WriteStdin(chunks[0])], rest);
        assert Writes([WriteStdin(chunks[0])]) == [chunks[0]] by {
          assert [WriteStdin(chunks[0])][1..] == [];
        }
        assert Min(|chunks|, |frames|) == m + 1;
        assert chunks[..m + 1] == [chunks[0]] + chunks[1..][..m];
      } else {
        assert CopyTrace(chunks, frames) == head;
      }
    }
  }

  /** It runs one round past the last chunk, or fewer rounds if the channel closes first. */
  lemma {:induction false} CopyRounds(chunks: seq<Chunk>, frames: seq<Frame>)
    ensures Count(CopyTrace(chunks, frames), IsUpdate) == Min(|chunks| + 1, |frames|)
  {
    if |frames| > 0 {
      var head := [Update(1)] + FrameOutput(frames[0], Labelled);
      CopyRound(chunks, frames);
      if |chunks| > 0 {
        var rest := CopyTrace(chunks[1..], frames[1..]);
        CopyRounds(chunks[1..], frames[1..]);
        CountAppend(head, [WriteStdin(chunks[0])] + rest, IsUpdate);
        CountAppend([WriteStdin(chunks[0])], rest, IsUpdate);
        assert Count([WriteStdin(chunks[0])], IsUpdate) == 0 by {
          assert [WriteStdin(chunks[0])][1..] == [];
        }
      } else {
        assert CopyTrace(chunks, frames) == head;
      }
    }
  }

  /** The write loop only talks to its channel and prints. */
  lemma {:induction false} CopyOnlyChannelIO(chunks: seq<Chunk>, frames: seq<Frame>)
    ensures forall i :: 0 <= i < |CopyTrace(chunks, frames)| ==>
      CopyTrace(chunks, frames)[i].Update? || CopyTrace(chunks, frames)[i].Print? || CopyTrace(chunks, frames)[i].WriteStdin?
  {
    if |frames| > 0 && |chunks| > 0 {
      CopyOnlyChannelIO(chunks[1..], frames[1..]);
      var head := [Update(1)] + FrameOutput(frames[0], Labelled) + [WriteStdin(chunks[0])];
      assert CopyTrace(chunks, frames) == head + CopyTrace(chunks[1..], frames[1..]);
    }
  }

  /** The write loop from round `i` on, with `commands` still to write. */
  lemma CopyStep(commands: seq<Chunk>, frames: seq<Frame>, i: nat)
    requires i < |frames|
    ensures CopyTrace(commands, frames[i..]) == ([Update(1)] + FrameOutput(frames[i], Labelled))
      + (if |commands| > 0 then [WriteStdin(commands[0])] + CopyTrace(commands[1..], frames[i + 1..]) else [])
  {
    assert frames[i..][0] == frames[i];
    assert frames[i..][1..] == frames[i + 1..];
  }

  /** The write loop of `cp_k8s`, popping `commands` from the front. */
  method CopyRelay(chunks: seq<Chunk>, frames: seq<Frame>) returns (trace: seq<Effect>)
    ensures trace == CopyTrace(chunks, frames)
  {
    var commands := chunks;
    trace := [];
    var i := 0;
    while i < |frames|
      invariant 0 <= i <= |frames|
      invariant CopyTrace(chunks, frames) == trace + CopyTrace(commands, frames[i..])
    {
      var printed := PrintAvailable(frames[i], Labelled);
      CopyStep(commands, frames, i);
      var round := [Update(1)] + printed;
      if |commands| > 0 {
        var c := commands[0];
        AppendAssoc(trace, round, [WriteStdin(c)] + CopyTrace(commands[1..], frames[i + 1..]));
        AppendAssoc(trace + round, [WriteStdin(c)], CopyTrace(commands[1..], frames[i + 1..]));
        commands := commands[1..];
        trace := trace + round + [WriteStdin(c)];
      } else {
        assert round + [] == round;
        trace := trace + round;
        break;
      }
      i := i + 1;
    }
  }

  // ----- `cp_k8s` -----

  const TAR_EXTRACT: seq<string> := ["tar", "xvf", "-", "-C", "/"]

  datatype Copied = Copied(error: Option<Exception>, trace: seq<Effect>)

  /** `cp_k8s`: open the extraction channel, write the archive, close. */
  function CopySpec(ns: string, pod: string, m: Mount, isDir: Path -> bool, exec: ExecResp): Copied {
    var open := [OpenExec(ns, pod, TAR_EXTRACT)];
    match exec
    case ExecError(code) => Copied(Some(ApiException(code)), open)
    case Opened(ch) =>
      var chunk := TarArchive(m.source, ArcName(m.source, m.destination, isDir(m.source), isDir(m.destination)));
      Copied(None, open + CopyTrace([chunk], ch.frames) + [CloseExec])
  }

  /**
   * One copy opens exactly one extraction channel and writes the one archive
   * at most once: exactly when the channel opened and was open for a round.
   */
  lemma CopyWritesArchiveAtMostOnce(ns: string, pod: string, m: Mount, isDir: Path -> bool, exec: ExecResp)
    ensures var c := CopySpec(ns, pod, m, isDir, exec);
      && Count(c.trace, IsTarOpen) == 1
      && Writes(c.trace) ==
        if exec.Opened? && |exec.channel.frames| > 0 then
          [TarArchive(m.source, ArcName(m.source, m.destination, isDir(m.source), isDir(m.destination)))]
        else []
  {
    var open := [OpenExec(ns, pod, TAR_EXTRACT)];
    if exec.Opened? {
      var chunk := TarArchive(m.source, ArcName(m.source, m.destination, isDir(m.source), isDir(m.destination)));
      var relay := CopyTrace([chunk], exec.channel.frames);
      CopyWritesFifoPrefix([chunk], exec.channel.frames);
      CopyOnlyChannelIO([chunk], exec.channel.frames);
      CountNone(relay, IsTarOpen);
      WritesAppend(open + relay, [CloseExec]);
      WritesAppend(open, relay);
      CountAppend(open + relay, [CloseExec], IsTarOpen);
      CountAppend(open, relay, IsTarOpen);
    }
  }

  /** A copy creates and deletes no pod. */
  lemma CopyNeverChangesPods(ns: string, pod: string, m: Mount, isDir: Path -> bool, exec: ExecResp)
    ensures Count(CopySpec(ns, pod, m, isDir, exec).trace, ChangesPods) == 0
  {
    if exec.Opened? {
      var chunk := TarArchive(m.source, ArcName(m.source, m.destination, isDir(m.source), isDir(m.destination)));
      CopyOnlyChannelIO([chunk], exec.channel.frames);
    }
    CountNone(CopySpec(ns, pod, m, isDir, exec).trace, ChangesPods);
  }

  /** `cp_k8s`. */
  method CopyToPod(ns: string, pod: string, m: Mount, isDir: Path -> bool, exec: ExecResp)
    returns (error: Option<Exception>, trace: seq<Effect>)
    ensures Copied(error, trace) == CopySpec(ns, pod, m, isDir, exec)
  {
    var arcname := ArcName(m.source, m.destination, isDir(m.source), isDir(m.destination));
    var commands := [TarArchive(m.source, arcname)];
    trace := [OpenExec(ns, pod, TAR_EXTRACT)];
    match exec {
      case ExecError(code) =>
        return Some(ApiException(code)), trace;
      case Opened(ch) =>
        var relay := CopyRelay(commands, ch.frames);
        trace := trace + relay + [CloseExec];
        return None, trace;
    }
  }

  // ----- The volume loop of `Backend.run` -----

  /** Where the volume loop stops (`None`: it went through every volume) and which channels it left. */
  datatype Mounting = Mounting(stop: Option<RunOutcome>, trace: seq<Effect>, rest: seq<ExecResp>)

  /** The volumes in list order: parse one, copy it, go on with the next. */
  function MountAll(ns: string, pod: string, volumes: seq<string>, fs: HostFs, execs: seq<ExecResp>): (r: Mounting)
    ensures r.stop.Some? ==> r.stop.value.Raised? || r.stop.value.OutOfScript?
    decreases |volumes|
  {
    if |volumes| == 0 then Mounting(None, [], execs)
    else
      match ParseVolume(volumes[0], fs.resolve)
      case Failure(e) => Mounting(Some(Raised(e)), [], execs)
      case Success(m) =>
        if |execs| == 0 then Mounting(Some(OutOfScript), [], execs)
        else
          var c := CopySpec(ns, pod, m, fs.isDir, execs[0]);
          if c.error.Some? then Mounting(Some(Raised(c.error.value)), c.trace, execs[1..])
          else
            var next := MountAll(ns, pod, volumes[1..], fs, execs[1..]);
            Mounting(next.stop, c.trace + next.trace, next.rest)
  }

  /** The volume loop of `Backend.run`. */
  method MountVolumes(ns: string, pod: string, volumes: seq<string>, fs: HostFs, execs: seq<ExecResp>)
    returns (stop: Option<RunOutcome>, trace: seq<Effect>, rest: seq<ExecResp>)
    ensures Mounting(stop, trace, rest) == MountAll(ns, pod, volumes, fs, execs)
  {
    rest := execs;
    trace := [];
    var i := 0;
    while i < |volumes|
      invariant 0 <= i <= |volumes|
      invariant var r := MountAll(ns, pod, volumes[i..], fs, rest);
        MountAll(ns, pod, volumes, fs, execs) == Mounting(r.stop, trace + r.trace, r.rest)
    {
      assert volumes[i..][1..] == volumes[i + 1..];
      var parsed := ParseVolume(volumes[i], fs.resolve);
      if parsed.Failure? {
        return Some(Raised(parsed.error)), trace, rest;
      }
      if |rest| == 0 {
        return Some(OutOfScript), trace, rest;
      }
      var error, copied := CopyToPod(ns, pod, parsed.value, fs.isDir, rest[0]);
      ghost var before := trace;
      trace := trace + copied;
      rest := rest[1..];
      if error.Some? {
        return Some(Raised(error.value)), trace, rest;
      }
      ghost var r := MountAll(ns, pod, volumes[i + 1..], fs, rest);
      assert before + (copied + r.trace) == trace + r.trace;
      i := i + 1;
    }
    assert volumes[i..] == [];
    return None, trace, rest;
  }

  /** When every volume is copied, each has used exactly one channel of the script. */
  lemma {:induction false} MountAllUsesOneChannelPerVolume(ns: string, pod: string, volumes: seq<string>, fs: HostFs, execs: seq<ExecResp>)
    ensures var r := MountAll(ns, pod, volumes, fs, execs);
      r.stop.None? ==> |execs| >= |volumes| && r.rest == execs[|volumes|..]
  {
    if |volumes| > 0 && MountAll(ns, pod, volumes, fs, execs).stop.None? {
      MountAllUsesOneChannelPerVolume(ns, pod, volumes[1..], fs, execs[1..]);
      assert execs[1..][|volumes| - 1..] == execs[|volumes|..];
    }
  }

  /** A loop that went through every volume copied the first one, on the first channel, and then the rest. */
  lemma MountAllFirst(ns: string, pod: string, volumes: seq<string>, fs: HostFs, execs: seq<ExecResp>)
    requires |volumes| > 0 && MountAll(ns, pod, volumes, fs, execs).stop.None?
    ensures |execs| > 0 && ParseVolume(volumes[0], fs.resolve).Success?
    ensures CopySpec(ns, pod, ParseVolume(volumes[0], fs.resolve).value, fs.isDir, execs[0]).error.None?
    ensures MountAll(ns, pod, volumes[1..], fs, execs[1..]).stop.None?
    ensures MountAll(ns, pod, volumes, fs, execs).trace ==
      CopySpec(ns, pod, ParseVolume(volumes[0], fs.resolve).value, fs.isDir, execs[0]).trace
      + MountAll(ns, pod, volumes[1..], fs, execs[1..]).trace
  {
  }

  /** A volume that parses and copies without error is followed by the loop over the rest. */
  lemma MountAllUnfold(ns: string, pod: string, volumes: seq<string>, fs: HostFs, execs: seq<ExecResp>)
    requires |volumes| > 0 && |execs| > 0 && ParseVolume(volumes[0], fs.resolve).Success?
    requires CopySpec(ns, pod, ParseVolume(volumes[0], fs.resolve).value, fs.isDir, execs[0]).error.None?
    ensures MountAll(ns, pod, volumes, fs, execs).trace ==
      CopySpec(ns, pod, ParseVolume(volumes[0], fs.resolve).value, fs.isDir, execs[0]).trace
      + MountAll(ns, pod, volumes[1..], fs, execs[1..]).trace
  {
  }

  /**
   * Volumes are copied in list order: when the loop goes through every
   * volume, volume `i` parsed, used channel `i` without error, and its copy
   * sits in the trace after the copies of the volumes before it and before
   * those of the volumes after it.
   */
  lemma {:induction false} MountAllCopiesInListOrder(ns: string, pod: string, volumes: seq<string>, fs: HostFs, execs: seq<ExecResp>, i: nat)
    requires i < |volumes| && MountAll(ns, pod, volumes, fs, execs).stop.None?
    ensures i < |execs| && ParseVolume(volumes[i], fs.resolve).Success?
    ensures CopySpec(ns, pod, ParseVolume(volumes[i], fs.resolve).value, fs.isDir, execs[i]).error.None?
    ensures MountAll(ns, pod, volumes, fs, execs).trace ==
      MountAll(ns, pod, volumes[..i], fs, execs[..i]).trace
      + CopySpec(ns, pod, ParseVolume(volumes[i], fs.resolve).value, fs.isDir, execs[i]).trace
      + MountAll(ns, pod, volumes[i + 1..], fs, execs[i + 1..]).trace
    decreases i
  {
    MountAllFirst(ns, pod, volumes, fs, execs);
    var c := CopySpec(ns, pod, ParseVolume(volumes[0], fs.resolve).value, fs.isDir, execs[0]).trace;
    if i == 0 {
      assert volumes[..0] == [];
      assert volumes[1..] == volumes[0 + 1..] && execs[1..] == execs[0 + 1..];
    } else {
      MountAllCopiesInListOrder(ns, pod, volumes[1..], fs, execs[1..], i - 1);
      var vs, es := volumes[..i], execs[..i];
      assert volumes[1..][i - 1] == volumes[i] && execs[1..][i - 1] == execs[i];
      assert volumes[1..][i..] == volumes[i + 1..] && execs[1..][i..] == execs[i + 1..];
      assert vs[0] == volumes[0] && es[0] == execs[0];
      assert vs[1..] == volumes[1..][..i - 1] && es[1..] == execs[1..][..i - 1];
      var before := MountAll(ns, pod, vs[1..], fs, es[1..]).trace;
      var ci := CopySpec(ns, pod, ParseVolume(volumes[i], fs.resolve).value, fs.isDir, execs[i]).trace;
      var after := MountAll(ns, pod, volumes[i + 1..], fs, execs[i + 1..]).trace;
      MountAllUnfold(ns, pod, vs, fs, es);
      AppendAssoc(c, before + ci, after);
      AppendAssoc(c, before, ci);
    }
  }

  /** Mounting the volumes creates and deletes no pod. */
  lemma {:induction false} MountAllNeverChangesPods(ns: string, pod: string, volumes: seq<string>, fs: HostFs, execs: seq<ExecResp>)
    ensures Count(MountAll(ns, pod, volumes, fs, execs).trace, ChangesPods) == 0
    decreases |volumes|
  {
    if |volumes| > 0 && ParseVolume(volumes[0], fs.resolve).Success? && |execs| > 0 {
      var m := ParseVolume(volumes[0], fs.resolve).value;
      CopyNeverChangesPods(ns, pod, m, fs.isDir, execs[0]);
      if CopySpec(ns, pod, m, fs.isDir, execs[0]).error.None? {
        MountAllNeverChangesPods(ns, pod, volumes[1..], fs, execs[1..]);
        CountAppend(CopySpec(ns, pod, m, fs.isDir, execs[0]).trace, MountAll(ns, pod, volumes[1..], fs, execs[1..]).trace, ChangesPods);
      }
    }
  }

  /**
   * Each volume is checked only when its turn comes: if volume `j` is the
   * first with a relative destination, the run raises ValueError after the
   * `j` volumes before it have each opened their extraction channel.
   */
  lemma {:induction false} MountStopsAtFirstInvalid(ns: string, pod: string, volumes: seq<string>, fs: HostFs, execs: seq<ExecResp>, j: nat)
    requires j < |volumes| && j <= |execs|
    requires forall i :: 0 <= i < j ==> ParseVolume(volumes[i], fs.resolve).Success? && execs[i].Opened?
    requires ParseVolume(volumes[j], fs.resolve).Failure?
    ensures MountAll(ns, pod, volumes, fs, execs).stop == Some(Raised(ValueError(NOT_ABSOLUTE)))
    ensures Count(MountAll(ns, pod, volumes, fs, execs).trace, IsTarOpen) == j
  {
    if j > 0 {
      MountStopsAtFirstInvalid(ns, pod, volumes[1..], fs, execs[1..], j - 1);
      var m := ParseVolume(volumes[0], fs.resolve).value;
      CopyWritesArchiveAtMostOnce(ns, pod, m, fs.isDir, execs[0]);
      CountAppend(CopySpec(ns, pod, m, fs.isDir, execs[0]).trace, MountAll(ns, pod, volumes[1..], fs, execs[1..]).trace, IsTarOpen);
    }
  }
}
