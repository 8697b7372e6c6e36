/**
 * Kodman's backend: the pod name derived from `hash(options)`, `Backend.run`
 * (create, wait, copy the volumes, exec, relay, keep the exit code) and
 * `Backend.delete`.
 */
module Kodman {
  import opened Wrappers
  import Text
  import opened Naming
  import opened Kube
  import opened Lifecycle
  import opened Streams
  import opened Volumes

  datatype RunOptions = RunOptions(image: string, command: seq<string>, volumes: seq<string>)

  // ----- `RunOptions.__hash__` -----

  /** One of the hash candidates: the image, a list, or the timestamp. */
  datatype Candidate = TextCandidate(text: string) | ListCandidate(items: seq<string>) | TimeCandidate(seconds: real)

  /** `(image, command, volumes, time.time())`. */
  function Candidates(opts: RunOptions, clock: real): seq<Candidate> {
    [TextCandidate(opts.image), ListCandidate(opts.command), ListCandidate(opts.volumes), TimeCandidate(clock)]
  }

  /** Python's `not item` on a candidate. */
  predicate Falsy(c: Candidate) {
    match c
    case TextCandidate(text) => text == ""
    case ListCandidate(items) => items == []
    case TimeCandidate(seconds) => seconds == 0.0
  }

  /** The hashable form of a candidate: a list becomes a tuple. */
  function Hashable(c: Candidate): HashItem {
    match c
    case TextCandidate(text) => HText(text)
    case ListCandidate(items) => HTuple(items)
    case TimeCandidate(seconds) => HTime(seconds)
  }

  predicate FalsyItem(x: HashItem) {
    x == HText("") || x == HTuple([]) || x == HTime(0.0)
  }

  /** The truthy candidates in order, lists turned into tuples. */
  function KeptItems(cands: seq<Candidate>): seq<HashItem> {
    if |cands| == 0 then []
    else (if Falsy(cands[0]) then [] else [Hashable(cands[0])]) + KeptItems(cands[1..])
  }

  /** No falsy item reaches the hashed tuple, and nothing is added. */
  lemma {:induction false} KeptItemsTruthy(cands: seq<Candidate>)
    ensures |KeptItems(cands)| <= |cands|
    ensures forall i :: 0 <= i < |KeptItems(cands)| ==> !FalsyItem(KeptItems(cands)[i])
  {
    if |cands| > 0 {
      KeptItemsTruthy(cands[1..]);
      var head := if Falsy(cands[0]) then [] else [Hashable(cands[0])];
      assert forall i :: 0 <= i < |head| ==> !FalsyItem(head[i]);
      assert KeptItems(cands) == head + KeptItems(cands[1..]);
    }
  }

  lemma KeptCons(c: Candidate, rest: seq<Candidate>)
    ensures KeptItems([c] + rest) == (if Falsy(c) then [] else [Hashable(c)]) + KeptItems(rest)
  {
    assert ([c] + rest)[0] == c;
    assert ([c] + rest)[1..] == rest;
  }

  /**
   * The hashed tuple leaves out an empty image, an empty command list, an
   * empty volume list and a zero timestamp, and holds the rest in order with
   * the lists as tuples.
   */
  lemma HashTupleLeavesOutFalsy(opts: RunOptions, clock: real)
    ensures KeptItems(Candidates(opts, clock)) ==
      (if opts.image == "" then [] else [HText(opts.image)])
      + (if opts.command == [] then [] else [HTuple(opts.command)])
      + (if opts.volumes == [] then [] else [HTuple(opts.volumes)])
      + (if clock == 0.0 then [] else [HTime(clock)])
  {
    var c0, c1, c2, c3 := TextCandidate(opts.image), ListCandidate(opts.command), ListCandidate(opts.volumes), TimeCandidate(clock);
    assert Candidates(opts, clock) == [c0] + ([c1] + ([c2] + ([c3] + [])));
    KeptCons(c3, []);
    KeptCons(c2, [c3] + []);
    KeptCons(c1, [c2] + ([c3] + []));
    KeptCons(c0, [c1] + ([c2] + ([c3] + [])));
    var a, b, v, t := KeptItems([c0]), KeptItems([c1]), KeptItems([c2]), KeptItems([c3]);
  }

  /** The kept items from position `i` on: that candidate's, if truthy, then the later ones. */
  lemma KeptStep(cands: seq<Candidate>, i: nat)
    requires i < |cands|
    ensures KeptItems(cands[i..]) == (if Falsy(cands[i]) then [] else [Hashable(cands[i])]) + KeptItems(cands[i + 1..])
  {
    assert cands[i..][0] == cands[i];
    assert cands[i..][1..] == cands[i + 1..];
  }

  /** The loop of `__hash__` that appends to `to_hash`. */
  method ToHash(cands: seq<Candidate>) returns (toHash: seq<HashItem>)
    ensures toHash == KeptItems(cands)
  {
    toHash := [];
    var i := 0;
    while i < |cands|
      invariant 0 <= i <= |cands|
      invariant KeptItems(cands) == toHash + KeptItems(cands[i..])
    {
      KeptStep(cands, i);
      ghost var rest := KeptItems(cands[i + 1..]);
      var item := cands[i];
      if Falsy(item) {
        assert [] + rest == rest;
      } else {
        assert toHash + ([Hashable(item)] + rest) == (toHash + [Hashable(item)]) + rest;
        toHash := toHash + [Hashable(item)];
      }
      i := i + 1;
    }
  }

  /**
   * `__hash__`: the tuple hash shifted up by `sys.maxsize + 1`, which is
   * non-negative whenever the tuple hash is a `Py_hash_t`.
   */
  method OptionsHash(opts: RunOptions, host: Host) returns (h: int)
    ensures h == host.tupleHash(KeptItems(Candidates(opts, host.clock))) + MAX_SIZE + 1
    ensures InHashRange(host.tupleHash(KeptItems(Candidates(opts, host.clock)))) ==> h >= 0
  {
    var toHash := ToHash(Candidates(opts, host.clock));
    h := host.tupleHash(toHash);
    h := h + (MAX_SIZE + 1);
  }

  const POD_PREFIX: string := "kodman-run-"

  /** `f"kodman-run-{hash(options)}"`. */
  function PodNameFor(opts: RunOptions, host: Host): (name: string)
    ensures InHashRange(host.tupleHash(KeptItems(Candidates(opts, host.clock)))) ==>
      |name| > |POD_PREFIX| && name[..|POD_PREFIX|] == POD_PREFIX && Text.AllDigits(name[|POD_PREFIX|..])
  {
    PodName(POD_PREFIX, host.tupleHash(KeptItems(Candidates(opts, host.clock))))
  }

  // ----- `Backend.run` -----

  /** How a run ends, what it did, and the exit code it leaves in `return_code` (`None`: untouched). */
  datatype RunResult = RunResult(outcome: RunOutcome, trace: seq<Effect>, exitCode: Option<int>)

  /** The command's exec, once every volume has been copied. */
  function ExecStep(ns: string, name: string, command: seq<string>, execs: seq<ExecResp>, before: seq<Effect>): (r: RunResult)
    ensures |r.trace| >= |before| && r.trace[..|before|] == before
    ensures r.outcome.Returned? <==> r.exitCode.Some?
    ensures r.outcome.Returned? ==>
      r.outcome.podName == name && |execs| > 0 && execs[0].Opened? && r.exitCode == Some(execs[0].channel.returnCode)
  {
    if |execs| == 0 then RunResult(OutOfScript, before, None)
    else
      var issued := before + [OpenExec(ns, name, command)];
      match execs[0]
      case ExecError(code) => RunResult(Raised(ApiException(code)), issued, None)
      case Opened(ch) =>
        RunResult(Returned(name), issued + RelayTrace(ch.frames, Stripped) + [CloseExec], Some(ch.returnCode))
  }

  /** `Backend.run` against a scripted cluster. */
  function RunSpec(ns: string, opts: RunOptions, host: Host, script: RunScript): (r: RunResult)
    ensures |r.trace| > 0 && r.trace[0] == CreatePod(ns, IdleManifest(PodNameFor(opts, host), opts.image))
    ensures script.createError.Some? ==> r.outcome == Raised(ApiException(script.createError.value)) && |r.trace| == 1
    ensures r.outcome.Returned? <==> r.exitCode.Some?
    ensures r.outcome.Returned? ==> r.outcome.podName == PodNameFor(opts, host) && AwaitOutcome(script.podReads).Scheduled?
  {
    var name := PodNameFor(opts, host);
    var created := [CreatePod(ns, IdleManifest(name, opts.image))];
    if script.createError.Some? then RunResult(Raised(ApiException(script.createError.value)), created, None)
    else
      var waited := created + AwaitTrace(ns, name, script.podReads);
      match AwaitOutcome(script.podReads)
      case Failed(e) => RunResult(Raised(e), waited, None)
      case StillPending => RunResult(OutOfScript, waited, None)
      case Scheduled(_) =>
        var m := MountAll(ns, name, opts.volumes, host.fs, script.execs);
        if m.stop.Some? then RunResult(m.stop.value, waited + m.trace, None)
        else ExecStep(ns, name, opts.command, m.rest, waited + m.trace)
  }

  lemma ExecStepNeverChangesPods(ns: string, name: string, command: seq<string>, execs: seq<ExecResp>, before: seq<Effect>)
    ensures Count(ExecStep(ns, name, command, execs, before).trace, ChangesPods) == Count(before, ChangesPods)
  {
    if |execs| > 0 {
      var issued := before + [OpenExec(ns, name, command)];
      CountAppend(before, [OpenExec(ns, name, command)], ChangesPods);
      if execs[0].Opened? {
        var relay := RelayTrace(execs[0].channel.frames, Stripped);
        RelayNeverChangesPods(execs[0].channel.frames, Stripped);
        CountAppend(issued + relay, [CloseExec], ChangesPods);
        CountAppend(issued, relay, ChangesPods);
      }
    }
  }

  /**
   * The run's first call creates the idle pod under the derived name, and
   * it is the only pod the run ever creates or deletes.
   */
  lemma RunCreatesOnePodAndDeletesNone(ns: string, opts: RunOptions, host: Host, script: RunScript)
    ensures var t := RunSpec(ns, opts, host, script).trace;
      && |t| > 0 && t[0] == CreatePod(ns, IdleManifest(PodNameFor(opts, host), opts.image))
      && Count(t, ChangesPods) == 1
  {
    var name := PodNameFor(opts, host);
    var created := [CreatePod(ns, IdleManifest(name, opts.image))];
    assert Count(created, ChangesPods) == 1 by {
      assert created[1..] == [];
    }
    if script.createError.None? {
      var waited := created + AwaitTrace(ns, name, script.podReads);
      AwaitOnlyReadsAndSleeps(ns, name, script.podReads);
      CountAppend(created, AwaitTrace(ns, name, script.podReads), ChangesPods);
      if AwaitOutcome(script.podReads).Scheduled? {
        var m := MountAll(ns, name, opts.volumes, host.fs, script.execs);
        MountAllNeverChangesPods(ns, name, opts.volumes, host.fs, script.execs);
        CountAppend(waited, m.trace, ChangesPods);
        ExecStepNeverChangesPods(ns, name, opts.command, m.rest, waited + m.trace);
      }
    }
  }

  /**
   * A run that returns gives back the derived pod name, and exactly then it
   * sets the exit code: the return code of the channel that follows the one
   * channel each volume used.
   */
  lemma RunReturnsNameAndExitCode(ns: string, opts: RunOptions, host: Host, script: RunScript)
    ensures var r := RunSpec(ns, opts, host, script);
      r.exitCode.Some? <==> r.outcome.Returned?
    ensures var r := RunSpec(ns, opts, host, script);
      r.outcome.Returned? ==>
        && r.outcome.podName == PodNameFor(opts, host)
        && |script.execs| > |opts.volumes|
        && script.execs[|opts.volumes|].Opened?
        && r.exitCode == Some(script.execs[|opts.volumes|].channel.returnCode)
  {
    var name := PodNameFor(opts, host);
    var m := MountAll(ns, name, opts.volumes, host.fs, script.execs);
    MountAllUsesOneChannelPerVolume(ns, name, opts.volumes, host.fs, script.execs);
  }

  /** The relay of a run prints every line of the command's output with its trailing whitespace removed. */
  lemma RunPrintsStrippedOutput(ns: string, opts: RunOptions, host: Host, script: RunScript)
    requires RunSpec(ns, opts, host, script).outcome.Returned?
    ensures var m := MountAll(ns, PodNameFor(opts, host), opts.volumes, host.fs, script.execs);
      |m.rest| > 0 && m.rest[0].Opened?
    ensures var m := MountAll(ns, PodNameFor(opts, host), opts.volumes, host.fs, script.execs);
      var frames := m.rest[0].channel.frames;
      && RunSpec(ns, opts, host, script).trace ==
        [CreatePod(ns, IdleManifest(PodNameFor(opts, host), opts.image))]
        + AwaitTrace(ns, PodNameFor(opts, host), script.podReads) + m.trace
        + [OpenExec(ns, PodNameFor(opts, host), opts.command)] + RelayTrace(frames, Stripped) + [CloseExec]
      && Prints(RelayTrace(frames, Stripped)) == MapRStrip(Prints(RelayTrace(frames, Plain)))
  {
    var m := MountAll(ns, PodNameFor(opts, host), opts.volumes, host.fs, script.execs);
    StrippedRelayIsPlainRStripped(m.rest[0].channel.frames);
  }

  /** The backend object: its namespace and the exit code of the last run. */
  class Backend {
    const namespace: string
    var returnCode: int

    constructor (namespace: string)
      ensures this.namespace == namespace && returnCode == 0
    {
      this.namespace := namespace;
      returnCode := 0;
    }

    /** `run`: the outcome and trace of `RunSpec`, and `return_code` set only when the run returns. */
    method Run(options: RunOptions, host: Host, script: RunScript) returns (outcome: RunOutcome, trace: seq<Effect>)
      modifies this
      ensures var r := RunSpec(namespace, options, host, script);
        && outcome == r.outcome && trace == r.trace
        && returnCode == (if r.exitCode.Some? then r.exitCode.value else old(returnCode))
    {
      var h := OptionsHash(options, host);
      var name := POD_PREFIX + Text.IntToString(BuiltinHash(h));
      trace := [CreatePod(namespace, IdleManifest(name, options.image))];
      if script.createError.Some? {
        return Raised(ApiException(script.createError.value)), trace;
      }
      var ready, waited := AwaitReady(namespace, name, script.podReads);
      trace := trace + waited;
      match ready {
        case Failed(e) =>
          return Raised(e), trace;
        case StillPending =>
          return OutOfScript, trace;
        case Scheduled(_) =>
      }
      var stop, mounted, execs := MountVolumes(namespace, name, options.volumes, host.fs, script.execs);
      trace := trace + mounted;
      if stop.Some? {
        return stop.value, trace;
      }
      if |execs| == 0 {
        return OutOfScript, trace;
      }
      trace := trace + [OpenExec(namespace, name, options.command)];
      match execs[0] {
        case ExecError(code) =>
          return Raised(ApiException(code)), trace;
        case Opened(ch) =>
          var relay := ExecRelay(ch.frames, Stripped);
          trace := trace + relay + [CloseExec];
          returnCode := ch.returnCode;
          return Returned(name), trace;
      }
    }

    /** `delete`: read, delete with a two-second grace period, poll until the 404. */
    method Delete(name: string, script: DeleteScript) returns (result: Deletion, trace: seq<Effect>)
      ensures DeleteRun(result, trace) == DeleteSpec(namespace, name, Some(2), script)
    {
      result, trace := DeleteAndConfirm(namespace, name, Some(2), script);
    }
  }
}
