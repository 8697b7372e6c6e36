/**
 * Kocker, the older backend: the same pod, readiness wait and delete loop as
 * kodman, but no volumes, no grace period, no exit code, an unfiltered hash
 * tuple and an untrimmed relay.
 */
module Kocker {
  import opened Wrappers
  import Text
  import opened Naming
  import opened Kube
  import opened Lifecycle
  import opened Streams
  import Kodman

  datatype RunOptions = RunOptions(image: string, command: seq<string>)

  /** `(image, tuple(command), time.time())`: nothing is filtered out. */
  function HashTuple(opts: RunOptions, clock: real): seq<HashItem> {
    [HText(opts.image), HTuple(opts.command), HTime(clock)]
  }

  /**
   * Unlike kodman, kocker hashes the command tuple even when it is empty;
   * kodman leaves an empty command out of its tuple.
   */
  lemma EmptyCommandStillHashed(image: string, clock: real)
    ensures HTuple([]) in HashTuple(RunOptions(image, []), clock)
    ensures HTuple([]) !in Kodman.KeptItems(Kodman.Candidates(Kodman.RunOptions(image, [], []), clock))
  {
    assert HashTuple(RunOptions(image, []), clock)[1] == HTuple([]);
    Kodman.KeptItemsTruthy(Kodman.Candidates(Kodman.RunOptions(image, [], []), clock));
  }

  /** `__hash__`: the tuple hash shifted up by `sys.maxsize + 1`. */
  function OptionsHash(opts: RunOptions, host: Host): (h: int)
    ensures InHashRange(host.tupleHash(HashTuple(opts, host.clock))) ==> 0 <= h <= 2 * MAX_SIZE + 1
  {
    host.tupleHash(HashTuple(opts, host.clock)) + MAX_SIZE + 1
  }

  const POD_PREFIX: string := "kocker-run-"

  /** `f"kocker-run-{hash(options)}"`. */
  function PodNameFor(opts: RunOptions, host: Host): (name: string)
    ensures InHashRange(host.tupleHash(HashTuple(opts, host.clock))) ==>
      |name| > |POD_PREFIX| && name[..|POD_PREFIX|] == POD_PREFIX && Text.AllDigits(name[|POD_PREFIX|..])
  {
    PodName(POD_PREFIX, host.tupleHash(HashTuple(opts, host.clock)))
  }

  /** How a run ends and what it did; kocker keeps no exit code. */
  datatype RunResult = RunResult(outcome: RunOutcome, trace: seq<Effect>)

  /** `Backend.run` against a scripted cluster. */
  function RunSpec(ns: string, opts: RunOptions, host: Host, script: RunScript): (r: RunResult)
    ensures |r.trace| > 0 && r.trace[0] == CreatePod(ns, IdleManifest(PodNameFor(opts, host), opts.image))
    ensures script.createError.Some? ==> r.outcome == Raised(ApiException(script.createError.value)) && |r.trace| == 1
    ensures r.outcome.Returned? ==>
      r.outcome.podName == PodNameFor(opts, host) && |script.execs| > 0 && script.execs[0].Opened?
  {
    var name := PodNameFor(opts, host);
    var created := [CreatePod(ns, IdleManifest(name, opts.image))];
    if script.createError.Some? then RunResult(Raised(ApiException(script.createError.value)), created)
    else
      var waited := created + AwaitTrace(ns, name, script.podReads);
      match AwaitOutcome(script.podReads)
      case Failed(e) => RunResult(Raised(e), waited)
      case StillPending => RunResult(OutOfScript, waited)
      case Scheduled(_) =>
        if |script.execs| == 0 then RunResult(OutOfScript, waited)
        else
          var issued := waited + [OpenExec(ns, name, opts.command)];
          match script.execs[0]
          case ExecError(code) => RunResult(Raised(ApiException(code)), issued)
          case Opened(ch) => RunResult(Returned(name), issued + RelayTrace(ch.frames, Plain) + [CloseExec])
  }

  /**
   * The run's first call creates the idle pod under the derived name; it is
   * the only pod the run creates, and it deletes none.
   */
  lemma RunCreatesOnePodAndDeletesNone(ns: string, opts: RunOptions, host: Host, script: RunScript)
    ensures var t := RunSpec(ns, opts, host, script).trace;
      && |t| > 0 && t[0] == CreatePod(ns, IdleManifest(PodNameFor(opts, host), opts.image))
      && Count(t, ChangesPods) == 1
  {
    var name := PodNameFor(opts, host);
    var created := [CreatePod(ns, IdleManifest(name, opts.image))];
    assert Count(created, ChangesPods) == 1 by {
      assert created[1..] == [];
    }
    if script.createError.None? {
      var waited := created + AwaitTrace(ns, name, script.podReads);
      AwaitOnlyReadsAndSleeps(ns, name, script.podReads);
      CountAppend(created, AwaitTrace(ns, name, script.podReads), ChangesPods);
      if AwaitOutcome(script.podReads).Scheduled? && |script.execs| > 0 {
        var issued := waited + [OpenExec(ns, name, opts.command)];
        CountAppend(waited, [OpenExec(ns, name, opts.command)], ChangesPods);
        if script.execs[0].Opened? {
          var relay := RelayTrace(script.execs[0].channel.frames, Plain);
          RelayNeverChangesPods(script.execs[0].channel.frames, Plain);
          CountAppend(issued + relay, [CloseExec], ChangesPods);
          CountAppend(issued, relay, ChangesPods);
        }
      }
    }
  }

  /**
   * A run that returns gives back the derived name, after relaying the first
   * channel's output exactly as read, and closes that channel last.
   */
  lemma RunReturnsNameAfterPlainRelay(ns: string, opts: RunOptions, host: Host, script: RunScript)
    ensures var r := RunSpec(ns, opts, host, script);
      r.outcome.Returned? ==>
        && r.outcome.podName == PodNameFor(opts, host)
        && |script.execs| > 0 && script.execs[0].Opened?
        && AwaitOutcome(script.podReads).Scheduled?
        && r.trace[|r.trace| - 1] == CloseExec
        && Prints(r.trace) == Prints(RelayTrace(script.execs[0].channel.frames, Plain))
  {
    var r := RunSpec(ns, opts, host, script);
    if r.outcome.Returned? {
      var name := PodNameFor(opts, host);
      var created := [CreatePod(ns, IdleManifest(name, opts.image))];
      var waited := created + AwaitTrace(ns, name, script.podReads);
      var issued := waited + [OpenExec(ns, name, opts.command)];
      var relay := RelayTrace(script.execs[0].channel.frames, Plain);
      AwaitOnlyReadsAndSleeps(ns, name, script.podReads);
      NoPrints(waited);
      assert NoPrintsIn(issued) by {
        assert forall i :: 0 <= i < |issued| ==> !issued[i].Print? by {
          assert forall i :: 0 <= i < |waited| ==> !waited[i].Print?;
        }
      }
      PrintsAppend(issued + relay, [CloseExec]);
      PrintsAppend(issued, relay);
      NoPrints(issued);
      assert Prints([CloseExec]) == [];
    }
  }

  predicate NoPrintsIn(trace: seq<Effect>) {
    forall i :: 0 <= i < |trace| ==> !trace[i].Print?
  }

  lemma {:induction false} NoPrints(trace: seq<Effect>)
    requires NoPrintsIn(trace)
    ensures Prints(trace) == []
  {
    if |trace| > 0 {
      assert NoPrintsIn(trace[1..]) by {
        assert forall i :: 0 <= i < |trace[1..]| ==> trace[1..][i] == trace[i + 1];
      }
      NoPrints(trace[1..]);
    }
  }

  /** The backend object: only the namespace of the current context. */
  class Backend {
    const namespace: string

    constructor (namespace: string)
      ensures this.namespace == namespace
    {
      this.namespace := namespace;
    }

    /** `run(options, rm=True)`: `rm` is never consulted, so the pod is never deleted. */
    method Run(options: RunOptions, rm: bool, host: Host, script: RunScript) returns (outcome: RunOutcome, trace: seq<Effect>)
      ensures RunResult(outcome, trace) == RunSpec(namespace, options, host, script)
      ensures Count(trace, ChangesPods) == 1 && trace[0].CreatePod?
    {
      var name := POD_PREFIX + Text.IntToString(BuiltinHash(OptionsHash(options, host)));
      RunCreatesOnePodAndDeletesNone(namespace, options, host, script);
      trace := [CreatePod(namespace, IdleManifest(name, options.image))];
      if script.createError.Some? {
        return Raised(ApiException(script.createError.value)), trace;
      }
      var ready, waited := AwaitReady(namespace, name, script.podReads);
      trace := trace + waited;
      match ready {
        case Failed(e) =>
          return Raised(e), trace;
        case StillPending =>
          return OutOfScript, trace;
        case Scheduled(_) =>
      }
      if |script.execs| == 0 {
        return OutOfScript, trace;
      }
      trace := trace + [OpenExec(namespace, name, options.command)];
      match script.execs[0] {
        case ExecError(code) =>
          return Raised(ApiException(code)), trace;
        case Opened(ch) =>
          var relay := ExecRelay(ch.frames, Plain);
          trace := trace + relay + [CloseExec];
          return Returned(name), trace;
      }
    }

    /** `delete`: read, delete without a grace period, poll until the 404. */
    method Delete(name: string, script: DeleteScript) returns (result: Deletion, trace: seq<Effect>)
      ensures DeleteRun(result, trace) == DeleteSpec(namespace, name, None, script)
    {
      result, trace := DeleteAndConfirm(namespace, name, None, script);
    }
  }
}
