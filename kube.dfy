/**
 * The Kubernetes client as the backends see it. The cluster is a finite
 * script of responses; what the backends do to the cluster, the clock and
 * the console is recorded as a trace of effects.
 */
module Kube {
  import opened Wrappers
  import opened Paths
  import opened Naming

  /** `V1PodStatus`; only its phase is consulted. */
  datatype PodStatus = PodStatus(phase: Option<string>)

  /**
   * One answer to `read_namespaced_pod`: a `V1Pod` (with or without a status),
   * an object of another type (with its Python truthiness), or a raised
   * `ApiException` with its HTTP status.
   */
  datatype ReadResp = Pod(status: Option<PodStatus>) | NotPod(truthy: bool) | ReadError(code: int)

  /** What one `update()` of an exec channel makes available; "" means nothing to peek. */
  datatype Frame = Frame(stdout: string, stderr: string)

  /**
   * An exec channel: it reports `is_open()` for exactly as many checks as it
   * has frames, then closes with `returnCode`.
   */
  datatype Channel = Channel(frames: seq<Frame>, returnCode: int)

  /** One answer to `stream(...)`: an open channel, or a raised `ApiException`. */
  datatype ExecResp = Opened(channel: Channel) | ExecError(code: int)

  datatype Container = Container(name: string, image: string, command: seq<string>, args: seq<string>)

  datatype Manifest = Manifest(apiVersion: string, kind: string, podName: string, containers: seq<Container>)

  /** The tar archive `cp_k8s` builds: `source` added under the entry name `arcname`. */
  datatype Chunk = TarArchive(source: Path, arcname: Path)

  datatype Effect =
    | CreatePod(namespace: string, manifest: Manifest)
    | ReadPod(namespace: string, name: string)
    | DeletePod(namespace: string, name: string, gracePeriod: Option<int>)
    | OpenExec(namespace: string, name: string, argv: seq<string>)
    | Update(timeout: nat)
    | WriteStdin(chunk: Chunk)
    | CloseExec
    | Sleep(seconds: nat)
    | Print(line: string)

  /** The calls that add or remove a pod. */
  predicate ChangesPods(e: Effect) {
    e.CreatePod? || e.DeletePod?
  }

  /** How many effects of a trace satisfy `p`. */
  function Count(trace: seq<Effect>, p: Effect -> bool): nat {
    if |trace| == 0 then 0 else (if p(trace[0]) then 1 else 0) + Count(trace[1..], p)
  }

  lemma {:induction false} CountAppend(a: seq<Effect>, b: seq<Effect>, p: Effect -> bool)
    ensures Count(a + b, p) == Count(a, p) + Count(b, p)
  {
    if |a| == 0 {
      assert a + b == b;
    } else {
      assert (a + b)[0] == a[0];
      assert (a + b)[1..] == a[1..] + b;
      CountAppend(a[1..], b, p);
    }
  }

  lemma {:induction false} CountNone(trace: seq<Effect>, p: Effect -> bool)
    requires forall i :: 0 <= i < |trace| ==> !p(trace[i])
    ensures Count(trace, p) == 0
  {
    if |trace| > 0 {
      CountNone(trace[1..], p);
    }
  }

  /** The Python exceptions the backends let escape. */
  datatype Exception = ApiException(status: int) | ValueError(message: string) | TypeError(message: string)

  /** How `Backend.run` ends; `OutOfScript` means the script has no answer for the next call. */
  datatype RunOutcome = Returned(podName: string) | Raised(error: Exception) | OutOfScript

  /** The cluster's answers during one `run`: to the create call, to the reads, to each `stream` call. */
  datatype RunScript = RunScript(createError: Option<int>, podReads: seq<ReadResp>, execs: seq<ExecResp>)

  /** The cluster's answers during one `delete`: to the reads, and to the delete call. */
  datatype DeleteScript = DeleteScript(podReads: seq<ReadResp>, deleteError: Option<int>)

  /** What the run takes from its host: `time.time()`, CPython's tuple hash and the local filesystem. */
  datatype Host = Host(clock: real, tupleHash: seq<HashItem> -> int, fs: HostFs)

  const IDLE_LOOP: string := "trap 'exit 0' SIGTERM; while true;do date;sleep 1; done"

  /** The pod both backends create: one container idling in a shell loop that exits on SIGTERM. */
  function IdleManifest(podName: string, image: string): (m: Manifest)
    ensures m.kind == "Pod" && m.podName == podName && |m.containers| == 1
    ensures m.containers[0].name == "container-name" && m.containers[0].image == image
    ensures m.containers[0].command == ["/bin/sh"] && m.containers[0].args == ["-c", IDLE_LOOP]
  {
    Manifest("v1", "Pod", podName,
      [Container("container-name", image, ["/bin/sh"], ["-c", IDLE_LOOP])])
  }
}
