/**
 * The two polling loops both backends share, line for line: waiting for a
 * new pod to leave "Pending", and deleting a pod and waiting for the 404.
 */
module Lifecycle {
  import opened Wrappers
  import opened Kube

  // ----- Readiness: `while True: read; ...; time.sleep(1)` -----

  /** A read that keeps the wait going: a pod whose status has the exact phase "Pending". */
  predicate IsPending(r: ReadResp) {
    r.Pod? && r.status.Some? && r.status.value.phase == Some("Pending")
  }

  /** The number of leading "Pending" reads. */
  function PendingPrefix(resps: seq<ReadResp>): (k: nat)
    ensures k <= |resps|
    ensures forall i :: 0 <= i < k ==> IsPending(resps[i])
    ensures k < |resps| ==> !IsPending(resps[k])
  {
    if |resps| == 0 || !IsPending(resps[0]) then 0 else 1 + PendingPrefix(resps[1..])
  }

  /** How the wait ends; `StillPending` means every scripted read was "Pending". */
  datatype Readiness = Scheduled(phase: Option<string>) | Failed(error: Exception) | StillPending

  /** How the wait ends on a read that is not "Pending". */
  function StopReason(r: ReadResp): Readiness {
    match r
    case Pod(None) => Failed(ValueError("Empty pod status"))
    case Pod(Some(status)) => Scheduled(status.phase)
    case NotPod(_) => Failed(TypeError("Unexpected response type"))
    case ReadError(code) => Failed(ApiException(code))
  }

  /** The wait, read by read. */
  function AwaitOutcome(resps: seq<ReadResp>): Readiness {
    if |resps| == 0 then StillPending
    else if IsPending(resps[0]) then AwaitOutcome(resps[1..])
    else StopReason(resps[0])
  }

  function AwaitTrace(ns: string, name: string, resps: seq<ReadResp>): seq<Effect> {
    if |resps| == 0 then []
    else if IsPending(resps[0]) then [ReadPod(ns, name), Sleep(1)] + AwaitTrace(ns, name, resps[1..])
    else [ReadPod(ns, name)]
  }

  /** `k` rounds of a read followed by a one-second sleep. */
  function PollRounds(ns: string, name: string, k: nat): seq<Effect> {
    if k == 0 then [] else [ReadPod(ns, name), Sleep(1)] + PollRounds(ns, name, k - 1)
  }

  /**
   * The wait stops at the first read that is not "Pending" (a missing phase or
   * "Failed" included), with an error for a pod without status or a response
   * that is not a pod; it sleeps once after every "Pending" read and reads
   * nothing after the stop.
   */
  lemma {:induction false} AwaitStopsAtFirstNonPending(ns: string, name: string, resps: seq<ReadResp>)
    ensures var k := PendingPrefix(resps);
      && AwaitOutcome(resps) == (if k < |resps| then StopReason(resps[k]) else StillPending)
      && AwaitTrace(ns, name, resps) == PollRounds(ns, name, k) + (if k < |resps| then [ReadPod(ns, name)] else [])
  {
    if |resps| > 0 && IsPending(resps[0]) {
      AwaitStopsAtFirstNonPending(ns, name, resps[1..]);
    }
  }

  /** The rounds alternate a read and a one-second sleep. */
  lemma {:induction false} PollRoundsAlternate(ns: string, name: string, k: nat)
    ensures |PollRounds(ns, name, k)| == 2 * k
    ensures forall i :: 0 <= i < 2 * k ==>
      PollRounds(ns, name, k)[i] == if i % 2 == 0 then ReadPod(ns, name) else Sleep(1)
  {
    if k > 0 {
      PollRoundsAlternate(ns, name, k - 1);
    }
  }

  /** The wait only reads the pod and sleeps; in particular it creates and deletes nothing. */
  lemma {:induction false} AwaitOnlyReadsAndSleeps(ns: string, name: string, resps: seq<ReadResp>)
    ensures forall i :: 0 <= i < |AwaitTrace(ns, name, resps)| ==>
      AwaitTrace(ns, name, resps)[i] == ReadPod(ns, name) || AwaitTrace(ns, name, resps)[i] == Sleep(1)
    ensures Count(AwaitTrace(ns, name, resps), ChangesPods) == 0
  {
    if |resps| > 0 && IsPending(resps[0]) {
      AwaitOnlyReadsAndSleeps(ns, name, resps[1..]);
      var rest := AwaitTrace(ns, name, resps[1..]);
      assert AwaitTrace(ns, name, resps) == [ReadPod(ns, name), Sleep(1)] + rest;
    }
    CountNone(AwaitTrace(ns, name, resps), ChangesPods);
  }

  /** The readiness loop of `Backend.run`. */
  method AwaitReady(ns: string, name: string, resps: seq<ReadResp>) returns (outcome: Readiness, trace: seq<Effect>)
    ensures outcome == AwaitOutcome(resps)
    ensures trace == AwaitTrace(ns, name, resps)
  {
    trace := [];
    var i := 0;
    while i < |resps|
      invariant 0 <= i <= |resps|
      invariant AwaitOutcome(resps) == AwaitOutcome(resps[i..])
      invariant AwaitTrace(ns, name, resps) == trace + AwaitTrace(ns, name, resps[i..])
    {
      var readResp := resps[i];
      trace := trace + [ReadPod(ns, name)];
      match readResp {
        case Pod(status) =>
          if status.None? {
            return Failed(ValueError("Empty pod status")), trace;
          } else if status.value.phase != Some("Pending") {
            return Scheduled(status.value.phase), trace;
          }
          trace := trace + [Sleep(1)];
        case NotPod(_) =>
          return Failed(TypeError("Unexpected response type")), trace;
        case ReadError(code) =>
          return Failed(ApiException(code)), trace;
      }
      assert resps[i..][1..] == resps[i + 1..];
      i := i + 1;
    }
    return StillPending, trace;
  }

  // ----- Deletion: read, delete, then `while exists_resp: read; time.sleep(2)` -----

  /**
   * How `delete` ends. It never raises: a 404 during polling is `Confirmed`,
   * every other `ApiException` is caught and logged (`Swallowed`), a falsy
   * response ends the loop (`Ended`), and `Unconfirmed` means the script ran out
   * while the pod still existed.
   */
  datatype Deletion = Confirmed | Swallowed(status: int) | Ended | Unconfirmed

  datatype DeleteRun = DeleteRun(result: Deletion, trace: seq<Effect>)

  /** Python truthiness of a response that was not an error; a `V1Pod` is always truthy. */
  predicate Truthy(r: ReadResp) {
    r.Pod? || (r.NotPod? && r.truthy)
  }

  /** The polling after the delete call, read by read. */
  function Confirm(ns: string, name: string, polls: seq<ReadResp>): (r: DeleteRun)
    ensures r.result == Confirmed ==> ReadError(404) in polls
    ensures r.result.Swallowed? ==> r.result.status != 404 && ReadError(r.result.status) in polls
    ensures r.result == Unconfirmed ==> forall i :: 0 <= i < |polls| ==> !polls[i].ReadError? && Truthy(polls[i])
    ensures |r.trace| <= 2 * |polls|
  {
    if |polls| == 0 then DeleteRun(Unconfirmed, [])
    else if polls[0].ReadError? then
      DeleteRun(if polls[0].code == 404 then Confirmed else Swallowed(polls[0].code), [ReadPod(ns, name)])
    else
      var rest := if Truthy(polls[0]) then Confirm(ns, name, polls[1..]) else DeleteRun(Ended, []);
      DeleteRun(rest.result, [ReadPod(ns, name), Sleep(2)] + rest.trace)
  }

  /** `delete`: an existence read, the delete call, then the polling. */
  function DeleteSpec(ns: string, name: string, grace: Option<int>, script: DeleteScript): (r: DeleteRun)
    ensures |r.trace| > 0 ==> r.trace[0] == ReadPod(ns, name)
    ensures r.result == Confirmed ==>
      |script.podReads| > 0 && script.deleteError.None? && ReadError(404) in script.podReads[1..]
    ensures r.result.Swallowed? ==>
      script.deleteError == Some(r.result.status) || ReadError(r.result.status) in script.podReads
  {
    var resps := script.podReads;
    if |resps| == 0 then DeleteRun(Unconfirmed, [])
    else if resps[0].ReadError? then DeleteRun(Swallowed(resps[0].code), [ReadPod(ns, name)])
    else
      var issued := [ReadPod(ns, name), DeletePod(ns, name, grace)];
      if script.deleteError.Some? then DeleteRun(Swallowed(script.deleteError.value), issued)
      else if !Truthy(resps[0]) then DeleteRun(Ended, issued)
      else
        var c := Confirm(ns, name, resps[1..]);
        DeleteRun(c.result, issued + c.trace)
  }

  /** The number of leading polls that succeed with a truthy response. */
  function LivePrefix(polls: seq<ReadResp>): (k: nat)
    ensures k <= |polls|
    ensures forall i :: 0 <= i < k ==> !polls[i].ReadError? && Truthy(polls[i])
    ensures k < |polls| ==> polls[k].ReadError? || !Truthy(polls[k])
  {
    if |polls| == 0 || polls[0].ReadError? || !Truthy(polls[0]) then 0 else 1 + LivePrefix(polls[1..])
  }

  /** The polling issues no further delete call. */
  lemma {:induction false} ConfirmOnlyReadsAndSleeps(ns: string, name: string, polls: seq<ReadResp>)
    ensures forall i :: 0 <= i < |Confirm(ns, name, polls).trace| ==>
      Confirm(ns, name, polls).trace[i] == ReadPod(ns, name) || Confirm(ns, name, polls).trace[i] == Sleep(2)
  {
    if |polls| > 0 && !polls[0].ReadError? && Truthy(polls[0]) {
      ConfirmOnlyReadsAndSleeps(ns, name, polls[1..]);
    }
  }

  /** The polling stops at the first poll that fails or is falsy; only a 404 there confirms. */
  lemma {:induction false} ConfirmStopsAtFirstFailure(ns: string, name: string, polls: seq<ReadResp>)
    ensures var k := LivePrefix(polls);
      Confirm(ns, name, polls).result ==
        if k == |polls| then Unconfirmed
        else if polls[k] == ReadError(404) then Confirmed
        else if polls[k].ReadError? then Swallowed(polls[k].code)
        else Ended
  {
    if |polls| > 0 && !polls[0].ReadError? && Truthy(polls[0]) {
      ConfirmStopsAtFirstFailure(ns, name, polls[1..]);
    }
  }

  /**
   * The delete call is issued, once and as the second call, exactly when the
   * existence read succeeded; a pod that is already gone ends with the 404
   * swallowed and no delete call.
   */
  lemma DeleteIssuedAfterExistenceRead(ns: string, name: string, grace: Option<int>, script: DeleteScript)
    ensures var t := DeleteSpec(ns, name, grace, script).trace;
      (exists i :: 0 <= i < |t| && t[i].DeletePod?)
      <==> |script.podReads| > 0 && !script.podReads[0].ReadError?
    ensures var t := DeleteSpec(ns, name, grace, script).trace;
      |script.podReads| > 0 && !script.podReads[0].ReadError? ==>
        |t| >= 2 && t[0] == ReadPod(ns, name) && t[1] == DeletePod(ns, name, grace)
        && forall i :: 2 <= i < |t| ==> !t[i].DeletePod?
  {
    var resps := script.podReads;
    var t := DeleteSpec(ns, name, grace, script).trace;
    if |resps| > 0 && !resps[0].ReadError? {
      assert t[1].DeletePod?;
      if script.deleteError.None? && Truthy(resps[0]) {
        var c := Confirm(ns, name, resps[1..]);
        ConfirmOnlyReadsAndSleeps(ns, name, resps[1..]);
        assert t == [ReadPod(ns, name), DeletePod(ns, name, grace)] + c.trace;
        forall i | 2 <= i < |t| ensures !t[i].DeletePod? {
          assert t[i] == c.trace[i - 2];
        }
      }
    }
  }

  /**
   * `delete` ends `Confirmed` exactly when the existence read and the delete
   * call succeed and the first poll that fails is a 404, every poll before it
   * having returned a truthy response.
   */
  lemma DeleteConfirmedAtFirst404(ns: string, name: string, grace: Option<int>, script: DeleteScript)
    ensures var resps := script.podReads;
      DeleteSpec(ns, name, grace, script).result == Confirmed
      <==>
      && |resps| > 0 && !resps[0].ReadError? && Truthy(resps[0]) && script.deleteError.None?
      && LivePrefix(resps[1..]) < |resps| - 1
      && resps[1..][LivePrefix(resps[1..])] == ReadError(404)
  {
    if |script.podReads| > 0 {
      ConfirmStopsAtFirstFailure(ns, name, script.podReads[1..]);
    }
  }

  /** A run of the polling that had already produced `done` before it started. */
  function After(done: seq<Effect>, run: DeleteRun): DeleteRun {
    DeleteRun(run.result, done + run.trace)
  }

  /** The polling from read `i` on, in terms of that read and the later ones. */
  lemma ConfirmAt(ns: string, name: string, polls: seq<ReadResp>, i: nat)
    requires i < |polls|
    ensures polls[i].ReadError? ==>
      Confirm(ns, name, polls[i..]) ==
        DeleteRun(if polls[i].code == 404 then Confirmed else Swallowed(polls[i].code), [ReadPod(ns, name)])
    ensures !polls[i].ReadError? && Truthy(polls[i]) ==>
      Confirm(ns, name, polls[i..]) == After([ReadPod(ns, name), Sleep(2)], Confirm(ns, name, polls[i + 1..]))
    ensures !polls[i].ReadError? && !Truthy(polls[i]) ==>
      Confirm(ns, name, polls[i..]) == DeleteRun(Ended, [ReadPod(ns, name), Sleep(2)])
  {
    assert polls[i..][0] == polls[i];
    assert polls[i..][1..] == polls[i + 1..];
    assert [ReadPod(ns, name), Sleep(2)] + [] == [ReadPod(ns, name), Sleep(2)];
  }

  /** `while exists_resp: ...`: poll every two seconds until a read fails or is falsy. */
  method PollUntilGone(ns: string, name: string, existsResp: ReadResp, polls: seq<ReadResp>)
    returns (result: Deletion, trace: seq<Effect>)
    ensures DeleteRun(result, trace) == if Truthy(existsResp) then Confirm(ns, name, polls) else DeleteRun(Ended, [])
  {
    ghost var goal := if Truthy(existsResp) then Confirm(ns, name, polls) else DeleteRun(Ended, []);
    trace := [];
    var current := existsResp;
    var i := 0;
    assert polls[0..] == polls;
    while Truthy(current)
      invariant 0 <= i <= |polls|
      invariant goal == if Truthy(current) then After(trace, Confirm(ns, name, polls[i..])) else DeleteRun(Ended, trace)
      decreases |polls| - i
    {
      if i == |polls| {
        return Unconfirmed, trace;
      }
      ConfirmAt(ns, name, polls, i);
      var r := polls[i];
      if r.ReadError? {
        trace := trace + [ReadPod(ns, name)];
        if r.code == 404 {
          return Confirmed, trace;
        }
        return Swallowed(r.code), trace;
      }
      AppendAssoc(trace, [ReadPod(ns, name), Sleep(2)], Confirm(ns, name, polls[i + 1..]).trace);
      trace := trace + [ReadPod(ns, name), Sleep(2)];
      current := r;
      i := i + 1;
    }
    return Ended, trace;
  }

  /** The delete-and-confirm body of `Backend.delete`, with the grace period the backend passes. */
  method DeleteAndConfirm(ns: string, name: string, grace: Option<int>, script: DeleteScript)
    returns (result: Deletion, trace: seq<Effect>)
    ensures DeleteRun(result, trace) == DeleteSpec(ns, name, grace, script)
  {
    var resps := script.podReads;
    if |resps| == 0 {
      return Unconfirmed, [];
    }
    trace := [ReadPod(ns, name)];
    var existsResp := resps[0];
    if existsResp.ReadError? {
      return Swallowed(existsResp.code), trace;
    }
    trace := trace + [DeletePod(ns, name, grace)];
    if script.deleteError.Some? {
      return Swallowed(script.deleteError.value), trace;
    }
    var polled;
    result, polled := PollUntilGone(ns, name, existsResp, resps[1..]);
    trace := trace + polled;
  }
}
