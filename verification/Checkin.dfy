/**
 * The check-in of the agent: the batch it sends, what it removes once the server accepted,
 * and the cycle of follow-up check-ins. dep and det are the delivery of the two queues, as
 * seen from outside (module Delivery).
 */
module Checkin {
  import opened Prelude
  import opened Truncate
  import Delivery

  const MAX_OUTPUT := 65536
  const MAX_BATCH := 524288
  const MAX_FOLLOW_UPS := 10

  /** serial: the place in the order of production, which tells results apart; status: the other members. */
  datatype DeploymentResult = DeploymentResult(serial: nat, status: nat, output: seq<Byte>)
  datatype DetectionResult = DetectionResult(serial: nat, status: nat)

  datatype Response = Response(id: nat, deployments: nat, detections: nat, update: bool)

  /** A check-in; the jobs of a response, with the number of deployments that ran; the update, or that it is put off. */
  datatype Action =
    | Asked(answer: Option<Response>)
    | Worked(response: Response, deployed: nat)
    | Updated(response: Response)
    | Deferred(response: Response)

  function Shortened(r: DeploymentResult): DeploymentResult {
    MarkerLength();
    r.(output := Truncated(r.output, 64 * 1024))
  }

  // ----- The batch

  /** The encoded size of the first n results of a queue, shortened. */
  function Total(size: DeploymentResult -> nat, q: seq<DeploymentResult>, n: nat): nat
    requires n <= |q|
  {
    if n == 0 then 0 else Total(size, q, n - 1) + size(Shortened(q[n - 1]))
  }

  function Batch(q: seq<DeploymentResult>, n: nat): seq<DeploymentResult>
    requires n <= |q|
  {
    seq(n, i requires 0 <= i < n => Shortened(q[i]))
  }

  /** n results fit the budget, or n is one; and one more would not fit. */
  ghost predicate Fits(size: DeploymentResult -> nat, q: seq<DeploymentResult>, n: nat) {
    && n <= |q| && (q != [] ==> n >= 1)
    && (n > 1 ==> Total(size, q, n) <= 512 * 1024)
    && (0 < n < |q| ==> Total(size, q, n + 1) > 512 * 1024)
  }

  lemma {:induction false} TotalGrows(size: DeploymentResult -> nat, q: seq<DeploymentResult>, m: nat, n: nat)
    requires m <= n <= |q|
    ensures Total(size, q, m) <= Total(size, q, n)
  {
    if m < n {
      TotalGrows(size, q, m, n - 1);
    }
  }

  /** No longer head of the queue fits the budget: the batch is the longest, and there is only one. */
  lemma FitsIsLongest(size: DeploymentResult -> nat, q: seq<DeploymentResult>, n: nat, m: nat)
    requires Fits(size, q, n) && m <= |q|
    ensures Total(size, q, m) <= 512 * 1024 ==> m <= n
    ensures Fits(size, q, m) ==> m == n
  {
    if n < m {
      TotalGrows(size, q, n + 1, m);
    } else if m < n {
      TotalGrows(size, q, m + 1, n);
    }
  }

  function Serials(q: seq<DeploymentResult>): seq<nat> {
    seq(|q|, i requires 0 <= i < |q| => q[i].serial)
  }

  function DetectionSerials(q: seq<DetectionResult>): seq<nat> {
    seq(|q|, i requires 0 <= i < |q| => q[i].serial)
  }

  function DropPrefix<T>(s: seq<T>, n: nat): seq<T> {
    if n >= |s| then [] else s[n..]
  }

  lemma DroppedSerials(q: seq<DeploymentResult>, n: nat)
    ensures Serials(DropPrefix(q, n)) == DropPrefix(Serials(q), n)
  {
  }

  // ----- What a cycle did

  function Count(t: seq<Action>, asked: bool): nat {
    if t == [] then 0
    else Count(t[..|t| - 1], asked) +
         (if (asked && t[|t| - 1].Asked?) || (!asked && t[|t| - 1].Worked?) then 1 else 0)
  }

  /** The responses accepted, in order. */
  function Accepted(t: seq<Action>): seq<Response> {
    if t == [] then []
    else Accepted(t[..|t| - 1]) +
          (if t[|t| - 1].Asked? && t[|t| - 1].answer.Some? then [t[|t| - 1].answer.value] else [])
  }

  /** The responses whose jobs were processed, in order. */
  function Processed(t: seq<Action>): seq<Response> {
    if t == [] then [] else Processed(t[..|t| - 1]) + (if t[|t| - 1].Worked? then [t[|t| - 1].response] else [])
  }

  predicate Final(a: Action) {
    a.Updated? || a.Deferred?
  }

  ghost predicate NoUpdate(t: seq<Action>) {
    forall i :: 0 <= i < |t| ==> !Final(t[i])
  }

  /** Every accepted response was processed once and in order; only a stop may leave the last one out. */
  ghost predicate NothingSkipped(t: seq<Action>, stopped: bool) {
    || Processed(t) == Accepted(t)
    || (stopped && Accepted(t) != [] && Processed(t) == Accepted(t)[..|Accepted(t)| - 1])
  }

  /**
   * The update comes last, after all jobs and without a stop: it is that of the last response processed, if it
   * has one, and followed exactly if the window is open.
   */
  ghost predicate UpdateLast(t: seq<Action>, stopped: bool, window: bool) {
    if NoUpdate(t) then stopped || Processed(t) == [] || !Processed(t)[|Processed(t)| - 1].update
    else
      && !stopped && NoUpdate(t[..|t| - 1]) && Processed(t) != []
      && var last := Processed(t)[|Processed(t)| - 1];
         last.update && t[|t| - 1] == if window then Updated(last) else Deferred(last)
  }

  /**
   * All deployments of the response at i run, unless there is a stop. A check-in follows exactly if there was one
   * and it was not the eleventh batch, again unless there is a stop.
   */
  ghost predicate Followed(t: seq<Action>, i: nat, stopped: bool)
    requires i < |t| && t[i].Worked?
  {
    && (t[i].deployed == t[i].response.deployments || stopped)
    && if i + 1 < |t| && t[i + 1].Asked? then t[i].deployed > 0 && Count(t[..i + 1], false) <= 10
       else t[i].deployed == 0 || Count(t[..i + 1], false) == 11 || stopped
  }

  /** undecided: what follows a batch at the end is still open. */
  ghost predicate FollowedUp(t: seq<Action>, stopped: bool, undecided: bool) {
    forall i: nat :: i < |t| && t[i].Worked? ==>
      if undecided && i + 1 == |t| then t[i].deployed == t[i].response.deployments || stopped
      else Followed(t, i, stopped)
  }

  /** What a whole cycle does. */
  ghost predicate Orderly(t: seq<Action>, stopped: bool, window: bool) {
    && Count(t, true) <= 11 && Count(t, false) <= 11
    && NothingSkipped(t, stopped) && UpdateLast(t, stopped, window) && FollowedUp(t, stopped, false)
  }

  lemma Did(t: seq<Action>, a: Action)
    ensures Count(t + [a], true) == Count(t, true) + (if a.Asked? then 1 else 0)
    ensures Count(t + [a], false) == Count(t, false) + (if a.Worked? then 1 else 0)
    ensures Accepted(t + [a]) == Accepted(t) + (if a.Asked? && a.answer.Some? then [a.answer.value] else [])
    ensures Processed(t + [a]) == Processed(t) + (if a.Worked? then [a.response] else [])
    ensures NoUpdate(t + [a]) <==> NoUpdate(t) && !Final(a)
  {
    assert (t + [a])[..|t|] == t;
    assert NoUpdate(t + [a]) ==> forall i :: 0 <= i < |t| ==> t[i] == (t + [a])[i];
  }

  /** One more action: jobs leave open what follows, a check-in must have been due. */
  lemma FollowedMore(t: seq<Action>, a: Action, stopped: bool, undecided: bool)
    requires FollowedUp(t, stopped, undecided)
    requires a.Worked? ==> a.deployed == a.response.deployments || stopped
    requires t != [] && t[|t| - 1].Worked? ==>
               if a.Asked? then t[|t| - 1].deployed > 0 && Count(t, false) <= 10 else !undecided
    ensures FollowedUp(t + [a], stopped, a.Worked?)
  {
    hide Count, Followed;
    var u := t + [a];
    forall i: nat | i < |t| && t[i].Worked? ensures u[i] == t[i] && Followed(u, i, stopped) {
      if i + 1 == |t| {
        FollowedLast(t, a, stopped, undecided);
      } else {
        FollowedSame(t, u, i, stopped);
      }
    }
  }

  lemma FollowedSame(t: seq<Action>, u: seq<Action>, i: nat, stopped: bool)
    requires t <= u && i + 1 < |t| && t[i].Worked? && Followed(t, i, stopped)
    ensures Followed(u, i, stopped)
  {
    hide Count;
    assert u[..i + 1] == t[..i + 1];
  }

  lemma FollowedLast(t: seq<Action>, a: Action, stopped: bool, undecided: bool)
    requires t != [] && t[|t| - 1].Worked?
    requires if undecided then t[|t| - 1].deployed == t[|t| - 1].response.deployments || stopped
             else Followed(t, |t| - 1, stopped)
    requires if a.Asked? then t[|t| - 1].deployed > 0 && Count(t, false) <= 10 else !undecided
    ensures Followed(t + [a], |t| - 1, stopped)
  {
    hide Count;
    assert (t + [a])[..|t|] == t[..|t|] == t;
  }

  lemma FollowedStill(t: seq<Action>, was: bool, now: bool, undecided: bool)
    requires FollowedUp(t, was, undecided) && (was ==> now)
    ensures FollowedUp(t, now, undecided)
  {
    hide Count;
  }

  /** A batch at the end that nothing has to follow. */
  lemma FollowedEnd(t: seq<Action>, stopped: bool)
    requires FollowedUp(t, stopped, true)
    requires t != [] && t[|t| - 1].Worked? ==> t[|t| - 1].deployed == 0 || Count(t, false) == 11 || stopped
    ensures FollowedUp(t, stopped, false)
  {
    hide Count;
    assert t[..|t|] == t;
  }

  /** Since n, each result produced and each acknowledgement was followed at once by a save. */
  ghost predicate SavedAtOnce(log: seq<Delivery.Event>, n: nat) {
    forall i :: n <= i < |log| && (log[i].Produce? || log[i] == Delivery.Answer(true)) ==>
      i + 1 < |log| && log[i + 1].Save?
  }

  lemma SavedOn(before: seq<Delivery.Event>, log: seq<Delivery.Event>, n: nat)
    requires n <= |before| && before <= log && SavedAtOnce(before, n) && SavedAtOnce(log, |before|)
    ensures SavedAtOnce(log, n)
  {
    assert forall i :: 0 <= i < |before| ==> log[i] == before[i];
  }

  function Statuses(q: seq<DetectionResult>): seq<nat> {
    seq(|q|, i requires 0 <= i < |q| => q[i].status)
  }

  lemma StatusesMore(q: seq<DetectionResult>, r: DetectionResult)
    ensures Statuses(q + [r]) == Statuses(q) + [r.status]
  {
  }

  /** What was found is queued after what was before, in order; a stop may leave the last of it out. */
  ghost predicate Caught(before: seq<nat>, queued: seq<nat>, found: seq<nat>, stopped: bool) {
    exists k: nat :: k <= |found| && (k == |found| || stopped) && queued == before + found[..k]
  }

  lemma CaughtNothing(before: seq<nat>, stopped: bool)
    ensures Caught(before, before, [], stopped)
  {
    assert before + [][..0] == before;
  }

  lemma CaughtMore(before: seq<nat>, queued: seq<nat>, found: seq<nat>, more: seq<nat>, stopped: bool)
    requires Caught(before, queued, found, false)
    ensures Caught(before, queued + more, found + more, stopped)
  {
    var k: nat :| k <= |found| && k == |found| && queued == before + found[..k];
    assert found[..k] == found && (found + more)[..|found + more|] == found + more;
    assert queued + more == before + (found + more)[..|found + more|];
  }

  lemma CaughtMissed(before: seq<nat>, queued: seq<nat>, found: seq<nat>, more: seq<nat>, stopped: bool)
    requires Caught(before, queued, found, stopped)
    ensures Caught(before, queued, found + more, true)
  {
    var k: nat :| k <= |found| && (k == |found| || stopped) && queued == before + found[..k];
    assert (found + more)[..k] == found[..k];
  }

  lemma FoundMore(n: nat, found: seq<nat>, more: seq<nat>)
    requires n <= |found|
    ensures (found + more)[n..] == found[n..] + more
  {
  }

  /** What was found last was queued, or there was a stop in between. */
  lemma CaughtOrMissed(before: seq<nat>, queued: seq<nat>, n: nat, was: seq<nat>, more: seq<nat>, stopped: bool)
    requires n <= |was|
    requires if stopped then Caught(before, queued, was[n..], false)
             else exists q :: Caught(before, q, was[n..], false) && queued == q + more
    ensures Caught(before, queued, (was + more)[n..], stopped)
  {
    hide Caught;
    FoundMore(n, was, more);
    if stopped {
      CaughtMissed(before, queued, was[n..], more, false);
    } else {
      var q :| Caught(before, q, was[n..], false) && queued == q + more;
      CaughtMore(before, q, was[n..], more, false);
    }
  }

  lemma StoppedOrderly(t: seq<Action>, resp: Response, window: bool)
    requires NoUpdate(t) && Count(t, true) <= 11 && Count(t, false) <= 11 && FollowedUp(t, true, false)
    requires Accepted(t) == Processed(t) + [resp]
    ensures Orderly(t, true, window)
  {
    hide Count, FollowedUp;
  }

  /** After the jobs of the last response, nothing being left open. */
  ghost predicate Rested(t: seq<Action>, resp: Response, stopped: bool) {
    && NoUpdate(t) && Count(t, true) <= 11 && Count(t, false) <= 11 && FollowedUp(t, stopped, false)
    && Accepted(t) == Processed(t) && Processed(t) != [] && Processed(t)[|Processed(t)| - 1] == resp
  }

  lemma RestedOrderly(t: seq<Action>, resp: Response, stopped: bool, window: bool)
    requires Rested(t, resp, stopped) && (stopped || !resp.update)
    ensures Orderly(t, stopped, window)
  {
    hide Count, FollowedUp;
  }

  lemma UpdateOrderly(t: seq<Action>, resp: Response, window: bool)
    requires Rested(t, resp, false) && resp.update
    ensures Orderly(t + [if window then Updated(resp) else Deferred(resp)], false, window)
  {
    var a := if window then Updated(resp) else Deferred(resp);
    Did(t, a);
    assert t != [] && (t + [a])[..|t|] == t;
    FollowedMore(t, a, false, false);
    hide Count, FollowedUp;
  }

  datatype Call = Collected(ok: bool) | Answered(ok: bool)

  /** The log of the queue after a request, accepted or not. */
  ghost predicate Requested(before: seq<Delivery.Event>, log: seq<Delivery.Event>, accepted: bool) {
    && before < log && log[|log| - 1] == Delivery.Answer(accepted)
    && forall i :: |before| <= i < |log| - 1 ==> log[i].Send? || log[i].Arrive?
  }

  /** The queues, the log of the first, and what was detected, at some moment. */
  datatype Snapshot = Snapshot(
    deployments: seq<DeploymentResult>,
    detections: seq<DetectionResult>,
    log: seq<Delivery.Event>,
    found: seq<nat>,
    stopped: bool)

  class Agent {
    var pendingDeployments: seq<DeploymentResult>
    var pendingDetections: seq<DetectionResult>
    /** The two queues as they are in state.json. */
    var diskDeployments: seq<DeploymentResult>
    var diskDetections: seq<DetectionResult>
    const size: DeploymentResult -> nat

    var dep: Delivery.Sys
    var det: Delivery.Sys
    ghost var depLog: seq<Delivery.Event>
    ghost var detLog: seq<Delivery.Event>
    ghost const depStart: Delivery.Sys
    ghost const detStart: Delivery.Sys

    var stopped: bool
    var nextResponse: nat
    var trace: seq<Action>

    /** What the outside answered: the calls of the check-ins, each detection, the maintenance window last. */
    ghost var calls: seq<Call>
    ghost var found: seq<nat>
    ghost var detectionRuns: nat
    ghost var window: bool

    constructor (size: DeploymentResult -> nat, dep: Delivery.Sys, det: Delivery.Sys)
      requires Delivery.Started(dep) && Delivery.Started(det)
      ensures Valid() && trace == [] && this.size == size
    {
      pendingDeployments, pendingDetections, diskDeployments, diskDetections, this.size := [], [], [], [], size;
      this.dep, this.det, depStart, detStart, depLog, detLog := dep, det, dep, det, [], [];
      stopped, nextResponse, trace := false, 0, [];
      calls, found, detectionRuns, window := [], [], 0, false;
    }

    /** Both queues are what their delivery says, and the deliveries are possible runs. */
    ghost predicate Valid()
      reads `pendingDeployments, `pendingDetections, `diskDeployments, `diskDetections, `dep, `det, `depLog, `detLog
    {
      && Delivery.Started(depStart) && Delivery.Exec(depStart, depLog) == Some(dep)
      && Delivery.Started(detStart) && Delivery.Exec(detStart, detLog) == Some(det)
      && Serials(pendingDeployments) == dep.mem && DetectionSerials(pendingDetections) == det.mem
      && Serials(diskDeployments) == dep.disk && DetectionSerials(diskDetections) == det.disk
    }

    ghost predicate Quiet()
      reads `pendingDeployments, `pendingDetections, `diskDeployments, `diskDetections, `dep, `det, `depLog, `detLog
    {
      Valid() && dep.awaiting.None? && det.awaiting.None?
    }

    // ----- The outside

    method Deploy(e: Delivery.Event)
      requires Delivery.Exec(depStart, depLog) == Some(dep) && Delivery.Enabled(dep, e)
      modifies `dep, `depLog
      ensures Delivery.Exec(depStart, depLog) == Some(dep) && dep == Delivery.Next(old(dep), e)
      ensures depLog == old(depLog) + [e]
    {
      dep, depLog := Delivery.Next(dep, e), depLog + [e];
      assert depLog[..|depLog| - 1] == old(depLog);
    }

    method Detect(e: Delivery.Event)
      requires Delivery.Exec(detStart, detLog) == Some(det) && Delivery.Enabled(det, e)
      modifies `det, `detLog
      ensures Delivery.Exec(detStart, detLog) == Some(det) && det == Delivery.Next(old(det), e)
      ensures detLog == old(detLog) + [e]
    {
      det, detLog := Delivery.Next(det, e), detLog + [e];
      assert detLog[..|detLog| - 1] == old(detLog);
    }

    method Save()
      requires Quiet()
      modifies `dep, `det, `depLog, `detLog, `diskDeployments, `diskDetections
      ensures Quiet() && exists ok: bool ::
                && depLog == old(depLog) + [Delivery.Save(ok)] && detLog == old(detLog) + [Delivery.Save(ok)]
                && (ok ==> diskDeployments == pendingDeployments && diskDetections == pendingDetections)
    {
      hide Delivery.Exec;
      var ok: bool := *;
      Deploy(Delivery.Save(ok));
      Detect(Delivery.Save(ok));
      if ok {
        diskDeployments, diskDetections := pendingDeployments, pendingDetections;
      }
    }

    /** After a crash at any point the queues are those of state.json, or empty if it cannot be read. */
    method Restart() returns (ghost read: bool)
      requires Valid()
      modifies this
      ensures Quiet()
      ensures pendingDeployments == (if read then old(diskDeployments) else [])
              && pendingDetections == (if read then old(diskDetections) else [])
    {
      hide Delivery.Exec;
      var readable: bool := *;
      read := readable;
      Deploy(Delivery.Crash(readable));
      Detect(Delivery.Crash(readable));
      pendingDeployments := if readable then diskDeployments else [];
      pendingDetections := if readable then diskDetections else [];
      stopped := false;
    }

    method PollStop() returns (r: bool)
      modifies `stopped
      ensures r == stopped && (old(stopped) ==> stopped)
    {
      r := *;
      stopped := stopped || r;
      r := stopped;
    }

    method CollectMetrics() returns (ok: bool)
      modifies `calls
      ensures calls == old(calls) + [Collected(ok)]
    {
      ok := *;
      calls := calls + [Collected(ok)];
    }

    /** The request: whether the server handled it, and whether its answer came and says so. */
    method Post() returns (served: bool, accepted: bool)
      modifies `calls
      ensures (accepted ==> served) && calls == old(calls) + [Answered(accepted)]
    {
      served, accepted := *, *;
      accepted := accepted && served;
      calls := calls + [Answered(accepted)];
    }

    /** What a detection script says after an installation, if it has anything to say. */
    method PostInstallDetection() returns (status: Option<nat>)
      modifies `found
      ensures found == old(found) + if status.Some? then [status.value] else []
    {
      status := *;
      found := found + if status.Some? then [status.value] else [];
    }

    /** The detections of a response: some results. */
    method ProcessDetect() returns (statuses: seq<nat>)
      modifies `found, `detectionRuns
      ensures found == old(found) + statuses && detectionRuns == old(detectionRuns) + 1
    {
      statuses := *;
      found, detectionRuns := found + statuses, detectionRuns + 1;
    }

    method WindowIsActive() returns (open: bool)
      modifies `window
      ensures open == window
    {
      open := *;
      window := open;
    }

    // ----- The agent

    /** Copies of the first results, shortened, as many as fit: at least one, and the longest head that fits. */
    method PendingDeploymentBatch() returns (out: seq<DeploymentResult>)
      ensures Fits(size, pendingDeployments, |out|) && out == Batch(pendingDeployments, |out|)
    {
      hide Truncated, MARKER;
      out := [];
      var total := 0;
      var i := 0;
      while i < |pendingDeployments|
        invariant 0 <= i <= |pendingDeployments| && out == Batch(pendingDeployments, i)
        invariant total == Total(size, pendingDeployments, i) && (i > 1 ==> total <= MAX_BATCH)
      {
        MarkerLength();
        var r := pendingDeployments[i];
        var output := TruncateMiddle(r.output, MAX_OUTPUT);
        r := r.(output := output.value);
        var raw := size(r);
        if |out| > 0 && total + raw > MAX_BATCH {
          break;
        }
        out := out + [r];
        total := total + raw;
        i := i + 1;
      }
    }

    method AckPendingResults(nDep: nat, nDet: nat)
      modifies `pendingDeployments, `pendingDetections
      ensures pendingDeployments == DropPrefix(old(pendingDeployments), nDep)
      ensures pendingDetections == DropPrefix(old(pendingDetections), nDet)
    {
      pendingDeployments := DropPrefix(pendingDeployments, nDep);
      pendingDetections := DropPrefix(pendingDetections, nDet);
    }

    /**
     * One check-in. It fails only if the metrics cannot be collected or the server does not accept it, and then
     * nothing leaves the queues; otherwise exactly what was sent does.
     */
    method DoCheckin() returns (resp: Option<Response>)
      requires Quiet()
      modifies this
      ensures Quiet() && stopped == old(stopped) && found == old(found)
      ensures trace == old(trace) + [Asked(resp)]
      ensures || (calls == old(calls) + [Collected(true), Answered(resp.Some?)]
                  && Requested(old(depLog), depLog, resp.Some?))
              || (calls == old(calls) + [Collected(false)] && resp.None? && depLog == old(depLog))
      ensures resp.None? ==>
                pendingDeployments == old(pendingDeployments) && pendingDetections == old(pendingDetections)
      ensures resp.Some? ==>
                exists n: nat ::
                  && Fits(size, old(pendingDeployments), n)
                  && pendingDeployments == old(pendingDeployments)[n..] && pendingDetections == []
                  && forall i :: 0 <= i < n ==> old(pendingDeployments)[i].serial in dep.server
    {
      hide Valid, Fits;
      var collected := CollectMetrics();
      var accepted := false;
      if collected {
        accepted := SendPending();
      }
      if !accepted {
        trace := trace + [Asked(None)];
        return None;
      }
      var work, detections: nat := *, *;
      var update: bool := *;
      resp := Some(Response(nextResponse, work, detections, update));
      nextResponse := nextResponse + 1;
      trace := trace + [Asked(resp)];
    }

    method SendPending() returns (accepted: bool)
      requires Quiet()
      modifies `pendingDeployments, `pendingDetections, `dep, `det, `depLog, `detLog, `calls
      ensures Quiet() && Requested(old(depLog), depLog, accepted) && calls == old(calls) + [Answered(accepted)]
      ensures !accepted ==> pendingDeployments == old(pendingDeployments) && pendingDetections == old(pendingDetections)
      ensures accepted ==>
                exists n: nat ::
                  && Fits(size, old(pendingDeployments), n)
                  && pendingDeployments == old(pendingDeployments)[n..] && pendingDetections == []
                  && forall i :: 0 <= i < n ==> old(pendingDeployments)[i].serial in dep.server
    {
      hide Delivery.Exec;
      var batch := PendingDeploymentBatch();
      var n, m := |batch|, |pendingDetections|;
      var served;
      served, accepted := Post();
      ghost var q, sent := pendingDeployments, dep.mem;
      assert forall i :: 0 <= i < n ==> sent[i] == q[i].serial;
      assert Fits(size, q, n);
      hide Fits;
      Exchange(n, m, served, accepted);
      if accepted {
        assert forall i :: 0 <= i < n ==> q[i].serial in dep.server by {
          assert forall i :: 0 <= i < n ==> sent[i] in dep.server;
        }
        AckPendingResults(n, m);
        DroppedSerials(q, n);
        assert pendingDeployments == q[n..] && pendingDetections == [];
      }
    }

    /** The request and its answer, as the two deliveries see them. */
    method Exchange(n: nat, m: nat, served: bool, accepted: bool)
      requires Quiet() && n <= |dep.mem| && m <= |det.mem| && (accepted ==> served)
      modifies `dep, `det, `depLog, `detLog
      ensures Delivery.Exec(depStart, depLog) == Some(dep) && Delivery.Exec(detStart, detLog) == Some(det)
      ensures dep.disk == old(dep.disk) && det.disk == old(det.disk)
      ensures dep.awaiting.None? && det.awaiting.None? && Requested(old(depLog), depLog, accepted)
      ensures dep.mem == if accepted then DropPrefix(old(dep.mem), n) else old(dep.mem)
      ensures det.mem == if accepted then DropPrefix(old(det.mem), m) else old(det.mem)
      ensures accepted ==> forall i :: 0 <= i < n ==> old(dep.mem)[i] in dep.server
    {
      hide Delivery.Exec;
      ghost var q := dep.mem;
      Deploy(Delivery.Send(n));
      Detect(Delivery.Send(m));
      var a, b := dep.awaiting.value, det.awaiting.value;
      if served {
        Deploy(Delivery.Arrive(a));
        Detect(Delivery.Arrive(b));
      }
      Deploy(Delivery.Answer(accepted));
      Detect(Delivery.Answer(accepted));
      if accepted {
        forall i | 0 <= i < n ensures q[i] in dep.server {
          assert a[i] == q[i] && a[i] in Delivery.Elements(a);
        }
      }
    }

    /** A deployment result, shortened at once, queued and saved as soon as it is known. */
    method QueueDeployment(status: nat, output: seq<Byte>)
      requires Quiet()
      modifies this
      ensures Quiet() && stopped == old(stopped) && trace == old(trace) && found == old(found)
      ensures detectionRuns == old(detectionRuns)
      ensures pendingDeployments == old(pendingDeployments) +
                [Shortened(DeploymentResult(old(dep).next, status, output))]
      ensures pendingDetections == old(pendingDetections)
      ensures exists ok: bool :: depLog == old(depLog) + [Delivery.Produce, Delivery.Save(ok)]
                && (ok ==> diskDeployments == pendingDeployments)
    {
      MarkerLength();
      hide Delivery.Exec, Truncated, MARKER;
      var short := TruncateMiddle(output, MAX_OUTPUT);
      var r := DeploymentResult(dep.next, status, short.value);
      Deploy(Delivery.Produce);
      pendingDeployments := pendingDeployments + [r];
      Save();
    }

    /** Detection results, queued together and saved. */
    method QueueDetections(statuses: seq<nat>)
      requires Quiet() && statuses != []
      modifies this
      ensures Quiet() && stopped == old(stopped) && trace == old(trace) && found == old(found)
      ensures detectionRuns == old(detectionRuns)
      ensures pendingDeployments == old(pendingDeployments)
      ensures Statuses(pendingDetections) == Statuses(old(pendingDetections)) + statuses
      ensures exists ok: bool :: depLog == old(depLog) + [Delivery.Save(ok)]
                && |detLog| > |old(detLog)| && detLog[|detLog| - 1] == Delivery.Save(ok)
                && (ok ==> diskDetections == pendingDetections)
    {
      hide Delivery.Exec;
      for n := 0 to |statuses|
        invariant Quiet() && stopped == old(stopped) && trace == old(trace) && found == old(found)
        invariant detectionRuns == old(detectionRuns)
        invariant pendingDeployments == old(pendingDeployments) && depLog == old(depLog) && old(detLog) <= detLog
        invariant Statuses(pendingDetections) == Statuses(old(pendingDetections)) + statuses[..n]
      {
        var r := DetectionResult(det.next, statuses[n]);
        Detect(Delivery.Produce);
        StatusesMore(pendingDetections, r);
        pendingDetections := pendingDetections + [r];
        assert statuses[..n + 1] == statuses[..n] + [statuses[n]];
      }
      assert statuses[..|statuses|] == statuses;
      Save();
    }

    ghost function Now(): Snapshot
      reads this
    {
      Snapshot(pendingDeployments, pendingDetections, depLog, found, stopped)
    }

    /** So many deployments later: each has its result in the queue, in order, and each was saved at once. */
    ghost predicate Deployed(s: Snapshot, deployed: nat)
      reads this
    {
      && Quiet() && (s.stopped ==> stopped)
      && |pendingDeployments| == |s.deployments| + deployed && s.deployments <= pendingDeployments
      && s.log <= depLog && SavedAtOnce(depLog, |s.log|)
    }

    /** What was detected since is in the queue, in order, up to a stop. */
    ghost predicate Detected(s: Snapshot)
      reads `pendingDetections, `found, `stopped
    {
      && s.found <= found
      && Caught(Statuses(s.detections), Statuses(pendingDetections), found[|s.found|..], stopped)
    }

    /** The jobs of a response: all its deployments run and their results are queued, unless a stop ends the series. */
    method ProcessCheckinJobs(resp: Response) returns (deployed: nat)
      requires Quiet()
      modifies this
      ensures Deployed(old(Now()), deployed) && Detected(old(Now()))
      ensures deployed <= resp.deployments && (deployed == resp.deployments || stopped)
      ensures trace == old(trace) + [Worked(resp, deployed)]
      ensures || detectionRuns == old(detectionRuns) + (if resp.detections > 0 then 1 else 0)
              || (stopped && detectionRuns == old(detectionRuns))
    {
      ghost var s := Now();
      deployed := ProcessDeployments(resp);
      if resp.detections > 0 {
        RunDetections(s, deployed);
      }
      trace := trace + [Worked(resp, deployed)];
    }

    method ProcessDeployments(resp: Response) returns (deployed: nat)
      requires Quiet()
      modifies this
      ensures Deployed(old(Now()), deployed) && Detected(old(Now())) && trace == old(trace)
      ensures detectionRuns == old(detectionRuns)
      ensures deployed <= resp.deployments && (deployed == resp.deployments || stopped)
    {
      deployed := 0;
      ghost var s := Now();
      assert found[|s.found|..] == [];
      CaughtNothing(Statuses(s.detections), stopped);
      hide Caught;
      while deployed < resp.deployments
        invariant Deployed(s, deployed) && Detected(s) && trace == old(trace) && detectionRuns == old(detectionRuns)
        invariant deployed <= resp.deployments
      {
        var stop := PollStop();
        if stop {
          break;
        }
        var status: nat := *;
        var output: seq<Byte> := *;
        RunDeployment(s, deployed, status, output);
        deployed := deployed + 1;
      }
    }

    /** One deployment: its result is queued, then what was detected after it, unless there is a stop. */
    method RunDeployment(ghost s: Snapshot, ghost deployed: nat, status: nat, output: seq<Byte>)
      requires Deployed(s, deployed) && Detected(s) && !stopped
      modifies this
      ensures Deployed(s, deployed + 1) && Detected(s) && trace == old(trace) && detectionRuns == old(detectionRuns)
    {
      hide Quiet, Caught, Statuses;
      QueueDeployment(status, output);
      ghost var was := found;
      var detection := PostInstallDetection();
      if detection.None? {
        assert found == was;
        return;
      }
      var stop := PollStop();
      if !stop {
        QueueDetections([detection.value]);
      }
      CaughtOrMissed(Statuses(s.detections), Statuses(pendingDetections), |s.found|, was, [detection.value], stopped);
    }

    /** The detections a response asks for: all of them are queued, or none if there is a stop. */
    method RunDetections(ghost s: Snapshot, ghost deployed: nat)
      requires Deployed(s, deployed) && Detected(s)
      modifies this
      ensures Deployed(s, deployed) && Detected(s) && trace == old(trace) && (old(stopped) ==> stopped)
      ensures detectionRuns == old(detectionRuns) + 1 || (stopped && detectionRuns == old(detectionRuns))
    {
      hide Quiet, Caught, Statuses;
      var stop := PollStop();
      if stop {
        CaughtMissed(Statuses(s.detections), Statuses(pendingDetections), found[|s.found|..], [], old(stopped));
        assert found[|s.found|..] + [] == found[|s.found|..];
        return;
      }
      ghost var was := found;
      var statuses := ProcessDetect();
      if statuses == [] {
        assert found == was;
        return;
      }
      stop := PollStop();
      if !stop {
        QueueDetections(statuses);
      }
      CaughtOrMissed(Statuses(s.detections), Statuses(pendingDetections), |s.found|, was, statuses, stopped);
    }

    /** Between two steps of a cycle that did t, in which resp is accepted and not processed yet. */
    ghost predicate InCycle(before: seq<Action>, n: nat, t: seq<Action>, resp: Response, followUps: nat)
      reads this
    {
      && Quiet() && trace == before + t && followUps <= 10 && SavedAtOnce(depLog, n)
      && Count(t, true) == followUps + 1 && Count(t, false) == followUps && NoUpdate(t)
      && Accepted(t) == Processed(t) + [resp] && t != [] && t[|t| - 1].Asked? && FollowedUp(t, stopped, false)
    }

    /** After the jobs of the last response processed. */
    ghost predicate Settled(before: seq<Action>, n: nat, t: seq<Action>, resp: Response)
      reads this
    {
      && Quiet() && trace == before + t && NoUpdate(t) && SavedAtOnce(depLog, n)
      && Count(t, true) <= 11 && Count(t, false) <= 11
      && Accepted(t) == Processed(t) && Processed(t) != [] && Processed(t)[|Processed(t)| - 1] == resp
    }

    /**
     * A whole cycle: bounded, every accepted response processed at once and entirely unless the agent is stopped,
     * followed by another check-in exactly if deployments ran and the bound allows, the update last; and
     * each result and each acknowledgement saved at once.
     */
    method RunCheckin()
      requires Quiet()
      modifies this
      ensures Quiet() && old(trace) < trace && trace[|old(trace)|].Asked?
      ensures Orderly(trace[|old(trace)|..], stopped, window)
      ensures old(depLog) <= depLog && SavedAtOnce(depLog, |old(depLog)|)
    {
      hide Valid;
      ghost var before, n := trace, |depLog|;
      var first := DoCheckin();
      Did([], Asked(first));
      assert [] + [Asked(first)] == [Asked(first)] && trace[|before|..] == [Asked(first)];
      FollowedMore([], Asked(first), stopped, false);
      if first.None? {
        return;
      }
      Save();
      FollowUps(before, n, [Asked(first)], first.value);
    }

    /** The jobs of the first response, then check-ins as long as deployments ran, then the update. */
    method FollowUps(ghost before: seq<Action>, ghost n: nat, ghost t0: seq<Action>, first: Response)
      requires InCycle(before, n, t0, first, 0) && n <= |depLog|
      modifies this
      ensures Quiet() && before <= trace && t0 <= trace[|before|..]
      ensures Orderly(trace[|before|..], stopped, window)
      ensures old(depLog) <= depLog && SavedAtOnce(depLog, n)
    {
      hide Quiet, Count, Accepted, Processed, NoUpdate, FollowedUp, SavedAtOnce, Orderly;
      ghost var t := t0;
      var resp := first;
      var followUps := 0;
      while true
        invariant InCycle(before, n, t, resp, followUps) && old(depLog) <= depLog && t0 <= t
        decreases MAX_FOLLOW_UPS - followUps
      {
        var deployed;
        deployed, t := Work(before, n, t, resp, followUps);
        ghost var was := stopped;
        var stop := PollStop();
        FollowedStill(t, was, stopped, true);
        if deployed == 0 || followUps >= MAX_FOLLOW_UPS || stop {
          FollowedEnd(t, stopped);
          break;
        }
        var next;
        next, t := Recheckin(before, n, t, resp);
        if next.None? {
          break;
        }
        was := stopped;
        stop := PollStop();
        FollowedStill(t, was, stopped, false);
        if stop {
          StoppedOrderly(t, next.value, window);
          assert trace[|before|..] == t;
          return;
        }
        resp := next.value;
        followUps := followUps + 1;
      }
      UpdateAtEnd(before, n, t, resp);
    }

    /** The jobs of the response at hand, as one action of the cycle. */
    method Work(ghost before: seq<Action>, ghost n: nat, ghost t: seq<Action>, resp: Response, ghost followUps: nat)
      returns (deployed: nat, ghost u: seq<Action>)
      requires InCycle(before, n, t, resp, followUps) && n <= |depLog|
      modifies this
      ensures Settled(before, n, u, resp) && FollowedUp(u, stopped, true) && old(depLog) <= depLog
      ensures u == t + [Worked(resp, deployed)] && Count(u, true) == Count(u, false) == followUps + 1
    {
      hide Quiet, Count, Accepted, Processed, NoUpdate, FollowedUp, SavedAtOnce, Detected;
      ghost var log, was := depLog, stopped;
      deployed := ProcessCheckinJobs(resp);
      SavedOn(log, depLog, n);
      FollowedStill(t, was, stopped, false);
      Did(t, Worked(resp, deployed));
      FollowedMore(t, Worked(resp, deployed), stopped, false);
      u := t + [Worked(resp, deployed)];
    }

    /** A check-in that brings the results up; its answer may hold new jobs. */
    method Recheckin(ghost before: seq<Action>, ghost n: nat, ghost t: seq<Action>, last: Response)
      returns (next: Option<Response>, ghost u: seq<Action>)
      requires Settled(before, n, t, last) && Count(t, true) <= 10 && n <= |depLog|
      requires FollowedUp(t, stopped, true) && t != [] && t[|t| - 1].Worked? && t[|t| - 1].deployed > 0
      requires Count(t, false) <= 10
      modifies this
      ensures Quiet() && trace == before + u && stopped == old(stopped) && NoUpdate(u) && u == t + [Asked(next)]
      ensures Count(u, true) == Count(t, true) + 1 && Count(u, false) == Count(t, false) && Processed(u) == Processed(t)
      ensures FollowedUp(u, stopped, false) && old(depLog) <= depLog && SavedAtOnce(depLog, n)
      ensures if next.Some? then Accepted(u) == Processed(u) + [next.value] else Settled(before, n, u, last)
    {
      hide Valid;
      next := DoCheckin();
      Did(t, Asked(next));
      FollowedMore(t, Asked(next), stopped, true);
      u := t + [Asked(next)];
      if next.Some? {
        Save();
      }
    }

    method UpdateAtEnd(ghost before: seq<Action>, ghost n: nat, ghost t: seq<Action>, resp: Response)
      requires Settled(before, n, t, resp) && FollowedUp(t, stopped, false)
      modifies this
      ensures Quiet() && before <= trace && t <= trace[|before|..] && depLog == old(depLog)
      ensures Orderly(trace[|before|..], stopped, window)
    {
      hide Quiet, Count, Accepted, Processed, FollowedUp, SavedAtOnce, Orderly;
      assert trace[|before|..] == t;
      ghost var was := stopped;
      var stop := PollStop();
      FollowedStill(t, was, stopped, false);
      if stop || !resp.update {
        RestedOrderly(t, resp, stopped, window);
        return;
      }
      var open := WindowIsActive();
      UpdateOrderly(t, resp, open);
      if open {
        trace := trace + [Updated(resp)];
        assert trace[|before|..] == t + [Updated(resp)];
      } else {
        trace := trace + [Deferred(resp)];
        assert trace[|before|..] == t + [Deferred(resp)];
      }
    }
  }
}
