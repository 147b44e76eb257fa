/** The bounded waits before NodeStageVolume logs in to a volume. */
module Readiness {
  import opened Common
  import opened Transition
  import opened NodeDriver

  const RETRY_COUNT: nat := 6    // VolumeWaitRetryCount
  const WAIT_SECONDS: nat := 2   // VolumeWaitTimeout

  /** One answer of getVolStatus: an error or the phase of the CStorVolume. */
  datatype StatusRead = ReadError | Phase(phase: string)

  predicate Serves(r: StatusRead) { r.Phase? && (r.phase == "Healthy" || r.phase == "Degraded") }

  predicate KeepsWaiting(r: StatusRead) { r.Phase? && !Serves(r) }

  /** Some read within the limit serves, and nothing but waiting comes before it. */
  ghost predicate BecomesReady(answers: nat -> StatusRead) {
    exists i: nat :: i <= RETRY_COUNT && Serves(answers(i)) && forall j: nat :: j < i ==> KeepsWaiting(answers(j))
  }

  lemma {:induction false} BecomesReadyIff(answers: nat -> StatusRead)
    ensures BecomesReady(answers) <==>
            exists i: nat :: i <= 6 && (answers(i) == Phase("Healthy") || answers(i) == Phase("Degraded")) &&
                             forall j: nat :: j < i ==>
                               answers(j).Phase? && answers(j).phase != "Healthy" && answers(j).phase != "Degraded"
  {
    assert forall i: nat :: Serves(answers(i)) <==> answers(i) == Phase("Healthy") || answers(i) == Phase("Degraded");
    assert forall j: nat :: KeepsWaiting(answers(j)) <==>
        answers(j).Phase? && answers(j).phase != "Healthy" && answers(j).phase != "Degraded";
  }

  ghost predicate BecomesReachable(dials: nat -> bool) {
    exists i: nat :: i < RETRY_COUNT && dials(i)
  }

  /** The holder's entry after waiting: it is overwritten once there was anything to wait for. */
  ghost function AfterWaiting(s: State, id: nat, waits: nat): State
    requires Enabled(s, RpcWrite(id, WaitingForVolumeToBeReady))
  {
    if waits == 0 then s else Next(s, RpcWrite(id, WaitingForVolumeToBeReady))
  }

  /** WaitForVolumeToBeReady, called by the Stage handler `id`. */
  method WaitForVolumeToBeReady(d: Driver, id: nat, answers: nat -> StatusRead) returns (ok: bool, asked: nat, slept: nat)
    requires Enabled(d.View(), RpcWrite(id, WaitingForVolumeToBeReady)) && !d.locked
    modifies d
    ensures !d.locked
    ensures ok <==> BecomesReady(answers)
    ensures 1 <= asked <= 7 && slept == 2 * (asked - 1)
    ensures !ok ==> asked == 7 || answers(asked - 1).ReadError?
    ensures asked == 1 ==> d.transition == old(d.transition)
    ensures asked > 1 ==> d.transition == old(d.transition)[old(d.workers)[id].vol := WaitingForVolumeToBeReady]
    ensures d.View() == AfterWaiting(old(d.View()), id, asked - 1)
  {
    asked, slept := 1, 0;
    while KeepsWaiting(answers(asked - 1))
      invariant !d.locked
      invariant 1 <= asked <= RETRY_COUNT + 1 && slept == WAIT_SECONDS * (asked - 1)
      invariant forall j: nat :: j < asked - 1 ==> KeepsWaiting(answers(j))
      invariant d.View() == AfterWaiting(old(d.View()), id, asked - 1)
      decreases RETRY_COUNT + 1 - asked
    {
      if asked - 1 >= RETRY_COUNT {
        return false, asked, slept;
      }
      d.WriteStatus(id, WaitingForVolumeToBeReady);
      slept := slept + WAIT_SECONDS;
      asked := asked + 1;
    }
    ok := Serves(answers(asked - 1));
    if !ok {
      assert answers(asked - 1).ReadError?;
    }
  }

  /** WaitForVolumeToBeReachable. */
  method WaitForVolumeToBeReachable(dials: nat -> bool) returns (ok: bool, dialed: nat, slept: nat)
    ensures ok <==> BecomesReachable(dials)
    ensures 1 <= dialed <= 6 && (!ok ==> dialed == 6)
    ensures slept == 2 * (if ok then dialed - 1 else dialed)
    ensures ok ==> dials(dialed - 1) && forall j: nat :: j < dialed - 1 ==> !dials(j)
  {
    dialed, slept := 0, 0;
    while true
      invariant dialed < RETRY_COUNT && slept == WAIT_SECONDS * dialed
      invariant forall j: nat :: j < dialed ==> !dials(j)
      decreases RETRY_COUNT - dialed
    {
      dialed := dialed + 1;
      if dials(dialed - 1) {
        return true, dialed, slept;
      }
      slept := slept + WAIT_SECONDS;
      if dialed >= RETRY_COUNT {
        return false, dialed, slept;
      }
    }
  }

  /** WaitForVolumeReadyAndReachable: succeeds exactly when the volume becomes ready and then
      reachable, within 7 status answers, 6 dials and 24 seconds of sleep. */
  method WaitForVolumeReadyAndReachable(d: Driver, id: nat, answers: nat -> StatusRead, dials: nat -> bool)
    returns (ok: bool, asked: nat, dialed: nat, slept: nat)
    requires Enabled(d.View(), RpcWrite(id, WaitingForVolumeToBeReady)) && !d.locked
    modifies d
    ensures !d.locked
    ensures ok <==> BecomesReady(answers) && BecomesReachable(dials)
    ensures 1 <= asked <= 7 && dialed <= 6 && slept <= 24
    ensures d.View() == AfterWaiting(old(d.View()), id, asked - 1)
    ensures !BecomesReady(answers) ==> dialed == 0
  {
    dialed := 0;
    ok, asked, slept := WaitForVolumeToBeReady(d, id, answers);
    if !ok {
      return;
    }
    var more: nat;
    ok, dialed, more := WaitForVolumeToBeReachable(dials);
    slept := slept + more;
  }
}
