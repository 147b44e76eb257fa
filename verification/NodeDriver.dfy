/** The process-wide maps of the node driver and the code that changes them under the lock. */
module NodeDriver {
  import opened Common
  import opened Transition
  import Monitor

  /** Cleanup asks for the attachment list this often before it gives up. */
  const CLEANUP_ATTEMPTS: nat := 5

  class Driver {
    var remountOn: bool
    var phase: Phase
    var transition: map<VolumeId, Status>
    var reqMount: map<VolumeId, Status>
    var workers: map<nat, Worker>
    var nextId: nat
    var cleanupDue: bool
    ghost var leaked: set<VolumeId>

    var locked: bool
    var acquisitions: nat

    ghost function View(): State
      reads this
    {
      State(remountOn, phase, transition, reqMount, workers, nextId, cleanupDue, leaked)
    }

    /** One critical section: the lock was taken once and is free again. */
    twostate predicate OneSection()
      reads this
    {
      !locked && acquisitions == old(acquisitions) + 1
    }

    constructor (remount: bool)
      ensures View() == Init(remount) && !locked && acquisitions == 0
    {
      remountOn, phase := remount, Starting;
      transition, reqMount, workers := map[], map[], map[];
      nextId, cleanupDue, leaked := 0, false, {};
      locked, acquisitions := false, 0;
    }

    /** sync.RWMutex is not reentrant. */
    method Lock()
      requires !locked
      modifies this`locked, this`acquisitions
      ensures locked && acquisitions == old(acquisitions) + 1
    {
      locked, acquisitions := true, acquisitions + 1;
    }

    method Unlock()
      requires locked
      modifies this`locked
      ensures !locked
    {
      locked := false;
    }

    method Enter(v: VolumeId, k: Kind)
      requires locked
      modifies this`transition, this`workers, this`nextId, this`leaked
      ensures View() == Transition.Enter(old(View()), v, k)
    {
      transition := transition[v := FirstStatus(k)];
      leaked := leaked - {v};
      workers := workers[nextId := Worker(v, k)];
      nextId := nextId + 1;
    }

    /** addVolumeToTransitionList, as the five request handlers call it. */
    method AddVolume(rpc: RpcKind, v: VolumeId) returns (ok: bool)
      requires phase.Serving? && !locked
      modifies this
      ensures OneSection()
      ensures View() == Next(old(View()), RpcArrive(rpc, v))
      ensures ok <==> v !in old(transition)
      ensures !ok ==> View() == old(View())
    {
      Lock();
      ok := v !in transition;
      if ok {
        Enter(v, Rpc(rpc));
      }
      Unlock();
    }

    /** A handler's status change while it holds the entry. */
    method WriteStatus(id: nat, st: Status)
      requires Enabled(View(), RpcWrite(id, st)) && !locked
      modifies this
      ensures OneSection()
      ensures View() == Next(old(View()), RpcWrite(id, st))
      ensures transition == old(transition)[old(workers)[id].vol := st]
    {
      Lock();
      transition := transition[workers[id].vol := st];
      Unlock();
    }

    /** The deferred removeVolumeFromTransitionList of a handler. */
    method RemoveVolume(id: nat)
      requires Enabled(View(), RpcReturn(id)) && !locked
      modifies this
      ensures OneSection()
      ensures View() == Next(old(View()), RpcReturn(id))
      ensures workers.Keys == old(workers).Keys - {id}
    {
      Lock();
      var v := workers[id].vol;
      workers := workers - {id};
      transition, leaked := transition - {v}, leaked - {v};
      Unlock();
    }

    method FinishRemount(id: nat)
      requires Enabled(View(), RemountReturn(id)) && !locked
      modifies this
      ensures OneSection()
      ensures View() == Next(old(View()), RemountReturn(id))
    {
      Lock();
      var v := workers[id].vol;
      workers := workers - {id};
      transition, leaked := transition - {v}, leaked - {v};
      reqMount := reqMount - {v};
      Unlock();
    }

    /** The end of a cleanup worker: it deletes the entry of the object it holds by then. */
    method FinishDetach(id: nat, outcome: Outcome)
      requires Enabled(View(), DetachReturn(id, outcome)) && !locked
      modifies this
      ensures OneSection()
      ensures View() == Next(old(View()), DetachReturn(id, outcome))
    {
      var own := workers[id].vol;
      var v := if outcome.UpdateFailed? then outcome.returned else own;
      Lock();
      workers := workers - {id};
      transition, leaked := transition - {v}, leaked - {v};
      if v != own {
        leaked := leaked + {own};
      }
      Unlock();
    }

    /** listContains: the first mount at the path. */
    static method ListContains(path: string, mounts: seq<MountPoint>) returns (found: Option<MountPoint>)
      ensures found == FindMount(path, mounts)
      ensures found.Some? ==> exists k :: 0 <= k < |mounts| && mounts[k] == found.value && mounts[k].path == path &&
                                          forall j :: 0 <= j < k ==> mounts[j].path != path
      ensures found.None? ==> forall k :: 0 <= k < |mounts| ==> mounts[k].path != path
    {
      found := None;
      var i := 0;
      while i < |mounts|
        invariant 0 <= i <= |mounts|
        invariant FindMount(path, mounts[i..]) == FindMount(path, mounts)
        invariant forall k :: 0 <= k < i ==> mounts[k].path != path
      {
        if mounts[i].path == path {
          return Some(mounts[i]);
        }
        i := i + 1;
      }
    }

    /** verifyMountOpts. */
    static method VerifyMountOpts(opts: seq<string>, desired: string) returns (ok: bool)
      ensures ok <==> desired in opts
    {
      var i := 0;
      while i < |opts|
        invariant 0 <= i <= |opts|
        invariant desired !in opts[..i]
      {
        if opts[i] == desired {
          return true;
        }
        i := i + 1;
      }
      return false;
    }

    /** The monitor's test of one attachment against the fetched mount list. */
    static method LooksGood(a: Attachment, mounts: seq<MountPoint>) returns (ok: bool)
      ensures ok <==> Healthy(a, mounts)
      ensures ok <==> Monitor.FirstIsWritable(a.staging, mounts) && Monitor.MountedAt(a.target, mounts)
    {
      Monitor.HealthyIff(a, mounts);
      var staging := ListContains(a.staging, mounts);
      var target := ListContains(a.target, mounts);
      if staging.None? || target.None? {
        return false;
      }
      ok := VerifyMountOpts(staging.value.opts, "rw");
    }

    /** One iteration of MonitorMounts after the ticker fired. */
    method MonitorTick(mounts: Option<seq<MountPoint>>, list: Option<seq<Attachment>>)
      requires Enabled(View(), Tick(mounts, list)) && !locked
      modifies this
      ensures OneSection()
      ensures View() == Next(old(View()), Tick(mounts, list))
      ensures mounts.None? || list.None? ==> View() == old(View())
      ensures mounts.Some? && list.Some? ==>
                forall k :: 0 <= k < |list.value| ==>
                  && (list.value[k].marked ==> cleanupDue)
                  && (Monitor.NeedsRemount(list.value[k], mounts.value) ==> list.value[k].volume in transition)
    {
      Lock();
      if mounts.None? {
        Unlock();
        return;
      }
      if list.None? {
        Unlock();
        return;
      }
      var i := 0;
      while i < |list.value|
        invariant 0 <= i <= |list.value|
        invariant locked && acquisitions == old(acquisitions) + 1
        invariant MonitorScan(View(), mounts.value, list.value[i..]) ==
                  MonitorScan(old(View()), mounts.value, list.value)
      {
        var a := list.value[i];
        assert list.value[i..][1..] == list.value[i + 1..];
        i := i + 1;
        if a.marked {
          cleanupDue := true;
          continue;
        }
        if a.accessType == "block" {
          continue;
        }
        if a.staging == "" || a.target == "" {
          continue;
        }
        var good := LooksGood(a, mounts.value);
        if good {
          continue;
        }
        if a.volume !in transition {
          reqMount := reqMount[a.volume := RemountUnderProgress];
          Enter(a.volume, Remount);
        }
      }
      Unlock();
      forall k | 0 <= k < |list.value|
        ensures list.value[k].marked ==> cleanupDue
        ensures Monitor.NeedsRemount(list.value[k], mounts.value) ==> list.value[k].volume in transition
      {
        Monitor.ScanCovers(old(View()), mounts.value, list.value, k);
      }
    }

    /** Cleanup: list with retries, then mark and spawn, all under the lock. The answers of the
        list calls are given in order. */
    method Cleanup(answers: nat -> Option<seq<Attachment>>) returns (failed: bool, asked: nat)
      requires !locked
      modifies this
      ensures OneSection()
      ensures 1 <= asked <= 5
      ensures forall k :: 0 <= k < asked - 1 ==> answers(k).None?
      ensures failed <==> answers(asked - 1).None?
      ensures failed ==> asked == 5 && View() == old(View())
      ensures !failed ==> View() == CleanupScan(old(View()), answers(asked - 1).value)
    {
      Lock();
      asked := 0;
      while answers(asked).None?
        invariant asked < CLEANUP_ATTEMPTS
        invariant forall k :: 0 <= k < asked ==> answers(k).None?
        decreases CLEANUP_ATTEMPTS - asked
      {
        asked := asked + 1;
        if asked == CLEANUP_ATTEMPTS {
          Unlock();
          return true, asked;
        }
      }
      var list := answers(asked).value;
      asked, failed := asked + 1, false;
      var i := 0;
      while i < |list|
        invariant 0 <= i <= |list|
        invariant locked && acquisitions == old(acquisitions) + 1
        invariant CleanupScan(View(), list[i..]) == CleanupScan(old(View()), list)
      {
        assert list[i..][1..] == list[i + 1..];
        if list[i].marked {
          Enter(list[i].volume, Detach);
        }
        i := i + 1;
      }
      Unlock();
    }

    /** The node branch of New: no request is served and no monitor runs before Cleanup has
        succeeded; when it fails the process ends. */
    method StartNode(answers: nat -> Option<seq<Attachment>>) returns (ok: bool, asked: nat)
      requires phase.Starting? && !locked
      modifies this
      ensures OneSection()
      ensures 1 <= asked <= 5 && forall k :: 0 <= k < asked - 1 ==> answers(k).None?
      ensures ok <==> answers(asked - 1).Some?
      ensures ok ==> View() == Next(old(View()), Startup(answers(asked - 1).value)) && phase.Serving?
      ensures !ok ==> asked == 5 && View() == old(View())
    {
      var failed: bool;
      failed, asked := Cleanup(answers);
      if failed {
        return false, asked;
      }
      phase := Serving;
      ok := true;
    }

    /** The end of an iteration of MonitorMounts that saw a marked attachment. It ignores the
        error of Cleanup, and the next iteration begins with the flag off. */
    method MonitorEnd(answers: nat -> Option<seq<Attachment>>) returns (asked: nat)
      requires phase.Serving? && remountOn && cleanupDue && !locked
      modifies this
      ensures OneSection()
      ensures 1 <= asked <= 5 && forall k :: 0 <= k < asked - 1 ==> answers(k).None?
      ensures answers(asked - 1).None? ==> asked == 5
      ensures View() == Next(old(View()), MonitorCleanup(answers(asked - 1)))
    {
      var failed: bool;
      failed, asked := Cleanup(answers);
      cleanupDue := false;
    }

    /** One whole iteration that nothing else interrupts: it is either the one step of the tick, or
        that step and the cleanup step, and in both cases the monitor can tick again. */
    method MonitorIteration(mounts: Option<seq<MountPoint>>, list: Option<seq<Attachment>>,
        answers: nat -> Option<seq<Attachment>>)
      requires Enabled(View(), Tick(mounts, list)) && !locked
      modifies this
      ensures var t := Next(old(View()), Tick(mounts, list));
              if t.cleanupDue then exists k :: 0 <= k < 5 && Enabled(t, MonitorCleanup(answers(k))) &&
                                               View() == Next(t, MonitorCleanup(answers(k)))
              else View() == t
      ensures !locked && phase.Serving? && remountOn && !cleanupDue
    {
      ghost var s := View();
      MonitorTick(mounts, list);
      if mounts.Some? && list.Some? {
        MonitorScanFrame(s, mounts.value, list.value);
      }
      ghost var t := View();
      if cleanupDue {
        var asked := MonitorEnd(answers);
        if answers(asked - 1).Some? {
          CleanupScanFrame(t, answers(asked - 1).value);
        }
        assert Enabled(t, MonitorCleanup(answers(asked - 1)));
      }
    }
  }
}
