/**
 The transition protocol of one node driver, as a step system.

 A step is what the driver does while it holds TransitionVolListLock, or the return of a
 worker. Everything the driver cannot control (which request arrives, what a list call
 answers, which worker runs next) is a parameter of an action, so a theorem about all
 action sequences is a theorem about all interleavings.
 */
module Transition {
  import opened Common

  datatype RpcKind = Stage | Unstage | Publish | Unpublish | Expand

  /** Who holds a volume: a request handler, a remount worker or a cleanup worker. */
  datatype Kind = Rpc(rpc: RpcKind) | Remount | Detach

  datatype Worker = Worker(vol: VolumeId, kind: Kind)

  /** Before Cleanup has returned in New no request is served and no monitor runs. */
  datatype Phase = Starting | Serving

  datatype State = State(
    remountOn: bool,
    phase: Phase,
    transition: map<VolumeId, Status>, // TransitionVolList
    reqMount: map<VolumeId, Status>,   // ReqMountList
    workers: map<nat, Worker>,         // live holders
    nextId: nat,
    cleanupDue: bool,                  // the monitor saw a marked attachment
    leaked: set<VolumeId>)             // history: entries that lost their holder

  /** How a cleanup worker ends. The object that a failed update returns is not the worker's
      own, so neither is the name under which it then deletes an entry. */
  datatype Outcome = DetachFailed | Updated | UpdateFailed(returned: VolumeId)

  datatype Action =
    | Startup(list: seq<Attachment>)
    | RpcArrive(rpc: RpcKind, vol: VolumeId)
    | RpcWrite(id: nat, status: Status)
    | RpcReturn(id: nat)
    | Tick(mounts: Option<seq<MountPoint>>, listed: Option<seq<Attachment>>)
    | MonitorCleanup(answer: Option<seq<Attachment>>)
    | RemountReturn(id: nat)
    | DetachReturn(id: nat, outcome: Outcome)

  function Init(remountOn: bool): State {
    State(remountOn, Starting, map[], map[], map[], 0, false, {})
  }

  ghost predicate Held(s: State, v: VolumeId) {
    exists i :: i in s.workers && s.workers[i].vol == v
  }

  ghost predicate Remounting(s: State, v: VolumeId) {
    exists i :: i in s.workers && s.workers[i] == Worker(v, Remount)
  }

  /** At most one live holder per volume: the node side of the CSI concurrency rule. */
  ghost predicate Exclusive(s: State) {
    forall i, j :: i in s.workers && j in s.workers && s.workers[i].vol == s.workers[j].vol ==> i == j
  }

  /** The status a holder starts with. */
  function FirstStatus(k: Kind): Status {
    match k
    case Rpc(Expand) => ResizeInProgress
    case Rpc(_) => Uninitialized
    case Remount => RemountUnderProgress
    case Detach => UnmountUnderProgress
  }

  /** The statuses a request handler writes while it holds its entry. */
  predicate Writes(k: RpcKind, st: Status) {
    match k
    case Stage => st in {WaitingForCVCBound, WaitingForVolumeToBeReady, MountUnderProgress, Mounted}
    case Unstage => st in {UnmountUnderProgress, Unmounted}
    case _ => false
  }

  predicate StatusOf(k: Kind, st: Status) {
    st == FirstStatus(k) || (k.Rpc? && Writes(k.rpc, st))
  }

  // ----- the monitor's view of a mount list -----

  function FindMount(path: string, mounts: seq<MountPoint>): Option<MountPoint> {
    if mounts == [] then None
    else if mounts[0].path == path then Some(mounts[0])
    else FindMount(path, mounts[1..])
  }

  /** Both paths are mounted and the first mount at the staging path is read-write. */
  predicate Healthy(a: Attachment, mounts: seq<MountPoint>) {
    var staging := FindMount(a.staging, mounts);
    staging.Some? && FindMount(a.target, mounts).Some? && "rw" in staging.value.opts
  }

  /** What the monitor never remounts, whatever the mount list says. */
  predicate Unmonitored(a: Attachment) {
    a.marked || a.accessType == "block" || a.staging == "" || a.target == ""
  }

  // ----- the effects of the actions -----

  function Spawn(s: State, w: Worker): State {
    s.(workers := s.workers[s.nextId := w], nextId := s.nextId + 1)
  }

  function Enter(s: State, v: VolumeId, k: Kind): State {
    Spawn(s.(transition := s.transition[v := FirstStatus(k)], leaked := s.leaked - {v}), Worker(v, k))
  }

  /** addVolumeToTransitionList: the entry is taken only when there is none. */
  function Admit(s: State, rpc: RpcKind, v: VolumeId): State {
    if v in s.transition then s else Enter(s, v, Rpc(rpc))
  }

  function MonitorItem(s: State, mounts: seq<MountPoint>, a: Attachment): State {
    if a.marked then s.(cleanupDue := true)
    else if Unmonitored(a) || Healthy(a, mounts) || a.volume in s.transition then s
    else Enter(s.(reqMount := s.reqMount[a.volume := RemountUnderProgress]), a.volume, Remount)
  }

  function MonitorScan(s: State, mounts: seq<MountPoint>, list: seq<Attachment>): State
    decreases list
  {
    if list == [] then s else MonitorScan(MonitorItem(s, mounts, list[0]), mounts, list[1..])
  }

  /** Cleanup overwrites whatever entry a marked attachment's volume has. */
  function CleanupItem(s: State, a: Attachment): State {
    if a.marked then Enter(s, a.volume, Detach) else s
  }

  function CleanupScan(s: State, list: seq<Attachment>): State
    decreases list
  {
    if list == [] then s else CleanupScan(CleanupItem(s, list[0]), list[1..])
  }

  function Release(s: State, v: VolumeId): State {
    s.(transition := s.transition - {v}, leaked := s.leaked - {v})
  }

  function Exit(s: State, id: nat): State {
    s.(workers := s.workers - {id})
  }

  function DetachExit(s: State, id: nat, outcome: Outcome): State
    requires id in s.workers
  {
    var v := s.workers[id].vol;
    match outcome
    case UpdateFailed(returned) =>
      var t := Release(Exit(s, id), returned);
      if returned == v then t else t.(leaked := t.leaked + {v})
    case _ => Release(Exit(s, id), v)
  }

  predicate Enabled(s: State, a: Action) {
    match a
    case Startup(_) => s.phase.Starting?
    case RpcArrive(_, _) => s.phase.Serving?
    case RpcWrite(id, st) => id in s.workers && s.workers[id].kind.Rpc? && Writes(s.workers[id].kind.rpc, st)
    case RpcReturn(id) => id in s.workers && s.workers[id].kind.Rpc?
    case Tick(_, _) => s.phase.Serving? && s.remountOn && !s.cleanupDue
    case MonitorCleanup(_) => s.phase.Serving? && s.remountOn && s.cleanupDue
    case RemountReturn(id) => id in s.workers && s.workers[id].kind.Remount?
    case DetachReturn(id, _) => id in s.workers && s.workers[id].kind.Detach?
  }

  function Next(s: State, a: Action): State
    requires Enabled(s, a)
  {
    match a
    case Startup(list) => CleanupScan(s, list).(phase := Serving)
    case RpcArrive(rpc, v) => Admit(s, rpc, v)
    case RpcWrite(id, st) => s.(transition := s.transition[s.workers[id].vol := st])
    case RpcReturn(id) => Release(Exit(s, id), s.workers[id].vol)
    case Tick(mounts, list) =>
      if mounts.None? || list.None? then s else MonitorScan(s, mounts.value, list.value)
    case MonitorCleanup(list) =>
      (if list.None? then s else CleanupScan(s, list.value)).(cleanupDue := false)
    case RemountReturn(id) =>
      var v := s.workers[id].vol;
      Release(Exit(s, id), v).(reqMount := s.reqMount - {v})
    case DetachReturn(id, outcome) => DetachExit(s, id, outcome)
  }

  // ----- runs -----

  ghost predicate Run(s: State, acts: seq<Action>)
    decreases acts
  {
    acts == [] || (Enabled(s, acts[0]) && Run(Next(s, acts[0]), acts[1..]))
  }

  ghost function Final(s: State, acts: seq<Action>): State
    requires Run(s, acts)
    decreases acts
  {
    if acts == [] then s else Final(Next(s, acts[0]), acts[1..])
  }

  /** Exclusion holds in every state of the run. */
  ghost predicate AlwaysExclusive(s: State, acts: seq<Action>)
    requires Run(s, acts)
    decreases acts
  {
    Exclusive(s) && (acts == [] || AlwaysExclusive(Next(s, acts[0]), acts[1..]))
  }

  /** Every mark of this scan hits a volume that nobody holds at that moment. */
  ghost predicate GuardedScan(s: State, list: seq<Attachment>)
    decreases list
  {
    list == [] ||
    ((list[0].marked ==> !Held(s, list[0].volume)) && GuardedScan(CleanupItem(s, list[0]), list[1..]))
  }

  ghost predicate Guarded(s: State, a: Action) {
    match a
    case Startup(list) => GuardedScan(s, list)
    case MonitorCleanup(Some(list)) => GuardedScan(s, list)
    case _ => true
  }

  /** A failed update never names a volume that somebody else holds. */
  ghost predicate Benign(s: State, a: Action) {
    match a
    case DetachReturn(id, UpdateFailed(returned)) =>
      (id in s.workers && s.workers[id].vol == returned) || !Held(s, returned)
    case _ => true
  }

  ghost predicate AlwaysGuarded(s: State, acts: seq<Action>)
    requires Run(s, acts)
    decreases acts
  {
    acts == [] || (Guarded(s, acts[0]) && AlwaysGuarded(Next(s, acts[0]), acts[1..]))
  }

  ghost predicate AlwaysBenign(s: State, acts: seq<Action>)
    requires Run(s, acts)
    decreases acts
  {
    acts == [] || (Benign(s, acts[0]) && AlwaysBenign(Next(s, acts[0]), acts[1..]))
  }

  // ----- the invariant -----

  /** The entries are exactly the held and the leaked volumes. */
  ghost predicate EntriesMatch(s: State) {
    && (forall i :: i in s.workers ==> s.workers[i].vol in s.transition)
    && (forall v :: v in s.transition ==> Held(s, v) || v in s.leaked)
    && (forall v :: v in s.leaked ==> v in s.transition && !Held(s, v))
  }

  /** A holder's entry carries a status that only its own kind writes, a leaked one that of the
      cleanup worker that left it behind. */
  ghost predicate StatusesMatch(s: State) {
    && (forall i :: i in s.workers && s.workers[i].vol in s.transition ==>
          StatusOf(s.workers[i].kind, s.transition[s.workers[i].vol]))
    && (forall v :: v in s.leaked && v in s.transition ==> s.transition[v] == UnmountUnderProgress)
  }

  /** ReqMountList is the set of volumes with a live remount worker. */
  ghost predicate ReqMountsMatch(s: State) {
    && (forall v :: v in s.reqMount <==> Remounting(s, v))
    && (!s.remountOn ==> s.reqMount == map[])
  }

  ghost predicate IdsFresh(s: State) {
    forall i :: i in s.workers ==> i < s.nextId
  }

  ghost predicate Inv(s: State) {
    Exclusive(s) && EntriesMatch(s) && StatusesMatch(s) && ReqMountsMatch(s) && IdsFresh(s)
  }

  lemma {:induction false} EnterHeld(s: State, v: VolumeId, k: Kind, x: VolumeId)
    requires IdsFresh(s)
    ensures Held(Enter(s, v, k), x) <==> x == v || Held(s, x)
    ensures Remounting(Enter(s, v, k), x) <==> (x == v && k.Remount?) || Remounting(s, x)
  {
    var u := Enter(s, v, k);
    assert u.workers[s.nextId] == Worker(v, k);
    if i :| i in s.workers && s.workers[i].vol == x {
      assert u.workers[i].vol == x;
    }
    if i :| i in s.workers && s.workers[i] == Worker(x, Remount) {
      assert u.workers[i] == Worker(x, Remount);
    }
  }

  lemma {:induction false} EnterKeepsInv(s: State, v: VolumeId, k: Kind)
    requires Inv(s) && !Held(s, v) && !k.Remount?
    ensures Inv(Enter(s, v, k))
  {
    var u := Enter(s, v, k);
    forall x
      ensures Held(u, x) <==> x == v || Held(s, x)
      ensures Remounting(u, x) <==> Remounting(s, x)
    {
      EnterHeld(s, v, k, x);
    }
    assert EntriesMatch(u);
    assert StatusesMatch(u);
  }

  lemma {:induction false} RemountEnterKeepsInv(s: State, v: VolumeId)
    requires Inv(s) && !Held(s, v) && s.remountOn
    ensures Inv(Enter(s.(reqMount := s.reqMount[v := RemountUnderProgress]), v, Remount))
  {
    var t := s.(reqMount := s.reqMount[v := RemountUnderProgress]);
    var u := Enter(t, v, Remount);
    forall x
      ensures Held(u, x) <==> x == v || Held(s, x)
      ensures Remounting(u, x) <==> x == v || Remounting(s, x)
    {
      EnterHeld(t, v, Remount, x);
      assert Held(t, x) == Held(s, x) && Remounting(t, x) == Remounting(s, x);
    }
    assert EntriesMatch(u);
    assert StatusesMatch(u);
  }

  lemma {:induction false} ExitHeld(s: State, id: nat, x: VolumeId)
    requires Exclusive(s) && id in s.workers
    ensures var w := s.workers[id];
            && (Held(Exit(s, id), x) <==> x != w.vol && Held(s, x))
            && (Remounting(Exit(s, id), x) <==> x != w.vol && Remounting(s, x))
  {
    var u := Exit(s, id);
    if i :| i in s.workers && s.workers[i].vol == x && x != s.workers[id].vol {
      assert u.workers[i].vol == x;
    }
    if i :| i in s.workers && s.workers[i] == Worker(x, Remount) && x != s.workers[id].vol {
      assert u.workers[i] == Worker(x, Remount);
    }
  }

  /** A holder that leaves and releases its own entry. */
  lemma {:induction false} ReleaseKeepsInv(s: State, id: nat)
    requires Inv(s) && id in s.workers
    ensures var v := s.workers[id].vol;
            Inv(Release(Exit(s, id), v).(reqMount := s.reqMount - {v}))
  {
    var v := s.workers[id].vol;
    var u := Release(Exit(s, id), v).(reqMount := s.reqMount - {v});
    forall x
      ensures Held(u, x) <==> x != v && Held(s, x)
      ensures Remounting(u, x) <==> x != v && Remounting(s, x)
    {
      ExitHeld(s, id, x);
      assert Held(u, x) == Held(Exit(s, id), x) && Remounting(u, x) == Remounting(Exit(s, id), x);
    }
    assert Exclusive(u) && EntriesMatch(u) && StatusesMatch(u) && ReqMountsMatch(u);
  }

  /** Only remount workers have an entry in ReqMountList. */
  lemma {:induction false} OthersHaveNoReqMount(s: State, id: nat)
    requires Inv(s) && id in s.workers && !s.workers[id].kind.Remount?
    ensures s.reqMount - {s.workers[id].vol} == s.reqMount
  {
    assert !Remounting(s, s.workers[id].vol);
  }

  /** A cleanup worker that deletes an entry nobody holds and leaves its own behind. */
  lemma {:induction false} StrayReleaseKeepsInv(s: State, id: nat, returned: VolumeId)
    requires Inv(s) && id in s.workers && s.workers[id].kind.Detach?
    requires returned != s.workers[id].vol && !Held(s, returned)
    ensures Inv(DetachExit(s, id, UpdateFailed(returned)))
  {
    var v := s.workers[id].vol;
    var u := DetachExit(s, id, UpdateFailed(returned));
    OthersHaveNoReqMount(s, id);
    forall x
      ensures Held(u, x) <==> x != v && Held(s, x)
      ensures Remounting(u, x) <==> x != v && Remounting(s, x)
    {
      ExitHeld(s, id, x);
      assert Held(u, x) == Held(Exit(s, id), x) && Remounting(u, x) == Remounting(Exit(s, id), x);
    }
    assert EntriesMatch(u) && ReqMountsMatch(u);
  }

  lemma {:induction false} DetachExitKeepsInv(s: State, id: nat, outcome: Outcome)
    requires Inv(s) && id in s.workers && s.workers[id].kind.Detach?
    requires Benign(s, DetachReturn(id, outcome))
    ensures Inv(DetachExit(s, id, outcome))
  {
    var v := s.workers[id].vol;
    if outcome.UpdateFailed? && outcome.returned != v {
      StrayReleaseKeepsInv(s, id, outcome.returned);
    } else {
      OthersHaveNoReqMount(s, id);
      ReleaseKeepsInv(s, id);
      assert DetachExit(s, id, outcome) == Release(Exit(s, id), v).(reqMount := s.reqMount - {v});
    }
  }

  lemma {:induction false} CleanupScanKeepsInv(s: State, list: seq<Attachment>)
    requires Inv(s) && GuardedScan(s, list)
    ensures Inv(CleanupScan(s, list))
    decreases list
  {
    if list != [] {
      if list[0].marked {
        EnterKeepsInv(s, list[0].volume, Detach);
      }
      CleanupScanKeepsInv(CleanupItem(s, list[0]), list[1..]);
    }
  }

  lemma {:induction false} MonitorItemKeepsInv(s: State, mounts: seq<MountPoint>, a: Attachment)
    requires Inv(s) && s.remountOn
    ensures Inv(MonitorItem(s, mounts, a))
  {
    var t := MonitorItem(s, mounts, a);
    if a.marked || Unmonitored(a) || Healthy(a, mounts) || a.volume in s.transition {
      assert forall x :: (Held(t, x) <==> Held(s, x)) && (Remounting(t, x) <==> Remounting(s, x));
    } else {
      RemountEnterKeepsInv(s, a.volume);
    }
  }

  lemma {:induction false} MonitorScanKeepsInv(s: State, mounts: seq<MountPoint>, list: seq<Attachment>)
    requires Inv(s) && s.remountOn
    ensures Inv(MonitorScan(s, mounts, list))
    decreases list
  {
    if list != [] {
      MonitorItemKeepsInv(s, mounts, list[0]);
      MonitorScanKeepsInv(MonitorItem(s, mounts, list[0]), mounts, list[1..]);
    }
  }

  /** Inv does not depend on the phase or on the monitor's flag. */
  lemma {:induction false} InvFrame(s: State, t: State)
    requires Inv(s) && t == s.(phase := t.phase, cleanupDue := t.cleanupDue)
    ensures Inv(t)
  {
    assert forall x :: (Held(t, x) <==> Held(s, x)) && (Remounting(t, x) <==> Remounting(s, x));
    assert EntriesMatch(t) && ReqMountsMatch(t);
  }

  lemma {:induction false} WriteKeepsInv(s: State, id: nat, st: Status)
    requires Inv(s) && Enabled(s, RpcWrite(id, st))
    ensures Inv(Next(s, RpcWrite(id, st)))
  {
    var t := Next(s, RpcWrite(id, st));
    assert forall x :: (Held(t, x) <==> Held(s, x)) && (Remounting(t, x) <==> Remounting(s, x));
    assert EntriesMatch(t) && StatusesMatch(t) && ReqMountsMatch(t);
  }

  /** One guarded, benign step of any worker keeps the invariant. */
  lemma {:induction false} StepKeepsInv(s: State, a: Action)
    requires Inv(s) && Enabled(s, a) && Guarded(s, a) && Benign(s, a)
    ensures Inv(Next(s, a))
  {
    match a
    case Startup(list) =>
      CleanupScanKeepsInv(s, list);
      InvFrame(CleanupScan(s, list), Next(s, a));
    case RpcArrive(rpc, v) =>
      if v !in s.transition {
        EnterKeepsInv(s, v, Rpc(rpc));
      }
    case RpcWrite(id, st) => WriteKeepsInv(s, id, st);
    case RpcReturn(id) =>
      OthersHaveNoReqMount(s, id);
      ReleaseKeepsInv(s, id);
    case Tick(mounts, list) =>
      if mounts.Some? && list.Some? {
        MonitorScanKeepsInv(s, mounts.value, list.value);
      }
    case MonitorCleanup(list) =>
      if list.Some? {
        CleanupScanKeepsInv(s, list.value);
        InvFrame(CleanupScan(s, list.value), Next(s, a));
      } else {
        InvFrame(s, Next(s, a));
      }
    case RemountReturn(id) => ReleaseKeepsInv(s, id);
    case DetachReturn(id, outcome) => DetachExitKeepsInv(s, id, outcome);
  }

  // ----- an unguarded mark is what breaks exclusion -----

  /** A scan only adds workers. */
  lemma {:induction false} CleanupScanKeepsWorkers(s: State, list: seq<Attachment>)
    requires IdsFresh(s)
    ensures IdsFresh(CleanupScan(s, list))
    ensures forall i :: i in s.workers ==>
              i in CleanupScan(s, list).workers && CleanupScan(s, list).workers[i] == s.workers[i]
    decreases list
  {
    if list != [] {
      CleanupScanKeepsWorkers(CleanupItem(s, list[0]), list[1..]);
    }
  }

  lemma {:induction false} UnguardedScanBreaks(s: State, list: seq<Attachment>)
    requires IdsFresh(s) && !GuardedScan(s, list)
    ensures !Exclusive(CleanupScan(s, list))
    decreases list
  {
    var t := CleanupItem(s, list[0]);
    if list[0].marked && Held(s, list[0].volume) {
      var i :| i in s.workers && s.workers[i].vol == list[0].volume;
      assert t.workers[i] == s.workers[i] && t.workers[s.nextId].vol == list[0].volume;
      CleanupScanKeepsWorkers(t, list[1..]);
      assert CleanupScan(t, list[1..]).workers[i].vol == CleanupScan(t, list[1..]).workers[s.nextId].vol;
    } else {
      UnguardedScanBreaks(t, list[1..]);
    }
  }

  lemma {:induction false} UnguardedStepBreaks(s: State, a: Action)
    requires IdsFresh(s) && Enabled(s, a) && !Guarded(s, a)
    ensures !Exclusive(Next(s, a))
  {
    var list := if a.Startup? then a.list else a.answer.value;
    UnguardedScanBreaks(s, list);
    assert Next(s, a).workers == CleanupScan(s, list).workers;
  }

  lemma {:induction false} ExclusionIffGuardedFrom(s: State, acts: seq<Action>)
    requires Inv(s) && Run(s, acts) && AlwaysBenign(s, acts)
    ensures AlwaysExclusive(s, acts) <==> AlwaysGuarded(s, acts)
    ensures AlwaysGuarded(s, acts) ==> Inv(Final(s, acts))
    decreases acts
  {
    if acts != [] {
      if Guarded(s, acts[0]) {
        StepKeepsInv(s, acts[0]);
        ExclusionIffGuardedFrom(Next(s, acts[0]), acts[1..]);
      } else {
        UnguardedStepBreaks(s, acts[0]);
      }
    }
  }

  /** Over every run of a driver, exclusion holds throughout exactly when each Cleanup mark hits
      a volume that nobody holds. */
  lemma {:induction false} ExclusionIffGuarded(remountOn: bool, acts: seq<Action>)
    requires Run(Init(remountOn), acts) && AlwaysBenign(Init(remountOn), acts)
    ensures AlwaysExclusive(Init(remountOn), acts) <==> AlwaysGuarded(Init(remountOn), acts)
  {
    ExclusionIffGuardedFrom(Init(remountOn), acts);
  }

  ghost predicate AlwaysInv(s: State, acts: seq<Action>)
    requires Run(s, acts)
    decreases acts
  {
    Inv(s) && (acts == [] || AlwaysInv(Next(s, acts[0]), acts[1..]))
  }

  /** One step keeps the invariant exactly when its marks are guarded and its release is not that
      of somebody else's entry. */
  lemma {:induction false} StepKeepsInvIff(s: State, a: Action)
    requires Inv(s) && Enabled(s, a)
    ensures Inv(Next(s, a)) <==> Guarded(s, a) && Benign(s, a)
  {
    if !Guarded(s, a) {
      UnguardedStepBreaks(s, a);
    } else if Benign(s, a) {
      StepKeepsInv(s, a);
    } else {
      var j :| j in s.workers && s.workers[j].vol == a.outcome.returned;
      assert j in Next(s, a).workers && Next(s, a).workers[j].vol !in Next(s, a).transition;
    }
  }

  lemma {:induction false} InvariantIffFrom(s: State, acts: seq<Action>)
    requires Inv(s) && Run(s, acts)
    ensures AlwaysInv(s, acts) <==> AlwaysGuarded(s, acts) && AlwaysBenign(s, acts)
    decreases acts
  {
    if acts != [] {
      StepKeepsInvIff(s, acts[0]);
      if Inv(Next(s, acts[0])) {
        InvariantIffFrom(Next(s, acts[0]), acts[1..]);
      }
    }
  }

  /** Over every run of a driver, without any condition on it: the whole invariant holds in all
      states exactly when each mark hits a volume that nobody holds and no failed update makes a
      cleanup worker delete somebody else's entry. */
  lemma {:induction false} InvariantIffGuardedAndBenign(remountOn: bool, acts: seq<Action>)
    requires Run(Init(remountOn), acts)
    ensures AlwaysInv(Init(remountOn), acts) <==>
            AlwaysGuarded(Init(remountOn), acts) && AlwaysBenign(Init(remountOn), acts)
  {
    InvariantIffFrom(Init(remountOn), acts);
  }

  /** The end of some run in which every mark was guarded and every stray release harmless. */
  ghost predicate Reachable(s: State) {
    exists remountOn, acts ::
      && Run(Init(remountOn), acts) && AlwaysGuarded(Init(remountOn), acts) && AlwaysBenign(Init(remountOn), acts)
      && Final(Init(remountOn), acts) == s
  }

  /** In every such state: one holder per volume, the entries are exactly the held and the leaked
      volumes with a status of their holder's kind, and ReqMountList is exactly the set of
      remounting volumes. */
  lemma {:induction false} ReachableIsSound(s: State)
    requires Reachable(s)
    ensures Inv(s)
  {
    var remountOn, acts :|
      && Run(Init(remountOn), acts) && AlwaysGuarded(Init(remountOn), acts) && AlwaysBenign(Init(remountOn), acts)
      && Final(Init(remountOn), acts) == s;
    ExclusionIffGuardedFrom(Init(remountOn), acts);
  }

  // ----- with REMOUNT off the startup marks are always guarded -----

  ghost predicate DistinctMarked(list: seq<Attachment>) {
    forall i, j :: 0 <= i < j < |list| && list[i].marked && list[j].marked ==> list[i].volume != list[j].volume
  }

  lemma {:induction false} DistinctScanIsGuarded(s: State, list: seq<Attachment>)
    requires IdsFresh(s) && DistinctMarked(list)
    requires forall k :: 0 <= k < |list| && list[k].marked ==> !Held(s, list[k].volume)
    ensures GuardedScan(s, list)
    decreases list
  {
    if list != [] {
      var t := CleanupItem(s, list[0]);
      forall k | 0 <= k < |list[1..]| && list[1..][k].marked
        ensures !Held(t, list[1..][k].volume)
      {
        EnterHeld(s, list[0].volume, Detach, list[k + 1].volume);
      }
      DistinctScanIsGuarded(t, list[1..]);
    }
  }

  /** No worker before the first Cleanup. */
  ghost predicate StartupInv(s: State) {
    s.phase.Starting? ==> s.workers == map[]
  }

  /** With REMOUNT off, whatever list Cleanup gets at startup (one attachment per volume) and
      whatever requests and releases follow, every mark is guarded. So the invariant holds in all
      states exactly when no failed update makes a cleanup worker delete somebody else's entry,
      and then exclusion does too. */
  lemma {:induction false} RemountOffIsExclusive(acts: seq<Action>)
    requires Run(Init(false), acts)
    requires forall k :: 0 <= k < |acts| && acts[k].Startup? ==> DistinctMarked(acts[k].list)
    ensures AlwaysGuarded(Init(false), acts)
    ensures AlwaysInv(Init(false), acts) <==> AlwaysBenign(Init(false), acts)
    ensures AlwaysBenign(Init(false), acts) ==> AlwaysExclusive(Init(false), acts) && Inv(Final(Init(false), acts))
  {
    RemountOffIsGuarded(Init(false), acts);
    InvariantIffGuardedAndBenign(false, acts);
    if AlwaysBenign(Init(false), acts) {
      ExclusionIffGuardedFrom(Init(false), acts);
    }
  }

  lemma {:induction false} RemountOffIsGuarded(s: State, acts: seq<Action>)
    requires StartupInv(s) && !s.remountOn && Run(s, acts)
    requires forall k :: 0 <= k < |acts| && acts[k].Startup? ==> DistinctMarked(acts[k].list)
    ensures AlwaysGuarded(s, acts)
    decreases acts
  {
    if acts != [] {
      if acts[0].Startup? {
        DistinctScanIsGuarded(s, acts[0].list);
      }
      StepFrame(s, acts[0]);
      RemountOffIsGuarded(Next(s, acts[0]), acts[1..]);
    }
  }

  lemma {:induction false} CleanupScanFrame(s: State, list: seq<Attachment>)
    ensures CleanupScan(s, list).remountOn == s.remountOn && CleanupScan(s, list).phase == s.phase
    decreases list
  {
    if list != [] {
      CleanupScanFrame(CleanupItem(s, list[0]), list[1..]);
    }
  }

  lemma {:induction false} MonitorScanFrame(s: State, mounts: seq<MountPoint>, list: seq<Attachment>)
    ensures var t := MonitorScan(s, mounts, list); t.remountOn == s.remountOn && t.phase == s.phase
    decreases list
  {
    if list != [] {
      MonitorScanFrame(MonitorItem(s, mounts, list[0]), mounts, list[1..]);
    }
  }

  lemma {:induction false} StepFrame(s: State, a: Action)
    requires Enabled(s, a) && StartupInv(s)
    ensures Next(s, a).remountOn == s.remountOn && StartupInv(Next(s, a))
  {
    match a
    case Startup(list) => CleanupScanFrame(s, list);
    case MonitorCleanup(Some(list)) => CleanupScanFrame(s, list);
    case Tick(Some(mounts), Some(list)) => MonitorScanFrame(s, mounts, list);
    case _ =>
  }

  // ----- nobody but the holder touches a held entry -----

  ghost predicate ActsAs(a: Action, id: nat) {
    match a
    case RpcWrite(i, _) => i == id
    case RpcReturn(i) => i == id
    case RemountReturn(i) => i == id
    case DetachReturn(i, _) => i == id
    case _ => false
  }

  /** The entry of holder `id`, in the state before and after. */
  ghost predicate SameEntry(s: State, t: State, id: nat) {
    && id in s.workers && id in t.workers && t.workers[id] == s.workers[id]
    && s.workers[id].vol in s.transition && s.workers[id].vol in t.transition
    && t.transition[s.workers[id].vol] == s.transition[s.workers[id].vol]
  }

  lemma {:induction false} CleanupScanSparesHeld(s: State, list: seq<Attachment>, id: nat)
    requires Inv(s) && GuardedScan(s, list) && id in s.workers
    ensures SameEntry(s, CleanupScan(s, list), id)
    decreases list
  {
    if list != [] {
      var t := CleanupItem(s, list[0]);
      if list[0].marked {
        EnterKeepsInv(s, list[0].volume, Detach);
      }
      assert SameEntry(s, t, id);
      CleanupScanSparesHeld(t, list[1..], id);
    }
  }

  lemma {:induction false} MonitorItemSparesHeld(s: State, mounts: seq<MountPoint>, a: Attachment, id: nat)
    requires EntriesMatch(s) && IdsFresh(s) && id in s.workers
    ensures SameEntry(s, MonitorItem(s, mounts, a), id)
  {
  }

  lemma {:induction false} MonitorScanSparesHeld(
    s: State, mounts: seq<MountPoint>, list: seq<Attachment>, id: nat)
    requires Inv(s) && s.remountOn && id in s.workers
    ensures SameEntry(s, MonitorScan(s, mounts, list), id)
    decreases list
  {
    if list != [] {
      var t := MonitorItem(s, mounts, list[0]);
      MonitorItemKeepsInv(s, mounts, list[0]);
      MonitorItemSparesHeld(s, mounts, list[0], id);
      MonitorScanSparesHeld(t, mounts, list[1..], id);
    }
  }

  /** In a guarded run no step of another worker writes or deletes a live holder's entry. */
  lemma {:induction false} HolderOwnsEntry(s: State, a: Action, id: nat)
    requires Reachable(s) && Enabled(s, a) && Guarded(s, a) && Benign(s, a)
    requires id in s.workers && !ActsAs(a, id)
    ensures SameEntry(s, Next(s, a), id)
  {
    ReachableIsSound(s);
    match a
    case Startup(list) => CleanupScanSparesHeld(s, list, id);
    case MonitorCleanup(Some(list)) => CleanupScanSparesHeld(s, list, id);
    case Tick(Some(mounts), Some(list)) => MonitorScanSparesHeld(s, mounts, list, id);
    case _ =>
  }

  // ----- what an entry tells a caller -----

  /** Without leaks the guard is exactly the test that the request path and the monitor make. */
  lemma {:induction false} EntryMeansHeld(s: State, v: VolumeId)
    requires Reachable(s) && s.leaked == {}
    ensures v in s.transition <==> Held(s, v)
  {
    ReachableIsSound(s);
  }

  /** A request is admitted exactly when nobody holds the volume and its entry has not leaked,
      and then it is the only holder. */
  lemma {:induction false} AdmittedIff(s: State, rpc: RpcKind, v: VolumeId)
    requires Reachable(s) && Enabled(s, RpcArrive(rpc, v))
    ensures var t := Next(s, RpcArrive(rpc, v));
            && (t != s <==> !Held(s, v) && v !in s.leaked)
            && (t != s ==> t.workers == s.workers[s.nextId := Worker(v, Rpc(rpc))] && Exclusive(t))
  {
    ReachableIsSound(s);
    if v !in s.transition {
      EnterKeepsInv(s, v, Rpc(rpc));
    }
  }

  ghost predicate HeldBy(s: State, v: VolumeId, k: Kind) {
    exists i :: i in s.workers && s.workers[i] == Worker(v, k)
  }

  /** What the status of an entry tells: which kind of holder is at work. Only the entry of a
      cleanup worker can be a leaked one. */
  lemma {:induction false} StatusTellsHolder(s: State, v: VolumeId)
    requires Reachable(s) && v in s.transition
    ensures var st := s.transition[v];
            && (st == RemountUnderProgress <==> v in s.reqMount)
            && (st == ResizeInProgress <==> HeldBy(s, v, Rpc(Expand)))
            && (st in {WaitingForCVCBound, WaitingForVolumeToBeReady, MountUnderProgress, Mounted} ==> HeldBy(s, v, Rpc(Stage)))
            && (st == Unmounted ==> HeldBy(s, v, Rpc(Unstage)))
            && (HeldBy(s, v, Detach) || v in s.leaked ==> st == UnmountUnderProgress)
            && (st == UnmountUnderProgress ==>
                  HeldBy(s, v, Detach) || HeldBy(s, v, Rpc(Unstage)) || v in s.leaked)
            && (st == Uninitialized ==>
                  HeldBy(s, v, Rpc(Stage)) || HeldBy(s, v, Rpc(Unstage)) ||
                  HeldBy(s, v, Rpc(Publish)) || HeldBy(s, v, Rpc(Unpublish)))
  {
    ReachableIsSound(s);
    assert v in s.reqMount <==> HeldBy(s, v, Remount);
    if i :| i in s.workers && s.workers[i].vol == v {
      assert s.workers[i] == Worker(v, s.workers[i].kind) && HeldBy(s, v, s.workers[i].kind);
      assert StatusOf(s.workers[i].kind, s.transition[v]);
    }
  }

  /** A write changes the holder's entry to the status written, and nothing else. */
  lemma {:induction false} WriteIsSeen(s: State, id: nat, st: Status)
    requires Reachable(s) && Enabled(s, RpcWrite(id, st))
    ensures var v, t := s.workers[id].vol, Next(s, RpcWrite(id, st));
            && v in s.transition && t == s.(transition := t.transition)
            && t.transition.Keys == s.transition.Keys && t.transition[v] == st
            && forall x :: x in s.transition && x != v ==> t.transition[x] == s.transition[x]
  {
    ReachableIsSound(s);
  }

  /** A handler or remount worker that returns gives its volume up: no entry in either list, no
      holder; the entries of other volumes stay. */
  lemma {:induction false} ReturnFrees(s: State, a: Action, id: nat)
    requires Reachable(s) && Enabled(s, a) && (a == RpcReturn(id) || a == RemountReturn(id))
    ensures var v, t := s.workers[id].vol, Next(s, a);
            && !Held(t, v) && v !in t.transition && v !in t.reqMount && v !in t.leaked
            && (forall x :: x != v ==> (x in t.transition <==> x in s.transition) && (x in t.reqMount <==> x in s.reqMount))
            && (forall x :: x != v && x in s.transition ==> t.transition[x] == s.transition[x])
  {
    ReachableIsSound(s);
    assert a.RpcReturn? ==> !Remounting(s, s.workers[id].vol);
  }

  /** Every marked volume of the list has the cleanup's entry and a new cleanup worker; the entries
      and holders of all other volumes are as before. */
  lemma {:induction false} CleanupCovers(s: State, list: seq<Attachment>, v: VolumeId)
    requires IdsFresh(s)
    ensures var t := CleanupScan(s, list);
            if exists k :: 0 <= k < |list| && list[k].marked && list[k].volume == v then
              && v in t.transition && t.transition[v] == UnmountUnderProgress
              && exists i :: i !in s.workers && i in t.workers && t.workers[i] == Worker(v, Detach)
            else
              && (v in t.transition <==> v in s.transition)
              && (v in s.transition ==> t.transition[v] == s.transition[v])
              && forall i :: i in t.workers && t.workers[i].vol == v ==> i in s.workers
    decreases list
  {
    if list != [] {
      var u, rest := CleanupItem(s, list[0]), list[1..];
      CleanupCovers(u, rest, v);
      CleanupScanKeepsWorkers(u, rest);
      assert forall k :: 0 <= k < |rest| ==> rest[k] == list[k + 1];
      if k :| 0 <= k < |list| && list[k].marked && list[k].volume == v {
        if k > 0 {
          assert rest[k - 1].marked && rest[k - 1].volume == v;
        } else {
          assert s.nextId !in s.workers && u.workers[s.nextId] == Worker(v, Detach);
          assert CleanupScan(u, rest).workers[s.nextId] == Worker(v, Detach);
        }
      }
    }
  }

  /** A request handler that takes its entry, makes some writes and returns. */
  function Visit(rpc: RpcKind, v: VolumeId, id: nat, writes: seq<Status>): seq<Action> {
    [RpcArrive(rpc, v)] + WritesThenReturn(id, writes)
  }

  function WritesThenReturn(id: nat, writes: seq<Status>): seq<Action>
    decreases writes
  {
    if writes == [] then [RpcReturn(id)] else [RpcWrite(id, writes[0])] + WritesThenReturn(id, writes[1..])
  }

  /** The state in the middle of a visit, when the entry says `st`. */
  function During(s: State, v: VolumeId, rpc: RpcKind, st: Status): State {
    s.(transition := s.transition[v := st], workers := s.workers[s.nextId := Worker(v, Rpc(rpc))], nextId := s.nextId + 1)
  }

  lemma {:induction false} VisitEnds(s: State, v: VolumeId, rpc: RpcKind, st: Status, writes: seq<Status>)
    requires IdsFresh(s) && v !in s.transition && v !in s.leaked
    requires forall k :: 0 <= k < |writes| ==> Writes(rpc, writes[k])
    ensures var t, acts := During(s, v, rpc, st), WritesThenReturn(s.nextId, writes);
            Run(t, acts) && Final(t, acts) == s.(nextId := s.nextId + 1)
    decreases writes
  {
    var t, acts := During(s, v, rpc, st), WritesThenReturn(s.nextId, writes);
    if writes == [] {
      assert t.workers - {s.nextId} == s.workers && t.transition - {v} == s.transition && s.leaked - {v} == s.leaked;
      assert Next(t, acts[0]) == s.(nextId := s.nextId + 1);
    } else {
      assert acts[1..] == WritesThenReturn(s.nextId, writes[1..]);
      assert t.transition[v := writes[0]] == s.transition[v := writes[0]];
      assert Next(t, acts[0]) == During(s, v, rpc, writes[0]);
      VisitEnds(s, v, rpc, writes[0], writes[1..]);
    }
  }

  /** From every state in which the volume is free: NodeStageVolume and NodeUnstageVolume can make
      their writes in the order of their code, and the visit leaves everything as it was. */
  lemma {:induction false} StageAndUnstageVisit(s: State, v: VolumeId, rpc: RpcKind)
    requires s.phase.Serving? && IdsFresh(s) && v !in s.transition && v !in s.leaked
    ensures var writes := if rpc.Stage? then [WaitingForCVCBound, WaitingForVolumeToBeReady, MountUnderProgress, Mounted]
                          else if rpc.Unstage? then [UnmountUnderProgress, Unmounted] else [];
            && Run(s, Visit(rpc, v, s.nextId, writes))
            && Final(s, Visit(rpc, v, s.nextId, writes)) == s.(nextId := s.nextId + 1)
  {
    var writes := if rpc.Stage? then [WaitingForCVCBound, WaitingForVolumeToBeReady, MountUnderProgress, Mounted]
                  else if rpc.Unstage? then [UnmountUnderProgress, Unmounted] else [];
    var acts, first := Visit(rpc, v, s.nextId, writes), FirstStatus(Rpc(rpc));
    VisitEnds(s, v, rpc, first, writes);
    assert s.leaked - {v} == s.leaked;
    assert acts[0] == RpcArrive(rpc, v) && acts[1..] == WritesThenReturn(s.nextId, writes);
    assert Next(s, acts[0]) == During(s, v, rpc, first);
  }

  ghost predicate Marks(a: Action, v: VolumeId) {
    match a
    case Startup(list) => exists k :: 0 <= k < |list| && list[k].marked && list[k].volume == v
    case MonitorCleanup(Some(list)) => exists k :: 0 <= k < |list| && list[k].marked && list[k].volume == v
    case _ => false
  }

  /** A cleanup worker's entry outlives it exactly when its update failed and the returned
      object carried another name. */
  lemma {:induction false} DetachLeaksIff(s: State, id: nat, outcome: Outcome)
    requires Reachable(s) && Enabled(s, DetachReturn(id, outcome))
    ensures var v := s.workers[id].vol;
            v in Next(s, DetachReturn(id, outcome)).transition <==>
            outcome.UpdateFailed? && outcome.returned != v
  {
    ReachableIsSound(s);
  }

  /** Steps that can end a leak of `v`: a new Cleanup mark, or a failed update naming `v`. */
  ghost predicate CanReclaim(a: Action, v: VolumeId) {
    Marks(a, v) || (a.DetachReturn? && a.outcome == UpdateFailed(v))
  }

  lemma {:induction false} CleanupScanKeepsLeak(s: State, list: seq<Attachment>, v: VolumeId)
    requires forall k :: 0 <= k < |list| && list[k].marked ==> list[k].volume != v
    requires v in s.leaked && v in s.transition
    ensures v in CleanupScan(s, list).leaked && v in CleanupScan(s, list).transition
    decreases list
  {
    if list != [] {
      assert list[1..] == [] || list[1] == list[1..][0];
      CleanupScanKeepsLeak(CleanupItem(s, list[0]), list[1..], v);
    }
  }

  lemma {:induction false} MonitorScanKeepsLeak(
    s: State, mounts: seq<MountPoint>, list: seq<Attachment>, v: VolumeId)
    requires v in s.leaked && v in s.transition
    ensures var t := MonitorScan(s, mounts, list); v in t.leaked && v in t.transition
    decreases list
  {
    if list != [] {
      MonitorScanKeepsLeak(MonitorItem(s, mounts, list[0]), mounts, list[1..], v);
    }
  }

  lemma {:induction false} StepKeepsLeak(s: State, a: Action, v: VolumeId)
    requires Inv(s) && Enabled(s, a) && v in s.leaked && !CanReclaim(a, v)
    ensures v in Next(s, a).leaked && v in Next(s, a).transition
  {
    match a
    case Startup(list) => CleanupScanKeepsLeak(s, list, v);
    case MonitorCleanup(Some(list)) => CleanupScanKeepsLeak(s, list, v);
    case Tick(Some(mounts), Some(list)) => MonitorScanKeepsLeak(s, mounts, list, v);
    case _ =>
  }

  /** A leaked volume stays busy over every guarded run without a reclaiming step: no request
      on it is admitted and no remount of it starts. */
  lemma {:induction false} LeakIsPermanent(s: State, acts: seq<Action>, v: VolumeId)
    requires Reachable(s) && Run(s, acts) && AlwaysBenign(s, acts) && AlwaysGuarded(s, acts)
    requires v in s.leaked && forall k :: 0 <= k < |acts| ==> !CanReclaim(acts[k], v)
    ensures v in Final(s, acts).transition && !Held(Final(s, acts), v)
  {
    ReachableIsSound(s);
    LeakStays(s, acts, v);
  }

  lemma {:induction false} LeakStays(s: State, acts: seq<Action>, v: VolumeId)
    requires Inv(s) && Run(s, acts) && AlwaysBenign(s, acts) && AlwaysGuarded(s, acts)
    requires v in s.leaked && forall k :: 0 <= k < |acts| ==> !CanReclaim(acts[k], v)
    ensures v in Final(s, acts).transition && !Held(Final(s, acts), v)
    decreases acts
  {
    if acts != [] {
      StepKeepsInv(s, acts[0]);
      StepKeepsLeak(s, acts[0], v);
      LeakStays(Next(s, acts[0]), acts[1..], v);
    }
  }

  // ----- the run that the unguarded mark admits -----

  /** For every volume and every two request kinds: the monitor's Cleanup marks a volume that a
      request holds, its worker's delete drops that request's entry, and a second request is
      admitted while the first is still live. */
  lemma {:induction false} SecondHolderAdmitted(v: VolumeId, first: RpcKind, second: RpcKind) returns (acts: seq<Action>)
    ensures Run(Init(true), acts) && AlwaysBenign(Init(true), acts)
    ensures var w := Final(Init(true), acts).workers;
            exists i, j :: i != j && i in w && j in w &&
              w[i] == Worker(v, Rpc(first)) && w[j] == Worker(v, Rpc(second))
  {
    var marked := [Attachment(v, true, "mount", "", "", "")];
    var a0, a1 := Startup([]), RpcArrive(first, v);
    var a2, a3 := Tick(Some([]), Some(marked)), MonitorCleanup(Some(marked));
    var a4, a5 := DetachReturn(1, Updated), RpcArrive(second, v);
    var s1 := Next(Init(true), a0);
    var s2 := Next(s1, a1);
    assert s2.workers == map[0 := Worker(v, Rpc(first))];
    assert MonitorScan(s2, [], marked) == MonitorScan(MonitorItem(s2, [], marked[0]), [], []);
    var s3 := Next(s2, a2);
    assert CleanupScan(s3, marked) == CleanupScan(CleanupItem(s3, marked[0]), []);
    var s4 := Next(s3, a3);
    assert s4.workers[1] == Worker(v, Detach);
    var s5 := Next(s4, a4);
    var s6 := Next(s5, a5);
    assert s6.workers[0] == Worker(v, Rpc(first)) && s6.workers[2] == Worker(v, Rpc(second));
    acts := Prepend(s5, a5, [], s6);
    acts := Prepend(s4, a4, acts, s6);
    acts := Prepend(s3, a3, acts, s6);
    acts := Prepend(s2, a2, acts, s6);
    acts := Prepend(s1, a1, acts, s6);
    acts := Prepend(Init(true), a0, acts, s6);
  }

  /** The other way to a second holder, with every mark guarded and REMOUNT off: the failed update
      of a cleanup worker of `u` returns an object named `v`, and the worker's delete drops the
      entry of the request that holds `v`. */
  lemma {:induction false} StrayReleaseAdmitsSecond(u: VolumeId, v: VolumeId, first: RpcKind, second: RpcKind)
    returns (acts: seq<Action>)
    requires u != v
    ensures Run(Init(false), acts) && AlwaysGuarded(Init(false), acts) && !AlwaysBenign(Init(false), acts)
    ensures var w := Final(Init(false), acts).workers;
            exists i, j :: i != j && i in w && j in w &&
              w[i] == Worker(v, Rpc(first)) && w[j] == Worker(v, Rpc(second))
  {
    var marked := [Attachment(u, true, "mount", "", "", "")];
    var a0, a1 := Startup(marked), RpcArrive(first, v);
    var a2, a3 := DetachReturn(0, UpdateFailed(v)), RpcArrive(second, v);
    assert CleanupScan(Init(false), marked) == CleanupScan(CleanupItem(Init(false), marked[0]), []);
    assert GuardedScan(Init(false), marked);
    var s1 := Next(Init(false), a0);
    assert s1.workers == map[0 := Worker(u, Detach)] && s1.transition.Keys == {u};
    var s2 := Next(s1, a1);
    assert s2.workers[1] == Worker(v, Rpc(first));
    var s3 := Next(s2, a2);
    var s4 := Next(s3, a3);
    assert s4.workers[1] == Worker(v, Rpc(first)) && s4.workers[2] == Worker(v, Rpc(second));
    acts := Prepend(s3, a3, [], s4);
    acts := Prepend(s2, a2, acts, s4);
    acts := Prepend(s1, a1, acts, s4);
    acts := Prepend(Init(false), a0, acts, s4);
  }

  lemma {:induction false} Prepend(s: State, a: Action, acts: seq<Action>, end: State) returns (longer: seq<Action>)
    requires Enabled(s, a) && Run(Next(s, a), acts) && Final(Next(s, a), acts) == end
    ensures longer == [a] + acts
    ensures Run(s, longer) && Final(s, longer) == end
    ensures AlwaysBenign(s, longer) <==> Benign(s, a) && AlwaysBenign(Next(s, a), acts)
    ensures AlwaysGuarded(s, longer) <==> Guarded(s, a) && AlwaysGuarded(Next(s, a), acts)
  {
    longer := [a] + acts;
    assert longer[1..] == acts;
  }
}
