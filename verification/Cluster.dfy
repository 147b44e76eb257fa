/**
 Attachment records (CStorVolumeAttachment) across the nodes of a cluster, as a step system.

 The API server is a map from record to object. An object's version changes with every write and
 an update is refused when its base is stale. Deleting an object only marks it; it is collected
 later, and not while the driver's finalizer is on it. Each step of a handler is one request to
 the server or one command on the node, so all interleavings of the handlers on all nodes are
 runs. A handler starts only when its node has no other one for the same volume, which is what
 the transition protocol guarantees.
 */
module Cluster {
  import opened Common

  type NodeId(==, !new)

  /** The record of one volume on one node. Record names are taken to be unambiguous (see
      module Naming), so a record is identified by its two labels. */
  datatype Key = Key(vol: VolumeId, node: NodeId)

  datatype Obj = Obj(
    version: nat,
    marked: bool,    // DeletionTimestamp != nil
    finalizer: bool, // the node's finalizer is present
    staging: string,
    target: string,
    device: string)

  /** Where a handler stands, named by what it does next. `base` is the object it fetched and
      `down` are the nodes that its check found not ready or missing. */
  datatype Job =
    | ListOld
    | CheckOld(listing: map<Key, Obj>)
    | Relist(down: set<NodeId>)
    | DeleteOld(todo: set<Key>, down: set<NodeId>)
    | CreateOwn
    | GetOwn
    | Prepared(base: Obj)
    | Attaching(base: Obj)
    | Mounting(base: Obj)
    | Clearing(base: Obj)
    | UnstageGet
    | UnstageDetach(base: Obj)
    | UnstageUpdate(base: Obj)
    | UnstageDelete
    | PublishGet
    | PublishUpdate(base: Obj)
    | CleanupDetach(base: Obj)
    | CleanupUpdate(base: Obj)

  /** hadFinalizer: the record carried the finalizer when the handler started. */
  datatype Worker = Worker(key: Key, job: Job, hadFinalizer: bool)

  datatype State = State(
    store: map<Key, Obj>,
    rev: nat,
    workers: map<nat, Worker>,
    nextId: nat,
    staged: set<Key>) // history: attached by a Stage that succeeded, not detached since

  datatype Request = Stage | Unstage | Publish

  /** prepareVolumeForNode. */
  datatype PrepareStep =
    | List
    | Check(down: set<NodeId>) // nodes found not ready or missing
    | ListAgain
    | Delete(other: Key)
    | Create

  /** The rest of NodeStageVolume. */
  datatype AttachStep =
    | Get
    | SetFinalizer(staging: string, device: string)
    | Skip // already mounted
    | AttachOk
    | AttachFails
    | MountFails
    | Done
    | ClearFinalizer

  /** NodeUnstageVolume and the cleanup worker. */
  datatype DetachStep = Fetch | DetachOk | Update | DeleteOwn

  /** NodePublishVolume and NodeUnpublishVolume. */
  datatype PublishStep = FetchRecord | SetTarget(target: string)

  datatype Action =
    | Start(key: Key, req: Request)
    | StartCleanup(key: Key)
    | Prepare(id: nat, prepare: PrepareStep)
    | Attach(id: nat, attach: AttachStep)
    | Detach(id: nat, detach: DetachStep)
    | Publishing(id: nat, publish: PublishStep)
    | Fail(id: nat)       // an error return or the end of the process
    | Collect(key: Key)   // the garbage collector
    | Mark(key: Key)      // a deletion from outside the driver

  function Init(): State { State(map[], 0, map[], 0, {}) }

  ghost predicate Busy(s: State, k: Key) {
    exists i :: i in s.workers && s.workers[i].key == k
  }

  predicate Finalized(s: State, k: Key) { k in s.store && s.store[k].finalizer }

  predicate HasBase(j: Job) {
    j.Prepared? || j.Attaching? || j.Mounting? || j.Clearing? || j.UnstageDetach? || j.UnstageUpdate? ||
    j.PublishUpdate? || j.CleanupDetach? || j.CleanupUpdate?
  }

  /** The jobs of prepareVolumeForNode after its first list. */
  predicate Preparing(j: Job) { j.CheckOld? || j.Relist? || j.DeleteOld? || j.CreateOwn? }

  // ----- the server -----

  function Put(s: State, k: Key, o: Obj): State {
    s.(store := s.store[k := o.(version := s.rev + 1)], rev := s.rev + 1)
  }

  function MarkDeleted(s: State, k: Key): State {
    if k in s.store then Put(s, k, s.store[k].(marked := true)) else s
  }

  /** The server accepts an update only on the version it was based on. */
  predicate Fits(s: State, k: Key, base: Obj) { k in s.store && s.store[k].version == base.version }

  /** No new finalizer on an object that is being deleted. */
  predicate TakesFinalizer(o: Obj) { o.marked ==> o.finalizer }

  function OfVolume(s: State, v: VolumeId): map<Key, Obj> {
    map k | k in s.store && k.vol == v :: s.store[k]
  }

  // ----- the handlers -----

  function Become(s: State, id: nat, j: Job): State
    requires id in s.workers
  {
    s.(workers := s.workers[id := s.workers[id].(job := j)])
  }

  function Leave(s: State, id: nat): State { s.(workers := s.workers - {id}) }

  function Enter(s: State, k: Key, j: Job): State {
    s.(workers := s.workers[s.nextId := Worker(k, j, Finalized(s, k))], nextId := s.nextId + 1)
  }

  /** The loop of prepareVolumeForNode over the records it listed. */
  predicate CheckPasses(listing: map<Key, Obj>, own: Key, down: set<NodeId>) {
    forall k :: k in listing ==> if k == own then !listing[k].marked else k.node != own.node && k.node in down
  }

  function AfterDelete(todo: set<Key>, down: set<NodeId>): Job {
    if todo == {} then CreateOwn else DeleteOld(todo, down)
  }

  predicate CanPrepare(j: Job, p: PrepareStep) {
    match p
    case List => j.ListOld?
    case Check(_) => j.CheckOld?
    case ListAgain => j.Relist?
    case Delete(k) => j.DeleteOld? && k in j.todo
    case Create => j.CreateOwn?
  }

  function PrepareNext(s: State, id: nat, p: PrepareStep): State
    requires id in s.workers && CanPrepare(s.workers[id].job, p)
  {
    var Worker(own, j, _) := s.workers[id];
    match p
    case List => Become(s, id, CheckOld(OfVolume(s, own.vol)))
    case Check(down) =>
      if CheckPasses(j.listing, own, down) then Become(s, id, Relist(down)) else Leave(s, id)
    case ListAgain => Become(s, id, AfterDelete(OfVolume(s, own.vol).Keys, j.down))
    case Delete(k) =>
      if k in s.store then Become(MarkDeleted(s, k), id, AfterDelete(j.todo - {k}, j.down)) else Leave(s, id)
    case Create =>
      if own in s.store then Leave(s, id)
      else Become(Put(s, own, Obj(0, false, false, "", "", "")), id, GetOwn)
  }

  predicate CanAttach(j: Job, t: AttachStep) {
    match t
    case Get => j.GetOwn?
    case SetFinalizer(staging, device) => j.Prepared? && staging != "" && device != ""
    case Skip => j.Prepared?
    case AttachOk => j.Attaching?
    case AttachFails => j.Attaching?
    case MountFails => j.Mounting?
    case Done => j.Mounting?
    case ClearFinalizer => j.Clearing?
  }

  function AttachNext(s: State, id: nat, t: AttachStep): State
    requires id in s.workers && CanAttach(s.workers[id].job, t)
  {
    var Worker(own, j, _) := s.workers[id];
    match t
    case Get => if own in s.store then Become(s, id, Prepared(s.store[own])) else Leave(s, id)
    case SetFinalizer(staging, device) =>
      var o := j.base.(finalizer := true, staging := staging, device := device);
      if !Fits(s, own, j.base) || !TakesFinalizer(j.base) then Leave(s, id)
      else Become(Put(s, own, o), id, Attaching(o.(version := s.rev + 1)))
    case Skip => Leave(s, id)
    case AttachOk => Become(s, id, Mounting(j.base))
    case AttachFails => Become(s, id, Clearing(j.base))
    case MountFails => Become(s, id, Clearing(j.base))
    case Done => Leave(s, id).(staged := s.staged + {own})
    case ClearFinalizer =>
      if Fits(s, own, j.base) then Leave(Put(s, own, j.base.(finalizer := false)), id) else Leave(s, id)
  }

  predicate CanDetach(j: Job, d: DetachStep) {
    match d
    case Fetch => j.UnstageGet?
    case DetachOk => j.UnstageDetach? || j.CleanupDetach?
    case Update => j.UnstageUpdate? || j.CleanupUpdate?
    case DeleteOwn => j.UnstageDelete?
  }

  function DetachNext(s: State, id: nat, d: DetachStep): State
    requires id in s.workers && CanDetach(s.workers[id].job, d)
  {
    var Worker(own, j, _) := s.workers[id];
    match d
    case Fetch =>
      if own in s.store && s.store[own].staging != "" then Become(s, id, UnstageDetach(s.store[own])) else Leave(s, id)
    case DetachOk =>
      Become(s, id, if j.UnstageDetach? then UnstageUpdate(j.base) else CleanupUpdate(j.base)).(staged := s.staged - {own})
    case Update =>
      if !Fits(s, own, j.base) then Leave(s, id)
      else if j.UnstageUpdate? then Become(Put(s, own, j.base.(finalizer := false, staging := "")), id, UnstageDelete)
      else Leave(Put(s, own, j.base.(finalizer := false)), id)
    case DeleteOwn => Leave(MarkDeleted(s, own), id)
  }

  predicate CanPublish(j: Job, p: PublishStep) {
    match p
    case FetchRecord => j.PublishGet?
    case SetTarget(_) => j.PublishUpdate?
  }

  function PublishNext(s: State, id: nat, p: PublishStep): State
    requires id in s.workers && CanPublish(s.workers[id].job, p)
  {
    var Worker(own, j, _) := s.workers[id];
    match p
    case FetchRecord => if own in s.store then Become(s, id, PublishUpdate(s.store[own])) else Leave(s, id)
    case SetTarget(target) =>
      if Fits(s, own, j.base) then Leave(Put(s, own, j.base.(target := target)), id) else Leave(s, id)
  }

  function FirstJob(req: Request): Job {
    match req
    case Stage => ListOld
    case Unstage => UnstageGet
    case Publish => PublishGet
  }

  predicate CanAct(s: State, a: Action) {
    match a
    case Start(_, _) => true
    case StartCleanup(k) => k in s.store && s.store[k].marked
    case Prepare(id, p) => id in s.workers && CanPrepare(s.workers[id].job, p)
    case Attach(id, t) => id in s.workers && CanAttach(s.workers[id].job, t)
    case Detach(id, d) => id in s.workers && CanDetach(s.workers[id].job, d)
    case Publishing(id, p) => id in s.workers && CanPublish(s.workers[id].job, p)
    case Fail(id) => id in s.workers
    case Collect(k) => k in s.store && s.store[k].marked && !s.store[k].finalizer
    case Mark(k) => true
  }

  /** No handler starts on a record on which another one is at work. */
  ghost predicate Alone(s: State, a: Action) { a.Start? || a.StartCleanup? ==> !Busy(s, a.key) }

  ghost predicate Enabled(s: State, a: Action) { CanAct(s, a) && Alone(s, a) }

  function Next(s: State, a: Action): State
    requires CanAct(s, a)
  {
    match a
    case Start(k, req) => Enter(s, k, FirstJob(req))
    case StartCleanup(k) => Enter(s, k, CleanupDetach(s.store[k]))
    case Prepare(id, p) => PrepareNext(s, id, p)
    case Attach(id, t) => AttachNext(s, id, t)
    case Detach(id, d) => DetachNext(s, id, d)
    case Publishing(id, p) => PublishNext(s, id, p)
    case Fail(id) => Leave(s, id)
    case Collect(k) => s.(store := s.store - {k})
    case Mark(k) => MarkDeleted(s, k)
  }

  // ----- invariants of every run -----

  ghost predicate Exclusive(s: State) {
    forall i, j :: i in s.workers && j in s.workers && s.workers[i].key == s.workers[j].key ==> i == j
  }

  ghost predicate IdsFresh(s: State) { forall i :: i in s.workers ==> i < s.nextId }

  /** The driver's finalizer is on a record only together with its staging and device path. */
  ghost predicate FinalizerHasPaths(s: State) {
    forall k :: k in s.store && s.store[k].finalizer ==> s.store[k].staging != "" && s.store[k].device != ""
  }

  /** A base of the stored version is the stored object. */
  ghost predicate BaseAgrees(s: State, w: Worker) {
    HasBase(w.job) ==>
      w.job.base.version <= s.rev && (Fits(s, w.key, w.job.base) ==> s.store[w.key] == w.job.base)
  }

  ghost predicate BasesAgree(s: State) {
    && (forall k :: k in s.store ==> s.store[k].version <= s.rev)
    && (forall i :: i in s.workers ==> BaseAgrees(s, s.workers[i]))
  }

  /** What a handler knows about its own record while it runs alone on it. */
  ghost predicate WorkerSound(s: State, w: Worker) {
    match w.job
    case GetOwn => !Finalized(s, w.key)
    case Prepared(_) => !Finalized(s, w.key)
    case Attaching(_) => Finalized(s, w.key) && w.key !in s.staged
    case Mounting(_) => Finalized(s, w.key) && w.key !in s.staged
    case Clearing(_) => Finalized(s, w.key) && w.key !in s.staged
    case UnstageUpdate(_) => w.key !in s.staged
    case UnstageDelete => !Finalized(s, w.key)
    case CleanupUpdate(_) => w.key !in s.staged
    case _ => true
  }

  ghost predicate WorkersSound(s: State) {
    forall i :: i in s.workers ==> WorkerSound(s, s.workers[i])
  }

  /** A staged volume's record is stored, possibly marked, and carries the finalizer. */
  ghost predicate StagedIsKept(s: State) {
    forall k :: k in s.staged ==> Finalized(s, k)
  }

  ghost predicate Inv(s: State) {
    Exclusive(s) && IdsFresh(s) && FinalizerHasPaths(s) && BasesAgree(s) && WorkersSound(s) && StagedIsKept(s)
  }

  // ----- a step changes one handler, and other records only by marking or collecting -----

  /** The handler that takes the step; for the environment, an id that no handler has. */
  function Actor(s: State, a: Action): nat {
    if a.Prepare? || a.Attach? || a.Detach? || a.Publishing? || a.Fail? then a.id else s.nextId
  }

  ghost predicate SameWorkersBut(s: State, t: State, i: nat) {
    && (forall j :: j != i ==> (j in t.workers <==> j in s.workers))
    && (forall j :: j != i && j in s.workers ==> t.workers[j] == s.workers[j])
    && (i in s.workers && i in t.workers ==> t.workers[i].key == s.workers[i].key)
    && s.nextId <= t.nextId && (i in t.workers ==> i < t.nextId || i in s.workers)
  }

  /** What is stored is either as before or was written by this step. */
  ghost predicate WrittenOnce(s: State, t: State) {
    && s.rev <= t.rev
    && forall k :: k in t.store ==> (k in s.store && t.store[k] == s.store[k]) || s.rev < t.store[k].version <= t.rev
  }

  /** The record of handler `i`. */
  predicate OwnedBy(s: State, i: nat, k: Key) { i in s.workers && s.workers[i].key == k }

  /** A record that is not the acting handler's is not created, changes at most by a mark, and
      is not removed while it carries the finalizer. */
  ghost predicate OthersKept(s: State, t: State, i: nat) {
    && (forall k :: k in t.store && !OwnedBy(s, i, k) ==>
          && k in s.store && (s.store[k].marked ==> t.store[k].marked)
          && t.store[k] == s.store[k].(marked := t.store[k].marked, version := t.store[k].version))
    && (forall k :: !OwnedBy(s, i, k) && Finalized(s, k) ==> k in t.store)
    && (forall k :: !OwnedBy(s, i, k) ==> (k in s.staged <==> k in t.staged))
  }

  ghost predicate Frame(s: State, t: State, i: nat) {
    SameWorkersBut(s, t, i) && WrittenOnce(s, t) && OthersKept(s, t, i)
  }

  lemma {:induction false} PrepareWorkers(s: State, id: nat, p: PrepareStep)
    requires IdsFresh(s) && id in s.workers && CanPrepare(s.workers[id].job, p)
    ensures SameWorkersBut(s, PrepareNext(s, id, p), id)
  {
  }

  lemma {:induction false} PrepareWrites(s: State, id: nat, p: PrepareStep)
    requires id in s.workers && CanPrepare(s.workers[id].job, p)
    ensures WrittenOnce(s, PrepareNext(s, id, p))
  {
  }

  lemma {:induction false} PrepareSparesOthers(s: State, id: nat, p: PrepareStep)
    requires IdsFresh(s) && id in s.workers && CanPrepare(s.workers[id].job, p)
    ensures OthersKept(s, PrepareNext(s, id, p), id)
  {
  }

  lemma {:induction false} AttachWorkers(s: State, id: nat, p: AttachStep)
    requires IdsFresh(s) && id in s.workers && CanAttach(s.workers[id].job, p)
    ensures SameWorkersBut(s, AttachNext(s, id, p), id)
  {
  }

  lemma {:induction false} AttachWrites(s: State, id: nat, p: AttachStep)
    requires id in s.workers && CanAttach(s.workers[id].job, p)
    ensures WrittenOnce(s, AttachNext(s, id, p))
  {
  }

  lemma {:induction false} AttachSparesOthers(s: State, id: nat, p: AttachStep)
    requires IdsFresh(s) && id in s.workers && CanAttach(s.workers[id].job, p)
    ensures OthersKept(s, AttachNext(s, id, p), id)
  {
  }

  lemma {:induction false} DetachWorkers(s: State, id: nat, p: DetachStep)
    requires IdsFresh(s) && id in s.workers && CanDetach(s.workers[id].job, p)
    ensures SameWorkersBut(s, DetachNext(s, id, p), id)
  {
  }

  lemma {:induction false} DetachWrites(s: State, id: nat, p: DetachStep)
    requires id in s.workers && CanDetach(s.workers[id].job, p)
    ensures WrittenOnce(s, DetachNext(s, id, p))
  {
  }

  lemma {:induction false} DetachSparesOthers(s: State, id: nat, p: DetachStep)
    requires IdsFresh(s) && id in s.workers && CanDetach(s.workers[id].job, p)
    ensures OthersKept(s, DetachNext(s, id, p), id)
  {
  }

  lemma {:induction false} PublishFrame(s: State, id: nat, p: PublishStep)
    requires IdsFresh(s) && id in s.workers && CanPublish(s.workers[id].job, p)
    ensures Frame(s, PublishNext(s, id, p), id)
  {
  }

  lemma {:induction false} StepFrame(s: State, a: Action)
    requires IdsFresh(s) && CanAct(s, a)
    ensures Frame(s, Next(s, a), Actor(s, a))
  {
    match a
    case Prepare(id, p) =>
      PrepareWorkers(s, id, p);
      PrepareWrites(s, id, p);
      PrepareSparesOthers(s, id, p);
    case Attach(id, p) =>
      AttachWorkers(s, id, p);
      AttachWrites(s, id, p);
      AttachSparesOthers(s, id, p);
    case Detach(id, p) =>
      DetachWorkers(s, id, p);
      DetachWrites(s, id, p);
      DetachSparesOthers(s, id, p);
    case Publishing(id, p) => PublishFrame(s, id, p);
    case _ =>
  }

  // ----- so only the acting handler's own knowledge has to be checked -----

  /** After the step: the acting handler and its record are as the invariant demands. */
  ghost predicate ActorSound(s: State, t: State, i: nat) {
    && (i in t.workers ==> WorkerSound(t, t.workers[i]) && BaseAgrees(t, t.workers[i]))
    && (i in s.workers ==>
          var own := s.workers[i].key;
          && (own in t.staged ==> Finalized(t, own))
          && (Finalized(t, own) ==> t.store[own].staging != "" && t.store[own].device != ""))
  }

  lemma {:induction false} FrameKeepsInv(s: State, t: State, i: nat)
    requires Inv(s) && Exclusive(t) && IdsFresh(t) && Frame(s, t, i) && ActorSound(s, t, i)
    ensures Inv(t)
  {
    forall k | !OwnedBy(s, i, k)
      ensures Finalized(s, k) == Finalized(t, k)
    {
    }
    forall j | j in t.workers && j != i
      ensures WorkerSound(t, t.workers[j]) && BaseAgrees(t, t.workers[j])
    {
      assert BaseAgrees(s, s.workers[j]) && WorkerSound(s, s.workers[j]);
      assert !OwnedBy(s, i, s.workers[j].key);
    }
  }

  lemma {:induction false} StepKeepsExclusive(s: State, a: Action)
    requires Exclusive(s) && IdsFresh(s) && Enabled(s, a) && Frame(s, Next(s, a), Actor(s, a))
    ensures Exclusive(Next(s, a)) && IdsFresh(Next(s, a))
  {
  }

  /** No step of a prepare puts the finalizer on or takes it off. */
  lemma {:induction false} PrepareSparesFinalizer(s: State, id: nat, p: PrepareStep)
    requires id in s.workers && CanPrepare(s.workers[id].job, p)
    ensures var t, own := PrepareNext(s, id, p), s.workers[id].key;
            && t.staged == s.staged && (Finalized(t, own) <==> Finalized(s, own))
            && (Finalized(t, own) ==> t.store[own].staging == s.store[own].staging &&
                                      t.store[own].device == s.store[own].device)
  {
  }

  lemma {:induction false} PrepareSound(s: State, id: nat, p: PrepareStep)
    requires Inv(s) && id in s.workers && CanPrepare(s.workers[id].job, p)
    ensures ActorSound(s, PrepareNext(s, id, p), id)
  {
    PrepareSparesFinalizer(s, id, p);
  }

  lemma {:induction false} AttachSound(s: State, id: nat, p: AttachStep)
    requires Inv(s) && id in s.workers && CanAttach(s.workers[id].job, p)
    ensures ActorSound(s, AttachNext(s, id, p), id)
  {
    assert WorkerSound(s, s.workers[id]) && BaseAgrees(s, s.workers[id]);
  }

  lemma {:induction false} DetachSound(s: State, id: nat, p: DetachStep)
    requires Inv(s) && id in s.workers && CanDetach(s.workers[id].job, p)
    ensures ActorSound(s, DetachNext(s, id, p), id)
  {
    assert WorkerSound(s, s.workers[id]) && BaseAgrees(s, s.workers[id]);
  }

  lemma {:induction false} PublishSound(s: State, id: nat, p: PublishStep)
    requires Inv(s) && id in s.workers && CanPublish(s.workers[id].job, p)
    ensures ActorSound(s, PublishNext(s, id, p), id)
  {
    assert BaseAgrees(s, s.workers[id]);
  }

  /** Every update of the driver changes its own fields of the record as it is stored: an accepted
      one loses nothing that anybody else has written, a stale one changes nothing. */
  lemma {:induction false} UpdatesLoseNothing(s: State, id: nat, staging: string, device: string)
    requires Reachable(s) && id in s.workers
    ensures var w := s.workers[id];
            var fits := HasBase(w.job) && Fits(s, w.key, w.job.base);
            && (Enabled(s, Attach(id, SetFinalizer(staging, device))) ==>
                  Next(s, Attach(id, SetFinalizer(staging, device))).store ==
                  if !fits || s.store[w.key].marked then s.store
                  else s.store[w.key := s.store[w.key].(
                                 finalizer := true, staging := staging, device := device, version := s.rev + 1)])
            && (Enabled(s, Attach(id, ClearFinalizer)) ==>
                  Next(s, Attach(id, ClearFinalizer)).store ==
                  if !fits then s.store
                  else s.store[w.key := s.store[w.key].(finalizer := false, version := s.rev + 1)])
            && (Enabled(s, Detach(id, Update)) ==>
                  Next(s, Detach(id, Update)).store ==
                  if !fits then s.store
                  else s.store[w.key := s.store[w.key].(
                                 finalizer := false, version := s.rev + 1,
                                 staging := if w.job.UnstageUpdate? then "" else s.store[w.key].staging)])
  {
    ReachableIsSound(s);
    assert BaseAgrees(s, s.workers[id]) && WorkerSound(s, s.workers[id]);
  }

  /** A publish changes the target path of the record as it is stored, or nothing. */
  lemma {:induction false} PublishWritesTarget(s: State, id: nat, target: string)
    requires Reachable(s) && Enabled(s, Publishing(id, SetTarget(target)))
    ensures var w := s.workers[id];
            Next(s, Publishing(id, SetTarget(target))).store ==
            if Fits(s, w.key, w.job.base) then s.store[w.key := s.store[w.key].(target := target, version := s.rev + 1)]
            else s.store
  {
    ReachableIsSound(s);
    assert BaseAgrees(s, s.workers[id]);
  }

  /** Every step of every handler and of the environment keeps the invariant. */
  lemma {:induction false} StepKeepsInv(s: State, a: Action)
    requires Inv(s) && Enabled(s, a)
    ensures Inv(Next(s, a))
  {
    StepFrame(s, a);
    StepKeepsExclusive(s, a);
    match a {
      case Prepare(id, p) => PrepareSound(s, id, p);
      case Attach(id, t) => AttachSound(s, id, t);
      case Detach(id, d) => DetachSound(s, id, d);
      case Publishing(id, p) => PublishSound(s, id, p);
      case _ =>
    }
    FrameKeepsInv(s, Next(s, a), Actor(s, a));
  }

  // ----- runs -----

  ghost predicate Run(s: State, acts: seq<Action>)
    decreases acts
  {
    acts == [] || (Enabled(s, acts[0]) && Run(Next(s, acts[0]), acts[1..]))
  }

  ghost function Final(s: State, acts: seq<Action>): State
    requires Run(s, acts)
    decreases acts
  {
    if acts == [] then s else Final(Next(s, acts[0]), acts[1..])
  }

  ghost predicate Reachable(s: State) {
    exists acts :: Run(Init(), acts) && Final(Init(), acts) == s
  }

  lemma {:induction false} RunKeepsInv(s: State, acts: seq<Action>)
    requires Inv(s) && Blocked(s) && Run(s, acts)
    ensures Inv(Final(s, acts)) && Blocked(Final(s, acts))
    decreases acts
  {
    if acts != [] {
      StepKeepsInv(s, acts[0]);
      StepKeepsBlocked(s, acts[0]);
      RunKeepsInv(Next(s, acts[0]), acts[1..]);
    }
  }

  lemma {:induction false} ReachableIsSound(s: State)
    requires Reachable(s)
    ensures Inv(s) && Blocked(s)
  {
    var acts :| Run(Init(), acts) && Final(Init(), acts) == s;
    RunKeepsInv(Init(), acts);
  }

  /** In every reachable state: a finalizer comes with both paths, and the record of a volume
      that a successful Stage attached is stored with the finalizer, marked or not, as long as
      no UnmountAndDetachDisk on it has succeeded. */
  lemma {:induction false} RecordOutlivesAttachment(s: State, k: Key)
    requires Reachable(s)
    ensures Finalized(s, k) ==> s.store[k].staging != "" && s.store[k].device != ""
    ensures k in s.staged ==> Finalized(s, k)
  {
    ReachableIsSound(s);
  }

  /** The same, said of two states of one run: from the return of the Stage on, the record is
      there in every later state before the first successful detach. */
  lemma {:induction false} StagedUntilDetached(s: State, id: nat, acts: seq<Action>)
    requires Reachable(s) && Enabled(s, Attach(id, Done)) && Run(Next(s, Attach(id, Done)), acts)
    requires DetachFree(Next(s, Attach(id, Done)), acts, s.workers[id].key)
    ensures Finalized(Final(Next(s, Attach(id, Done)), acts), s.workers[id].key)
  {
    ReachableIsSound(s);
    StepKeepsInv(s, Attach(id, Done));
    StaysStaged(Next(s, Attach(id, Done)), acts, s.workers[id].key);
  }

  /** No successful UnmountAndDetachDisk on record `k`. */
  ghost predicate DetachFree(s: State, acts: seq<Action>, k: Key)
    requires Run(s, acts)
    decreases acts
  {
    acts == [] ||
    (!(acts[0].Detach? && acts[0].detach.DetachOk? && s.workers[acts[0].id].key == k) &&
     DetachFree(Next(s, acts[0]), acts[1..], k))
  }

  lemma {:induction false} StaysStaged(s: State, acts: seq<Action>, k: Key)
    requires Inv(s) && Run(s, acts) && DetachFree(s, acts, k) && k in s.staged
    ensures k in Final(s, acts).staged && Finalized(Final(s, acts), k)
    decreases acts
  {
    if acts != [] {
      StepKeepsInv(s, acts[0]);
      StepFrame(s, acts[0]);
      StaysStaged(Next(s, acts[0]), acts[1..], k);
    }
  }

  // ----- how a Stage that fails leaves its record -----

  predicate PastPrepare(j: Job) { j.GetOwn? || j.Prepared? || j.Attaching? || j.Mounting? || j.Clearing? }

  /** The update that takes the finalizer off again is accepted. */
  predicate ClearsFinalizer(s: State, a: Action) {
    && a.Attach? && a.attach.ClearFinalizer? && a.id in s.workers && s.workers[a.id].job.Clearing?
    && Fits(s, s.workers[a.id].key, s.workers[a.id].job.base)
  }

  /** A Stage that ended without success after prepare left the finalizer on exactly when it
      ended between setting it and an accepted clearing update: in the attach step itself, by
      the failed MkdirAll, or because the clearing update failed. */
  lemma {:induction false} FailedStageKeepsFinalizerIff(s: State, a: Action)
    requires Reachable(s) && Enabled(s, a) && (a.Fail? || a.Attach?)
    requires PastPrepare(s.workers[a.id].job) && a.id !in Next(s, a).workers
    requires a.Attach? ==> !a.attach.Skip? && !a.attach.Done?
    ensures var w := s.workers[a.id];
            Finalized(Next(s, a), w.key) <==>
            (w.job.Attaching? || w.job.Mounting? || w.job.Clearing?) && !ClearsFinalizer(s, a)
  {
    ReachableIsSound(s);
    assert WorkerSound(s, s.workers[a.id]) && BaseAgrees(s, s.workers[a.id]);
  }

  /** A failed login and a failed format and mount go on to the clearing update, which takes the
      finalizer off exactly when the record has not been changed meanwhile. */
  lemma {:induction false} FailedAttachClears(s: State, id: nat, failed: AttachStep)
    requires Reachable(s) && Enabled(s, Attach(id, failed)) && (failed.AttachFails? || failed.MountFails?)
    ensures var w, t := s.workers[id], Next(s, Attach(id, failed));
            && Enabled(t, Attach(id, ClearFinalizer)) && t.store == s.store && t.staged == s.staged
            && var u := Next(t, Attach(id, ClearFinalizer));
               && u.workers == s.workers - {id} && u.nextId == s.nextId && u.staged == s.staged
               && u.store.Keys == s.store.Keys && w.key in u.store && (!u.store[w.key].finalizer <==> Fits(s, w.key, w.job.base))
  {
    ReachableIsSound(s);
    assert WorkerSound(s, s.workers[id]) && BaseAgrees(s, s.workers[id]);
  }

  /** The check of a prepare passes exactly when the own record is unmarked, if it was listed, and
      every other listed record belongs to another node that is down. */
  lemma {:induction false} CheckProceedsIff(s: State, id: nat, down: set<NodeId>)
    requires Enabled(s, Prepare(id, Check(down)))
    ensures var w, t := s.workers[id], Next(s, Prepare(id, Check(down)));
            if forall k :: k in w.job.listing ==>
                 (k == w.key && !w.job.listing[k].marked) || (k.node != w.key.node && k.node in down)
            then t == s.(workers := s.workers[id := Worker(w.key, Relist(down), w.hadFinalizer)])
            else t == s.(workers := s.workers - {id})
  {
  }

  /** A Stage that starts on a record with the finalizer never gets past prepare: its record
      stays, and is marked by the time it tries to create a new one. */
  ghost predicate BlockedSound(s: State, w: Worker) {
    w.hadFinalizer ==>
      && !PastPrepare(w.job)
      && (w.job.ListOld? || Preparing(w.job) ==> Finalized(s, w.key))
      && (w.job.DeleteOld? ==> w.key in w.job.todo || s.store[w.key].marked)
      && (w.job.CreateOwn? ==> s.store[w.key].marked)
  }

  ghost predicate Blocked(s: State) { forall i :: i in s.workers ==> BlockedSound(s, s.workers[i]) }

  lemma {:induction false} PrepareBlocked(s: State, id: nat, p: PrepareStep)
    requires id in s.workers && CanPrepare(s.workers[id].job, p) && BlockedSound(s, s.workers[id])
    ensures var t := PrepareNext(s, id, p); id in t.workers ==> BlockedSound(t, t.workers[id])
  {
    var own := s.workers[id].key;
    if s.workers[id].hadFinalizer {
      assert own in OfVolume(s, own.vol).Keys;
      assert p.Delete? ==> own == p.other || own in s.workers[id].job.todo - {p.other} || s.store[own].marked;
    }
  }

  lemma {:induction false} AttachBlocked(s: State, id: nat, p: AttachStep)
    requires id in s.workers && CanAttach(s.workers[id].job, p) && BlockedSound(s, s.workers[id])
    ensures var t := AttachNext(s, id, p); id in t.workers ==> BlockedSound(t, t.workers[id])
  {
  }

  lemma {:induction false} ActorBlocked(s: State, a: Action)
    requires IdsFresh(s) && Blocked(s) && Enabled(s, a)
    ensures var t, i := Next(s, a), Actor(s, a); i in t.workers ==> BlockedSound(t, t.workers[i])
  {
    match a
    case Prepare(id, p) => PrepareBlocked(s, id, p);
    case Attach(id, p) => AttachBlocked(s, id, p);
    case _ =>
  }

  lemma {:induction false} StepKeepsBlocked(s: State, a: Action)
    requires Inv(s) && Blocked(s) && Enabled(s, a)
    ensures Blocked(Next(s, a))
  {
    var t, i := Next(s, a), Actor(s, a);
    StepFrame(s, a);
    forall j | j in t.workers
      ensures BlockedSound(t, t.workers[j])
    {
      if j == i {
        ActorBlocked(s, a);
      } else {
        assert BlockedSound(s, s.workers[j]) && !OwnedBy(s, i, s.workers[j].key);
      }
    }
  }

  /** In every reachable state: a Stage that started with the finalizer present and comes to its
      create finds the record stored, fails, and leaves it marked and with the finalizer. */
  lemma {:induction false} FinalizerBlocksCreate(s: State, id: nat)
    requires Reachable(s) && Enabled(s, Prepare(id, Create)) && s.workers[id].hadFinalizer
    ensures var own := s.workers[id].key;
            Next(s, Prepare(id, Create)) == Leave(s, id) && Finalized(s, own) && s.store[own].marked
  {
    ReachableIsSound(s);
    assert BlockedSound(s, s.workers[id]);
  }

  lemma {:induction false} Prepend(s: State, a: Action, acts: seq<Action>, end: State) returns (longer: seq<Action>)
    requires Enabled(s, a) && Run(Next(s, a), acts) && Final(Next(s, a), acts) == end
    ensures longer == [a] + acts && Run(s, longer) && Final(s, longer) == end
  {
    longer := [a] + acts;
    assert longer[1..] == acts;
  }

  // ----- a record without the finalizer does not stand in the way -----

  /** The steps from the create on: the old record is gone, if there was one. */
  lemma {:induction false} CreateAfterDelete(s: State, id: nat, own: Key) returns (acts: seq<Action>, end: State)
    requires id in s.workers && s.workers[id].key == own && s.workers[id].job.Relist? && !Finalized(s, own)
    requires forall k :: k in s.store && k.vol == own.vol ==> k == own
    ensures Run(s, acts) && Final(s, acts) == end
    ensures end.workers == s.workers[id := s.workers[id].(job := GetOwn)] && end.nextId == s.nextId
    ensures end.staged == s.staged
    ensures own in end.store && end.store - {own} == s.store - {own}
    ensures end.store[own] == Obj(end.store[own].version, false, false, "", "", "")
  {
    var s1 := Next(s, Prepare(id, ListAgain));
    var tail: seq<Action>;
    if own in s.store {
      assert OfVolume(s, own.vol).Keys == {own};
      var a2, a3 := Prepare(id, Delete(own)), Collect(own);
      var s2 := Next(s1, a2);
      assert s1.workers[id].job.todo - {own} == {};
      var s3 := Next(s2, a3);
      end := Next(s3, Prepare(id, Create));
      tail := Prepend(s3, Prepare(id, Create), [], end);
      tail := Prepend(s2, a3, tail, end);
      tail := Prepend(s1, a2, tail, end);
    } else {
      assert OfVolume(s, own.vol).Keys == {};
      end := Next(s1, Prepare(id, Create));
      tail := Prepend(s1, Prepare(id, Create), [], end);
    }
    acts := Prepend(s, Prepare(id, ListAgain), tail, end);
  }

  lemma {:induction false} Concat(s: State, first: seq<Action>, second: seq<Action>) returns (acts: seq<Action>)
    requires Run(s, first) && Run(Final(s, first), second)
    ensures Run(s, acts) && Final(s, acts) == Final(Final(s, first), second)
    decreases first
  {
    if first == [] {
      acts := second;
    } else {
      var rest := Concat(Next(s, first[0]), first[1..], second);
      acts := Prepend(s, first[0], rest, Final(Final(s, first), second));
    }
  }

  /** Start, first list and check, where the other nodes with a record are down and the own record
      is live. */
  lemma {:induction false} CheckCanPass(s: State, own: Key, down: set<NodeId>) returns (acts: seq<Action>, end: State)
    requires !Busy(s, own) && !Finalized(s, own) && (own in s.store ==> !s.store[own].marked)
    requires forall k :: k in s.store && k.vol == own.vol ==> k == own || k.node in down
    ensures Run(s, acts) && Final(s, acts) == end
    ensures end == s.(workers := s.workers[s.nextId := Worker(own, Relist(down), false)], nextId := s.nextId + 1)
  {
    var id := s.nextId;
    var s1 := Next(s, Start(own, Stage));
    var s2 := Next(s1, Prepare(id, List));
    assert CheckPasses(OfVolume(s, own.vol), own, down);
    end := Next(s2, Prepare(id, Check(down)));
    acts := Prepend(s2, Prepare(id, Check(down)), [], end);
    acts := Prepend(s1, Prepare(id, List), acts, end);
    acts := Prepend(s, Start(own, Stage), acts, end);
  }

  /** From every state with an idle node whose record, if any, carries no finalizer, and with no
      other node's record of the volume, a new Stage can get past prepare. */
  lemma {:induction false} StageCanRecreate(s: State, own: Key) returns (acts: seq<Action>, end: State)
    requires !Busy(s, own) && !Finalized(s, own)
    requires forall k :: k in s.store && k.vol == own.vol ==> k == own
    ensures Run(s, acts) && Final(s, acts) == end
    ensures end.workers == s.workers[s.nextId := Worker(own, GetOwn, false)] && end.nextId == s.nextId + 1
    ensures end.staged == s.staged
    ensures own in end.store && end.store - {own} == s.store - {own}
    ensures end.store[own] == Obj(end.store[own].version, false, false, "", "", "")
  {
    var clean := if own in s.store && s.store[own].marked then s.(store := s.store - {own}) else s;
    assert !Busy(clean, own);
    var first, mid := CheckCanPass(clean, own, {});
    var second: seq<Action>;
    second, end := CreateAfterDelete(mid, s.nextId, own);
    acts := Concat(clean, first, second);
    if own in s.store && s.store[own].marked {
      acts := Prepend(s, Collect(own), acts, end);
    }
  }

  /** From a created, unmarked record on: with working commands the Stage succeeds and leaves the volume
      staged, its record finalized with the requested paths. */
  lemma {:induction false} AttachCanSucceed(s: State, id: nat, staging: string, device: string) returns (acts: seq<Action>, end: State)
    requires id in s.workers && s.workers[id].job.GetOwn?
    requires s.workers[id].key in s.store && !s.store[s.workers[id].key].marked
    requires staging != "" && device != ""
    ensures Run(s, acts) && Final(s, acts) == end
    ensures var own := s.workers[id].key;
            && end.staged == s.staged + {own} && end.workers == s.workers - {id} && end.nextId == s.nextId
            && end.store ==
               s.store[own := s.store[own].(version := s.rev + 1, finalizer := true, staging := staging, device := device)]
  {
    var s1 := Next(s, Attach(id, Get));
    var s2 := Next(s1, Attach(id, SetFinalizer(staging, device)));
    var s3 := Next(s2, Attach(id, AttachOk));
    end := Next(s3, Attach(id, Done));
    assert end.workers == s.workers - {id};
    acts := Prepend(s3, Attach(id, Done), [], end);
    acts := Prepend(s2, Attach(id, AttachOk), acts, end);
    acts := Prepend(s1, Attach(id, SetFinalizer(staging, device)), acts, end);
    acts := Prepend(s, Attach(id, Get), acts, end);
  }

  /** From every state with an idle node whose record, if any, carries no finalizer, and with no
      other node's record of the volume, a new Stage can succeed. */
  lemma {:induction false} StageCanSucceed(s: State, own: Key, staging: string, device: string)
    returns (acts: seq<Action>, end: State)
    requires IdsFresh(s) && !Busy(s, own) && !Finalized(s, own) && staging != "" && device != ""
    requires forall k :: k in s.store && k.vol == own.vol ==> k == own
    ensures Run(s, acts) && Final(s, acts) == end
    ensures end.staged == s.staged + {own} && end.workers == s.workers && s.nextId <= end.nextId
    ensures own in end.store && !end.store[own].marked && end.store[own].finalizer
    ensures end.store[own].staging == staging && end.store[own].device == device
    ensures end.store - {own} == s.store - {own}
  {
    var first, mid := StageCanRecreate(s, own);
    var second: seq<Action>;
    second, end := AttachCanSucceed(mid, s.nextId, staging, device);
    assert end.workers == s.workers;
    acts := Concat(s, first, second);
  }

  /** After a failed login or mount whose record nobody has changed, the handler ends, and a new
      Stage can succeed. */
  lemma {:induction false} FailedStageCanRetry(s: State, id: nat, failed: AttachStep, staging: string, device: string)
    returns (acts: seq<Action>, end: State)
    requires Reachable(s) && Enabled(s, Attach(id, failed)) && (failed.AttachFails? || failed.MountFails?)
    requires Fits(s, s.workers[id].key, s.workers[id].job.base) && staging != "" && device != ""
    requires forall k :: k in s.store && k.vol == s.workers[id].key.vol ==> k == s.workers[id].key
    ensures |acts| >= 2 && acts[0] == Attach(id, failed) && acts[1] == Attach(id, ClearFinalizer)
    ensures Run(s, acts) && Final(s, acts) == end
    ensures end.staged == s.staged + {s.workers[id].key} && end.workers == s.workers - {id}
  {
    FailedAttachClears(s, id, failed);
    ReachableIsSound(s);
    var t := Next(s, Attach(id, failed));
    var u := Next(t, Attach(id, ClearFinalizer));
    assert !Busy(u, s.workers[id].key);
    var rest: seq<Action>;
    rest, end := StageCanSucceed(u, s.workers[id].key, staging, device);
    rest := Prepend(t, Attach(id, ClearFinalizer), rest, end);
    acts := Prepend(s, Attach(id, failed), rest, end);
  }

  /** An Unstage of a volume without a staging path, or without a record, changes nothing. */
  lemma {:induction false} UnstageOfUnstaged(s: State, own: Key) returns (acts: seq<Action>)
    requires IdsFresh(s) && !Busy(s, own) && (own in s.store ==> s.store[own].staging == "")
    ensures Run(s, acts) && acts == [Start(own, Unstage), Detach(s.nextId, Fetch)]
    ensures Final(s, acts) == s.(nextId := s.nextId + 1)
  {
    var s1 := Next(s, Start(own, Unstage));
    var end := Next(s1, Detach(s.nextId, Fetch));
    assert end.workers == s.workers;
    acts := Prepend(s1, Detach(s.nextId, Fetch), [], end);
    acts := Prepend(s, Start(own, Unstage), acts, end);
  }

  /** An undisturbed publish, or unpublish with the empty path, of a stored record writes the path
      and changes nothing else. */
  lemma {:induction false} PublishCanSucceed(s: State, own: Key, target: string) returns (acts: seq<Action>, end: State)
    requires IdsFresh(s) && !Busy(s, own) && own in s.store
    ensures Run(s, acts) && Final(s, acts) == end
    ensures end.store == s.store[own := s.store[own].(target := target, version := s.rev + 1)]
    ensures end.workers == s.workers && end.staged == s.staged
  {
    var id := s.nextId;
    var s1 := Next(s, Start(own, Publish));
    var s2 := Next(s1, Publishing(id, FetchRecord));
    end := Next(s2, Publishing(id, SetTarget(target)));
    assert end.workers == s.workers;
    acts := Prepend(s2, Publishing(id, SetTarget(target)), [], end);
    acts := Prepend(s1, Publishing(id, FetchRecord), acts, end);
    acts := Prepend(s, Start(own, Publish), acts, end);
  }

  /** An undisturbed Unstage of a staged volume undoes it: the record is gone, the volume is no
      longer staged, and no other record has changed. */
  lemma {:induction false} UnstageCanRemove(s: State, own: Key) returns (acts: seq<Action>, end: State)
    requires IdsFresh(s) && !Busy(s, own) && own in s.store && s.store[own].staging != ""
    ensures Run(s, acts) && Final(s, acts) == end
    ensures end.store == s.store - {own} && end.staged == s.staged - {own} && end.workers == s.workers
  {
    var id := s.nextId;
    var s1 := Next(s, Start(own, Unstage));
    var s2 := Next(s1, Detach(id, Fetch));
    var s3 := Next(s2, Detach(id, DetachOk));
    var s4 := Next(s3, Detach(id, Update));
    var s5 := Next(s4, Detach(id, DeleteOwn));
    assert s5.workers == s.workers;
    end := Next(s5, Collect(own));
    assert end.store == s.store - {own};
    acts := Prepend(s5, Collect(own), [], end);
    acts := Prepend(s4, Detach(id, DeleteOwn), acts, end);
    acts := Prepend(s3, Detach(id, Update), acts, end);
    acts := Prepend(s2, Detach(id, DetachOk), acts, end);
    acts := Prepend(s1, Detach(id, Fetch), acts, end);
    acts := Prepend(s, Start(own, Unstage), acts, end);
  }

  /** A cleanup of a marked record whose detach succeeds takes the finalizer off and frees the
      record for collection. */
  lemma {:induction false} CleanupCanRemove(s: State, own: Key) returns (acts: seq<Action>, end: State)
    requires IdsFresh(s) && !Busy(s, own) && own in s.store && s.store[own].marked
    ensures Run(s, acts) && Final(s, acts) == end
    ensures end.store == s.store - {own} && end.staged == s.staged - {own} && end.workers == s.workers
  {
    var id := s.nextId;
    var s1 := Next(s, StartCleanup(own));
    var s2 := Next(s1, Detach(id, DetachOk));
    var s3 := Next(s2, Detach(id, Update));
    assert s3.workers == s.workers;
    end := Next(s3, Collect(own));
    assert end.store == s.store - {own};
    acts := Prepend(s3, Collect(own), [], end);
    acts := Prepend(s2, Detach(id, Update), acts, end);
    acts := Prepend(s1, Detach(id, DetachOk), acts, end);
    acts := Prepend(s, StartCleanup(own), acts, end);
  }

  /** Stage then Unstage on an idle node, with no other node's record of the volume: there is a
      run in which the Stage succeeds and the Unstage leaves neither record nor attachment. */
  lemma {:induction false} StageUnstageRoundTrip(s: State, own: Key, staging: string, device: string)
    returns (up: seq<Action>, down: seq<Action>)
    requires IdsFresh(s) && !Busy(s, own) && !Finalized(s, own) && staging != "" && device != ""
    requires forall k :: k in s.store && k.vol == own.vol ==> k == own
    ensures Run(s, up) && own in Final(s, up).staged && Finalized(Final(s, up), own)
    ensures Run(Final(s, up), down)
    ensures own !in Final(Final(s, up), down).staged && own !in Final(Final(s, up), down).store
  {
    var run, top := StageCanSucceed(s, own, staging, device);
    up := run;
    assert !Busy(top, own) && IdsFresh(top);
    var rest, end := UnstageCanRemove(top, own);
    down := rest;
  }
}
