/**
 What becomes of the attachment records when the handlers of a node do not exclude each other.

 The steps are those of module Cluster, without its rule that a handler starts only when no other
 one is at work on the record. Cleanup starts its workers without asking for that.
 */
module Overlap {
  import opened Cluster
  import opened Common

  ghost predicate FreeRun(s: State, acts: seq<Action>)
    decreases acts
  {
    acts == [] || (CanAct(s, acts[0]) && FreeRun(Next(s, acts[0]), acts[1..]))
  }

  ghost function End(s: State, acts: seq<Action>): State
    requires FreeRun(s, acts)
    decreases acts
  {
    if acts == [] then s else End(Next(s, acts[0]), acts[1..])
  }

  ghost predicate AlwaysKept(s: State, acts: seq<Action>)
    requires FreeRun(s, acts)
    decreases acts
  {
    StagedIsKept(s) && (acts == [] || AlwaysKept(Next(s, acts[0]), acts[1..]))
  }

  predicate TakesFinalizerOff(a: Action) {
    (a.Attach? && a.attach.ClearFinalizer?) || (a.Detach? && a.detach.Update?)
  }

  /** A Stage returns success only while its record carries the finalizer, and no update that the
      server accepts takes the finalizer off the record of a staged volume. */
  ghost predicate Careful(s: State, a: Action)
    requires CanAct(s, a)
  {
    && (a.Attach? && a.attach.Done? ==> Finalized(s, s.workers[a.id].key))
    && (TakesFinalizerOff(a) && Fits(s, s.workers[a.id].key, s.workers[a.id].job.base) ==>
          s.workers[a.id].key !in s.staged)
  }

  ghost predicate AlwaysCareful(s: State, acts: seq<Action>)
    requires FreeRun(s, acts)
    decreases acts
  {
    acts == [] || (Careful(s, acts[0]) && AlwaysCareful(Next(s, acts[0]), acts[1..]))
  }

  // ----- what holds without exclusion: a base of the stored version is the stored object -----

  ghost predicate Based(s: State) { IdsFresh(s) && BasesAgree(s) }

  lemma {:induction false} AttachBased(s: State, id: nat, p: AttachStep)
    requires BasesAgree(s) && id in s.workers && CanAttach(s.workers[id].job, p)
    ensures var t := AttachNext(s, id, p); id in t.workers ==> BaseAgrees(t, t.workers[id])
  {
    assert BaseAgrees(s, s.workers[id]);
  }

  lemma {:induction false} DetachBased(s: State, id: nat, p: DetachStep)
    requires BasesAgree(s) && id in s.workers && CanDetach(s.workers[id].job, p)
    ensures var t := DetachNext(s, id, p); id in t.workers ==> BaseAgrees(t, t.workers[id])
  {
    assert BaseAgrees(s, s.workers[id]);
  }

  lemma {:induction false} ActorBased(s: State, a: Action)
    requires Based(s) && CanAct(s, a)
    ensures var t, i := Next(s, a), Actor(s, a); i in t.workers ==> BaseAgrees(t, t.workers[i])
  {
    match a
    case Attach(id, p) => AttachBased(s, id, p);
    case Detach(id, p) => DetachBased(s, id, p);
    case _ =>
  }

  lemma {:induction false} StepKeepsBased(s: State, a: Action)
    requires Based(s) && CanAct(s, a)
    ensures Based(Next(s, a))
  {
    var t, i := Next(s, a), Actor(s, a);
    StepFrame(s, a);
    ActorBased(s, a);
    forall j | j in t.workers && j != i
      ensures j < t.nextId && BaseAgrees(t, t.workers[j])
    {
      assert BaseAgrees(s, s.workers[j]);
    }
  }

  // ----- the exact condition -----

  /** The acting handler's own record. */
  lemma {:induction false} ActorKeeps(s: State, a: Action)
    requires Based(s) && StagedIsKept(s) && CanAct(s, a) && Actor(s, a) in s.workers
    ensures var t, own := Next(s, a), s.workers[Actor(s, a)].key;
            (own in t.staged ==> Finalized(t, own)) <==> Careful(s, a)
  {
    assert BaseAgrees(s, s.workers[a.id]);
  }

  lemma {:induction false} KeptStep(s: State, a: Action)
    requires Based(s) && StagedIsKept(s) && CanAct(s, a)
    ensures StagedIsKept(Next(s, a)) <==> Careful(s, a)
  {
    var t, i := Next(s, a), Actor(s, a);
    StepFrame(s, a);
    forall k | k in t.staged && !OwnedBy(s, i, k)
      ensures Finalized(t, k)
    {
      assert Finalized(s, k);
    }
    if i in s.workers {
      ActorKeeps(s, a);
    }
  }

  lemma {:induction false} KeptIffCarefulFrom(s: State, acts: seq<Action>)
    requires Based(s) && StagedIsKept(s) && FreeRun(s, acts)
    ensures AlwaysKept(s, acts) <==> AlwaysCareful(s, acts)
    decreases acts
  {
    if acts != [] {
      KeptStep(s, acts[0]);
      StepKeepsBased(s, acts[0]);
      if Careful(s, acts[0]) {
        KeptIffCarefulFrom(Next(s, acts[0]), acts[1..]);
      }
    }
  }

  /** Over every run of handlers that may overlap in any way, every staged volume keeps its record
      with the finalizer in all states exactly when the run is careful throughout. */
  lemma {:induction false} KeptIffCareful(acts: seq<Action>)
    requires FreeRun(Init(), acts)
    ensures AlwaysKept(Init(), acts) <==> AlwaysCareful(Init(), acts)
  {
    KeptIffCarefulFrom(Init(), acts);
  }

  /** Handlers that exclude each other are always careful. */
  lemma {:induction false} ExclusiveRunsAreCareful(acts: seq<Action>)
    requires Run(Init(), acts)
    ensures FreeRun(Init(), acts) && AlwaysCareful(Init(), acts)
  {
    ExclusiveIsCarefulFrom(Init(), acts);
    KeptIffCareful(acts);
  }

  lemma {:induction false} ExclusiveIsCarefulFrom(s: State, acts: seq<Action>)
    requires Inv(s) && Run(s, acts)
    ensures FreeRun(s, acts) && AlwaysKept(s, acts)
    decreases acts
  {
    if acts != [] {
      StepKeepsInv(s, acts[0]);
      ExclusiveIsCarefulFrom(Next(s, acts[0]), acts[1..]);
    }
  }

  // ----- a cleanup in the middle of a Stage -----

  lemma {:induction false} FreePrepend(s: State, a: Action, acts: seq<Action>, end: State) returns (longer: seq<Action>)
    requires CanAct(s, a) && FreeRun(Next(s, a), acts) && End(Next(s, a), acts) == end
    ensures longer == [a] + acts && FreeRun(s, longer) && End(s, longer) == end
  {
    longer := [a] + acts;
    assert longer[1..] == acts;
  }

  /** From every state in which a Stage has attached and is about to return: its record is marked,
      a cleanup worker starts all the same, detaches and takes the finalizer off, the record is
      collected, and then the Stage returns success on a volume without a record. */
  lemma {:induction false} CleanupUndercutsStage(s: State, id: nat) returns (acts: seq<Action>)
    requires IdsFresh(s) && id in s.workers && s.workers[id].job.Mounting? && s.workers[id].key in s.store
    ensures FreeRun(s, acts)
    ensures var own := s.workers[id].key; own in End(s, acts).staged && own !in End(s, acts).store
  {
    var own, c := s.workers[id].key, s.nextId;
    var s1 := Next(s, Mark(own));
    var s2 := Next(s1, StartCleanup(own));
    var s3 := Next(s2, Detach(c, DetachOk));
    assert s3.workers[c] == Worker(own, CleanupUpdate(s1.store[own]), Finalized(s1, own));
    var s4 := Next(s3, Detach(c, Update));
    assert s4.workers == s.workers && own in s4.store && s4.store[own].marked && !s4.store[own].finalizer;
    var s5 := Next(s4, Collect(own));
    var end := Next(s5, Attach(id, Done));
    acts := FreePrepend(s5, Attach(id, Done), [], end);
    acts := FreePrepend(s4, Collect(own), acts, end);
    acts := FreePrepend(s3, Detach(c, Update), acts, end);
    acts := FreePrepend(s2, Detach(c, DetachOk), acts, end);
    acts := FreePrepend(s1, StartCleanup(own), acts, end);
    acts := FreePrepend(s, Mark(own), acts, end);
  }
}
