/**
 Which node owns a volume: at most one attachment record per volume without a deletion mark.

 The driver relists and deletes without a transaction, so this is no invariant of all runs. It
 holds throughout a run exactly when each create finds only marked records of its volume, which
 is the case whenever no two prepares of one volume overlap. Likewise a prepare puts records of
 nodes that it did not find down up for deletion exactly when its second list finds such records.
 The last part has runs of two overlapping prepares that break either.
 */
module Ownership {
  import opened Common
  import opened Cluster

  ghost predicate OneLive(s: State) {
    forall k, l :: k in s.store && l in s.store && k.vol == l.vol && !s.store[k].marked && !s.store[l].marked ==> k == l
  }

  ghost predicate AlwaysOneLive(s: State, acts: seq<Action>)
    requires Run(s, acts)
    decreases acts
  {
    OneLive(s) && (acts == [] || AlwaysOneLive(Next(s, acts[0]), acts[1..]))
  }

  /** A create that stores a record finds every other record of its volume marked. */
  ghost predicate GuardedCreate(s: State, a: Action)
    requires Enabled(s, a)
  {
    a.Prepare? && a.prepare.Create? && s.workers[a.id].key !in s.store ==>
      forall k :: k in s.store && k.vol == s.workers[a.id].key.vol ==> s.store[k].marked
  }

  ghost predicate AlwaysGuardedCreates(s: State, acts: seq<Action>)
    requires Run(s, acts)
    decreases acts
  {
    acts == [] || (GuardedCreate(s, acts[0]) && AlwaysGuardedCreates(Next(s, acts[0]), acts[1..]))
  }

  /** No handler is between its first list and its create on volume `v`. */
  ghost predicate NobodyPrepares(s: State, v: VolumeId) {
    forall i :: i in s.workers && Preparing(s.workers[i].job) ==> s.workers[i].key.vol != v
  }

  /** A prepare begins its list only when no other prepare of the volume is under way. */
  ghost predicate Serial(s: State, a: Action)
    requires Enabled(s, a)
  {
    a.Prepare? && a.prepare.List? ==> NobodyPrepares(s, s.workers[a.id].key.vol)
  }

  ghost predicate Serialized(s: State, acts: seq<Action>)
    requires Run(s, acts)
    decreases acts
  {
    acts == [] || (Serial(s, acts[0]) && Serialized(Next(s, acts[0]), acts[1..]))
  }

  ghost predicate OnePreparer(s: State) {
    forall i, j ::
      (i in s.workers && j in s.workers && s.workers[i].key.vol == s.workers[j].key.vol &&
       Preparing(s.workers[i].job) && Preparing(s.workers[j].job)) ==> i == j
  }

  /** What a prepare knows of the volume's records at each of its points. */
  ghost predicate PrepareKnows(s: State, w: Worker) {
    forall k :: k in s.store && k.vol == w.key.vol ==>
      && (w.job.CheckOld? ==> k in w.job.listing)
      && (w.job.Relist? ==> k == w.key || k.node in w.job.down)
      && (w.job.DeleteOld? ==> s.store[k].marked || k in w.job.todo)
      && (w.job.CreateOwn? ==> s.store[k].marked)
  }

  /** Only records of nodes that the check found down, or the own one, are up for deletion. */
  ghost predicate DeletesOnlyDown(w: Worker) {
    w.job.DeleteOld? ==> forall k :: k in w.job.todo ==> k == w.key || k.node in w.job.down
  }

  ghost predicate Owned(s: State) {
    && OneLive(s) && OnePreparer(s)
    && forall i :: i in s.workers ==> PrepareKnows(s, s.workers[i]) && DeletesOnlyDown(s.workers[i])
  }

  /** A step takes no mark away, and only a create stores a new record. */
  ghost predicate MarksGrow(s: State, t: State) {
    forall k :: k in t.store && k in s.store && s.store[k].marked ==> t.store[k].marked
  }

  lemma {:induction false} StepMarks(s: State, a: Action)
    requires Inv(s) && Enabled(s, a)
    ensures MarksGrow(s, Next(s, a))
  {
    StepFrame(s, a);
    if Actor(s, a) in s.workers {
      assert BaseAgrees(s, s.workers[Actor(s, a)]);
    }
  }

  lemma {:induction false} StepStores(s: State, a: Action)
    requires IdsFresh(s) && Enabled(s, a)
    ensures !(a.Prepare? && a.prepare.Create?) ==> Next(s, a).store.Keys <= s.store.Keys
  {
    StepFrame(s, a);
  }

  // ----- the exact condition -----

  lemma {:induction false} OneLiveStep(s: State, a: Action)
    requires Inv(s) && OneLive(s) && Enabled(s, a)
    ensures OneLive(Next(s, a)) <==> GuardedCreate(s, a)
  {
    var t := Next(s, a);
    StepMarks(s, a);
    StepStores(s, a);
    if a.Prepare? && a.prepare.Create? && s.workers[a.id].key !in s.store {
      var own := s.workers[a.id].key;
      assert own in t.store && !t.store[own].marked;
      assert forall k :: k in s.store ==> k in t.store && t.store[k] == s.store[k];
    }
  }

  lemma {:induction false} OneLiveIffGuardedFrom(s: State, acts: seq<Action>)
    requires Inv(s) && OneLive(s) && Run(s, acts)
    ensures AlwaysOneLive(s, acts) <==> AlwaysGuardedCreates(s, acts)
    decreases acts
  {
    if acts != [] {
      OneLiveStep(s, acts[0]);
      StepKeepsInv(s, acts[0]);
      if OneLive(Next(s, acts[0])) {
        OneLiveIffGuardedFrom(Next(s, acts[0]), acts[1..]);
      }
    }
  }

  /** Over every run of the cluster, each volume has at most one unmarked record in all states
      exactly when every create that stores a record finds only marked ones of its volume. */
  lemma {:induction false} OneLiveIffGuardedCreates(acts: seq<Action>)
    requires Run(Init(), acts)
    ensures AlwaysOneLive(Init(), acts) <==> AlwaysGuardedCreates(Init(), acts)
  {
    OneLiveIffGuardedFrom(Init(), acts);
  }

  // ----- prepares that do not overlap -----

  lemma {:induction false} CreateKeepsOwned(s: State, id: nat)
    requires Inv(s) && Owned(s) && Enabled(s, Prepare(id, Create))
    ensures Owned(Next(s, Prepare(id, Create)))
  {
    var own := s.workers[id].key;
    var t := Next(s, Prepare(id, Create));
    assert PrepareKnows(s, s.workers[id]);
    forall i | i in t.workers
      ensures PrepareKnows(t, t.workers[i]) && DeletesOnlyDown(t.workers[i])
    {
      if i != id {
        assert PrepareKnows(s, s.workers[i]) && DeletesOnlyDown(s.workers[i]);
      }
    }
  }

  /** The acting handler's own knowledge after one step of its prepare. */
  lemma {:induction false} PrepareLearns(s: State, id: nat, p: PrepareStep)
    requires id in s.workers && CanPrepare(s.workers[id].job, p) && !p.Create?
    requires PrepareKnows(s, s.workers[id]) && DeletesOnlyDown(s.workers[id])
    ensures var t := PrepareNext(s, id, p);
            id in t.workers ==> PrepareKnows(t, t.workers[id]) && DeletesOnlyDown(t.workers[id])
  {
    var own := s.workers[id].key;
    if p.ListAgain? {
      assert forall k :: k in s.store && k.vol == own.vol ==> k in OfVolume(s, own.vol).Keys;
    } else if p.Delete? {
      var todo := s.workers[id].job.todo - {p.other};
      assert forall k :: k in s.workers[id].job.todo && k != p.other ==> k in todo;
    }
  }

  /** Fewer records and more marks leave everything known that was known. */
  lemma {:induction false} FrameKeepsOwned(s: State, t: State, i: nat)
    requires Owned(s) && Frame(s, t, i) && MarksGrow(s, t) && t.store.Keys <= s.store.Keys && OnePreparer(t)
    requires i in t.workers ==> PrepareKnows(t, t.workers[i]) && DeletesOnlyDown(t.workers[i])
    ensures Owned(t)
  {
    forall j | j in t.workers
      ensures PrepareKnows(t, t.workers[j]) && DeletesOnlyDown(t.workers[j])
    {
      if j != i {
        assert PrepareKnows(s, s.workers[j]) && DeletesOnlyDown(s.workers[j]);
      }
    }
  }

  /** Only a first list makes a handler a preparer. */
  lemma {:induction false} PreparersWere(s: State, a: Action)
    requires IdsFresh(s) && Enabled(s, a)
    ensures var t, i := Next(s, a), Actor(s, a);
            i in t.workers && Preparing(t.workers[i].job) ==>
              a.Prepare? && t.workers[i].key == s.workers[i].key && (a.prepare.List? || Preparing(s.workers[i].job))
  {
  }

  lemma {:induction false} ActorLearns(s: State, a: Action)
    requires IdsFresh(s) && Owned(s) && Enabled(s, a) && !(a.Prepare? && a.prepare.Create?)
    ensures var t, i := Next(s, a), Actor(s, a);
            i in t.workers ==> PrepareKnows(t, t.workers[i]) && DeletesOnlyDown(t.workers[i])
  {
    if a.Prepare? {
      PrepareLearns(s, a.id, a.prepare);
    } else {
      PreparersWere(s, a);
    }
  }

  lemma {:induction false} StepKeepsOnePreparer(s: State, a: Action)
    requires IdsFresh(s) && OnePreparer(s) && Enabled(s, a) && Serial(s, a)
    ensures OnePreparer(Next(s, a))
  {
    StepFrame(s, a);
    PreparersWere(s, a);
  }

  lemma {:induction false} StepKeepsOwned(s: State, a: Action)
    requires Inv(s) && Owned(s) && Enabled(s, a) && Serial(s, a)
    ensures Owned(Next(s, a))
  {
    if a.Prepare? && a.prepare.Create? {
      CreateKeepsOwned(s, a.id);
    } else {
      StepFrame(s, a);
      StepMarks(s, a);
      StepStores(s, a);
      StepKeepsOnePreparer(s, a);
      ActorLearns(s, a);
      FrameKeepsOwned(s, Next(s, a), Actor(s, a));
    }
  }

  lemma {:induction false} RunKeepsOwned(s: State, acts: seq<Action>)
    requires Inv(s) && Owned(s) && Run(s, acts) && Serialized(s, acts)
    ensures Owned(Final(s, acts)) && AlwaysGuardedCreates(s, acts) && AlwaysOnlyDownAtRisk(s, acts)
    decreases acts
  {
    if acts != [] {
      if acts[0].Prepare? {
        assert PrepareKnows(s, s.workers[acts[0].id]);
      }
      StepKeepsInv(s, acts[0]);
      StepKeepsOwned(s, acts[0]);
      RunKeepsOwned(Next(s, acts[0]), acts[1..]);
    }
  }

  /** Prepares that do not overlap only make guarded creates, so every state of such a run has at
      most one unmarked record per volume; and a prepare that is about to delete another node's
      record has found that node down. */
  lemma {:induction false} SingleLiveAttachment(acts: seq<Action>)
    requires Run(Init(), acts) && Serialized(Init(), acts)
    ensures AlwaysGuardedCreates(Init(), acts) && AlwaysOneLive(Init(), acts)
    ensures AlwaysFairRelists(Init(), acts) && AlwaysOnlyDownAtRisk(Init(), acts)
    ensures var s := Final(Init(), acts);
            forall id, k :: Enabled(s, Prepare(id, Delete(k))) ==>
              k == s.workers[id].key || k.node in s.workers[id].job.down
  {
    RunKeepsOwned(Init(), acts);
    OneLiveIffGuardedCreates(acts);
    OnlyDownIffFairRelists(acts);
    var s := Final(Init(), acts);
    assert forall i :: i in s.workers ==> DeletesOnlyDown(s.workers[i]);
  }

  // ----- whose records a prepare may delete -----

  /** In this state no handler is about to delete the record of a node that it has not found down. */
  ghost predicate OnlyDownAtRisk(s: State) {
    forall i :: i in s.workers ==> DeletesOnlyDown(s.workers[i])
  }

  ghost predicate AlwaysOnlyDownAtRisk(s: State, acts: seq<Action>)
    requires Run(s, acts)
    decreases acts
  {
    OnlyDownAtRisk(s) && (acts == [] || AlwaysOnlyDownAtRisk(Next(s, acts[0]), acts[1..]))
  }

  /** The second list finds only the own record and records of nodes that the check found down. */
  ghost predicate FairRelist(s: State, a: Action)
    requires Enabled(s, a)
  {
    a.Prepare? && a.prepare.ListAgain? ==>
      forall k :: k in s.store && k.vol == s.workers[a.id].key.vol ==>
        k == s.workers[a.id].key || k.node in s.workers[a.id].job.down
  }

  ghost predicate AlwaysFairRelists(s: State, acts: seq<Action>)
    requires Run(s, acts)
    decreases acts
  {
    acts == [] || (FairRelist(s, acts[0]) && AlwaysFairRelists(Next(s, acts[0]), acts[1..]))
  }

  /** Only the second list puts records up for deletion. */
  lemma {:induction false} ActorAtRisk(s: State, a: Action)
    requires IdsFresh(s) && OnlyDownAtRisk(s) && Enabled(s, a)
    ensures var t, i := Next(s, a), Actor(s, a);
            (i in t.workers ==> DeletesOnlyDown(t.workers[i])) <==> FairRelist(s, a)
  {
    if a.Prepare? {
      var w := s.workers[a.id];
      assert DeletesOnlyDown(w);
      if a.prepare.ListAgain? {
        assert forall k :: k in s.store && k.vol == w.key.vol <==> k in OfVolume(s, w.key.vol).Keys;
      } else if a.prepare.Delete? {
        assert forall k :: k in w.job.todo - {a.prepare.other} ==> k in w.job.todo;
      }
    } else {
      PreparersWere(s, a);
    }
  }

  lemma {:induction false} OnlyDownAtRiskStep(s: State, a: Action)
    requires IdsFresh(s) && OnlyDownAtRisk(s) && Enabled(s, a)
    ensures OnlyDownAtRisk(Next(s, a)) <==> FairRelist(s, a)
  {
    var t, i := Next(s, a), Actor(s, a);
    StepFrame(s, a);
    ActorAtRisk(s, a);
    assert forall j :: j in t.workers && j != i ==> t.workers[j] == s.workers[j];
  }

  lemma {:induction false} OnlyDownIffFairFrom(s: State, acts: seq<Action>)
    requires Inv(s) && OnlyDownAtRisk(s) && Run(s, acts)
    ensures AlwaysOnlyDownAtRisk(s, acts) <==> AlwaysFairRelists(s, acts)
    decreases acts
  {
    if acts != [] {
      OnlyDownAtRiskStep(s, acts[0]);
      StepKeepsInv(s, acts[0]);
      if FairRelist(s, acts[0]) {
        OnlyDownIffFairFrom(Next(s, acts[0]), acts[1..]);
      }
    }
  }

  /** Over every run of the cluster: records of nodes that were not found down are never up for
      deletion exactly when every second list finds only the own record and records of nodes
      that the check before it found down. */
  lemma {:induction false} OnlyDownIffFairRelists(acts: seq<Action>)
    requires Run(Init(), acts)
    ensures AlwaysOnlyDownAtRisk(Init(), acts) <==> AlwaysFairRelists(Init(), acts)
  {
    OnlyDownIffFairFrom(Init(), acts);
  }

  // ----- taking a volume over from nodes that are down -----

  /** A prepare that has come to its create, on a free name, can go on to a staged volume. */
  lemma {:induction false} CreateAndAttach(s: State, id: nat, staging: string, device: string)
    returns (acts: seq<Action>, end: State)
    requires id in s.workers && s.workers[id].job.CreateOwn? && s.workers[id].key !in s.store
    requires staging != "" && device != ""
    ensures Run(s, acts) && Final(s, acts) == end
    ensures var own := s.workers[id].key;
            && end.workers == s.workers - {id} && end.staged == s.staged + {own}
            && end.store == s.store[own := Obj(s.rev + 2, false, true, staging, "", device)]
  {
    var t := Next(s, Prepare(id, Create));
    var rest: seq<Action>;
    rest, end := AttachCanSucceed(t, id, staging, device);
    acts := Prepend(s, Prepare(id, Create), rest, end);
  }

  /** The deletions of a prepare, one request each: they mark all records they are after, and
      change nothing else of any record. */
  lemma {:induction false} DeletesCanFinish(s: State, id: nat) returns (acts: seq<Action>, end: State)
    requires id in s.workers && s.workers[id].job.DeleteOld? && s.workers[id].job.todo != {}
    requires s.workers[id].job.todo <= s.store.Keys
    ensures Run(s, acts) && Final(s, acts) == end
    ensures end.workers == s.workers[id := s.workers[id].(job := CreateOwn)] && end.nextId == s.nextId
    ensures end.staged == s.staged && MarkedOnly(s, end, s.workers[id].job.todo)
    decreases s.workers[id].job.todo
  {
    var todo, down := s.workers[id].job.todo, s.workers[id].job.down;
    var k :| k in todo;
    var t := Next(s, Prepare(id, Delete(k)));
    assert MarkedOnly(s, t, {k});
    if todo - {k} == {} {
      assert todo == {k};
      end := t;
      acts := Prepend(s, Prepare(id, Delete(k)), [], end);
    } else {
      assert t.workers[id].job == DeleteOld(todo - {k}, down);
      var rest: seq<Action>;
      rest, end := DeletesCanFinish(t, id);
      acts := Prepend(s, Prepare(id, Delete(k)), rest, end);
    }
  }

  /** The records in `hit` are marked, and otherwise only versions differ. */
  ghost predicate MarkedOnly(s: State, t: State, hit: set<Key>) {
    && t.store.Keys == s.store.Keys
    && forall k :: k in s.store ==>
         t.store[k] == s.store[k].(marked := s.store[k].marked || k in hit, version := t.store[k].version)
  }

  /** From the second list on. */
  lemma {:induction false} RelistCanFinish(s: State, id: nat) returns (acts: seq<Action>, end: State)
    requires id in s.workers && s.workers[id].job.Relist?
    ensures Run(s, acts) && Final(s, acts) == end
    ensures end.workers == s.workers[id := s.workers[id].(job := CreateOwn)] && end.nextId == s.nextId
    ensures end.staged == s.staged && MarkedOnly(s, end, OfVolume(s, s.workers[id].key.vol).Keys)
  {
    var listed := OfVolume(s, s.workers[id].key.vol).Keys;
    var t := Next(s, Prepare(id, ListAgain));
    if listed == {} {
      end := t;
      acts := Prepend(s, Prepare(id, ListAgain), [], end);
    } else {
      var rest: seq<Action>;
      rest, end := DeletesCanFinish(t, id);
      acts := Prepend(s, Prepare(id, ListAgain), rest, end);
    }
  }

  /** Failover, from every state in which the node is idle, its own record, if any, is live and
      without the finalizer, and all other nodes with a record of the volume are found down: a
      Stage can succeed. The records of the other nodes stay, marked and with their finalizers,
      and no record of another volume changes. */
  lemma {:induction false} StageTakesOver(s: State, own: Key, down: set<NodeId>, staging: string, device: string)
    returns (acts: seq<Action>, end: State)
    requires IdsFresh(s) && !Busy(s, own) && !Finalized(s, own) && (own in s.store ==> !s.store[own].marked)
    requires forall k :: k in s.store && k.vol == own.vol ==> k == own || k.node in down
    requires staging != "" && device != ""
    ensures Run(s, acts) && Final(s, acts) == end
    ensures end.staged == s.staged + {own} && end.workers == s.workers
    ensures own in end.store && !end.store[own].marked && end.store[own].finalizer
    ensures end.store.Keys == s.store.Keys + {own}
    ensures forall k :: k in s.store && k != own ==>
              end.store[k] == s.store[k].(marked := s.store[k].marked || k.vol == own.vol, version := end.store[k].version)
  {
    var id := s.nextId;
    var first, checked := CheckCanPass(s, own, down);
    var second, deleted := RelistCanFinish(checked, id);
    var free := if own in s.store then Next(deleted, Collect(own)) else deleted;
    var third: seq<Action>;
    third, end := CreateAndAttach(free, id, staging, device);
    if own in s.store {
      third := Prepend(deleted, Collect(own), third, end);
    }
    assert end.workers == s.workers;
    second := Concat(checked, second, third);
    acts := Concat(s, first, second);
  }

  // ----- two nodes at once -----

  /** The two prepares before either lists again. */
  function BothChecked(v: VolumeId, m: NodeId, n: NodeId): State {
    State(map[], 0, map[0 := Worker(Key(v, m), Relist({}), false), 1 := Worker(Key(v, n), Relist({}), false)], 2, {})
  }

  lemma {:induction false} BothCanCheck(v: VolumeId, m: NodeId, n: NodeId) returns (acts: seq<Action>)
    requires m != n
    ensures Run(Init(), acts) && Final(Init(), acts) == BothChecked(v, m, n)
  {
    var first, mid := CheckCanPass(Init(), Key(v, m), {});
    assert mid.workers == map[0 := Worker(Key(v, m), Relist({}), false)];
    var second, end := CheckCanPass(mid, Key(v, n), {});
    assert end == BothChecked(v, m, n);
    acts := Concat(Init(), first, second);
  }

  /** For every volume and every two nodes: both list before either creates, both creates
      succeed, and the volume ends with two unmarked records. */
  lemma {:induction false} TwoLiveAttachments(v: VolumeId, m: NodeId, n: NodeId) returns (acts: seq<Action>)
    requires m != n
    ensures Run(Init(), acts) && !OneLive(Final(Init(), acts))
  {
    var start, k, l := BothChecked(v, m, n), Key(v, m), Key(v, n);
    var first := BothCanCheck(v, m, n);
    assert OfVolume(start, v) == map[];
    var s1 := Next(start, Prepare(0, ListAgain));
    var s2 := Next(s1, Prepare(1, ListAgain));
    var s3 := Next(s2, Prepare(0, Create));
    var end := Next(s3, Prepare(1, Create));
    assert k in end.store && l in end.store && !end.store[k].marked && !end.store[l].marked;
    var second := Prepend(s3, Prepare(1, Create), [], end);
    second := Prepend(s2, Prepare(0, Create), second, end);
    second := Prepend(s1, Prepare(1, ListAgain), second, end);
    second := Prepend(start, Prepare(0, ListAgain), second, end);
    acts := Concat(Init(), first, second);
  }

  /** The second node creates its record and attaches the volume. Then the first one, which listed
      before that record was there and so never asked whether `n` is down, puts it up for
      deletion. */
  lemma {:induction false} UncheckedDelete(v: VolumeId, m: NodeId, n: NodeId, staging: string, device: string)
    returns (acts: seq<Action>, end: State)
    requires m != n && staging != "" && device != ""
    ensures Run(Init(), acts) && Final(Init(), acts) == end
    ensures end.workers == map[0 := Worker(Key(v, m), DeleteOld({Key(v, n)}, {}), false)]
    ensures end.store.Keys == {Key(v, n)} && !end.store[Key(v, n)].marked && end.staged == {Key(v, n)}
    ensures !OnlyDownAtRisk(end)
  {
    var start := BothChecked(v, m, n);
    var first := BothCanCheck(v, m, n);
    assert OfVolume(start, v) == map[];
    var s1 := Next(start, Prepare(1, ListAgain));
    var second, s2 := CreateAndAttach(s1, 1, staging, device);
    assert s2.workers == map[0 := Worker(Key(v, m), Relist({}), false)];
    assert OfVolume(s2, v).Keys == {Key(v, n)};
    end := Next(s2, Prepare(0, ListAgain));
    assert !DeletesOnlyDown(end.workers[0]);
    var third := Prepend(s2, Prepare(0, ListAgain), [], end);
    third := Concat(s1, second, third);
    third := Prepend(start, Prepare(1, ListAgain), third, end);
    acts := Concat(Init(), first, third);
  }

  /** And goes on to attach the volume itself: the Stages of both nodes have succeeded without an
      Unstage between, with the record of `n` marked and only that of `m` live. */
  lemma {:induction false} TwoNodesAttached(v: VolumeId, m: NodeId, n: NodeId, staging: string, device: string)
    returns (acts: seq<Action>)
    requires m != n && staging != "" && device != ""
    ensures Run(Init(), acts)
    ensures var s := Final(Init(), acts);
            s.staged == {Key(v, m), Key(v, n)} && Key(v, n) in s.store && s.store[Key(v, n)].marked && OneLive(s)
  {
    var first, s := UncheckedDelete(v, m, n, staging, device);
    var t := Next(s, Prepare(0, Delete(Key(v, n))));
    assert {Key(v, n)} - {Key(v, n)} == {};
    assert t.workers[0].job == CreateOwn && t.store.Keys == {Key(v, n)} && t.store[Key(v, n)].marked;
    var second, end := CreateAndAttach(t, 0, staging, device);
    second := Prepend(s, Prepare(0, Delete(Key(v, n))), second, end);
    acts := Concat(Init(), first, second);
  }
}
