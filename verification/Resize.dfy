/**
 Volume expansion: ResizeVolume reads a CStorVolumeConfig, decides, patches its spec and reads
 it again after a wait, while an operator raises the status towards the spec.

 Capacities are in bytes. A Kubernetes quantity printed as "<n>Gi" is exactly n * GiB.
 */
module Resize {
  import opened Rounding

  datatype Config = Config(
    provision: int, // Spec.Provision.Capacity
    spec: int,      // Spec.Capacity
    status: int,    // Status.Capacity
    pending: bool,  // Status.Phase == Pending
    published: bool) // Publish.NodeID != ""

  function Quantity(size: int): int { RoundUpGiB(size) * GIB }

  /** The object that ProvisionVolume creates. */
  function Provisioned(size: int, published: bool): Config {
    Config(Quantity(size), Quantity(size), 0, true, published)
  }

  datatype Decision = RejectShrink | RejectInProgress | AlreadyThere | Patch

  /** The comparisons of ResizeVolume, on the object it fetched. */
  function Decide(c: Config, target: int): Decision {
    if target < c.spec then RejectShrink
    else if c.pending then Patch
    else if c.spec > c.status then RejectInProgress
    else if target == c.status then AlreadyThere
    else Patch
  }

  /** updateCVCSize sends the difference between the fetched and the new object, without a
      resource version: an unchanged spec is not part of it. */
  function Patched(current: Config, fetched: Config, target: int): Config {
    if target == fetched.spec then current else current.(spec := target)
  }

  /** The operator may bind the volume and raises the status, never past the spec. */
  predicate OperatorStep(c: Config, d: Config) {
    d == c.(status := d.status, pending := d.pending) && c.status <= d.status <= c.spec && (d.pending ==> c.pending)
  }

  predicate WholeGiB(x: int) { x % GIB == 0 }

  /** Holds of every stored object when calls are serialized. */
  predicate Sound(c: Config) {
    WholeGiB(c.spec) && WholeGiB(c.provision) && c.provision <= c.spec && c.status <= c.spec
  }

  // ----- the decision -----

  /** The shrink check rejects a request exactly when it fits into one GiB less than the spec. */
  lemma {:induction false} ShrinkRejectedIff(c: Config, size: int)
    requires WholeGiB(c.spec)
    ensures Decide(c, Quantity(size)) == RejectShrink <==> size <= c.spec - GIB
  {
    var g := c.spec / GIB;
    assert c.spec == g * GIB;
    RoundUpGiBAtMost(size, g - 1);
  }

  /** Retrying the size that the spec already has: never a patch, success once the status has
      caught up. */
  lemma {:induction false} RetryNeverPatches(c: Config, size: int)
    requires Sound(c) && !c.pending && c.spec - GIB < size <= c.spec
    ensures Quantity(size) == c.spec
    ensures Decide(c, Quantity(size)) == if c.status == c.spec then AlreadyThere else RejectInProgress
  {
    var g := c.spec / GIB;
    assert c.spec == g * GIB;
    RoundUpGiBAtMost(size, g);
    RoundUpGiBAtMost(size, g - 1);
  }

  /** The whole decision on a sound object, in bytes of the request. */
  lemma {:induction false} DecisionBySize(c: Config, size: int)
    requires Sound(c)
    ensures Decide(c, Quantity(size)) ==
            if size <= c.spec - GIB then RejectShrink
            else if c.pending then Patch
            else if c.status < c.spec then RejectInProgress
            else if size <= c.spec then AlreadyThere
            else Patch
    ensures size > c.spec ==> Quantity(size) > c.spec
  {
    var g := c.spec / GIB;
    assert c.spec == g * GIB;
    RoundUpGiBAtMost(size, g);
    RoundUpGiBAtMost(size, g - 1);
  }

  // ----- interleaved calls -----

  datatype Call =
    | Fetched(target: int, snap: Config)
    | Waiting(target: int, published: bool)
    | Returned(target: int, published: bool, ok: bool, lastStatus: int)

  datatype State = State(cfg: Config, calls: map<nat, Call>)

  datatype Action =
    | Fetch(id: nat, size: int)
    | SendPatch(id: nat)
    | Reread(id: nat)
    | Fail(id: nat)
    | Operate(after: Config)

  function Fetching(c: Config, target: int): Call {
    match Decide(c, target)
    case Patch => Fetched(target, c)
    case AlreadyThere => Returned(target, c.published, true, c.status)
    case _ => Returned(target, c.published, false, c.status)
  }

  /** handleResize after the patch: without a published node there is nothing to wait for. */
  function AfterPatch(call: Call): Call
    requires call.Fetched?
  {
    if call.snap.published then Waiting(call.target, true)
    else Returned(call.target, false, true, call.snap.status)
  }

  predicate Enabled(s: State, a: Action) {
    match a
    case Fetch(id, _) => id !in s.calls
    case SendPatch(id) => id in s.calls && s.calls[id].Fetched?
    case Reread(id) => id in s.calls && s.calls[id].Waiting?
    case Fail(id) => id in s.calls && !s.calls[id].Returned?
    case Operate(after) => OperatorStep(s.cfg, after)
  }

  function Next(s: State, a: Action): State
    requires Enabled(s, a)
  {
    match a
    case Fetch(id, size) => s.(calls := s.calls[id := Fetching(s.cfg, Quantity(size))])
    case SendPatch(id) =>
      var call := s.calls[id];
      State(Patched(s.cfg, call.snap, call.target), s.calls[id := AfterPatch(call)])
    case Reread(id) =>
      var call := s.calls[id];
      s.(calls := s.calls[id := Returned(call.target, call.published, call.target == s.cfg.status, s.cfg.status)])
    case Fail(id) =>
      var call := s.calls[id];
      var published := if call.Fetched? then call.snap.published else call.published;
      s.(calls := s.calls[id := Returned(call.target, published, false, s.cfg.status)])
    case Operate(after) => s.(cfg := after)
  }

  ghost predicate Run(s: State, acts: seq<Action>)
    decreases acts
  {
    acts == [] || (Enabled(s, acts[0]) && Run(Next(s, acts[0]), acts[1..]))
  }

  ghost function Final(s: State, acts: seq<Action>): State
    requires Run(s, acts)
    decreases acts
  {
    if acts == [] then s else Final(Next(s, acts[0]), acts[1..])
  }

  ghost predicate NoneFetched(s: State) {
    forall i :: i in s.calls ==> !s.calls[i].Fetched?
  }

  /** No call fetches the object between the fetch and the patch of another. Calls may overlap in
      every other way, the wait after the patch included. */
  ghost predicate Serialized(s: State, acts: seq<Action>)
    requires Run(s, acts)
    decreases acts
  {
    acts == [] || ((acts[0].Fetch? ==> NoneFetched(s)) && Serialized(Next(s, acts[0]), acts[1..]))
  }

  /** At most one call is about to patch. It saw the current spec, aims at or above it, and found
      the volume settled unless it found it pending. */
  ghost predicate CallsAgree(s: State) {
    && (forall i, j :: i in s.calls && j in s.calls && s.calls[i].Fetched? && s.calls[j].Fetched? ==> i == j)
    && (forall i :: i in s.calls && s.calls[i].Fetched? ==>
          var call := s.calls[i];
          && WholeGiB(call.target) && s.cfg.spec <= call.target && call.snap.spec == s.cfg.spec
          && (call.snap.pending || s.cfg.status == s.cfg.spec))
  }

  ghost predicate Inv(s: State) { Sound(s.cfg) && CallsAgree(s) }

  /** A patch that is not empty is sent while the stored spec is at most its target. */
  ghost predicate PatchGuarded(s: State, a: Action)
    requires Enabled(s, a)
  {
    a.SendPatch? && s.calls[a.id].target != s.calls[a.id].snap.spec ==> s.cfg.spec <= s.calls[a.id].target
  }

  ghost predicate AlwaysPatchesGuarded(s: State, acts: seq<Action>)
    requires Run(s, acts)
    decreases acts
  {
    acts == [] || (PatchGuarded(s, acts[0]) && AlwaysPatchesGuarded(Next(s, acts[0]), acts[1..]))
  }

  /** The spec goes down in no step of the run. */
  ghost predicate AlwaysGrows(s: State, acts: seq<Action>)
    requires Run(s, acts)
    decreases acts
  {
    acts == [] || (s.cfg.spec <= Next(s, acts[0]).cfg.spec && AlwaysGrows(Next(s, acts[0]), acts[1..]))
  }

  /** One step of a serialized run: the invariant stays and the spec never goes down. */
  lemma {:induction false} SerializedStep(s: State, a: Action)
    requires Inv(s) && Enabled(s, a) && (a.Fetch? ==> NoneFetched(s))
    ensures Inv(Next(s, a))
    ensures PatchGuarded(s, a)
    ensures s.cfg.spec <= Next(s, a).cfg.spec && s.cfg.provision == Next(s, a).cfg.provision
  {
    var t := Next(s, a);
    if a.Fetch? {
      assert t.calls[a.id] == Fetching(s.cfg, Quantity(a.size));
      assert forall i :: i in t.calls && i != a.id ==> !t.calls[i].Fetched?;
    }
  }

  lemma {:induction false} RunKeepsInv(s: State, acts: seq<Action>)
    requires Inv(s) && Run(s, acts) && Serialized(s, acts)
    ensures AlwaysPatchesGuarded(s, acts)
    ensures var t := Final(s, acts); Inv(t) && s.cfg.spec <= t.cfg.spec && t.cfg.provision == s.cfg.provision
    decreases acts
  {
    if acts != [] {
      SerializedStep(s, acts[0]);
      RunKeepsInv(Next(s, acts[0]), acts[1..]);
    }
  }

  function Init(size: int, published: bool): State { State(Provisioned(size, published), map[]) }

  /** The end of a serialized run on a provisioned volume. */
  ghost predicate Reachable(s: State) {
    exists size, published, acts ::
      && size >= 0 && Run(Init(size, published), acts) && Serialized(Init(size, published), acts)
      && Final(Init(size, published), acts) == s
  }

  lemma {:induction false} ReachableIsSound(s: State)
    requires Reachable(s)
    ensures Inv(s)
  {
    var size, published, acts :|
      && size >= 0 && Run(Init(size, published), acts) && Serialized(Init(size, published), acts)
      && Final(Init(size, published), acts) == s;
    ProvisionedInv(size, published);
    RunKeepsInv(Init(size, published), acts);
  }

  /** From every reachable state, over every further serialized run: every patch is guarded, and
      the spec is a whole number of GiB, at or above the provisioned capacity and what it was
      before. */
  lemma {:induction false} SpecNeverShrinks(s: State, acts: seq<Action>)
    requires Reachable(s) && Run(s, acts) && Serialized(s, acts)
    ensures AlwaysPatchesGuarded(s, acts)
    ensures var c := Final(s, acts).cfg;
            s.cfg.spec <= c.spec && c.provision == s.cfg.provision <= c.spec && WholeGiB(c.spec) && c.status <= c.spec
  {
    ReachableIsSound(s);
    RunKeepsInv(s, acts);
  }

  lemma {:induction false} ProvisionedInv(size: int, published: bool)
    requires size >= 0
    ensures Inv(Init(size, published))
    ensures var c := Init(size, published).cfg;
            size <= c.spec < size + GIB && c.provision == c.spec && c.status == 0 && c.pending && c.published == published
  {
    RoundUpGiBAtMost(size, -1);
    RoundUpIsCeiling(size, GIB);
  }

  /** When calls are serialized: a patch moves the target of a volume that is still being resized
      exactly when its call fetched the volume pending and asks for another size. */
  lemma {:induction false} SerializedUnsettledMovesIff(s: State, id: nat)
    requires Reachable(s) && Enabled(s, SendPatch(id))
    ensures (Next(s, SendPatch(id)).cfg.spec != s.cfg.spec && s.cfg.status != s.cfg.spec) <==>
            (s.calls[id].snap.pending && s.calls[id].target != s.cfg.spec && s.cfg.status < s.cfg.spec)
  {
    ReachableIsSound(s);
  }

  // ----- the exact condition for growth, serialized or not -----

  /** What the shrink check leaves of a call until it patches. */
  ghost predicate AimsUp(s: State) {
    forall i :: i in s.calls && s.calls[i].Fetched? ==>
      WholeGiB(s.calls[i].target) && s.calls[i].snap.spec <= s.calls[i].target
  }

  lemma {:induction false} StepKeepsAim(s: State, a: Action)
    requires AimsUp(s) && Enabled(s, a)
    ensures AimsUp(Next(s, a))
  {
    var t := Next(s, a);
    if a.Fetch? {
      assert t.calls[a.id] == Fetching(s.cfg, Quantity(a.size));
    }
    assert forall i :: i in t.calls && t.calls[i].Fetched? ==>
        (a.Fetch? && i == a.id) || (i in s.calls && s.calls[i] == t.calls[i]);
  }

  lemma {:induction false} StepGrowsIff(s: State, a: Action)
    requires AimsUp(s) && Enabled(s, a)
    ensures s.cfg.spec <= Next(s, a).cfg.spec <==> PatchGuarded(s, a)
    ensures Sound(s.cfg) && PatchGuarded(s, a) ==> Sound(Next(s, a).cfg)
  {
  }

  lemma {:induction false} GrowthIffGuardedFrom(s: State, acts: seq<Action>)
    requires Sound(s.cfg) && AimsUp(s) && Run(s, acts)
    ensures AlwaysGrows(s, acts) <==> AlwaysPatchesGuarded(s, acts)
    ensures AlwaysGrows(s, acts) ==> Sound(Final(s, acts).cfg)
    decreases acts
  {
    if acts != [] {
      StepKeepsAim(s, acts[0]);
      StepGrowsIff(s, acts[0]);
      if PatchGuarded(s, acts[0]) {
        GrowthIffGuardedFrom(Next(s, acts[0]), acts[1..]);
      }
    }
  }

  lemma {:induction false} RunKeepsAim(s: State, acts: seq<Action>)
    requires AimsUp(s) && Run(s, acts)
    ensures AimsUp(Final(s, acts))
    decreases acts
  {
    if acts != [] {
      StepKeepsAim(s, acts[0]);
      RunKeepsAim(Next(s, acts[0]), acts[1..]);
    }
  }

  /** Over every run of any overlapping calls on a provisioned volume: the spec never goes down
      exactly when every non-empty patch is sent while the stored spec is at most its target, and
      then the stored object stays sound. */
  lemma {:induction false} GrowthIffPatchesGuarded(size: int, published: bool, acts: seq<Action>)
    requires size >= 0 && Run(Init(size, published), acts)
    ensures AlwaysGrows(Init(size, published), acts) <==> AlwaysPatchesGuarded(Init(size, published), acts)
    ensures AlwaysGrows(Init(size, published), acts) ==> Sound(Final(Init(size, published), acts).cfg)
  {
    ProvisionedInv(size, published);
    GrowthIffGuardedFrom(Init(size, published), acts);
  }

  /** In the last state of every run: a patch lowers the spec exactly when its target lies between
      the spec that its call fetched and a spec that another call has stored since. */
  lemma {:induction false} PatchShrinksIff(size: int, published: bool, acts: seq<Action>, id: nat)
    requires Run(Init(size, published), acts) && Enabled(Final(Init(size, published), acts), SendPatch(id))
    ensures var s := Final(Init(size, published), acts);
            Next(s, SendPatch(id)).cfg.spec < s.cfg.spec <==>
            s.calls[id].snap.spec < s.calls[id].target < s.cfg.spec
  {
    RunKeepsAim(Init(size, published), acts);
  }

  // ----- what success means -----

  ghost predicate SuccessMeansReached(s: State) {
    && (forall i :: i in s.calls && s.calls[i].Waiting? ==> s.calls[i].published)
    && (forall i :: i in s.calls && s.calls[i].Returned? && s.calls[i].ok && s.calls[i].published ==>
          s.calls[i].lastStatus == s.calls[i].target)
  }

  lemma {:induction false} RunKeepsSuccess(s: State, acts: seq<Action>)
    requires SuccessMeansReached(s) && Run(s, acts)
    ensures SuccessMeansReached(Final(s, acts))
    decreases acts
  {
    if acts != [] {
      assert SuccessMeansReached(Next(s, acts[0]));
      RunKeepsSuccess(Next(s, acts[0]), acts[1..]);
    }
  }

  /** In every interleaving, serialized or not, a call on a published volume that succeeded last
      read a status equal to its rounded request. */
  lemma {:induction false} SuccessReached(c: Config, acts: seq<Action>, id: nat)
    requires Run(State(c, map[]), acts)
    requires var calls := Final(State(c, map[]), acts).calls;
             id in calls && calls[id].Returned? && calls[id].ok && calls[id].published
    ensures var call := Final(State(c, map[]), acts).calls[id]; call.lastStatus == call.target
  {
    RunKeepsSuccess(State(c, map[]), acts);
  }

  // ----- the exact condition for a new target during a resize, serialized or not -----

  /** A call under way that did not find the volume pending found its status at the spec or
      above; the status has not gone down since. */
  ghost predicate SettledWhenFetched(s: State) {
    forall i :: i in s.calls && s.calls[i].Fetched? && !s.calls[i].snap.pending ==>
      s.calls[i].snap.spec <= s.cfg.status
  }

  lemma {:induction false} StepKeepsSettled(s: State, a: Action)
    requires SettledWhenFetched(s) && Enabled(s, a)
    ensures SettledWhenFetched(Next(s, a))
  {
    var t := Next(s, a);
    if a.Fetch? {
      assert t.calls[a.id] == Fetching(s.cfg, Quantity(a.size));
    }
    assert forall i :: i in t.calls && t.calls[i].Fetched? ==>
        (a.Fetch? && i == a.id) || (i in s.calls && s.calls[i] == t.calls[i]);
  }

  lemma {:induction false} RunKeepsSettled(s: State, acts: seq<Action>)
    requires SettledWhenFetched(s) && Run(s, acts)
    ensures SettledWhenFetched(Final(s, acts))
    decreases acts
  {
    if acts != [] {
      StepKeepsSettled(s, acts[0]);
      RunKeepsSettled(Next(s, acts[0]), acts[1..]);
    }
  }

  /** In the last state of every run of any overlapping calls: a patch moves the target of a volume
      that is still being resized exactly when its call fetched the volume pending or before
      another call raised the spec, and asks for a size that is neither the fetched nor the stored
      one. */
  lemma {:induction false} UnsettledTargetMovesIff(size: int, published: bool, acts: seq<Action>, id: nat)
    requires Run(Init(size, published), acts) && Enabled(Final(Init(size, published), acts), SendPatch(id))
    ensures var s := Final(Init(size, published), acts);
            var call := s.calls[id];
            (Next(s, SendPatch(id)).cfg.spec != s.cfg.spec && s.cfg.status < s.cfg.spec) <==>
            && (call.snap.pending || call.snap.spec < s.cfg.spec)
            && call.target != call.snap.spec && call.target != s.cfg.spec && s.cfg.status < s.cfg.spec
  {
    RunKeepsSettled(Init(size, published), acts);
  }

  // ----- runs outside the guarantees -----

  lemma {:induction false} Prepend(s: State, a: Action, acts: seq<Action>, end: State) returns (longer: seq<Action>)
    requires Enabled(s, a) && Run(Next(s, a), acts) && Final(Next(s, a), acts) == end
    ensures Run(s, longer) && Final(s, longer) == end && longer == [a] + acts
  {
    longer := [a] + acts;
    assert longer[1..] == acts;
  }

  lemma {:induction false} QuantityOfGiB(g: int)
    ensures Quantity(g * GIB) == g * GIB
  {
    RoundUpIsCeiling(g * GIB, GIB);
  }

  /** A volume provisioned with `g` GiB and settled, then two overlapping calls: the later patch
      carries the smaller target and lowers the spec that the earlier one had set. */
  lemma {:induction false} OverlappingCallsShrink(g: nat, published: bool) returns (acts: seq<Action>, before: State)
    ensures var s := Init(g * GIB, published);
            && Run(s, acts) && |acts| == 5
            && before.cfg.spec == (g + 2) * GIB
            && Run(before, acts[4..]) && Final(before, acts[4..]) == Final(s, acts)
            && Final(s, acts).cfg.spec == (g + 1) * GIB
  {
    QuantityOfGiB(g);
    QuantityOfGiB(g + 1);
    QuantityOfGiB(g + 2);
    var s0 := Init(g * GIB, published);
    var c := Config(g * GIB, g * GIB, g * GIB, false, published);
    var a0 := Operate(c);
    var a1, a2 := Fetch(0, (g + 2) * GIB), Fetch(1, (g + 1) * GIB);
    var a3, a4 := SendPatch(0), SendPatch(1);
    var s1 := Next(s0, a0);
    var s2 := Next(s1, a1);
    assert s2.calls[0] == Fetched((g + 2) * GIB, c);
    var s3 := Next(s2, a2);
    assert s3.calls[1] == Fetched((g + 1) * GIB, c);
    before := Next(s3, a3);
    var end := Next(before, a4);
    acts := Prepend(before, a4, [], end);
    acts := Prepend(s3, a3, acts, end);
    acts := Prepend(s2, a2, acts, end);
    acts := Prepend(s1, a1, acts, end);
    acts := Prepend(s0, a0, acts, end);
    assert acts[4..] == [a4];
  }

  /** A volume provisioned with `g` GiB and settled, then two overlapping calls that both found it
      so: after the first patch the second one moves the target although the status has not
      caught up and the volume was never fetched pending. */
  lemma {:induction false} OverlappingCallMovesUnsettledTarget(g: nat, published: bool)
    returns (acts: seq<Action>, before: State)
    ensures Run(Init(g * GIB, published), acts) && Final(Init(g * GIB, published), acts) == before
    ensures Enabled(before, SendPatch(1)) && !before.calls[1].snap.pending && before.cfg.status < before.cfg.spec
    ensures before.cfg.spec < Next(before, SendPatch(1)).cfg.spec
  {
    QuantityOfGiB(g);
    QuantityOfGiB(g + 1);
    QuantityOfGiB(g + 2);
    var s0 := Init(g * GIB, published);
    var c := Config(g * GIB, g * GIB, g * GIB, false, published);
    var a0, a1, a2 := Operate(c), Fetch(0, (g + 1) * GIB), Fetch(1, (g + 2) * GIB);
    var s1 := Next(s0, a0);
    var s2 := Next(s1, a1);
    assert s2.calls[0] == Fetched((g + 1) * GIB, c);
    var s3 := Next(s2, a2);
    assert s3.calls[1] == Fetched((g + 2) * GIB, c);
    before := Next(s3, SendPatch(0));
    acts := Prepend(s3, SendPatch(0), [], before);
    acts := Prepend(s2, a2, acts, before);
    acts := Prepend(s1, a1, acts, before);
    acts := Prepend(s0, a0, acts, before);
  }

  /** A call that fetched a pending volume moves the target after the volume was bound and
      before its status caught up, although calls are serialized. */
  lemma {:induction false} PendingFetchMovesUnsettledTarget(published: bool) returns (s: State)
    ensures Reachable(s) && Enabled(s, SendPatch(0)) && !s.cfg.pending && s.cfg.status < s.cfg.spec
    ensures Next(s, SendPatch(0)).cfg.spec != s.cfg.spec
  {
    QuantityOfGiB(1);
    QuantityOfGiB(2);
    var s0 := Init(GIB, published);
    var a0, a1 := Fetch(0, 2 * GIB), Operate(s0.cfg.(pending := false));
    var s1 := Next(s0, a0);
    assert s1.calls[0] == Fetched(2 * GIB, s0.cfg);
    s := Next(s1, a1);
    var last := Prepend(s1, a1, [], s);
    assert last[1..] == [] && Serialized(s1, last);
    var acts := Prepend(s0, a0, last, s);
    assert acts[1..] == last && Serialized(Init(GIB, published), acts);
  }

  // ----- ResizeVolume as it runs when nothing overlaps -----

  /** From every state with a sound object: a call without faults, between whose patch and second
      read only the operator acts, can run to its end, and that end depends on the size and the
      fetched object alone, except for how far the operator gets. */
  lemma {:induction false} UndisturbedCall(s: State, id: nat, size: int, op: Operator)
    returns (acts: seq<Action>, end: State)
    requires Sound(s.cfg) && id !in s.calls
    ensures Run(s, acts) && Final(s, acts) == end && id in end.calls && end.calls[id].Returned?
    ensures var c, ok := s.cfg, end.calls[id].ok;
            if size <= c.spec - GIB || (!c.pending && c.status < c.spec) then end.cfg == c && !ok
            else if !c.pending && size <= c.spec then end.cfg == c && ok
            else
              && size <= end.cfg.spec < size + GIB && c.spec <= end.cfg.spec
              && (ok <==> !c.published || end.cfg.status == end.cfg.spec)
              && end.cfg == if c.published then Progress(c.(spec := end.cfg.spec), op) else c.(spec := end.cfg.spec)
  {
    var c, target := s.cfg, Quantity(size);
    DecisionBySize(c, size);
    RoundUpIsCeiling(size, GIB);
    var t := Next(s, Fetch(id, size));
    assert t.calls[id] == Fetching(c, target);
    if t.calls[id].Fetched? {
      ShrinkRejectedIff(c, size);
      var u := Next(t, SendPatch(id));
      assert u.cfg == c.(spec := target) && u.calls[id] == AfterPatch(t.calls[id]);
      if c.published {
        var after := Progress(u.cfg, op);
        ProgressIsOperatorStep(u.cfg, after);
        var v := Next(u, Operate(after));
        end := Next(v, Reread(id));
        acts := Prepend(v, Reread(id), [], end);
        acts := Prepend(u, Operate(after), acts, end);
      } else {
        end, acts := u, [];
      }
      acts := Prepend(t, SendPatch(id), acts, end);
    } else {
      end, acts := t, [];
    }
    acts := Prepend(s, Fetch(id, size), acts, end);
  }

  /** What the API server answers to the three requests of one call. */
  datatype Faults = Faults(getFails: bool, patchFails: bool, rereadFails: bool)

  /** What the operator does during the wait: how far it raises the status, and whether it
      binds the volume. */
  datatype Operator = Operator(gain: nat, binds: bool)

  function Progress(c: Config, op: Operator): Config {
    var status := if c.status + op.gain <= c.spec then c.status + op.gain else c.spec;
    c.(status := status, pending := c.pending && !op.binds)
  }

  /** Progress ranges over exactly the operator's steps. */
  lemma {:induction false} ProgressIsOperatorStep(c: Config, d: Config)
    requires c.status <= c.spec
    ensures OperatorStep(c, d) <==> exists op :: Progress(c, op) == d
  {
    if OperatorStep(c, d) {
      assert Progress(c, Operator(d.status - c.status, !d.pending)) == d;
    }
  }

  /** When a call that read the object succeeds, in terms of the object it leaves. */
  predicate Succeeds(d: Decision, after: Config, target: int, f: Faults) {
    match d
    case AlreadyThere => true
    case Patch => !f.patchFails && (after.published ==> !f.rereadFails && after.status == target)
    case _ => false
  }

  class ConfigStore {
    var cfg: Config

    constructor Provision(size: int, published: bool)
      ensures cfg == Provisioned(size, published)
      ensures size >= 0 ==> Sound(cfg)
    {
      cfg := Provisioned(size, published);
      if size >= 0 {
        RoundUpGiBAtMost(size, -1);
      }
    }

    method UpdateSize(fetched: Config, target: int, fails: bool) returns (ok: bool)
      modifies this
      ensures ok == !fails
      ensures cfg == if fails then old(cfg) else Patched(old(cfg), fetched, target)
    {
      if fails {
        return false;
      }
      if target != fetched.spec {
        cfg := cfg.(spec := target);
      }
      ok := true;
    }

    /** The five second wait, in which the operator makes progress, and the second read. */
    method WaitAndReverify(target: int, op: Operator, fails: bool) returns (ok: bool)
      modifies this
      ensures cfg == Progress(old(cfg), op)
      ensures ok <==> !fails && cfg.status == target
    {
      cfg := Progress(cfg, op);
      ok := !fails && cfg.status == target;
    }

    method HandleResize(fetched: Config, target: int, op: Operator, f: Faults) returns (ok: bool)
      requires Sound(cfg) && cfg == fetched && WholeGiB(target) && fetched.spec <= target
      modifies this
      ensures Sound(cfg) && cfg.provision == old(cfg).provision && cfg.published == old(cfg).published
      ensures cfg.spec == if f.patchFails then old(cfg).spec else target
      ensures cfg == if f.patchFails then old(cfg)
                     else if old(cfg).published then Progress(old(cfg).(spec := target), op)
                     else old(cfg).(spec := target)
      ensures ok <==> Succeeds(Patch, cfg, target, f)
    {
      ok := UpdateSize(fetched, target, f.patchFails);
      if !ok {
        return;
      }
      if !fetched.published {
        return true;
      }
      ok := WaitAndReverify(target, op, f.rereadFails);
    }

    /** ResizeVolume. */
    method ResizeVolume(size: int, op: Operator, f: Faults) returns (ok: bool)
      requires Sound(cfg)
      modifies this
      ensures Sound(cfg) && old(cfg).spec <= cfg.spec && cfg.provision == old(cfg).provision
      ensures cfg.spec != old(cfg).spec ==> old(cfg).pending || old(cfg).status == old(cfg).spec
      ensures f.getFails || size <= old(cfg).spec - GIB || (!old(cfg).pending && old(cfg).status < old(cfg).spec) ==>
                !ok && cfg == old(cfg)
      ensures f.patchFails ==> cfg == old(cfg)
      ensures !f.getFails && !f.patchFails && size > old(cfg).spec && (old(cfg).pending || old(cfg).status == old(cfg).spec) ==>
                && size <= cfg.spec < size + GIB && old(cfg).spec < cfg.spec
                && (ok <==> !cfg.published || (!f.rereadFails && cfg.status == cfg.spec))
      ensures !f.getFails && !f.patchFails && old(cfg).pending && old(cfg).spec - GIB < size <= old(cfg).spec ==>
                cfg.spec == old(cfg).spec && (ok <==> !cfg.published || (!f.rereadFails && cfg.status == cfg.spec))
      ensures !old(cfg).pending && old(cfg).spec - GIB < size <= old(cfg).spec ==>
                cfg == old(cfg) && (ok <==> !f.getFails && cfg.status == cfg.spec)
      ensures ok <==> !f.getFails && Succeeds(Decide(old(cfg), Quantity(size)), cfg, Quantity(size), f)
      ensures ok ==> size <= cfg.spec < size + GIB && (cfg.published ==> cfg.status == cfg.spec)
    {
      var target := Quantity(size);
      RoundUpIsCeiling(size, GIB);
      if f.getFails {
        return false;
      }
      var fetched := cfg;
      ShrinkRejectedIff(fetched, size);
      DecisionBySize(fetched, size);
      if !fetched.pending && fetched.spec - GIB < size <= fetched.spec {
        RetryNeverPatches(fetched, size);
      }
      if target < fetched.spec {
        return false;
      }
      if fetched.pending {
        ok := HandleResize(fetched, target, op, f);
        return;
      }
      if fetched.spec > fetched.status {
        return false;
      }
      if target == fetched.status {
        return true;
      }
      ok := HandleResize(fetched, target, op, f);
    }
  }
}
