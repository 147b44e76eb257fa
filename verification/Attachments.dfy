/**
 prepareVolumeForNode as one handler runs it: list, check, relist and delete, poll, create, on a
 store of attachment records keyed by name. Nothing else writes to the store meanwhile except the
 garbage collector.
 */
module Attachments {
  import opened Naming

  datatype Record = Record(vol: string, node: string, marked: bool, finalizer: bool)

  type Records = map<string, Record>

  /** What k8snode.IsNodeReady answers. */
  datatype Readiness = Ready | NotReady | Missing | Unknown

  const LOOP_COUNT: nat := 5

  /** The answers of the outside world during one call. */
  datatype World = World(
    ready: string -> Readiness,
    listFails: bool,
    volumeReady: bool,         // record built, CVC bound and iSCSI details fetched
    relistFails: bool,
    deleteFails: string -> bool,
    collected: nat -> set<string>, // names the collector looks at before poll i
    getFails: nat -> bool,         // poll i ends in an error other than "not found"
    nodeFound: bool,
    createFails: bool)

  /** The name of a record is made of its labels. */
  predicate NamesAgree(rs: Records) {
    forall name :: name in rs ==> name == RecordName(rs[name].vol, rs[name].node)
  }

  predicate Live(rs: Records, name: string) { name in rs && !rs[name].marked }

  ghost predicate OneLive(rs: Records) {
    forall a, b :: Live(rs, a) && Live(rs, b) && rs[a].vol == rs[b].vol ==> a == b
  }

  /** What deletions and collections may do: nothing is created, a record changes at most by a
      mark, only records named in `hit` get one, and a finalizer keeps a record stored. */
  ghost predicate Aged(before: Records, after: Records, hit: set<string>) {
    && (forall name :: name in after ==>
          && name in before && after[name] == before[name].(marked := after[name].marked)
          && (before[name].marked ==> after[name].marked)
          && (after[name].marked && !before[name].marked ==> name in hit))
    && (forall name :: name in before && before[name].finalizer ==> name in after)
  }

  lemma {:induction false} AgedTransitive(a: Records, b: Records, c: Records, h: set<string>, g: set<string>)
    requires Aged(a, b, h) && Aged(b, c, g)
    ensures Aged(a, c, h + g)
  {
  }

  lemma {:induction false} AgedByMark(a: Records, b: Records, name: string, h: set<string>)
    requires Aged(a, b, h) && name in b && name in h
    ensures Aged(a, b[name := b[name].(marked := true)], h)
  {
  }

  lemma {:induction false} AgedKeeps(a: Records, b: Records, h: set<string>)
    requires Aged(a, b, h)
    ensures NamesAgree(a) ==> NamesAgree(b)
    ensures OneLive(a) ==> OneLive(b)
  {
  }

  predicate Passes(r: Record, name: string, vol: string, node: string, ready: string -> Readiness) {
    if name == RecordName(vol, node) then !r.marked
    else r.node != node && (ready(r.node) == NotReady || ready(r.node) == Missing)
  }

  /** A record of another node got its mark only because that node was found not ready or
      missing; finalizers stay and keep their records. */
  ghost predicate MarkedFairly(before: Records, after: Records, vol: string, node: string, ready: string -> Readiness) {
    && (forall name :: name in before && name in after && after[name].marked && !before[name].marked ==>
          && after[name].vol == vol
          && (name == RecordName(vol, node) || ready(after[name].node) == NotReady || ready(after[name].node) == Missing))
    && (forall name :: name in before && before[name].finalizer ==> name in after && after[name].finalizer)
  }

  /** The node's fresh record is the one live record of the volume. */
  ghost predicate OwnsAlone(rs: Records, vol: string, node: string) {
    var own := RecordName(vol, node);
    own in rs && rs[own] == Record(vol, node, false, false) &&
    forall name :: Live(rs, name) && rs[name].vol == vol ==> name == own
  }

  ghost function OfVolume(rs: Records, vol: string): set<string> {
    set name | name in rs && rs[name].vol == vol
  }

  predicate Removable(rs: Records, name: string) { name in rs ==> rs[name].marked && !rs[name].finalizer }

  /** strings.HasSuffix. */
  predicate HasSuffix(s: string, suffix: string) {
    |suffix| <= |s| && s[|s| - |suffix|..] == suffix
  }

  lemma {:induction false} HasSuffixIff(s: string, suffix: string)
    ensures HasSuffix(s, suffix) <==> exists rest: string :: s == rest + suffix
  {
    if HasSuffix(s, suffix) {
      assert s == s[..|s| - |suffix|] + suffix;
    }
  }

  predicate IsLastWithSuffix(names: seq<string>, node: string, k: nat)
    requires k < |names|
  {
    HasSuffix(names[k], node) && forall j :: k < j < |names| ==> !HasSuffix(names[j], node)
  }

  lemma {:induction false} SuffixOfName(vol: string, node: string)
    ensures RecordName(vol, node) != "" && HasSuffix(RecordName(vol, node), node)
  {
  }

  lemma {:induction false} NoEmptyName(rs: Records)
    ensures NamesAgree(rs) ==> "" !in rs
  {
  }

  /** In the list of one node every volume occurs once. */
  lemma {:induction false} OneRecordPerVolumeAndNode(rs: Records, a: string, b: string)
    requires NamesAgree(rs) && a in rs && b in rs && rs[a].vol == rs[b].vol && rs[a].node == rs[b].node
    ensures a == b
  {
  }

  lemma {:induction false} DeletedFairly(before: Records, after: Records, vol: string, node: string, ready: string -> Readiness)
    requires Aged(before, after, OfVolume(before, vol))
    requires forall name :: name in OfVolume(before, vol) ==> Passes(before[name], name, vol, node, ready)
    ensures MarkedFairly(before, after, vol, node, ready)
  {
  }

  lemma {:induction false} CreateOwns(rs: Records, vol: string, node: string)
    requires NamesAgree(rs) && OneLive(rs) && RecordName(vol, node) !in rs
    requires forall name :: name in OfVolume(rs, vol) ==> rs[name].marked
    ensures var after := rs[RecordName(vol, node) := Record(vol, node, false, false)];
            NamesAgree(after) && OneLive(after) && OwnsAlone(after, vol, node)
  {
    var own := RecordName(vol, node);
    var after := rs[own := Record(vol, node, false, false)];
    assert forall name :: name != own && Live(after, name) ==> Live(rs, name);
    assert forall name :: Live(rs, name) ==> rs[name].vol != vol;
  }

  lemma {:induction false} CreateIsFair(before: Records, mid: Records, vol: string, node: string, ready: string -> Readiness)
    requires MarkedFairly(before, mid, vol, node, ready) && RecordName(vol, node) !in mid
    ensures MarkedFairly(before, mid[RecordName(vol, node) := Record(vol, node, false, false)], vol, node, ready)
    ensures RecordName(vol, node) in before ==> !before[RecordName(vol, node)].finalizer
  {
  }

  /** Nothing stands in the way of a prepare: the own record is unmarked, the other nodes with a
      record of the volume are down or gone, no request fails, and an own old record has no
      finalizer and is collected before the first poll. */
  ghost predicate Unhindered(rs: Records, vol: string, node: string, w: World) {
    var own := RecordName(vol, node);
    && !w.listFails && w.volumeReady && !w.relistFails && w.nodeFound && !w.createFails
    && (forall name :: name in rs && rs[name].vol == vol && name != own ==>
          rs[name].node != node && (w.ready(rs[name].node) == NotReady || w.ready(rs[name].node) == Missing))
    && (own in rs ==> !rs[own].marked)
    && (forall name :: name in rs && rs[name].vol == vol ==> !w.deleteFails(name))
    && (own in rs ==> rs[own].vol == vol && !rs[own].finalizer && own in w.collected(0))
  }

  class ApiServer {
    var records: Records

    ghost predicate Valid()
      reads this
    {
      NamesAgree(records) && OneLive(records)
    }

    /** A label query: every record of the volume, in some order. */
    method ListByVolume(vol: string) returns (names: seq<string>)
      ensures forall name :: name in names <==> name in records && records[name].vol == vol
    {
      names := [];
      var left := records.Keys;
      while left != {}
        invariant left <= records.Keys
        invariant forall name :: name in names <==> name in records && name !in left && records[name].vol == vol
        decreases left
      {
        var name :| name in left;
        left := left - {name};
        if records[name].vol == vol {
          names := names + [name];
        }
      }
    }

    /** A foreground deletion marks; the collector removes later. */
    method Delete(name: string, fails: bool) returns (ok: bool)
      modifies this
      ensures ok <==> !fails && name in old(records)
      ensures ok ==> records == old(records)[name := old(records)[name].(marked := true)]
      ensures !ok ==> records == old(records)
    {
      ok := !fails && name in records;
      if ok {
        records := records[name := records[name].(marked := true)];
      }
    }

    method CollectGarbage(names: set<string>)
      modifies this
      ensures Aged(old(records), records, {})
      ensures forall name :: name in old(records) && name !in records ==>
                name in names && old(records)[name].marked && !old(records)[name].finalizer
      ensures forall name :: name in records ==> !(name in names && records[name].marked && !records[name].finalizer)
    {
      records := map name | name in records && !(name in names && records[name].marked && !records[name].finalizer)
        :: records[name];
    }

    /** The readiness loop of prepareVolumeForNode. */
    method CheckExisting(names: seq<string>, vol: string, node: string, ready: string -> Readiness) returns (ok: bool)
      requires forall k :: 0 <= k < |names| ==> names[k] in records
      ensures ok <==> forall k :: 0 <= k < |names| ==>
                if names[k] == RecordName(vol, node) then !records[names[k]].marked
                else records[names[k]].node != node && ready(records[names[k]].node) in {NotReady, Missing}
    {
      var i := 0;
      while i < |names|
        invariant 0 <= i <= |names|
        invariant forall k :: 0 <= k < i ==> Passes(records[names[k]], names[k], vol, node, ready)
      {
        var r := records[names[i]];
        if names[i] == RecordName(vol, node) {
          if r.marked {
            return false;
          }
        } else {
          if r.node == node {
            return false;
          }
          var answer := ready(r.node);
          if answer == Unknown {
            return false;
          } else if answer == Ready {
            return false;
          }
        }
        i := i + 1;
      }
      return true;
    }

    /** The deletion loop of DeleteOldCStorVolumeAttachmentCRs. */
    method DeleteAll(names: seq<string>, fails: string -> bool) returns (ok: bool)
      modifies this
      ensures Aged(old(records), records, set x | x in names)
      ensures records.Keys == old(records).Keys
      ensures ok ==> forall k :: 0 <= k < |names| ==> names[k] in records && records[names[k]].marked
      ensures ok <==> forall k :: 0 <= k < |names| ==> names[k] in old(records) && !fails(names[k])
    {
      ghost var hit := set x | x in names;
      var i := 0;
      while i < |names|
        invariant 0 <= i <= |names|
        invariant Aged(old(records), records, hit)
        invariant records.Keys == old(records).Keys
        invariant forall k :: 0 <= k < i ==> names[k] in records && records[names[k]].marked && !fails(names[k])
      {
        ghost var before := records;
        ok := Delete(names[i], fails(names[i]));
        if !ok {
          return;
        }
        AgedByMark(old(records), before, names[i], hit);
        i := i + 1;
      }
      ok := true;
    }

    /** The poll for the deletion of the node's own record. Only the answer "not found" ends it
        early, any other error is polled again, and after the last poll it gives up silently. */
    method Poll(name: string, w: World) returns (polls: nat)
      modifies this
      ensures polls <= 5
      ensures Aged(old(records), records, {})
      ensures polls < 5 ==> name !in records && !w.getFails(polls)
      ensures forall i: nat ::
                (i < 5 && Removable(old(records), name) && name in w.collected(i) &&
                 (forall j: nat :: i <= j < 5 ==> !w.getFails(j))) ==> polls <= i
      ensures forall x :: x in w.collected(0) && x in records ==> !records[x].marked || records[x].finalizer
    {
      polls := 0;
      while polls < LOOP_COUNT
        invariant polls <= LOOP_COUNT
        invariant Aged(old(records), records, {})
        invariant forall i: nat :: i < polls && Removable(old(records), name) && name in w.collected(i) ==>
                    name !in records && w.getFails(polls - 1)
        invariant polls > 0 ==>
                    forall x :: x in w.collected(0) && x in records ==> !records[x].marked || records[x].finalizer
      {
        ghost var before := records;
        CollectGarbage(w.collected(polls));
        AgedTransitive(old(records), before, records, {}, {});
        if !w.getFails(polls) && name !in records {
          return;
        }
        polls := polls + 1;
      }
    }

    /** DeleteOldCStorVolumeAttachmentCRs. A nil result promises marks, not that the node's own
        record is gone. */
    method DeleteOld(vol: string, node: string, w: World) returns (ok: bool)
      modifies this
      ensures Aged(old(records), records, OfVolume(old(records), vol))
      ensures ok ==> forall name :: name in records && records[name].vol == vol ==> records[name].marked
      ensures ok ==> !w.relistFails && forall name :: name in old(records) && old(records)[name].vol == vol ==> !w.deleteFails(name)
      ensures NamesAgree(old(records)) && Unhindered(old(records), vol, node, w) ==> ok && RecordName(vol, node) !in records
    {
      if w.relistFails {
        return false;
      }
      var names := ListByVolume(vol);
      ghost var hit := OfVolume(records, vol);
      assert hit == set x | x in names;
      assert forall name :: name in records && records[name].vol == vol ==> name in names;
      ok := DeleteAll(names, w.deleteFails);
      if !ok {
        return;
      }
      assert forall name :: name in records && records[name].vol == vol ==> records[name].marked;
      var own := LastWithSuffix(names, node);
      assert NamesAgree(old(records)) && RecordName(vol, node) in names ==> own != "" by {
        SuffixOfName(vol, node);
        NoEmptyName(old(records));
      }
      if own != "" {
        ghost var before := records;
        var polls := Poll(own, w);
        AgedTransitive(old(records), before, records, hit, {});
        assert hit + {} == hit;
      }
    }

    /** The record that DeleteOld waits for: the last listed one whose name ends in the node's. */
    static method LastWithSuffix(names: seq<string>, node: string) returns (own: string)
      ensures if exists k :: 0 <= k < |names| && HasSuffix(names[k], node)
              then exists k :: 0 <= k < |names| && IsLastWithSuffix(names, node, k) && own == names[k]
              else own == ""
    {
      own := "";
      var i := 0;
      while i < |names|
        invariant 0 <= i <= |names|
        invariant if exists k :: 0 <= k < i && HasSuffix(names[k], node)
                  then exists k :: 0 <= k < i && IsLastWithSuffix(names[..i], node, k) && own == names[k]
                  else own == ""
      {
        assert names[..i + 1] == names[..i] + [names[i]];
        if HasSuffix(names[i], node) {
          own := names[i];
          assert IsLastWithSuffix(names[..i + 1], node, i);
        } else if k :| 0 <= k < i && IsLastWithSuffix(names[..i], node, k) && own == names[k] {
          assert IsLastWithSuffix(names[..i + 1], node, k);
        }
        i := i + 1;
      }
      assert names[..i] == names;
    }

    /** CreateCStorVolumeAttachmentCR: fails when the node is unknown or the name is taken. */
    method Create(vol: string, node: string, w: World) returns (ok: bool)
      modifies this
      ensures ok <==> w.nodeFound && !w.createFails && RecordName(vol, node) !in old(records)
      ensures records == if ok then old(records)[RecordName(vol, node) := Record(vol, node, false, false)] else old(records)
    {
      ok := w.nodeFound && !w.createFails && RecordName(vol, node) !in records;
      if ok {
        records := records[RecordName(vol, node) := Record(vol, node, false, false)];
      }
    }

    /** prepareVolumeForNode, undisturbed: names and labels agree, at most one record per volume
        is live, and a record of another node is marked only when that node was found not ready
        or missing. On success the node's own fresh record is the one live record. */
    method PrepareVolumeForNode(vol: string, node: string, w: World) returns (ok: bool)
      requires Valid()
      modifies this
      ensures Valid()
      ensures MarkedFairly(old(records), records, vol, node, w.ready)
      ensures ok ==> OwnsAlone(records, vol, node)
      ensures Unhindered(old(records), vol, node, w) ==> ok
      ensures ok ==> !w.listFails && w.volumeReady && !w.relistFails && w.nodeFound && !w.createFails
      ensures ok ==> forall name :: name in old(records) && old(records)[name].vol == vol && name != RecordName(vol, node) ==>
                w.ready(old(records)[name].node) == NotReady || w.ready(old(records)[name].node) == Missing
      ensures RecordName(vol, node) in old(records) && old(records)[RecordName(vol, node)].finalizer ==> !ok
    {
      if w.listFails {
        return false;
      }
      var names := ListByVolume(vol);
      ok := CheckExisting(names, vol, node, w.ready);
      if !ok {
        return;
      }
      assert forall name :: name in OfVolume(records, vol) <==> name in names;
      if !w.volumeReady {
        return false;
      }
      forall name | name in OfVolume(records, vol)
        ensures Passes(records[name], name, vol, node, w.ready)
      {
        assert name in names;
      }
      ok := DeleteOld(vol, node, w);
      AgedKeeps(old(records), records, OfVolume(old(records), vol));
      DeletedFairly(old(records), records, vol, node, w.ready);
      if !ok {
        return;
      }
      ghost var mid := records;
      ok := Create(vol, node, w);
      if ok {
        CreateOwns(mid, vol, node);
        CreateIsFair(old(records), mid, vol, node, w.ready);
      }
    }
  }
}
