/** What one monitor scan guarantees at the moment it releases the lock. */
module Monitor {
  import opened Common
  import opened Transition

  /** A line of the list is at `path`. */
  ghost predicate MountedAt(path: string, mounts: seq<MountPoint>) {
    exists k :: 0 <= k < |mounts| && mounts[k].path == path
  }

  /** The first line at `path` is read-write. */
  ghost predicate FirstIsWritable(path: string, mounts: seq<MountPoint>) {
    exists k :: 0 <= k < |mounts| && mounts[k].path == path && "rw" in mounts[k].opts &&
                forall j :: 0 <= j < k ==> mounts[j].path != path
  }

  /** What the monitor is there to find: the attachment is unmarked, no block device and has both
      paths, and its first staging line is not read-write or nothing is at its target path. */
  ghost predicate NeedsRemount(a: Attachment, mounts: seq<MountPoint>) {
    && !a.marked && a.accessType != "block" && a.staging != "" && a.target != ""
    && !(FirstIsWritable(a.staging, mounts) && MountedAt(a.target, mounts))
  }

  lemma {:induction false} FindMountIsFirst(path: string, mounts: seq<MountPoint>)
    ensures FindMount(path, mounts).None? <==> forall k :: 0 <= k < |mounts| ==> mounts[k].path != path
    ensures var found := FindMount(path, mounts);
            found.Some? ==> exists k :: 0 <= k < |mounts| && mounts[k] == found.value && mounts[k].path == path &&
                                        forall j :: 0 <= j < k ==> mounts[j].path != path
  {
    if mounts != [] && mounts[0].path != path {
      var rest := mounts[1..];
      FindMountIsFirst(path, rest);
      assert forall k :: 0 < k < |mounts| ==> mounts[k] == rest[k - 1];
      if FindMount(path, rest).Some? {
        var k :| 0 <= k < |rest| && rest[k] == FindMount(path, rest).value && rest[k].path == path &&
                 forall j :: 0 <= j < k ==> rest[j].path != path;
        assert mounts[k + 1] == rest[k];
      }
    }
  }

  /** The monitor's test of the mount list it fetched finds exactly the good ones, */
  lemma {:induction false} HealthyIff(a: Attachment, mounts: seq<MountPoint>)
    ensures Healthy(a, mounts) <==> FirstIsWritable(a.staging, mounts) && MountedAt(a.target, mounts)
  {
    FindMountIsFirst(a.staging, mounts);
    FindMountIsFirst(a.target, mounts);
    if FirstIsWritable(a.staging, mounts) {
      var k :| 0 <= k < |mounts| && mounts[k].path == a.staging && "rw" in mounts[k].opts &&
               forall j :: 0 <= j < k ==> mounts[j].path != a.staging;
      var i :| 0 <= i < |mounts| && mounts[i] == FindMount(a.staging, mounts).value && mounts[i].path == a.staging &&
               forall j :: 0 <= j < i ==> mounts[j].path != a.staging;
      assert i == k;
    }
  }

  /** and together with its three exceptions exactly those that need a remount. */
  lemma {:induction false} NeedsRemountIff(a: Attachment, mounts: seq<MountPoint>)
    ensures NeedsRemount(a, mounts) <==> !Unmonitored(a) && !Healthy(a, mounts)
  {
    HealthyIff(a, mounts);
  }

  lemma {:induction false} ScanGrows(s: State, mounts: seq<MountPoint>, list: seq<Attachment>)
    ensures var t := MonitorScan(s, mounts, list);
            s.transition.Keys <= t.transition.Keys && (s.cleanupDue ==> t.cleanupDue)
    decreases list
  {
    if list != [] {
      ScanGrows(MonitorItem(s, mounts, list[0]), mounts, list[1..]);
    }
  }

  /** Every listed attachment is accounted for: marked (and then cleanup is requested), never
      monitored, healthy, or its volume has an entry. */
  lemma {:induction false} ScanCovers(s: State, mounts: seq<MountPoint>, list: seq<Attachment>, k: nat)
    requires k < |list|
    ensures var t := MonitorScan(s, mounts, list);
            && (list[k].marked ==> t.cleanupDue)
            && (NeedsRemount(list[k], mounts) ==> list[k].volume in t.transition)
    decreases list
  {
    var u := MonitorItem(s, mounts, list[0]);
    NeedsRemountIff(list[k], mounts);
    if k == 0 {
      ScanGrows(u, mounts, list[1..]);
    } else {
      ScanCovers(u, mounts, list[1..], k - 1);
    }
  }

  /** Cleanup is requested only for a marked attachment. */
  lemma {:induction false} CleanupDueIff(s: State, mounts: seq<MountPoint>, list: seq<Attachment>)
    ensures MonitorScan(s, mounts, list).cleanupDue <==>
            s.cleanupDue || exists k :: 0 <= k < |list| && list[k].marked
    decreases list
  {
    if list != [] {
      var rest := list[1..];
      CleanupDueIff(MonitorItem(s, mounts, list[0]), mounts, rest);
      assert forall k :: 0 <= k < |rest| ==> rest[k] == list[k + 1];
      if k :| 0 <= k < |list| && list[k].marked && k > 0 {
        assert rest[k - 1].marked;
      }
    }
  }

  /** A remount of a volume without an entry starts exactly when some listed attachment of the
      volume needs one, and then it is the only holder. */
  lemma {:induction false} RemountStartsIff(
    s: State, mounts: seq<MountPoint>, list: seq<Attachment>, v: VolumeId)
    requires Inv(s) && s.remountOn && v !in s.transition
    ensures var t := MonitorScan(s, mounts, list);
            && Inv(t)
            && (Held(t, v) <==> Remounting(t, v))
            && (Remounting(t, v) <==> exists k :: 0 <= k < |list| && list[k].volume == v && NeedsRemount(list[k], mounts))
    decreases list
  {
    MonitorScanKeepsInv(s, mounts, list);
    if list == [] {
      assert !Held(s, v);
      assert forall i :: i in s.workers ==> s.workers[i].vol != v;
    } else {
      var u, rest := MonitorItem(s, mounts, list[0]), list[1..];
      MonitorItemKeepsInv(s, mounts, list[0]);
      NeedsRemountIff(list[0], mounts);
      assert forall k :: 0 <= k < |rest| ==> rest[k] == list[k + 1];
      if list[0].volume == v && NeedsRemount(list[0], mounts) {
        assert u.workers[s.nextId] == Worker(v, Remount);
        MonitorScanSparesHeld(u, mounts, rest, s.nextId);
        var t := MonitorScan(u, mounts, rest);
        assert t.workers[s.nextId] == Worker(v, Remount);
        assert Remounting(t, v) && Held(t, v);
      } else {
        RemountStartsIff(u, mounts, rest, v);
        if k :| 0 <= k < |list| && list[k].volume == v && NeedsRemount(list[k], mounts) {
          assert rest[k - 1].volume == v && NeedsRemount(rest[k - 1], mounts);
        }
      }
    }
  }
}
