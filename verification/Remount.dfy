/**
 RemountVolume over the node's mount table, against the monitor's own test of health.

 The table is a sequence, as the operating system lists it: a mount appends a line, an unmount
 takes away the topmost line of its path, and the monitor reads the first line of a path.
 */
module Remount {
  import opened Common
  import opened Transition
  import Monitor

  /** The table without the last line at `path`. */
  function DropLast(path: string, table: seq<MountPoint>): seq<MountPoint> {
    if table == [] then []
    else
      var init, last := table[..|table| - 1], table[|table| - 1];
      if last.path == path then init else DropLast(path, init) + [last]
  }

  /** Only that one line goes, the rest keep their order. */
  lemma {:induction false} DropLastRemovesOne(path: string, table: seq<MountPoint>)
    ensures (forall k :: 0 <= k < |table| ==> table[k].path != path) ==> DropLast(path, table) == table
    ensures forall k :: 0 <= k < |table| && IsLastAt(path, table, k) ==>
              DropLast(path, table) == table[..k] + table[k + 1..]
  {
    if table != [] {
      var init, last := table[..|table| - 1], table[|table| - 1];
      assert table == init + [last];
      DropLastRemovesOne(path, init);
      forall k | 0 <= k < |table| && IsLastAt(path, table, k)
        ensures DropLast(path, table) == table[..k] + table[k + 1..]
      {
        if k < |init| {
          assert IsLastAt(path, init, k) && init[..k] + init[k + 1..] + [last] == table[..k] + table[k + 1..];
        }
      }
    }
  }

  predicate IsLastAt(path: string, table: seq<MountPoint>, k: nat)
    requires k < |table|
  {
    table[k].path == path && forall j :: k < j < |table| ==> table[j].path != path
  }

  /** What the outside world answers during one call. */
  datatype World = World(
    ready: bool,
    reachable: bool,
    stagingUnmounts: bool,
    targetUnmounts: bool,
    stagingMounts: bool,
    targetMounts: bool,
    bindOpts: seq<string>) // options the system reports for the bind mount

  /** The table after the two unmounts, whose errors RemountVolume ignores. */
  function Cleared(table: seq<MountPoint>, a: Attachment, stagingFound: bool, targetFound: bool, w: World): seq<MountPoint> {
    var t := if stagingFound && w.stagingUnmounts then DropLast(a.staging, table) else table;
    if targetFound && w.targetUnmounts then DropLast(a.target, t) else t
  }

  /** The lines of the device mount and of the bind mount to the target path. */
  function Mounts(a: Attachment, w: World): seq<MountPoint> {
    [MountPoint(a.device, a.staging, ["rw"]), MountPoint(a.staging, a.target, w.bindOpts)]
  }

  class MountTable {
    var points: seq<MountPoint>

    method Unmount(path: string, works: bool)
      modifies this
      ensures points == if works then DropLast(path, old(points)) else old(points)
    {
      if works {
        points := DropLast(path, points);
      }
    }

    method Mount(device: string, path: string, opts: seq<string>, works: bool) returns (ok: bool)
      modifies this
      ensures ok == works
      ensures points == if works then old(points) + [MountPoint(device, path, opts)] else old(points)
    {
      if works {
        points := points + [MountPoint(device, path, opts)];
      }
      ok := works;
    }

    /** RemountVolume. `stagingFound` and `targetFound` are what the monitor's scan saw. */
    method RemountVolume(stagingFound: bool, targetFound: bool, a: Attachment, w: World) returns (ok: bool)
      modifies this
      ensures ok <==> w.ready && w.reachable && w.stagingMounts && w.targetMounts
      ensures !w.ready || !w.reachable ==> points == old(points)
      ensures w.ready && w.reachable ==>
                points == Cleared(old(points), a, stagingFound, targetFound, w) +
                          (if ok then Mounts(a, w) else if w.stagingMounts then [Mounts(a, w)[0]] else [])
      ensures ok ==> |points| >= 2 && points[|points| - 2..] ==
                     [MountPoint(a.device, a.staging, ["rw"]), MountPoint(a.staging, a.target, w.bindOpts)]
      ensures stagingFound && targetFound && w.stagingUnmounts && w.targetUnmounts && ok ==>
                points[..|points| - 2] == DropLast(a.target, DropLast(a.staging, old(points)))
      ensures ok ==> (Healthy(a, points) <==> Restorable(old(points), a, stagingFound, targetFound, w))
    {
      if !w.ready {
        return false;
      }
      if !w.reachable {
        return false;
      }
      if stagingFound {
        Unmount(a.staging, w.stagingUnmounts);
      }
      if targetFound {
        Unmount(a.target, w.targetUnmounts);
      }
      ghost var cleared := points;
      ok := Mount(a.device, a.staging, ["rw"], w.stagingMounts);
      if !ok {
        return false;
      }
      ok := Mount(a.staging, a.target, w.bindOpts, w.targetMounts);
      if ok {
        HealthyIffRestorable(old(points), a, stagingFound, targetFound, w);
        assert points == cleared + Mounts(a, w);
      }
    }
  }

  // ----- when a remount heals -----

  /** The lines at `path`. */
  function CountAt(path: string, table: seq<MountPoint>): nat {
    if table == [] then 0
    else CountAt(path, table[..|table| - 1]) + (if table[|table| - 1].path == path then 1 else 0)
  }

  /** How many lines at `path` the two unmounts of a call take away at most. */
  function Drops(path: string, a: Attachment, stagingFound: bool, targetFound: bool, w: World): nat {
    (if path == a.staging && stagingFound && w.stagingUnmounts then 1 else 0) +
    (if path == a.target && targetFound && w.targetUnmounts then 1 else 0)
  }

  /** The condition on the table before the call under which a successful remount heals the
      volume: the unmounts suffice for the lines at the staging path, or the first is read-write. */
  predicate Restorable(table: seq<MountPoint>, a: Attachment, stagingFound: bool, targetFound: bool, w: World) {
    var first := FindMount(a.staging, table);
    CountAt(a.staging, table) <= Drops(a.staging, a, stagingFound, targetFound, w) || (first.Some? && "rw" in first.value.opts)
  }

  lemma {:induction false} FindInConcat(path: string, t: seq<MountPoint>, u: seq<MountPoint>)
    ensures FindMount(path, t + u) == if FindMount(path, t).Some? then FindMount(path, t) else FindMount(path, u)
  {
    if t == [] {
      assert t + u == u;
    } else {
      assert (t + u)[1..] == t[1..] + u;
      FindInConcat(path, t[1..], u);
    }
  }

  lemma {:induction false} HealthyAfterMounts(t: seq<MountPoint>, a: Attachment, w: World)
    ensures Healthy(a, t + Mounts(a, w)) <==>
            (FindMount(a.staging, t).None? || "rw" in FindMount(a.staging, t).value.opts)
  {
    var m, b := MountPoint(a.device, a.staging, ["rw"]), MountPoint(a.staging, a.target, w.bindOpts);
    FindInConcat(a.staging, t, [m, b]);
    FindInConcat(a.target, t, [m, b]);
    assert FindMount(a.target, [m, b]).Some? by {
      assert [m, b][1..] == [b];
    }
  }

  /** At most one line per path. */
  predicate OneLinePerPath(table: seq<MountPoint>) {
    forall i, j :: 0 <= i < j < |table| ==> table[i].path != table[j].path
  }

  lemma {:induction false} FindAtEnd(path: string, t: seq<MountPoint>)
    requires t != []
    ensures var init, last := t[..|t| - 1], t[|t| - 1];
            FindMount(path, t) ==
            if FindMount(path, init).Some? then FindMount(path, init) else if last.path == path then Some(last) else None
  {
    assert t == t[..|t| - 1] + [t[|t| - 1]];
    FindInConcat(path, t[..|t| - 1], [t[|t| - 1]]);
  }

  lemma {:induction false} NoneCounted(path: string, t: seq<MountPoint>)
    ensures FindMount(path, t).None? <==> CountAt(path, t) == 0
  {
    if t != [] {
      FindAtEnd(path, t);
      NoneCounted(path, t[..|t| - 1]);
    }
  }

  lemma {:induction false} OneLineCounted(path: string, t: seq<MountPoint>)
    requires OneLinePerPath(t)
    ensures CountAt(path, t) <= 1
    ensures CountAt(path, t) == 1 ==> exists k :: 0 <= k < |t| && t[k].path == path
  {
    if t != [] {
      OneLineCounted(path, t[..|t| - 1]);
    }
  }

  /** An unmount uncovers the path only when it takes the last line there. */
  lemma {:induction false} DropSame(path: string, t: seq<MountPoint>)
    ensures CountAt(path, DropLast(path, t)) == if CountAt(path, t) == 0 then 0 else CountAt(path, t) - 1
    ensures FindMount(path, DropLast(path, t)) == if CountAt(path, t) <= 1 then None else FindMount(path, t)
  {
    if t != [] {
      var init, last := t[..|t| - 1], t[|t| - 1];
      FindAtEnd(path, t);
      NoneCounted(path, init);
      if last.path != path {
        DropSame(path, init);
        var rest := DropLast(path, init) + [last];
        assert rest[..|rest| - 1] == DropLast(path, init);
        FindAtEnd(path, rest);
      }
    }
  }

  lemma {:induction false} DropOther(path: string, other: string, t: seq<MountPoint>)
    requires path != other
    ensures CountAt(path, DropLast(other, t)) == CountAt(path, t)
    ensures FindMount(path, DropLast(other, t)) == FindMount(path, t)
  {
    if t != [] {
      var init, last := t[..|t| - 1], t[|t| - 1];
      FindAtEnd(path, t);
      if last.path != other {
        DropOther(path, other, init);
        var rest := DropLast(other, init) + [last];
        assert rest[..|rest| - 1] == DropLast(other, init);
        FindAtEnd(path, rest);
      }
    }
  }

  /** An unmount that is made or not. */
  lemma {:induction false} DropMaybe(path: string, at: string, made: bool, t: seq<MountPoint>)
    ensures var u, n := if made then DropLast(at, t) else t, if made && at == path then 1 else 0;
            && CountAt(path, u) == (if CountAt(path, t) <= n then 0 else CountAt(path, t) - n)
            && FindMount(path, u) == (if CountAt(path, t) <= n then None else FindMount(path, t))
  {
    NoneCounted(path, t);
    if at == path {
      DropSame(path, t);
    } else {
      DropOther(path, at, t);
    }
  }

  lemma {:induction false} ClearedFinds(
    path: string, table: seq<MountPoint>, a: Attachment, stagingFound: bool, targetFound: bool, w: World)
    ensures var u, n := Cleared(table, a, stagingFound, targetFound, w), Drops(path, a, stagingFound, targetFound, w);
            && CountAt(path, u) == (if CountAt(path, table) <= n then 0 else CountAt(path, table) - n)
            && FindMount(path, u) == (if CountAt(path, table) <= n then None else FindMount(path, table))
  {
    var t := if stagingFound && w.stagingUnmounts then DropLast(a.staging, table) else table;
    DropMaybe(path, a.staging, stagingFound && w.stagingUnmounts, table);
    DropMaybe(path, a.target, targetFound && w.targetUnmounts, t);
  }

  /** What the monitor sees after both mounts. */
  lemma {:induction false} HealthyIffRestorable(
    table: seq<MountPoint>, a: Attachment, stagingFound: bool, targetFound: bool, w: World)
    ensures var u := Cleared(table, a, stagingFound, targetFound, w) + Mounts(a, w);
            Healthy(a, u) <==> Restorable(table, a, stagingFound, targetFound, w)
  {
    ClearedFinds(a.staging, table, a, stagingFound, targetFound, w);
    HealthyAfterMounts(Cleared(table, a, stagingFound, targetFound, w), a, w);
    NoneCounted(a.staging, table);
  }

  /** After success, for every path: the lines there, with those of the two mounts. */
  lemma {:induction false} RemountCounts(
    path: string, table: seq<MountPoint>, a: Attachment, stagingFound: bool, targetFound: bool, w: World)
    ensures var u := Cleared(table, a, stagingFound, targetFound, w) + Mounts(a, w);
            var n, m := CountAt(path, table), Drops(path, a, stagingFound, targetFound, w);
            CountAt(path, u) ==
            (if n <= m then 0 else n - m) + (if path == a.staging then 1 else 0) + (if path == a.target then 1 else 0)
  {
    ClearedFinds(path, table, a, stagingFound, targetFound, w);
    CountInConcat(path, Cleared(table, a, stagingFound, targetFound, w), Mounts(a, w));
    MountsCounted(path, a, w);
  }

  /** The table that a successful remount leaves, when the flags are those of a scan of `table`. */
  function After(table: seq<MountPoint>, a: Attachment, w: World): seq<MountPoint> {
    Cleared(table, a, FindMount(a.staging, table).Some?, FindMount(a.target, table).Some?, w) +
    Mounts(a, w)
  }

  /** At most one line is at the staging path (two when the target path is the same), or the first
      line there is read-write. */
  predicate Curable(table: seq<MountPoint>, a: Attachment) {
    var first := FindMount(a.staging, table);
    CountAt(a.staging, table) <= (if a.staging == a.target then 2 else 1) || (first.Some? && "rw" in first.value.opts)
  }

  /** With working unmounts and a scan that saw this table, a successful remount heals exactly the
      curable volumes. */
  lemma {:induction false} RemountHealsIff(table: seq<MountPoint>, a: Attachment, w: World)
    requires w.stagingUnmounts && w.targetUnmounts
    ensures Healthy(a, After(table, a, w)) <==> Curable(table, a)
  {
    var found, targetFound := FindMount(a.staging, table).Some?, FindMount(a.target, table).Some?;
    NoneCounted(a.staging, table);
    HealthyIffRestorable(table, a, found, targetFound, w);
  }

  lemma {:induction false} MountsFound(path: string, a: Attachment, w: World)
    ensures FindMount(path, Mounts(a, w)) ==
            if path == a.staging then Some(MountPoint(a.device, a.staging, ["rw"]))
            else if path == a.target then Some(MountPoint(a.staging, a.target, w.bindOpts)) else None
  {
    var bind := [MountPoint(a.staging, a.target, w.bindOpts)];
    assert Mounts(a, w)[1..] == bind;
    assert FindMount(path, bind) == if path == a.target then Some(bind[0]) else FindMount(path, []);
  }

  lemma {:induction false} CountedOneLine(t: seq<MountPoint>)
    requires forall path :: CountAt(path, t) <= 1
    ensures OneLinePerPath(t)
  {
    if t != [] {
      var init, last := t[..|t| - 1], t[|t| - 1];
      assert forall path :: CountAt(path, init) <= CountAt(path, t);
      CountedOneLine(init);
      NoneCounted(last.path, init);
      Monitor.FindMountIsFirst(last.path, init);
      assert forall k :: 0 <= k < |init| ==> init[k] == t[k];
    }
  }

  /** With one line per path, working unmounts and two different paths, a successful remount
      replaces the two mounts: the staging path has the device, read-write, the target path has
      its bind mount, every other path what it had, and there is still one line per path. */
  lemma {:induction false} RemountReplaces(table: seq<MountPoint>, a: Attachment, w: World)
    requires OneLinePerPath(table) && w.stagingUnmounts && w.targetUnmounts && a.staging != a.target
    ensures var after := After(table, a, w);
            && FindMount(a.staging, after) == Some(MountPoint(a.device, a.staging, ["rw"]))
            && FindMount(a.target, after) == Some(MountPoint(a.staging, a.target, w.bindOpts))
            && (forall path :: path != a.staging && path != a.target ==> FindMount(path, after) == FindMount(path, table))
            && OneLinePerPath(after)
  {
    var found, targetFound := FindMount(a.staging, table).Some?, FindMount(a.target, table).Some?;
    var cleared, after := Cleared(table, a, found, targetFound, w), After(table, a, w);
    forall path
      ensures CountAt(path, after) <= 1
    {
      OneLineCounted(path, table);
      NoneCounted(path, table);
      RemountCounts(path, table, a, found, targetFound, w);
    }
    CountedOneLine(after);
    var device, bind := MountPoint(a.device, a.staging, ["rw"]), MountPoint(a.staging, a.target, w.bindOpts);
    forall path
      ensures FindMount(path, after) == if path == a.staging then Some(device) else if path == a.target then Some(bind)
                                        else FindMount(path, table)
    {
      OneLineCounted(path, table);
      NoneCounted(path, table);
      ClearedFinds(path, table, a, found, targetFound, w);
      FindInConcat(path, cleared, Mounts(a, w));
      MountsFound(path, a, w);
    }
  }

  /** In particular a remount heals every volume when the table has one line per path. */
  lemma {:induction false} RemountHeals(table: seq<MountPoint>, a: Attachment, w: World)
    requires OneLinePerPath(table) && w.stagingUnmounts && w.targetUnmounts
    ensures Healthy(a, After(table, a, w))
  {
    OneLineCounted(a.staging, table);
    RemountHealsIff(table, a, w);
  }

  lemma {:induction false} CountInConcat(path: string, t: seq<MountPoint>, u: seq<MountPoint>)
    ensures CountAt(path, t + u) == CountAt(path, t) + CountAt(path, u)
  {
    if u == [] {
      assert t + u == t;
    } else {
      assert (t + u)[..|t + u| - 1] == t + u[..|u| - 1];
      CountInConcat(path, t, u[..|u| - 1]);
    }
  }

  lemma {:induction false} MountsCounted(path: string, a: Attachment, w: World)
    ensures CountAt(path, Mounts(a, w)) == (if path == a.staging then 1 else 0) + (if path == a.target then 1 else 0)
  {
    var device := [MountPoint(a.device, a.staging, ["rw"])];
    assert Mounts(a, w)[..1] == device;
    assert CountAt(path, Mounts(a, w)) == CountAt(path, device) + if path == a.target then 1 else 0;
  }

  /** The unmounts take away as many staging lines as the mounts add: an incurable volume stays so. */
  lemma {:induction false} RemountKeepsCurable(table: seq<MountPoint>, a: Attachment, w: World)
    requires w.stagingUnmounts && w.targetUnmounts
    ensures Curable(After(table, a, w), a) <==> Curable(table, a)
  {
    RemountHealsIff(table, a, w);
    if !Curable(table, a) {
      var found, targetFound := FindMount(a.staging, table).Some?, FindMount(a.target, table).Some?;
      var cleared := Cleared(table, a, found, targetFound, w);
      NoneCounted(a.staging, table);
      ClearedFinds(a.staging, table, a, found, targetFound, w);
      FindInConcat(a.staging, cleared, Mounts(a, w));
      CountInConcat(a.staging, cleared, Mounts(a, w));
      MountsCounted(a.staging, a, w);
    }
  }

  /** The table after a number of successful remounts, each after a scan of the table before it. */
  function AfterAll(table: seq<MountPoint>, a: Attachment, worlds: seq<World>): seq<MountPoint>
    decreases worlds
  {
    if worlds == [] then table else AfterAll(After(table, a, worlds[0]), a, worlds[1..])
  }

  /** Trying again does not help: if the first remount does not heal the volume, no number of
      further ones does. */
  lemma {:induction false} RetriesHealIff(table: seq<MountPoint>, a: Attachment, worlds: seq<World>)
    requires worlds != []
    requires forall k :: 0 <= k < |worlds| ==> worlds[k].stagingUnmounts && worlds[k].targetUnmounts
    ensures Healthy(a, AfterAll(table, a, worlds)) <==> Curable(table, a)
    decreases worlds
  {
    var next, rest := After(table, a, worlds[0]), worlds[1..];
    if rest == [] {
      RemountHealsIff(table, a, worlds[0]);
    } else {
      RemountKeepsCurable(table, a, worlds[0]);
      RetriesHealIff(next, a, rest);
    }
  }

  /** So the next scan of the table it leaves remounts the volume again exactly when it is listed,
      monitored and was not curable. */
  lemma {:induction false} RemountConverges(table: seq<MountPoint>, a: Attachment, w: World, s: State, list: seq<Attachment>)
    requires w.stagingUnmounts && w.targetUnmounts
    requires Reachable(s) && s.remountOn && a.volume !in s.transition
    requires forall k :: 0 <= k < |list| && list[k].volume == a.volume ==> list[k] == a
    ensures Held(MonitorScan(s, After(table, a, w), list), a.volume) <==>
            a in list && !Unmonitored(a) && !Curable(table, a)
    ensures OneLinePerPath(table) ==> !Held(MonitorScan(s, After(table, a, w), list), a.volume)
  {
    RemountHealsIff(table, a, w);
    if OneLinePerPath(table) {
      RemountHeals(table, a, w);
    }
    ReachableIsSound(s);
    Monitor.RemountStartsIff(s, After(table, a, w), list, a.volume);
    Monitor.NeedsRemountIff(a, After(table, a, w));
  }

  /** Two stacked read-only mounts at the staging path: the remount reports success and the
      volume is still unhealthy by the monitor's test. */
  lemma {:induction false} StackedMountsDefeatRemount(a: Attachment, w: World)
    requires w.stagingUnmounts && w.targetUnmounts && a.staging != a.target
    ensures var ro := MountPoint(a.device, a.staging, ["ro"]);
            !Healthy(a, After([ro, ro], a, w))
  {
    var ro := MountPoint(a.device, a.staging, ["ro"]);
    assert [ro, ro][..1] == [ro];
    assert CountAt(a.staging, [ro, ro]) == CountAt(a.staging, [ro]) + 1;
    RemountHealsIff([ro, ro], a, w);
    assert "rw" != "ro" by {
      assert "rw"[1] != "ro"[1];
    }
  }
}
