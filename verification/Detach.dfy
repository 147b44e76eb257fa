/**
 DetachDisk: unmount a path, log out of every portal, drop the node records, remove the path.

 The host keeps what the commands change: the mount table, the iSCSI sessions and node records
 of the volume's target, the interfaces, and the paths that exist.
 */
module Detach {
  import opened Common
  import opened Remount
  import opened Transition

  const ERR_SESS_NOT_FOUND: int := 2
  const ERR_NO_OBJS_FOUND: int := 21

  /** What running a command gives: a start error has no exit status. */
  datatype ExecError = NoError | ExitError(code: int) | StartError

  /** The world's faults during one DetachDisk. The two command faults are per portal. */
  datatype Faults = Faults(
    statFails: bool,
    heuristicFails: bool,
    looksUnmounted: bool, // IsLikelyNotMountPoint, an arbitrary guess
    unmountFails: bool,
    listFails: bool,
    logout: string -> ExecError,
    delete: string -> ExecError,
    ifaceDelete: ExecError,
    removeFails: bool)

  /** A real failure is one that ignoreExitCodes does not swallow. */
  predicate Fatal(e: ExecError) {
    e != NoError && e != ExitError(ERR_SESS_NOT_FOUND) && e != ExitError(ERR_NO_OBJS_FOUND)
  }

  /** The two ignored exit codes are those of a missing session and a missing object. */
  lemma {:induction false} FatalIff(e: ExecError)
    ensures Fatal(e) <==> e.StartError? || (e.ExitError? && e.code != 2 && e.code != 21)
  {
  }

  predicate MountedAt(path: string, mounts: seq<MountPoint>) {
    exists k :: 0 <= k < |mounts| && mounts[k].path == path
  }

  // ----- removeDuplicate -----

  /** Position i holds the first occurrence of an element other than `blank`. */
  predicate IsFirst<T(==)>(s: seq<T>, blank: T, i: nat)
    requires i < |s|
  {
    s[i] != blank && s[i] !in s[..i]
  }

  /** The elements at the first positions, in order. */
  function Distinct<T(==)>(s: seq<T>, blank: T): seq<T> {
    if s == [] then []
    else
      var d := Distinct(s[..|s| - 1], blank);
      if IsFirst(s, blank, |s| - 1) then d + [s[|s| - 1]] else d
  }

  /** The position of the k-th element of Distinct. */
  function Position<T(==)>(s: seq<T>, blank: T, k: nat): (i: nat)
    requires k < |Distinct(s, blank)|
    ensures i < |s| && IsFirst(s, blank, i) && s[i] == Distinct(s, blank)[k]
  {
    var init := s[..|s| - 1];
    if k < |Distinct(init, blank)| then
      var i := Position(init, blank, k);
      assert init[..i] == s[..i];
      i
    else |s| - 1
  }

  /** Distinct is exactly the non-blank first occurrences in the original order: later elements
      come from later positions, and no first occurrence is missing. */
  lemma {:induction false} PositionsIncrease<T>(s: seq<T>, blank: T, j: nat, k: nat)
    requires j < k < |Distinct(s, blank)|
    ensures Position(s, blank, j) < Position(s, blank, k)
  {
    var init := s[..|s| - 1];
    if k < |Distinct(init, blank)| {
      PositionsIncrease(init, blank, j, k);
    }
  }

  lemma {:induction false} EveryFirstIsKept<T>(s: seq<T>, blank: T, i: nat)
    requires i < |s| && IsFirst(s, blank, i)
    ensures exists k :: 0 <= k < |Distinct(s, blank)| && Position(s, blank, k) == i
  {
    var init := s[..|s| - 1];
    if i == |s| - 1 {
      assert Position(s, blank, |Distinct(init, blank)|) == i;
    } else {
      assert init[..i] == s[..i];
      EveryFirstIsKept(init, blank, i);
      var k :| 0 <= k < |Distinct(init, blank)| && Position(init, blank, k) == i;
      assert Position(s, blank, k) == i;
    }
  }

  lemma {:induction false} DistinctContent<T>(s: seq<T>, blank: T, x: T)
    ensures x in Distinct(s, blank) <==> x != blank && x in s
  {
    if s != [] {
      var init := s[..|s| - 1];
      assert s == init + [s[|s| - 1]];
      DistinctContent(init, blank, x);
      DistinctContent(init, blank, s[|s| - 1]);
    }
  }

  lemma {:induction false} DistinctGrows<T>(s: seq<T>, blank: T, i: nat)
    requires i < |s|
    ensures var d := Distinct(s[..i], blank);
            && Distinct(s[..i + 1], blank) == (if s[i] == blank || s[i] in d then d else d + [s[i]])
            && |d| <= i
  {
    assert s[..i + 1][..i] == s[..i];
    DistinctContent(s[..i], blank, s[i]);
    DistinctShort(s[..i], blank);
  }

  lemma {:induction false} DistinctShort<T>(s: seq<T>, blank: T)
    ensures |Distinct(s, blank)| <= |s|
  {
    if s != [] {
      DistinctShort(s[..|s| - 1], blank);
    }
  }

  /** removeDuplicate overwrites the slice it ranges over: the read at position i still sees
      the original element, because the write position never passes it. */
  method RemoveDuplicate<T(==)>(a: array<T>, blank: T) returns (n: nat)
    modifies a
    ensures n <= a.Length
    ensures a[..n] == Distinct(old(a[..]), blank)
  {
    ghost var was := a[..];
    var seen: set<T> := {};
    n := 0;
    var i := 0;
    while i < a.Length
      invariant 0 <= n <= i <= a.Length && n == |seen|
      invariant forall k :: i <= k < a.Length ==> a[k] == was[k]
      invariant a[..n] == Distinct(was[..i], blank)
      invariant forall x :: x in seen <==> x in a[..n]
    {
      var v := a[i];
      DistinctGrows(was, blank, i);
      if v != blank && v !in seen {
        a[|seen|] := v;
        seen := seen + {v};
        n := |seen|;
        assert a[..n] == a[..n - 1] + [v];
      }
      i := i + 1;
    }
    assert was[..i] == was;
  }

  /** ignoreExitCodes. */
  method IgnoreExitCodes(err: ExecError, ignored: seq<int>) returns (r: ExecError)
    ensures r == if err.ExitError? && err.code in ignored then NoError else err
  {
    if !err.ExitError? {
      return err;
    }
    var i := 0;
    while i < |ignored|
      invariant 0 <= i <= |ignored|
      invariant err.code !in ignored[..i]
    {
      if err.code == ignored[i] {
        return NoError;
      }
      i := i + 1;
    }
    return err;
  }

  // ----- the detach procedure -----

  /** GetDeviceNameFromMount of k8s.io/utils/mount: the lines whose device is that of the first
      line at the path, or the empty name when the path has none. */
  function RefCount(path: string, mounts: seq<MountPoint>): nat {
    var first := FindMount(path, mounts);
    CountDevice(if first.Some? then first.value.device else "", mounts)
  }

  function CountDevice(device: string, mounts: seq<MountPoint>): nat {
    if mounts == [] then 0
    else (if mounts[0].device == device then 1 else 0) + CountDevice(device, mounts[1..])
  }

  /** A zero reference count proves that nothing is mounted at the path. */
  lemma {:induction false} MountedIsReferenced(path: string, mounts: seq<MountPoint>)
    ensures MountedAt(path, mounts) <==> FindMount(path, mounts).Some?
    ensures MountedAt(path, mounts) ==> RefCount(path, mounts) > 0
  {
    if mounts != [] {
      var rest := mounts[1..];
      MountedIsReferenced(path, rest);
      assert forall k :: 0 <= k < |rest| ==> rest[k] == mounts[k + 1];
      if k :| 0 <= k < |mounts| && mounts[k].path == path && k > 0 {
        assert rest[k - 1].path == path;
      }
    }
  }

  lemma {:induction false} DeviceCounted(device: string, mounts: seq<MountPoint>)
    ensures CountDevice(device, mounts) == 0 <==> forall m :: m in mounts ==> m.device != device
  {
    if mounts != [] {
      DeviceCounted(device, mounts[1..]);
      assert forall m :: m in mounts <==> m == mounts[0] || m in mounts[1..];
    }
  }

  /** The count says no more than that: once nothing is mounted at the path it counts the lines of
      the empty device name, and no longer those of the volume's device. */
  lemma {:induction false} UnreferencedIff(path: string, mounts: seq<MountPoint>)
    ensures RefCount(path, mounts) == 0 <==> !MountedAt(path, mounts) && forall m :: m in mounts ==> m.device != ""
  {
    MountedIsReferenced(path, mounts);
    DeviceCounted("", mounts);
  }

  lemma {:induction false} DropLeavesOthers(path: string, mounts: seq<MountPoint>)
    requires CountAt(path, mounts) <= 1
    ensures forall m :: m in DropLast(path, mounts) <==> m in mounts && m.path != path
  {
    if mounts != [] {
      var init, last := mounts[..|mounts| - 1], mounts[|mounts| - 1];
      assert mounts == init + [last];
      DropLeavesOthers(path, init);
      if last.path == path {
        NoneCounted(path, init);
        MountedIsReferenced(path, init);
        DropLastRemovesOne(path, init);
      }
    }
  }

  function Elems(s: seq<string>): set<string> { set x | x in s }

  /** The target, interface and initiator of the volume whose disk is detached. */
  datatype Disk = Disk(volName: string, iface: string, initiator: string)

  /** History of a logout command: the mount table when it was issued. */
  datatype Logout = Logout(portal: string, mounts: seq<MountPoint>)

  predicate DeletesIface(disk: Disk, first: string) {
    disk.initiator != "" && disk.iface == first + ":" + disk.volName
  }

  predicate NoFatal(portals: seq<string>, f: Faults) {
    forall k :: 0 <= k < |portals| ==> !Fatal(f.logout(portals[k])) && !Fatal(f.delete(portals[k]))
  }

  /** The first portal with a fatal command, or the number of portals. */
  function FirstFatal(portals: seq<string>, f: Faults): (k: nat)
    ensures k <= |portals| && NoFatal(portals[..k], f)
    ensures k < |portals| ==> Fatal(f.logout(portals[k])) || Fatal(f.delete(portals[k]))
  {
    if portals == [] || Fatal(f.logout(portals[0])) || Fatal(f.delete(portals[0])) then 0
    else
      var k := 1 + FirstFatal(portals[1..], f);
      assert forall j :: 1 <= j < k ==> portals[j] == portals[1..][..k - 1][j - 1];
      k
  }

  lemma {:induction false} FirstFatalIs(portals: seq<string>, f: Faults, k: nat)
    requires k <= |portals| && NoFatal(portals[..k], f)
    requires k < |portals| ==> Fatal(f.logout(portals[k])) || Fatal(f.delete(portals[k]))
    ensures FirstFatal(portals, f) == k
  {
  }

  /** What the portal loop leaves: the portals before the first fatal one are logged out and
      forgotten, that one is logged out when only its record could not be deleted, and the later
      ones are untouched. */
  predicate LeftBehind(
    portals: seq<string>, f: Faults,
    sessions: set<string>, sessions': set<string>, records: set<string>, records': set<string>)
  {
    var k := FirstFatal(portals, f);
    && records' == records - Elems(portals[..k])
    && sessions' == sessions - Elems(portals[..if k < |portals| && !Fatal(f.logout(portals[k])) then k + 1 else k])
  }

  function AfterUnmount(path: string, mounts: seq<MountPoint>, f: Faults): seq<MountPoint> {
    if f.looksUnmounted || f.unmountFails then mounts else DropLast(path, mounts)
  }

  /** When DetachDisk of an existing path comes to its first logout, given the distinct portals. */
  predicate LogsOut(path: string, mounts: seq<MountPoint>, portals: seq<string>, f: Faults) {
    && !f.heuristicFails && (f.looksUnmounted || !f.unmountFails) && !f.listFails
    && RefCount(path, AfterUnmount(path, mounts, f)) == 0 && portals != []
  }

  /** Exactly when DetachDisk comes to a logout with a line of `device` left in the table: the path
      had no line more than the unmount took away, and the device is bind-mounted at another path. */
  lemma {:induction false} LogoutWhileMountedIff(
    path: string, mounts: seq<MountPoint>, portals: seq<string>, f: Faults, device: string)
    ensures LogsOut(path, mounts, portals, f) && (exists m :: m in AfterUnmount(path, mounts, f) && m.device == device) <==>
            && !f.heuristicFails && (f.looksUnmounted || !f.unmountFails) && !f.listFails && portals != []
            && CountAt(path, mounts) <= (if f.looksUnmounted then 0 else 1)
            && (forall m :: m in mounts && m.path != path ==> m.device != "")
            && (exists m :: m in mounts && m.path != path && m.device == device)
  {
    var left := AfterUnmount(path, mounts, f);
    UnreferencedIff(path, left);
    MountedIsReferenced(path, left);
    NoneCounted(path, mounts);
    DropSame(path, mounts);
    if !f.looksUnmounted && CountAt(path, mounts) <= 1 {
      DropLeavesOthers(path, mounts);
    }
  }

  predicate DropsIface(portals: seq<string>, disk: Disk, f: Faults)
    requires portals != []
  {
    NoFatal(portals, f) && DeletesIface(disk, portals[0]) && !Fatal(f.ifaceDelete)
  }

  /** When the portal loop and the interface deletion succeed. */
  predicate PortalsDetach(portals: seq<string>, disk: Disk, f: Faults)
    requires portals != []
  {
    NoFatal(portals, f) && (DeletesIface(disk, portals[0]) ==> !Fatal(f.ifaceDelete))
  }

  class Host {
    var paths: set<string>
    var mounts: seq<MountPoint>
    var sessions: set<string> // portals with a session of the target
    var records: set<string>  // portals with a node record of the target
    var ifaces: set<string>
    ghost var logouts: seq<Logout>

    /** An iscsiadm command that removes one object: a fault that is not ignored leaves
        everything alone, a missing object is reported by one of the two ignored codes. */
    static function Command(present: bool, fault: ExecError): ExecError {
      if Fatal(fault) then fault
      else if present then NoError
      else if fault == ExitError(ERR_SESS_NOT_FOUND) then fault
      else ExitError(ERR_NO_OBJS_FOUND)
    }

    method LogoutPortal(portal: string, fault: ExecError) returns (e: ExecError)
      modifies this`sessions, this`logouts
      ensures e == Command(portal in old(sessions), fault)
      ensures sessions == if Fatal(fault) then old(sessions) else old(sessions) - {portal}
      ensures logouts == old(logouts) + [Logout(portal, mounts)]
    {
      e := Command(portal in sessions, fault);
      logouts := logouts + [Logout(portal, mounts)];
      if !Fatal(fault) {
        sessions := sessions - {portal};
      }
    }

    method DeleteRecord(portal: string, fault: ExecError) returns (e: ExecError)
      modifies this`records
      ensures e == Command(portal in old(records), fault)
      ensures records == if Fatal(fault) then old(records) else old(records) - {portal}
    {
      e := Command(portal in records, fault);
      if !Fatal(fault) {
        records := records - {portal};
      }
    }

    /** detachISCSIDisk. */
    method DetachPortals(portals: seq<string>, disk: Disk, f: Faults) returns (ok: bool)
      requires portals != []
      modifies this`sessions, this`records, this`ifaces, this`logouts
      ensures ok <==> PortalsDetach(portals, disk, f)
      ensures ok ==> sessions == old(sessions) - Elems(portals) && records == old(records) - Elems(portals)
      ensures LeftBehind(portals, f, old(sessions), sessions, old(records), records)
      ensures forall p :: p in old(records) && p !in records ==> p !in sessions
      ensures ifaces == if DropsIface(portals, disk, f) then old(ifaces) - {disk.iface} else old(ifaces)
      ensures ok && disk.initiator != "" && disk.iface == portals[0] + ":" + disk.volName ==> disk.iface !in ifaces
      ensures disk.initiator == "" || disk.iface != portals[0] + ":" + disk.volName ==> ifaces == old(ifaces)
      ensures |old(logouts)| < |logouts| && logouts[..|old(logouts)|] == old(logouts)
      ensures forall k :: |old(logouts)| <= k < |logouts| ==> logouts[k].mounts == mounts
    {
      var ignored := [ERR_NO_OBJS_FOUND, ERR_SESS_NOT_FOUND];
      var i := 0;
      while i < |portals|
        invariant 0 <= i <= |portals|
        invariant NoFatal(portals[..i], f)
        invariant sessions == old(sessions) - Elems(portals[..i])
        invariant records == old(records) - Elems(portals[..i])
        invariant ifaces == old(ifaces)
        invariant |old(logouts)| + i <= |logouts| && logouts[..|old(logouts)|] == old(logouts)
        invariant forall k :: |old(logouts)| <= k < |logouts| ==> logouts[k].mounts == mounts
      {
        var p := portals[i];
        assert portals[..i + 1] == portals[..i] + [p];
        var e := LogoutPortal(p, f.logout(p));
        e := IgnoreExitCodes(e, ignored);
        if e != NoError {
          FirstFatalIs(portals, f, i);
          return false;
        }
        e := DeleteRecord(p, f.delete(p));
        e := IgnoreExitCodes(e, ignored);
        if e != NoError {
          assert sessions == old(sessions) - Elems(portals[..i + 1]);
          FirstFatalIs(portals, f, i);
          return false;
        }
        i := i + 1;
      }
      assert portals[..i] == portals;
      FirstFatalIs(portals, f, i);
      if DeletesIface(disk, portals[0]) {
        var e := IgnoreExitCodes(Command(disk.iface in ifaces, f.ifaceDelete), ignored);
        if e != NoError {
          return false;
        }
        ifaces := ifaces - {disk.iface};
      }
      ok := true;
    }

    /** DetachDisk. */
    method DetachDisk(path: string, portals: array<string>, disk: Disk, f: Faults) returns (ok: bool)
      modifies this, portals
      ensures ok <==>
              !f.statFails &&
              (path in old(paths) ==>
                 var ds := Distinct(old(portals[..]), "");
                 LogsOut(path, old(mounts), ds, f) && PortalsDetach(ds, disk, f) && !f.removeFails)
      ensures ok && path !in old(paths) ==> unchanged(this) && unchanged(portals)
      ensures ok && path in old(paths) ==>
                && !MountedAt(path, mounts)
                && sessions == old(sessions) - Elems(Distinct(old(portals[..]), ""))
                && records == old(records) - Elems(Distinct(old(portals[..]), ""))
      ensures paths == if ok then old(paths) - {path} else old(paths)
      ensures mounts == if f.statFails || path !in old(paths) || f.heuristicFails then old(mounts)
                        else AfterUnmount(path, old(mounts), f)
      ensures var ds := Distinct(old(portals[..]), "");
              if !f.statFails && path in old(paths) && LogsOut(path, old(mounts), ds, f) then
                && LeftBehind(ds, f, old(sessions), sessions, old(records), records)
                && ifaces == (if DropsIface(ds, disk, f) then old(ifaces) - {disk.iface} else old(ifaces))
                && |old(logouts)| < |logouts|
              else
                sessions == old(sessions) && records == old(records) && ifaces == old(ifaces) && logouts == old(logouts)
      ensures forall p :: p in old(records) && p !in records ==> p !in sessions
      ensures f.unmountFails || f.heuristicFails || f.statFails ==> mounts == old(mounts)
      ensures |old(logouts)| <= |logouts| && logouts[..|old(logouts)|] == old(logouts)
      ensures forall k :: |old(logouts)| <= k < |logouts| ==> logouts[k].mounts == mounts && !MountedAt(path, mounts)
    {
      if f.statFails {
        return false;
      }
      if path !in paths {
        return true;
      }
      if f.heuristicFails {
        return false;
      }
      if !f.looksUnmounted {
        if f.unmountFails {
          return false;
        }
        mounts := DropLast(path, mounts);
      }
      if f.listFails {
        return false;
      }
      MountedIsReferenced(path, mounts);
      if RefCount(path, mounts) > 0 {
        return false;
      }
      var n := RemoveDuplicate(portals, "");
      if n == 0 {
        return false;
      }
      ok := DetachPortals(portals[..n], disk, f);
      if !ok {
        return;
      }
      if f.removeFails {
        return false;
      }
      paths := paths - {path};
    }
  }
}
