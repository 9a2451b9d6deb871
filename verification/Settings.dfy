/**
 What each configuration call does to a jail, member by member, and what a whole series
 of calls leaves in the flags.
 */
module Settings {
  import opened Words
  import opened Bpf
  import opened Jails

  /** One flag is on, and the others are as before. */
  predicate OnlyRaised(j: Jail, k: Jail, f: Flag) {
    k.flags[f] && forall g: Flag :: g != f ==> k.flags[g] == j.flags[g]
  }

  predicate OnlyLowered(j: Jail, k: Jail, fs: set<Flag>) {
    forall g: Flag :: k.flags[g] == (j.flags[g] && g !in fs)
  }

  /** One number is stored, and the others are as before. */
  predicate OnlyStored(j: Jail, k: Jail, i: Member, value: u64) {
    k.plain[i] == value && forall m: Member :: m != i ==> k.plain[m] == j.plain[m]
  }

  // ----- Flags and numbers -----

  lemma RaiseFlagLaw(j: Jail, f: Flag)
    ensures var k := After(j, RaiseFlag(f));
      OnlyRaised(j, k, f) && k == j.(flags := k.flags)
  {
  }

  lemma StorePlainLaw(j: Jail, i: Member, value: u64)
    ensures var k := After(j, StorePlain(i, value));
      OnlyStored(j, k, i, value) && k == j.(plain := k.plain)
  {
  }

  lemma OverrideBoundingSetLaw(j: Jail)
    ensures var k := After(j, OverrideBoundingSet);
      OnlyLowered(j, k, {CAPBSET_DROP}) && OnlyStored(j, k, CAP_BSET, 0) && k == j.(flags := k.flags, plain := k.plain)
  {
  }

  lemma ClearSeccompLaw(j: Jail)
    ensures var k := After(j, ClearSeccomp);
      && OnlyLowered(j, k, {SECCOMP_FILTER, TSYNC, FILTER_LOGGING, SPECULATION, NO_NEW_PRIVS})
      && k.filter == None && k.filterLen == 0
      && k == j.(flags := k.flags, filter := k.filter, filterLen := k.filterLen)
  {
  }

  lemma ForbidSpeculationLaw(j: Jail)
    ensures var k := After(j, ForbidSpeculation);
      OnlyLowered(j, k, {SPECULATION}) && k == j.(flags := k.flags)
  {
  }

  // ----- Members that can be set again -----

  lemma ChangeUserLaw(j: Jail, user: CString)
    ensures var k := After(j, ChangeUser(user));
      OnlyRaised(j, k, FUID) && k.user == Some(user) && k == j.(flags := k.flags, user := k.user)
  {
  }

  /** Refused exactly when groups are inherited or kept; an empty list is a null pointer. */
  lemma SetSupplementaryGidsLaw(j: Jail, list: seq<u32>)
    requires |list| < TWO64
    ensures var k := After(j, SetSupplementaryGids(list));
      if j.flags[INHERIT_GIDS] || j.flags[KEEP_GIDS] then k == j
      else
        && OnlyRaised(j, k, SET_GIDS) && k.gidCount == |list|
        && (if list == [] then k.gids == None else k.gids == Some(list))
        && k == j.(flags := k.flags, gids := k.gids, gidCount := k.gidCount)
  {
  }

  lemma UseAltSyscallLaw(j: Jail, table: CString)
    ensures var k := After(j, UseAltSyscall(table));
      OnlyRaised(j, k, ALT_SYSCALL) && k.altTable == Some(table) && k == j.(flags := k.flags, altTable := k.altTable)
  {
  }

  lemma SetFilterLaw(j: Jail, prog: seq<Instr>)
    requires |prog| <= USHRT_MAX
    ensures var k := After(j, SetFilter(prog));
      k.filter == Some(prog) && k.filterLen == |prog| && k == j.(filter := k.filter, filterLen := k.filterLen)
  {
  }

  lemma WritePidFileLaw(j: Jail, path: CString)
    ensures var k := After(j, WritePidFile(path));
      OnlyRaised(j, k, PID_FILE) && k.pidFile == Some(path) && k == j.(flags := k.flags, pidFile := k.pidFile)
  {
  }

  lemma MapsLaw(j: Jail, text: CString)
    ensures var k := After(j, SetUidMap(text)); k.uidmap == Some(text) && k == j.(uidmap := k.uidmap)
    ensures var k := After(j, SetGidMap(text)); k.gidmap == Some(text) && k == j.(gidmap := k.gidmap)
  {
  }

  // ----- Members that are set once -----

  lemma EnterChrootLaw(j: Jail, dir: CString)
    ensures var k := After(j, EnterChroot(dir));
      if j.chrootdir.Some? then k == j
      else OnlyRaised(j, k, CHROOT) && k.chrootdir == Some(dir) && k == j.(flags := k.flags, chrootdir := k.chrootdir)
  {
  }

  lemma EnterPivotRootLaw(j: Jail, dir: CString)
    ensures var k := After(j, EnterPivotRoot(dir));
      if j.chrootdir.Some? then k == j
      else OnlyRaised(j, k, PIVOT_ROOT) && k.chrootdir == Some(dir) && k == j.(flags := k.flags, chrootdir := k.chrootdir)
  {
  }

  lemma SetHostnameLaw(j: Jail, name: CString)
    ensures var k := After(j, SetHostname(name));
      if j.hostname.Some? then k == j
      else OnlyRaised(j, k, UTS) && k.hostname == Some(name) && k == j.(flags := k.flags, hostname := k.hostname)
  {
  }

  lemma SetPreloadPathLaw(j: Jail, path: CString)
    ensures var k := After(j, SetPreloadPath(path));
      if j.preloadPath.Some? then k == j
      else k.preloadPath == Some(path) && k == j.(preloadPath := k.preloadPath)
  {
  }

  // ----- Lists -----

  /** The entry of a mount point: with MS_NODEV, MS_NOEXEC and MS_NOSUID if no flags are
      given, and for a tmpfs without data a mode and a size. */
  predicate IsEntryFor(e: Mount, m: Mount) {
    && e.src == m.src && e.dest == m.dest && e.kind == m.kind
    && (m.flags != 0 ==> e.flags == m.flags) && (m.flags == 0 ==> e.flags == 2 + 4 + 8)
    && (m.data.Some? && m.data.value != [] ==> e.data == m.data)
    && (m.data == None || m.data == Some([]) ==>
          if m.kind == Ascii("tmpfs") then e.data == Some(Ascii("mode=0755,size=10M")) else e.data == m.data)
  }

  /** Refused exactly when the destination does not start with a slash; a new mount
      namespace is asked for unless one is entered. */
  lemma AddMountLaw(j: Jail, m: Mount)
    requires |j.mounts| < TWO64 - 1
    ensures var k := After(j, AddMount(m));
      if m.dest == [] || m.dest[0] != '/' as int then k == j
      else
        && |k.mounts| == |j.mounts| + 1 && j.mounts <= k.mounts && IsEntryFor(k.mounts[|j.mounts|], m)
        && k.mountCount == |k.mounts|
        && (if j.flags[ENTER_VFS] then k.flags == j.flags else OnlyRaised(j, k, VFS))
        && k == j.(flags := k.flags, mounts := k.mounts, mountCount := k.mountCount)
  {
  }

  lemma AddToCgroupLaw(j: Jail, path: CString)
    ensures var k := After(j, AddToCgroup(path));
      if |j.cgroups| >= 10 then k == j
      else OnlyRaised(j, k, CGROUPS) && k.cgroups == j.cgroups + [path] && k == j.(flags := k.flags, cgroups := k.cgroups)
  {
  }

  lemma AddRemountLaw(j: Jail, r: Remount)
    ensures var k := After(j, AddRemount(r));
      if r.name == [] || r.name[0] != '/' as int then k == j
      else k.remounts == j.remounts + [r] && k == j.(remounts := k.remounts)
  {
  }

  lemma AddHookLaw(j: Jail, hook: Hook)
    ensures var k := After(j, AddHook(hook)); k.hooks == j.hooks + [hook] && k == j.(hooks := k.hooks)
  {
  }

  // ----- A series of calls -----

  /** The call turns the flag on. */
  predicate Raises(j: Jail, c: Call, f: Flag) {
    match c
    case RaiseFlag(g) => f == g
    case ChangeUser(_) => f == FUID
    case SetSupplementaryGids(_) => f == SET_GIDS && !j.flags[INHERIT_GIDS] && !j.flags[KEEP_GIDS]
    case EnterChroot(_) => f == CHROOT && j.chrootdir.None?
    case EnterPivotRoot(_) => f == PIVOT_ROOT && j.chrootdir.None?
    case SetHostname(_) => f == UTS && j.hostname.None?
    case UseAltSyscall(_) => f == ALT_SYSCALL
    case AddMount(m) => f == VFS && m.dest != [] && m.dest[0] == '/' as int && !j.flags[ENTER_VFS]
    case AddToCgroup(_) => f == CGROUPS && |j.cgroups| < 10
    case WritePidFile(_) => f == PID_FILE
    case _ => false
  }

  /** The call turns the flag off. */
  predicate Lowers(c: Call, f: Flag) {
    || (c.OverrideBoundingSet? && f == CAPBSET_DROP)
    || (c.ForbidSpeculation? && f == SPECULATION)
    || (c.ClearSeccomp? && f in {SECCOMP_FILTER, TSYNC, FILTER_LOGGING, SPECULATION, NO_NEW_PRIVS})
  }

  lemma OneCall(j: Jail, c: Call, f: Flag)
    requires Possible(j, c)
    ensures After(j, c).flags[f] <==> !Lowers(c, f) && (j.flags[f] || Raises(j, c, f))
  {
    match c
    case AddMount(m) => AddMountLaw(j, m);
    case ClearSeccomp => ClearSeccompLaw(j);
    case OverrideBoundingSet => OverrideBoundingSetLaw(j);
    case ForbidSpeculation => ForbidSpeculationLaw(j);
    case _ =>
  }

  lemma {:induction false} AllButLast(j: Jail, calls: seq<Call>)
    requires calls != [] && AfterAll(j, calls).Some?
    ensures var before, last := AfterAll(j, calls[..|calls| - 1]), calls[|calls| - 1];
      before.Some? && Possible(before.value, last) && AfterAll(j, calls) == Some(After(before.value, last))
    decreases calls
  {
    if |calls| == 1 {
      assert calls[..0] == [] && calls[1..] == [];
    } else {
      AllButLast(After(j, calls[0]), calls[1..]);
      assert calls[..|calls| - 1][1..] == calls[1..][..|calls| - 2];
    }
  }

  lemma {:induction false} AllBefore(j: Jail, calls: seq<Call>, i: nat)
    requires i <= |calls| && AfterAll(j, calls).Some?
    ensures AfterAll(j, calls[..i]).Some?
    decreases |calls|
  {
    if i < |calls| {
      AllButLast(j, calls);
      AllBefore(j, calls[..|calls| - 1], i);
      assert calls[..|calls| - 1][..i] == calls[..i];
    } else {
      assert calls[..i] == calls;
    }
  }

  /** Call i turns the flag on, in the jail that the calls before it have made. */
  predicate RaisesAt(j: Jail, calls: seq<Call>, i: nat, f: Flag)
    requires i < |calls|
  {
    var before := AfterAll(j, calls[..i]);
    before.Some? && Raises(before.value, calls[i], f)
  }

  /** No call from position i on turns the flag off. */
  predicate NotLowered(calls: seq<Call>, i: nat, f: Flag) { forall k :: i <= k < |calls| ==> !Lowers(calls[k], f) }

  /** A flag is on at the end exactly if it was on or some call has turned it on, and no
      later call has turned it off. */
  lemma {:induction false} FlagAtTheEnd(j: Jail, calls: seq<Call>, f: Flag)
    requires AfterAll(j, calls).Some?
    ensures AfterAll(j, calls).value.flags[f] <==>
              || (j.flags[f] && NotLowered(calls, 0, f))
              || (exists i :: 0 <= i < |calls| && RaisesAt(j, calls, i, f) && NotLowered(calls, i + 1, f))
    decreases |calls|
  {
    if calls != [] {
      var n := |calls| - 1;
      var front := calls[..n];
      AllButLast(j, calls);
      FlagAtTheEnd(j, front, f);
      OneCall(AfterAll(j, front).value, calls[n], f);
      OneLonger(j, calls, f);
    }
  }

  lemma OneLonger(j: Jail, calls: seq<Call>, f: Flag)
    requires calls != [] && AfterAll(j, calls[..|calls| - 1]).Some?
    ensures var n := |calls| - 1;
      var front, last := calls[..n], calls[n];
      && (NotLowered(calls, 0, f) <==> NotLowered(front, 0, f) && !Lowers(last, f))
      && ((exists i :: 0 <= i < |calls| && RaisesAt(j, calls, i, f) && NotLowered(calls, i + 1, f))
          <==> || Raises(AfterAll(j, front).value, last, f)
               || ((exists i :: 0 <= i < |front| && RaisesAt(j, front, i, f) && NotLowered(front, i + 1, f))
                   && !Lowers(last, f)))
  {
    var n := |calls| - 1;
    var front := calls[..n];
    assert forall i :: 0 <= i < n ==> front[..i] == calls[..i] && front[i] == calls[i];
    assert forall i :: 0 <= i < n ==> RaisesAt(j, front, i, f) == RaisesAt(j, calls, i, f);
    assert NotLowered(calls, n + 1, f);
    assert forall i :: 0 <= i <= n ==> NotLowered(calls, i, f) == (NotLowered(front, i, f) && !Lowers(calls[n], f));
    assert RaisesAt(j, calls, n, f) == Raises(AfterAll(j, front).value, calls[n], f);
  }

  /** A flag that no other call turns on is on exactly if it was asked for, unless it is
      one of those that can be turned off and a call does that. */
  lemma RequestedFlags(calls: seq<Call>, f: Flag)
    requires AfterAll(NEW_JAIL, calls).Some? && NotLowered(calls, 0, f)
    requires f !in {FUID, SET_GIDS, CHROOT, PIVOT_ROOT, UTS, ALT_SYSCALL, VFS, CGROUPS, PID_FILE}
    ensures AfterAll(NEW_JAIL, calls).value.flags[f] <==> RaiseFlag(f) in calls
  {
    FlagAtTheEnd(NEW_JAIL, calls, f);
    if RaiseFlag(f) in calls {
      var i :| 0 <= i < |calls| && calls[i] == RaiseFlag(f);
      AllBefore(NEW_JAIL, calls, i);
      assert RaisesAt(NEW_JAIL, calls, i, f) && NotLowered(calls, i + 1, f);
    }
  }
}
