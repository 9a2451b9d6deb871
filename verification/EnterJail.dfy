/** minijail_enter as it runs, with its loops and early exits, proved against module Preload. */
module EnterJail {
  import opened Words
  import opened Jails
  import opened Preload
  import opened Order

  // ----- Namespaces -----

  /** The walk over the remounts; it stops at one that is stricter than the root's. */
  method DoRemounts(rs: seq<Remount>, mode: u64) returns (ok: bool, log: seq<Action>)
    ensures ok <==> !Stricter(rs, mode)
    ensures ok ==> log == Remounts(rs)
  {
    log := [];
    var i := 0;
    while i < |rs|
      invariant i <= |rs|
      invariant Stricter(rs, mode) == Stricter(rs[i..], mode)
      invariant Remounts(rs) == log + Remounts(rs[i..])
    {
      assert rs[i..][1..] == rs[i + 1..];
      if rs[i].mode < mode {
        return false, log;
      }
      log := log + [RemountAt(rs[i])];
      i := i + 1;
    }
    ok := true;
  }

  /** unshare(CLONE_NEWNS) and the remounts. */
  method MakeVfs(j: Jail) returns (ok: bool, log: seq<Action>)
    ensures ok <==> !(j.Has(VFS) && j.plain[REMOUNT_MODE] != 0 && Stricter(j.remounts, j.plain[REMOUNT_MODE]))
    ensures ok ==> log == NewVfs(j)
  {
    ok, log := true, [];
    if j.Has(VFS) {
      log := [Unshare(MountNs)];
      if j.plain[REMOUNT_MODE] != 0 {
        var more;
        ok, more := DoRemounts(j.remounts, j.plain[REMOUNT_MODE]);
        log := log + ([RemountRoot(j.plain[REMOUNT_MODE])] + more);
      }
    }
  }

  // ----- Mounts and the root -----

  /** run_hooks_or_die */
  method DoHooks(hs: seq<Hook>, e: HookEvent) returns (log: seq<Action>)
    ensures log == RunHooks(hs, e)
  {
    hide RunHooks;
    log := [];
    var i := 0;
    assert hs[0..] == hs && [] + RunHooks(hs, e) == RunHooks(hs, e);
    while i < |hs|
      invariant i <= |hs|
      invariant RunHooks(hs, e) == log + RunHooks(hs[i..], e)
    {
      HooksStep(hs, i, e, log);
      if hs[i].event == e {
        log := log + [RunHook(hs[i].event, hs[i].code)];
      }
      i := i + 1;
    }
    NoMoreHooks(hs, e, log);
  }

  lemma HooksStep(hs: seq<Hook>, i: nat, e: HookEvent, log: seq<Action>)
    requires i < |hs|
    ensures log + RunHooks(hs[i..], e)
         == (if hs[i].event == e then log + [RunHook(hs[i].event, hs[i].code)] else log) + RunHooks(hs[i + 1..], e)
  {
    assert hs[i..][1..] == hs[i + 1..];
  }

  lemma NoMoreHooks(hs: seq<Hook>, e: HookEvent, log: seq<Action>)
    ensures log + RunHooks(hs[|hs|..], e) == log
  {
  }

  /** mount_one, which calls itself for the next mount point: one action per mount point, in order. */
  method MountOne(ms: seq<Mount>, j: Jail) returns (log: seq<Action>)
    requires ms != []
    ensures |log| == |ms| && forall i :: 0 <= i < |ms| ==> log[i] == MountAction(ms[i], j)
  {
    log := [MountAction(ms[0], j)];
    if |ms| > 1 {
      var more := MountOne(ms[1..], j);
      log := log + more;
    }
  }

  lemma {:induction false} MountsInOrder(ms: seq<Mount>, j: Jail, log: seq<Action>)
    requires |log| == |ms| && forall i :: 0 <= i < |ms| ==> log[i] == MountAction(ms[i], j)
    ensures log == MountAll(ms, j)
  {
    if ms != [] {
      MountsInOrder(ms[1..], j, log[1..]);
      assert log == [log[0]] + log[1..];
    }
  }

  /** process_mounts_or_die: the device tree is made before the mounts and moved after them. */
  method MakeMounts(j: Jail) returns (log: seq<Action>)
    ensures log == ProcessMounts(j)
  {
    var mounts := [];
    if j.mounts != [] {
      mounts := MountOne(j.mounts, j);
    }
    MountsInOrder(j.mounts, j, mounts);
    log := mounts;
    if j.Has(MOUNT_DEV) {
      log := [PrepareDev] + log + [MoveDev(j.chrootdir)];
    }
  }

  /** enter_chroot, enter_pivot_root and mount_tmp */
  method MakeRoots(j: Jail) returns (log: seq<Action>)
    ensures log == Roots(j)
  {
    var chroot, pivot, tmp := [], [], [];
    if j.Has(CHROOT) {
      chroot := DoHooks(j.hooks, PreChroot);
      chroot := chroot + [ChangeRoot(j.chrootdir)];
    }
    if j.Has(PIVOT_ROOT) {
      pivot := DoHooks(j.hooks, PreChroot);
      pivot := pivot + [PivotRoot(j.chrootdir)];
    }
    if j.Has(MOUNT_TMP) {
      tmp := [MountTmp(j.plain[TMPFS_SIZE])];
    }
    log := chroot + pivot + tmp;
  }

  // ----- Privileges -----

  method DoUgid(j: Jail) returns (log: seq<Action>)
    ensures log == DropUgid(IdsOf(j))
  {
    log := [];
    if j.Has(INHERIT_GIDS) {
      log := [InitGroups(j.user, j.UserGid())];
    } else if j.Has(SET_GIDS) {
      log := [SetGroups(j.gidCount, j.gids)];
    } else if !j.Has(KEEP_GIDS) && !j.Has(DISABLE_SETGROUPS) && (j.Has(FUID) || j.Has(FGID)) {
      log := [SetGroups(0, None)];
    }
    if j.Has(FGID) {
      log := log + [SetGid(j.Gid())];
    }
    if j.Has(FUID) {
      log := log + [SetUid(j.Uid())];
    }
  }

  /** set_seccomp_filter, which returns early in a build with ASan. */
  method DoFilter(j: Jail, p: Platform) returns (log: seq<Action>)
    ensures log == FilterSyscalls(ModeOf(j), j.filter, p)
  {
    log := [];
    if j.Has(NO_NEW_PRIVS) {
      log := [NoNewPrivs];
    }
    if !j.Has(SECCOMP_FILTER) || p.asan {
      return;
    }
    if p.logByDefault || j.Has(FILTER_LOGGING) {
      if !p.retLog {
        log := log + [CatchSigsys];
      }
    } else if j.Has(TSYNC) {
      log := log + [ResetSigsys];
    }
    log := log + [InstallFilter(j.Has(TSYNC), j.Has(SPECULATION), j.filter)];
  }

  /** With no_new_privs the filter is installed last, without it first. */
  method DoPrivileges(j: Jail, p: Platform) returns (log: seq<Action>)
    ensures log == Privileges(j, p)
  {
    if j.Has(NO_NEW_PRIVS) {
      var ids := DoUgid(j);
      var caps := DoCaps(j);
      var filter := DoFilter(j, p);
      log := ids + caps + filter;
    } else {
      var filter := DoFilter(j, p);
      var ids := DoUgid(j);
      var caps := DoCaps(j);
      log := filter + (ids + caps);
    }
  }

  /** drop_caps, whose own steps are in module Caps */
  method DoCaps(j: Jail) returns (log: seq<Action>)
    ensures log == DropAllCaps(j)
  {
    log := [];
    if j.Has(USE_CAPS) {
      log := [DropCaps(j.plain[CAPS], j.plain[SECUREBITS_SKIP], j.Has(AMBIENT_CAPS))];
    }
  }

  /** The capability bounding set and the securebits. */
  method DoBounds(j: Jail) returns (log: seq<Action>)
    ensures log == Bounds(j)
  {
    log := [];
    if j.Has(CAPBSET_DROP) {
      log := log + [DropBoundingSet(j.plain[CAP_BSET])];
    }
    if j.Has(USE_CAPS) {
      log := log + [LockSecurebits(j.plain[SECUREBITS_SKIP], !j.Has(AMBIENT_CAPS))];
    }
  }

  /** The system call table, then strict seccomp, which allows nothing more. */
  method DoLast(j: Jail) returns (log: seq<Action>)
    ensures log == Last(j)
  {
    log := [];
    if j.Has(ALT_SYSCALL) {
      log := log + [SelectSyscallTable(j.altTable)];
    }
    if j.Has(SECCOMP) {
      log := log + [StrictSeccomp];
    }
  }

  // ----- All parts -----

  /** The mount namespace, that of another process or a new one. */
  method DoVfs(j: Jail, ghost p: Platform) returns (ok: bool, log: seq<Action>)
    ensures ok <==> !(j.Has(VFS) && j.plain[REMOUNT_MODE] != 0 && Stricter(j.remounts, j.plain[REMOUNT_MODE]))
    ensures ok ==> log == Upto(2, j, p)
  {
    var enter := [];
    if j.Has(ENTER_VFS) {
      enter := [SetNs(j.MountNsFd(), MountNs), CloseFd(j.MountNsFd(), MountNs)];
    }
    var vfs;
    ok, vfs := MakeVfs(j);
    log := enter + vfs;
    OneMore(0, j, p);
    OneMore(1, j, p);
  }

  method DoUts(j: Jail) returns (log: seq<Action>)
    ensures log == NewUts(j)
  {
    log := [];
    if j.Has(UTS) {
      log := [Unshare(UtsNs)];
      if j.hostname.Some? {
        log := log + [NameHost(j.hostname.value)];
      }
    }
  }

  method DoNetwork(j: Jail) returns (log: seq<Action>)
    ensures log == Network(j)
  {
    log := [];
    if j.Has(ENTER_NET) {
      log := [SetNs(j.NetNsFd(), NetNs), CloseFd(j.NetNsFd(), NetNs)];
    } else if j.Has(NET) {
      log := [Unshare(NetNs), ConfigureLoopback];
    }
  }

  /** The other namespaces and the session keyring. */
  method DoNamespaces(j: Jail, ghost p: Platform) returns (log: seq<Action>)
    ensures Upto(2, j, p) + log == Upto(7, j, p)
  {
    hide Upto, NewUts, Network;
    var ipc, cgroup, keyring := [], [], [];
    if j.Has(IPC) {
      ipc := [Unshare(IpcNs)];
    }
    var uts := DoUts(j);
    var net := DoNetwork(j);
    if j.Has(NS_CGROUPS) {
      cgroup := [Unshare(CgroupNs)];
    }
    if j.Has(SESSION_KEYRING) {
      keyring := [JoinSessionKeyring];
    }
    log := ipc + uts + net + cgroup + keyring;
    FiveMore(2, j, p, ipc, uts, net, cgroup, keyring);
  }

  lemma FiveMore(k: nat, j: Jail, p: Platform,
                 a: seq<Action>, b: seq<Action>, c: seq<Action>, d: seq<Action>, e: seq<Action>)
    requires Part(k, j, p) == a && Part(k + 1, j, p) == b && Part(k + 2, j, p) == c
    requires Part(k + 3, j, p) == d && Part(k + 4, j, p) == e
    ensures Upto(k, j, p) + (a + b + c + d + e) == Upto(k + 5, j, p)
  {
    hide Part, Upto;
    OneMore(k, j, p);
    OneMore(k + 1, j, p);
    OneMore(k + 2, j, p);
    OneMore(k + 3, j, p);
    OneMore(k + 4, j, p);
    Regroup(Upto(k, j, p), a, b, c, d, e);
  }

  lemma Regroup(x: seq<Action>, a: seq<Action>, b: seq<Action>, c: seq<Action>, d: seq<Action>, e: seq<Action>)
    ensures x + a + b + c + d + e == x + (a + b + c + d + e)
  {
  }

  /** Mounts, the root directory, /proc, the hooks and the bounding set. */
  method DoFiles(j: Jail, ghost p: Platform) returns (log: seq<Action>)
    ensures Upto(7, j, p) + log == Upto(12, j, p)
  {
    hide Upto, ProcessMounts, Roots, RemountProc, RunHooks, Bounds;
    var mounts := MakeMounts(j);
    var roots := MakeRoots(j);
    var proc := DoProc(j);
    var hooks := DoHooks(j.hooks, PreDropCaps);
    var bounds := DoBounds(j);
    log := mounts + roots + proc + hooks + bounds;
    FiveMore(7, j, p, mounts, roots, proc, hooks, bounds);
  }

  /** remount_proc_readonly */
  method DoProc(j: Jail) returns (log: seq<Action>)
    ensures log == RemountProc(j)
  {
    log := [];
    if j.Has(REMOUNT_PROC_RO) {
      if !j.Has(USERNS) {
        log := [DetachProc];
      }
      log := log + [MountProcReadOnly];
    }
  }

  /** minijail_enter: it dies exactly if the jail cannot be entered, and otherwise does what
      the jail asks for, in order. */
  method Run(j: Jail, p: Platform) returns (r: Outcome)
    ensures r == Enter(j, p)
    ensures r.Died? <==> CannotEnter(j)
    ensures r.Entered? ==> Enacts(j, p, r.actions)
  {
    hide Upto, Part, Stricter, Privileges, Last, Enacts, CannotEnter;
    EnterEnacts(j, p);
    if j.Has(PIDS) {
      return Died;
    }
    if j.Has(INHERIT_GIDS) && j.user.None? {
      return Died;
    }
    var ok, vfs := DoVfs(j, p);
    if !ok {
      return Died;
    }
    var namespaces := DoNamespaces(j, p);
    var files := DoFiles(j, p);
    var privileges := DoPrivileges(j, p);
    var last := DoLast(j);
    AllDone(j, p);
    r := Entered(vfs + namespaces + files + privileges + last);
  }

  lemma AllDone(j: Jail, p: Platform)
    ensures Upto(12, j, p) + Privileges(j, p) + Last(j) == Concat(Parts(j, p))
  {
    hide Upto, Part, Concat, Privileges, Last;
    LastParts(j, p);
    OneMore(12, j, p);
    OneMore(13, j, p);
    UptoIsConcat(14, j, p);
    assert Parts(j, p)[..14] == Parts(j, p);
  }

  lemma LastParts(j: Jail, p: Platform)
    ensures Part(12, j, p) == Privileges(j, p) && Part(13, j, p) == Last(j)
  {
  }
}
