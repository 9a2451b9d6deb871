/**
 What minijail_enter does and in which order, said of the list of its actions alone: which
 action is done under which flags, and which one comes before which.
 */
module Order {
  import opened Words
  import opened Jails
  import opened Preload

  // ----- Which actions -----

  /** The jail asks for the action, with these arguments. */
  predicate Asked(j: Jail, p: Platform, a: Action) {
    match a
    case SetNs(fd, what) => AskedNs(j, fd, what)
    case CloseFd(fd, what) => AskedNs(j, fd, what)
    case Unshare(what) => AskedNew(j, what)
    case RemountRoot(mode) => j.flags[VFS] && mode == j.plain[REMOUNT_MODE] != 0
    case RemountAt(r) => j.flags[VFS] && j.plain[REMOUNT_MODE] != 0 && r in j.remounts
    case NameHost(name) => j.flags[UTS] && j.hostname == Some(name)
    case ConfigureLoopback => j.flags[NET] && !j.flags[ENTER_NET]
    case JoinSessionKeyring => j.flags[SESSION_KEYRING]
    case PrepareDev => j.flags[MOUNT_DEV]
    case DoMount(m, root, uid, gid, dev) =>
      m in j.mounts && root == j.chrootdir && uid == j.Uid() && gid == j.Gid() && dev == j.flags[MOUNT_DEV]
    case MoveDev(root) => j.flags[MOUNT_DEV] && root == j.chrootdir
    case ChangeRoot(dir) => j.flags[CHROOT] && dir == j.chrootdir
    case PivotRoot(dir) => j.flags[PIVOT_ROOT] && dir == j.chrootdir
    case MountTmp(size) => j.flags[MOUNT_TMP] && size == j.plain[TMPFS_SIZE]
    case DetachProc => j.flags[REMOUNT_PROC_RO] && !j.flags[USERNS]
    case MountProcReadOnly => j.flags[REMOUNT_PROC_RO]
    case RunHook(e, code) =>
      Hook(e, code) in j.hooks && (e == PreDropCaps || (e == PreChroot && (j.flags[CHROOT] || j.flags[PIVOT_ROOT])))
    case DropBoundingSet(keep) => j.flags[CAPBSET_DROP] && keep == j.plain[CAP_BSET]
    case LockSecurebits(skip, keepCaps) =>
      j.flags[USE_CAPS] && skip == j.plain[SECUREBITS_SKIP] && keepCaps == !j.flags[AMBIENT_CAPS]
    case InitGroups(user, gid) => j.flags[INHERIT_GIDS] && user == j.user && gid == j.UserGid()
    case SetGroups(count, list) => AskedGroups(j, count, list)
    case SetGid(gid) => j.flags[FGID] && gid == j.Gid()
    case SetUid(uid) => j.flags[FUID] && uid == j.Uid()
    case DropCaps(caps, skip, ambient) =>
      && j.flags[USE_CAPS] && caps == j.plain[CAPS] && skip == j.plain[SECUREBITS_SKIP]
      && ambient == j.flags[AMBIENT_CAPS]
    case NoNewPrivs => j.flags[NO_NEW_PRIVS]
    case CatchSigsys => AskedFilter(j, p) && Logged(j, p) && !p.retLog
    case ResetSigsys => AskedFilter(j, p) && !Logged(j, p) && j.flags[TSYNC]
    case InstallFilter(tsync, speculation, prog) =>
      AskedFilter(j, p) && tsync == j.flags[TSYNC] && speculation == j.flags[SPECULATION] && prog == j.filter
    case SelectSyscallTable(table) => j.flags[ALT_SYSCALL] && table == j.altTable
    case StrictSeccomp => j.flags[SECCOMP]
  }

  /** A namespace to enter. */
  predicate AskedNs(j: Jail, fd: u64, what: Namespace) {
    || (what == MountNs && j.flags[ENTER_VFS] && fd == j.MountNsFd())
    || (what == NetNs && j.flags[ENTER_NET] && fd == j.NetNsFd())
  }

  /** A namespace to create. */
  predicate AskedNew(j: Jail, what: Namespace) {
    match what
    case MountNs => j.flags[VFS]
    case IpcNs => j.flags[IPC]
    case UtsNs => j.flags[UTS]
    case NetNs => j.flags[NET] && !j.flags[ENTER_NET]
    case CgroupNs => j.flags[NS_CGROUPS]
  }

  /** The groups of the list if there is one; without one, none if the user or group changes. */
  predicate AskedGroups(j: Jail, count: u64, list: Option<seq<u32>>) {
    if j.flags[INHERIT_GIDS] then false
    else if j.flags[SET_GIDS] then count == j.gidCount && list == j.gids
    else
      && !j.flags[KEEP_GIDS] && !j.flags[DISABLE_SETGROUPS] && (j.flags[FUID] || j.flags[FGID])
      && count == 0 && list == None
  }

  predicate AskedFilter(j: Jail, p: Platform) { j.flags[SECCOMP_FILTER] && !p.asan }

  predicate Logged(j: Jail, p: Platform) { p.logByDefault || j.flags[FILTER_LOGGING] }

  // ----- In which order -----

  /** The place of an action; with no_new_privs, the filter comes behind dropping privileges. */
  function Rank(a: Action, noNewPrivs: bool): nat {
    match a
    case SetNs(_, what) => if what == MountNs then 1 else if what == NetNs then 9 else 35
    case CloseFd(_, what) => if what == MountNs then 2 else if what == NetNs then 10 else 35
    case Unshare(what) =>
      (match what
       case MountNs => 3
       case IpcNs => 6
       case UtsNs => 7
       case NetNs => 9
       case CgroupNs => 11)
    case RemountRoot(_) => 4
    case RemountAt(_) => REMOUNTED
    case NameHost(_) => 8
    case ConfigureLoopback => 10
    case JoinSessionKeyring => 12
    case PrepareDev => 13
    case DoMount(_, _, _, _, _) => MOUNTED
    case MoveDev(_) => 15
    case ChangeRoot(_) => ROOTED
    case PivotRoot(_) => ROOTED
    case MountTmp(_) => 17
    case DetachProc => 18
    case MountProcReadOnly => 19
    case RunHook(e, _) => if e == PreChroot then ROOTED else if e == PreDropCaps then HOOKED else 35
    case DropBoundingSet(_) => 21
    case LockSecurebits(_, _) => 22
    case NoNewPrivs => if noNewPrivs then 30 else 23
    case CatchSigsys => if noNewPrivs then 31 else 24
    case ResetSigsys => if noNewPrivs then 31 else 24
    case InstallFilter(_, _, _) => if noNewPrivs then 32 else 25
    case InitGroups(_, _) => 26
    case SetGroups(_, _) => 26
    case SetGid(_) => 27
    case SetUid(_) => 28
    case DropCaps(_, _, _) => 29
    case SelectSyscallTable(_) => 33
    case StrictSeccomp => 34
  }

  const REMOUNTED: nat := 5
  const MOUNTED: nat := 14
  const ROOTED: nat := 16
  const HOOKED: nat := 20

  /** These places are taken by lists. */
  predicate Many(rank: nat) { rank in {REMOUNTED, MOUNTED, ROOTED, HOOKED} }

  predicate Follows(a: Action, b: Action, noNewPrivs: bool) {
    var x, y := Rank(a, noNewPrivs), Rank(b, noNewPrivs);
    x < y || (x == y && Many(x))
  }

  predicate Sorted(log: seq<Action>, noNewPrivs: bool) {
    forall x, y :: 0 <= x < y < |log| ==> Follows(log[x], log[y], noNewPrivs)
  }

  /** The actions of one place. */
  function Only(log: seq<Action>, rank: nat, noNewPrivs: bool): seq<Action> {
    if log == [] then []
    else (if Rank(log[0], noNewPrivs) == rank then [log[0]] else []) + Only(log[1..], rank, noNewPrivs)
  }

  function HooksOf(hs: seq<Hook>, e: HookEvent): seq<Action> {
    if hs == [] then []
    else (if hs[0].event == e then [RunHook(e, hs[0].code)] else []) + HooksOf(hs[1..], e)
  }

  /** The lists, each in its own order. The hooks before a change of the root run again for
      the second of the two ways to change it. */
  function ListOf(j: Jail, rank: nat): seq<Action> {
    if rank == REMOUNTED then
      if j.flags[VFS] && j.plain[REMOUNT_MODE] != 0
      then seq(|j.remounts|, i requires 0 <= i < |j.remounts| => RemountAt(j.remounts[i])) else []
    else if rank == MOUNTED then
      seq(|j.mounts|, i requires 0 <= i < |j.mounts| =>
            DoMount(j.mounts[i], j.chrootdir, j.Uid(), j.Gid(), j.flags[MOUNT_DEV]))
    else if rank == ROOTED then
      (if j.flags[CHROOT] then HooksOf(j.hooks, PreChroot) + [ChangeRoot(j.chrootdir)] else [])
      + (if j.flags[PIVOT_ROOT] then HooksOf(j.hooks, PreChroot) + [PivotRoot(j.chrootdir)] else [])
    else HooksOf(j.hooks, PreDropCaps)
  }

  /** The actions are those that are asked for, in their order, each once if it is no entry of
      a list, and the lists as they are. */
  ghost predicate Enacts(j: Jail, p: Platform, log: seq<Action>) {
    && (forall a :: a in log <==> Asked(j, p, a))
    && Sorted(log, j.flags[NO_NEW_PRIVS])
    && (forall rank: nat :: Many(rank) ==> Only(log, rank, j.flags[NO_NEW_PRIVS]) == ListOf(j, rank))
  }

  // ----- Part by part -----

  /** What has been done after the first k parts. */
  function Upto(k: nat, j: Jail, p: Platform): seq<Action> {
    if k == 0 then [] else Upto(k - 1, j, p) + Part(k - 1, j, p)
  }

  lemma OneMore(k: nat, j: Jail, p: Platform)
    ensures Upto(k + 1, j, p) == Upto(k, j, p) + Part(k, j, p)
  {
  }

  lemma {:induction false} UptoIsConcat(k: nat, j: Jail, p: Platform)
    requires k <= PARTS
    ensures Upto(k, j, p) == Concat(Parts(j, p)[..k])
    decreases k
  {
    hide Part;
    if k > 0 {
      UptoIsConcat(k - 1, j, p);
      assert Parts(j, p)[..k] == Parts(j, p)[..k - 1] + [Part(k - 1, j, p)];
      ConcatSnoc(Parts(j, p)[..k - 1], Part(k - 1, j, p));
    }
  }

  lemma {:induction false} ConcatSnoc(ps: seq<seq<Action>>, a: seq<Action>)
    ensures Concat(ps + [a]) == Concat(ps) + a
  {
    if ps == [] {
      assert Concat([a]) == a + Concat([]);
    } else {
      assert (ps + [a])[1..] == ps[1..] + [a];
      ConcatSnoc(ps[1..], a);
    }
  }

  /** The last place of the parts before part k. */
  function Top(k: nat): nat {
    match k
    case 0 => 0
    case 1 => 2
    case 2 => 5
    case 3 => 6
    case 4 => 8
    case 5 => 10
    case 6 => 11
    case 7 => 12
    case 8 => 15
    case 9 => 17
    case 10 => 19
    case 11 => 20
    case 12 => 22
    case 13 => 32
    case _ => 34
  }

  /** In order, with all places above lo and up to hi. */
  predicate InStage(log: seq<Action>, noNewPrivs: bool, lo: nat, hi: nat) {
    Sorted(log, noNewPrivs) && forall x :: 0 <= x < |log| ==> lo < Rank(log[x], noNewPrivs) <= hi
  }

  lemma StagesJoin(a: seq<Action>, b: seq<Action>, noNewPrivs: bool, lo: nat, mid: nat, hi: nat)
    requires InStage(a, noNewPrivs, lo, mid) && InStage(b, noNewPrivs, mid, hi) && lo <= mid <= hi
    ensures InStage(a + b, noNewPrivs, lo, hi)
  {
    hide Rank;
  }

  /** The log has the actions that are asked for and placed above lo and up to hi, in order. */
  ghost predicate Covers(log: seq<Action>, lo: nat, hi: nat, j: Jail, p: Platform) {
    && InStage(log, j.flags[NO_NEW_PRIVS], lo, hi)
    && forall a :: a in log <==> Asked(j, p, a) && lo < Rank(a, j.flags[NO_NEW_PRIVS]) <= hi
  }

  lemma CoversJoin(a: seq<Action>, b: seq<Action>, lo: nat, mid: nat, hi: nat, j: Jail, p: Platform)
    requires Covers(a, lo, mid, j, p) && Covers(b, mid, hi, j, p) && lo <= mid <= hi
    ensures Covers(a + b, lo, hi, j, p)
  {
    hide Rank, Asked, InStage;
    StagesJoin(a, b, j.flags[NO_NEW_PRIVS], lo, mid, hi);
  }

  /** A list takes its own place. */
  lemma ListInStage(log: seq<Action>, rank: nat, noNewPrivs: bool)
    requires Many(rank) && forall a :: a in log ==> Rank(a, noNewPrivs) == rank
    ensures InStage(log, noNewPrivs, rank - 1, rank)
  {
    hide Rank;
    forall x | 0 <= x < |log|
      ensures Rank(log[x], noNewPrivs) == rank
    {
      assert log[x] in log;
    }
  }

  lemma ListCovers(log: seq<Action>, rank: nat, j: Jail, p: Platform)
    requires Many(rank) && forall a :: a in log <==> Asked(j, p, a) && Rank(a, j.flags[NO_NEW_PRIVS]) == rank
    ensures Covers(log, rank - 1, rank, j, p)
  {
    hide Rank, Asked;
    ListInStage(log, rank, j.flags[NO_NEW_PRIVS]);
  }

  lemma EnterVfsCovers(j: Jail, p: Platform)
    ensures Covers(EnterVfs(j), 0, 2, j, p)
  {
  }

  lemma {:induction false} RemountsAre(rs: seq<Remount>, a: Action)
    ensures Remounts(rs) == seq(|rs|, i requires 0 <= i < |rs| => RemountAt(rs[i]))
    ensures a in Remounts(rs) <==> a.RemountAt? && a.remount in rs
  {
    if rs != [] {
      RemountsAre(rs[1..], a);
    }
  }

  lemma UnshareMountsCovers(j: Jail, p: Platform)
    ensures Covers(When(j.Has(VFS), [Unshare(MountNs)]), 2, 3, j, p)
  {
  }

  lemma RemountRootCovers(j: Jail, p: Platform)
    ensures Covers(When(j.Has(VFS) && j.plain[REMOUNT_MODE] != 0, [RemountRoot(j.plain[REMOUNT_MODE])]), 3, 4, j, p)
  {
  }

  lemma RemountIsAsked(j: Jail, p: Platform, a: Action)
    ensures a in When(j.Has(VFS) && j.plain[REMOUNT_MODE] != 0, Remounts(j.remounts))
            <==> Asked(j, p, a) && Rank(a, j.flags[NO_NEW_PRIVS]) == REMOUNTED
  {
    RemountsAre(j.remounts, a);
  }

  lemma RemountsCover(j: Jail, p: Platform)
    ensures Covers(When(j.Has(VFS) && j.plain[REMOUNT_MODE] != 0, Remounts(j.remounts)), 4, REMOUNTED, j, p)
  {
    hide Remounts, Asked, Rank, Covers;
    var log := When(j.Has(VFS) && j.plain[REMOUNT_MODE] != 0, Remounts(j.remounts));
    forall a
      ensures a in log <==> Asked(j, p, a) && Rank(a, j.flags[NO_NEW_PRIVS]) == REMOUNTED
    {
      RemountIsAsked(j, p, a);
    }
    ListCovers(log, REMOUNTED, j, p);
  }

  lemma NewVfsCovers(j: Jail, p: Platform)
    ensures Covers(NewVfs(j), 2, REMOUNTED, j, p)
  {
    hide Covers, Remounts;
    var c := j.Has(VFS) && j.plain[REMOUNT_MODE] != 0;
    var unshared, root := When(j.Has(VFS), [Unshare(MountNs)]), When(c, [RemountRoot(j.plain[REMOUNT_MODE])]);
    UnshareMountsCovers(j, p);
    RemountRootCovers(j, p);
    RemountsCover(j, p);
    CoversJoin(unshared, root, 2, 3, 4, j, p);
    CoversJoin(unshared + root, When(c, Remounts(j.remounts)), 2, 4, REMOUNTED, j, p);
    assert NewVfs(j) == unshared + root + When(c, Remounts(j.remounts));
  }

  lemma NewIpcCovers(j: Jail, p: Platform)
    ensures Covers(When(j.Has(IPC), [Unshare(IpcNs)]), 5, 6, j, p)
  {
  }

  lemma NewUtsCovers(j: Jail, p: Platform)
    ensures Covers(NewUts(j), 6, 8, j, p)
  {
  }

  lemma NetworkCovers(j: Jail, p: Platform)
    ensures Covers(Network(j), 8, 10, j, p)
  {
  }

  lemma NewCgroupCovers(j: Jail, p: Platform)
    ensures Covers(When(j.Has(NS_CGROUPS), [Unshare(CgroupNs)]), 10, 11, j, p)
  {
  }

  lemma KeyringCovers(j: Jail, p: Platform)
    ensures Covers(When(j.Has(SESSION_KEYRING), [JoinSessionKeyring]), 11, 12, j, p)
  {
  }

  /** The action for one mount point. */
  predicate MountsOne(a: Action, ms: seq<Mount>, j: Jail) {
    && a.DoMount? && a.m in ms && a.root == j.chrootdir && a.uid == j.Uid() && a.gid == j.Gid()
    && a.dev == j.flags[MOUNT_DEV]
  }

  lemma {:induction false} MountsAre(ms: seq<Mount>, j: Jail, a: Action)
    ensures MountAll(ms, j) ==
            seq(|ms|, i requires 0 <= i < |ms| => DoMount(ms[i], j.chrootdir, j.Uid(), j.Gid(), j.flags[MOUNT_DEV]))
    ensures a in MountAll(ms, j) <==> MountsOne(a, ms, j)
  {
    if ms != [] {
      MountsAre(ms[1..], j, a);
    }
  }

  lemma MountIsAsked(j: Jail, p: Platform, a: Action)
    ensures a in MountAll(j.mounts, j) <==> Asked(j, p, a) && Rank(a, j.flags[NO_NEW_PRIVS]) == MOUNTED
  {
    MountsAre(j.mounts, j, a);
  }

  lemma MountAllCovers(j: Jail, p: Platform)
    ensures Covers(MountAll(j.mounts, j), 13, MOUNTED, j, p)
  {
    hide MountAll, Asked, Rank, Covers;
    forall a
      ensures a in MountAll(j.mounts, j) <==> Asked(j, p, a) && Rank(a, j.flags[NO_NEW_PRIVS]) == MOUNTED
    {
      MountIsAsked(j, p, a);
    }
    ListCovers(MountAll(j.mounts, j), MOUNTED, j, p);
  }

  lemma PrepareDevCovers(j: Jail, p: Platform)
    ensures Covers(When(j.Has(MOUNT_DEV), [PrepareDev]), 12, 13, j, p)
  {
  }

  lemma MoveDevCovers(j: Jail, p: Platform)
    ensures Covers(When(j.Has(MOUNT_DEV), [MoveDev(j.chrootdir)]), MOUNTED, 15, j, p)
  {
  }

  lemma ProcessMountsCovers(j: Jail, p: Platform)
    ensures Covers(ProcessMounts(j), 12, 15, j, p)
  {
    hide Covers;
    PrepareDevCovers(j, p);
    MoveDevCovers(j, p);
    MountAllCovers(j, p);
    CoversJoin(When(j.Has(MOUNT_DEV), [PrepareDev]), MountAll(j.mounts, j), 12, 13, MOUNTED, j, p);
    CoversJoin(When(j.Has(MOUNT_DEV), [PrepareDev]) + MountAll(j.mounts, j),
               When(j.Has(MOUNT_DEV), [MoveDev(j.chrootdir)]), 12, MOUNTED, 15, j, p);
  }

  lemma {:induction false} HooksAre(hs: seq<Hook>, e: HookEvent, a: Action)
    ensures RunHooks(hs, e) == HooksOf(hs, e)
    ensures a in HooksOf(hs, e) <==> a.RunHook? && a.event == e && Hook(e, a.hook) in hs
  {
    if hs != [] {
      HooksAre(hs[1..], e, a);
    }
  }

  /** The changes of the root, with their hooks. */
  function Changes(j: Jail): seq<Action> {
    When(j.Has(CHROOT), HooksOf(j.hooks, PreChroot) + [ChangeRoot(j.chrootdir)])
    + When(j.Has(PIVOT_ROOT), HooksOf(j.hooks, PreChroot) + [PivotRoot(j.chrootdir)])
  }

  lemma ChangeIsAsked(j: Jail, p: Platform, a: Action)
    ensures a in Changes(j) <==> Asked(j, p, a) && Rank(a, j.flags[NO_NEW_PRIVS]) == ROOTED
  {
    hide HooksOf, RunHooks;
    HooksAre(j.hooks, PreChroot, a);
    var hooks := HooksOf(j.hooks, PreChroot);
    assert a in hooks + [ChangeRoot(j.chrootdir)] <==> a in hooks || a == ChangeRoot(j.chrootdir);
    assert a in hooks + [PivotRoot(j.chrootdir)] <==> a in hooks || a == PivotRoot(j.chrootdir);
  }

  lemma ChangesCover(j: Jail, p: Platform)
    ensures Covers(Changes(j), 15, ROOTED, j, p)
  {
    hide Changes, Asked, Rank, Covers;
    forall a
      ensures a in Changes(j) <==> Asked(j, p, a) && Rank(a, j.flags[NO_NEW_PRIVS]) == ROOTED
    {
      ChangeIsAsked(j, p, a);
    }
    ListCovers(Changes(j), ROOTED, j, p);
  }

  lemma RootsCover(j: Jail, p: Platform)
    ensures Covers(Roots(j), 15, 17, j, p) && Roots(j) == Changes(j) + When(j.Has(MOUNT_TMP), [MountTmp(j.plain[TMPFS_SIZE])])
  {
    HooksAre(j.hooks, PreChroot, NoNewPrivs);
    ChangesCover(j, p);
    MountTmpCovers(j, p);
    CoversJoin(Changes(j), When(j.Has(MOUNT_TMP), [MountTmp(j.plain[TMPFS_SIZE])]), 15, ROOTED, 17, j, p);
  }

  lemma MountTmpCovers(j: Jail, p: Platform)
    ensures Covers(When(j.Has(MOUNT_TMP), [MountTmp(j.plain[TMPFS_SIZE])]), ROOTED, 17, j, p)
  {
  }

  lemma RemountProcCovers(j: Jail, p: Platform)
    ensures Covers(RemountProc(j), 17, 19, j, p)
  {
  }

  lemma HookIsAsked(j: Jail, p: Platform, a: Action)
    ensures a in RunHooks(j.hooks, PreDropCaps) <==> Asked(j, p, a) && Rank(a, j.flags[NO_NEW_PRIVS]) == HOOKED
  {
    HooksAre(j.hooks, PreDropCaps, a);
  }

  lemma LastHooksCover(j: Jail, p: Platform)
    ensures Covers(RunHooks(j.hooks, PreDropCaps), 19, HOOKED, j, p)
  {
    hide RunHooks, Asked, Rank, Covers;
    forall a
      ensures a in RunHooks(j.hooks, PreDropCaps) <==> Asked(j, p, a) && Rank(a, j.flags[NO_NEW_PRIVS]) == HOOKED
    {
      HookIsAsked(j, p, a);
    }
    ListCovers(RunHooks(j.hooks, PreDropCaps), HOOKED, j, p);
  }

  lemma DropBoundingSetCovers(j: Jail, p: Platform)
    ensures Covers(When(j.Has(CAPBSET_DROP), [DropBoundingSet(j.plain[CAP_BSET])]), HOOKED, 21, j, p)
  {
  }

  lemma LockSecurebitsCovers(j: Jail, p: Platform)
    ensures Covers(When(j.Has(USE_CAPS), [LockSecurebits(j.plain[SECUREBITS_SKIP], !j.Has(AMBIENT_CAPS))]), 21, 22, j, p)
  {
  }

  lemma BoundsCover(j: Jail, p: Platform)
    ensures Covers(Bounds(j), HOOKED, 22, j, p)
  {
    hide Covers;
    DropBoundingSetCovers(j, p);
    LockSecurebitsCovers(j, p);
    CoversJoin(When(j.Has(CAPBSET_DROP), [DropBoundingSet(j.plain[CAP_BSET])]),
               When(j.Has(USE_CAPS), [LockSecurebits(j.plain[SECUREBITS_SKIP], !j.Has(AMBIENT_CAPS))]),
               HOOKED, 21, 22, j, p);
  }

  /** What drop_ugid does to the groups. */
  function Groups(j: Jail): seq<Action> {
    if j.Has(INHERIT_GIDS) then [InitGroups(j.user, j.UserGid())]
    else if j.Has(SET_GIDS) then [SetGroups(j.gidCount, j.gids)]
    else When(!j.Has(KEEP_GIDS) && !j.Has(DISABLE_SETGROUPS) && (j.Has(FUID) || j.Has(FGID)), [SetGroups(0, None)])
  }

  lemma GroupsCover(j: Jail, p: Platform)
    ensures Covers(Groups(j), 25, 26, j, p)
  {
  }

  lemma SetGidCovers(j: Jail, p: Platform)
    ensures Covers(When(j.Has(FGID), [SetGid(j.Gid())]), 26, 27, j, p)
  {
  }

  lemma SetUidCovers(j: Jail, p: Platform)
    ensures Covers(When(j.Has(FUID), [SetUid(j.Uid())]), 27, 28, j, p)
  {
  }

  lemma DropUgidCovers(j: Jail, p: Platform)
    ensures Covers(DropUgid(IdsOf(j)), 25, 28, j, p)
  {
    hide Covers;
    GroupsCover(j, p);
    SetGidCovers(j, p);
    SetUidCovers(j, p);
    CoversJoin(Groups(j), When(j.Has(FGID), [SetGid(j.Gid())]), 25, 26, 27, j, p);
    CoversJoin(Groups(j) + When(j.Has(FGID), [SetGid(j.Gid())]), When(j.Has(FUID), [SetUid(j.Uid())]), 25, 27, 28, j, p);
  }

  lemma DropCapsCovers(j: Jail, p: Platform)
    ensures Covers(DropAllCaps(j), 28, 29, j, p)
  {
  }

  /** Where the filter starts. */
  function FilterPlace(j: Jail): nat { if j.flags[NO_NEW_PRIVS] then 29 else 22 }

  lemma NoNewPrivsCovers(j: Jail, p: Platform)
    ensures Covers(When(j.Has(NO_NEW_PRIVS), [NoNewPrivs]), FilterPlace(j), FilterPlace(j) + 1, j, p)
  {
  }

  lemma SigsysCovers(j: Jail, p: Platform)
    ensures Covers(When(AskedFilter(j, p), Sigsys(ModeOf(j), p)), FilterPlace(j) + 1, FilterPlace(j) + 2, j, p)
  {
  }

  lemma InstallFilterCovers(j: Jail, p: Platform)
    ensures Covers(When(AskedFilter(j, p), [InstallFilter(j.Has(TSYNC), j.Has(SPECULATION), j.filter)]),
                   FilterPlace(j) + 2, FilterPlace(j) + 3, j, p)
  {
  }

  lemma FilterCovers(j: Jail, p: Platform)
    ensures Covers(FilterSyscalls(ModeOf(j), j.filter, p), FilterPlace(j), FilterPlace(j) + 3, j, p)
  {
    hide Covers, Sigsys;
    var privs, lo := When(j.Has(NO_NEW_PRIVS), [NoNewPrivs]), FilterPlace(j);
    var sigsys := When(AskedFilter(j, p), Sigsys(ModeOf(j), p));
    var install := When(AskedFilter(j, p), [InstallFilter(j.Has(TSYNC), j.Has(SPECULATION), j.filter)]);
    NoNewPrivsCovers(j, p);
    SigsysCovers(j, p);
    InstallFilterCovers(j, p);
    CoversJoin(privs, sigsys, lo, lo + 1, lo + 2, j, p);
    CoversJoin(privs + sigsys, install, lo, lo + 2, lo + 3, j, p);
    assert FilterSyscalls(ModeOf(j), j.filter, p) == privs + sigsys + install;
  }

  lemma NothingBetween(j: Jail, p: Platform)
    ensures if j.flags[NO_NEW_PRIVS] then Covers([], 22, 25, j, p) else Covers([], 29, 32, j, p)
  {
  }

  lemma PrivilegesCover(j: Jail, p: Platform)
    ensures Covers(Privileges(j, p), 22, 32, j, p)
  {
    hide Covers, DropUgid, DropAllCaps, FilterSyscalls;
    var ids, caps, filter := DropUgid(IdsOf(j)), DropAllCaps(j), FilterSyscalls(ModeOf(j), j.filter, p);
    DropUgidCovers(j, p);
    DropCapsCovers(j, p);
    FilterCovers(j, p);
    NothingBetween(j, p);
    CoversJoin(ids, caps, 25, 28, 29, j, p);
    if j.flags[NO_NEW_PRIVS] {
      CoversJoin([], ids + caps, 22, 25, 29, j, p);
      CoversJoin([] + (ids + caps), filter, 22, 29, 32, j, p);
      assert [] + (ids + caps) + filter == Privileges(j, p);
    } else {
      CoversJoin(filter, ids + caps, 22, 25, 29, j, p);
      CoversJoin(filter + (ids + caps), [], 22, 29, 32, j, p);
      assert filter + (ids + caps) + [] == Privileges(j, p);
    }
  }

  lemma SelectTableCovers(j: Jail, p: Platform)
    ensures Covers(When(j.Has(ALT_SYSCALL), [SelectSyscallTable(j.altTable)]), 32, 33, j, p)
  {
  }

  lemma StrictSeccompCovers(j: Jail, p: Platform)
    ensures Covers(When(j.Has(SECCOMP), [StrictSeccomp]), 33, 34, j, p)
  {
  }

  lemma LastCovers(j: Jail, p: Platform)
    ensures Covers(Last(j), 32, 34, j, p)
  {
    hide Covers;
    SelectTableCovers(j, p);
    StrictSeccompCovers(j, p);
    CoversJoin(When(j.Has(ALT_SYSCALL), [SelectSyscallTable(j.altTable)]),
               When(j.Has(SECCOMP), [StrictSeccomp]), 32, 33, 34, j, p);
  }


  // ----- All parts -----

  lemma PartCovers(k: nat, j: Jail, p: Platform)
    requires k < PARTS
    ensures Covers(Part(k, j, p), Top(k), Top(k + 1), j, p)
  {
    hide Covers, EnterVfs, NewVfs, NewUts, Network, ProcessMounts, Roots, RemountProc, RunHooks, Bounds, Privileges, Last;
    match k
    case 0 => EnterVfsCovers(j, p);
    case 1 => NewVfsCovers(j, p);
    case 2 => NewIpcCovers(j, p);
    case 3 => NewUtsCovers(j, p);
    case 4 => NetworkCovers(j, p);
    case 5 => NewCgroupCovers(j, p);
    case 6 => KeyringCovers(j, p);
    case 7 => ProcessMountsCovers(j, p);
    case 8 => RootsCover(j, p);
    case 9 => RemountProcCovers(j, p);
    case 10 => LastHooksCover(j, p);
    case 11 => BoundsCover(j, p);
    case 12 => PrivilegesCover(j, p);
    case 13 => LastCovers(j, p);
  }

  lemma TopGrows(i: nat, k: nat)
    requires i <= k <= PARTS
    ensures Top(i) <= Top(k)
  {
  }

  lemma NothingCovers(j: Jail, p: Platform)
    ensures Covers([], 0, 0, j, p)
  {
  }

  lemma {:induction false} UptoCovers(k: nat, j: Jail, p: Platform)
    requires k <= PARTS
    ensures Covers(Upto(k, j, p), 0, Top(k), j, p)
    decreases k
  {
    hide Covers, Part, Top;
    if k == 0 {
      NothingCovers(j, p);
      TopStarts();
    } else {
      UptoCovers(k - 1, j, p);
      PartCovers(k - 1, j, p);
      TopGrows(k - 1, k);
      CoversJoin(Upto(k - 1, j, p), Part(k - 1, j, p), 0, Top(k - 1), Top(k), j, p);
    }
  }

  lemma TopStarts()
    ensures Top(0) == 0 && Top(PARTS) == 34
  {
  }

  lemma AskedIsPlaced(j: Jail, p: Platform, a: Action)
    requires Asked(j, p, a)
    ensures 0 < Rank(a, j.flags[NO_NEW_PRIVS]) <= 34
  {
  }

  // ----- The lists -----

  lemma {:induction false} OnlyConcat(a: seq<Action>, b: seq<Action>, rank: nat, noNewPrivs: bool)
    ensures Only(a + b, rank, noNewPrivs) == Only(a, rank, noNewPrivs) + Only(b, rank, noNewPrivs)
  {
    hide Rank;
    if a == [] {
      assert a + b == b;
    } else {
      assert (a + b)[1..] == a[1..] + b && (a + b)[0] == a[0];
      OnlyConcat(a[1..], b, rank, noNewPrivs);
      Assoc(if Rank(a[0], noNewPrivs) == rank then [a[0]] else [], Only(a[1..], rank, noNewPrivs), Only(b, rank, noNewPrivs));
    }
  }

  lemma Assoc(a: seq<Action>, b: seq<Action>, c: seq<Action>)
    ensures a + (b + c) == a + b + c
  {
  }

  lemma {:induction false} OnlyOutside(log: seq<Action>, rank: nat, noNewPrivs: bool, lo: nat, hi: nat)
    requires InStage(log, noNewPrivs, lo, hi) && !(lo < rank <= hi)
    ensures Only(log, rank, noNewPrivs) == []
  {
    hide Rank;
    if log != [] {
      OnlyOutside(log[1..], rank, noNewPrivs, lo, hi);
    }
  }

  lemma {:induction false} OnlyInside(log: seq<Action>, rank: nat, noNewPrivs: bool)
    requires rank > 0 && InStage(log, noNewPrivs, rank - 1, rank)
    ensures Only(log, rank, noNewPrivs) == log
  {
    hide Rank;
    if log != [] {
      OnlyInside(log[1..], rank, noNewPrivs);
    }
  }

  /** A place belongs to one part. */
  lemma OtherPart(i: nat, k: nat, rank: nat, j: Jail, p: Platform)
    requires i < PARTS && k < PARTS && i != k && Top(k) < rank <= Top(k + 1)
    ensures Only(Part(i, j, p), rank, j.flags[NO_NEW_PRIVS]) == []
  {
    hide Part, Top, Rank, Asked, Only, InStage;
    PartCovers(i, j, p);
    if i < k {
      TopGrows(i + 1, k);
    } else {
      TopGrows(k + 1, i);
    }
    OnlyOutside(Part(i, j, p), rank, j.flags[NO_NEW_PRIVS], Top(i), Top(i + 1));
  }

  lemma NothingYet(j: Jail, p: Platform, rank: nat)
    ensures Only(Upto(0, j, p), rank, j.flags[NO_NEW_PRIVS]) == []
  {
  }

  lemma {:induction false} OnlyOnePart(n: nat, k: nat, rank: nat, j: Jail, p: Platform)
    requires n <= PARTS && k < PARTS && Top(k) < rank <= Top(k + 1)
    ensures Only(Upto(n, j, p), rank, j.flags[NO_NEW_PRIVS])
            == if n <= k then [] else Only(Part(k, j, p), rank, j.flags[NO_NEW_PRIVS])
    decreases n
  {
    hide Part, Top, Rank, Only, Upto;
    if n == 0 {
      NothingYet(j, p, rank);
    } else {
      OnlyOnePart(n - 1, k, rank, j, p);
      OneMore(n - 1, j, p);
      OnlyConcat(Upto(n - 1, j, p), Part(n - 1, j, p), rank, j.flags[NO_NEW_PRIVS]);
      if n - 1 != k {
        OtherPart(n - 1, k, rank, j, p);
      }
    }
  }

  /** Of three pieces, the list is the one in the middle. */
  lemma OnlyMiddle(a: seq<Action>, b: seq<Action>, c: seq<Action>, lo: nat, rank: nat, hi: nat, noNewPrivs: bool)
    requires rank > 0 && InStage(a, noNewPrivs, lo, rank - 1) && InStage(c, noNewPrivs, rank, hi)
    requires InStage(b, noNewPrivs, rank - 1, rank)
    ensures Only(a + b + c, rank, noNewPrivs) == b
  {
    hide InStage;
    OnlyConcat(a + b, c, rank, noNewPrivs);
    OnlyConcat(a, b, rank, noNewPrivs);
    OnlyOutside(a, rank, noNewPrivs, lo, rank - 1);
    OnlyInside(b, rank, noNewPrivs);
    OnlyOutside(c, rank, noNewPrivs, rank, hi);
  }

  lemma RemountList(j: Jail, p: Platform)
    ensures Only(Part(1, j, p), REMOUNTED, j.flags[NO_NEW_PRIVS]) == ListOf(j, REMOUNTED)
  {
    hide Only, InStage, Remounts;
    var c := j.Has(VFS) && j.plain[REMOUNT_MODE] != 0;
    var unshared, root := When(j.Has(VFS), [Unshare(MountNs)]), When(c, [RemountRoot(j.plain[REMOUNT_MODE])]);
    UnshareMountsCovers(j, p);
    RemountRootCovers(j, p);
    RemountsCover(j, p);
    StagesJoin(unshared, root, j.flags[NO_NEW_PRIVS], 2, 3, 4);
    NothingStaged(j.flags[NO_NEW_PRIVS], REMOUNTED);
    OnlyMiddle(unshared + root, When(c, Remounts(j.remounts)), [], 2, REMOUNTED, REMOUNTED, j.flags[NO_NEW_PRIVS]);
    RemountsAre(j.remounts, NoNewPrivs);
    assert Part(1, j, p) == unshared + root + When(c, Remounts(j.remounts)) + [];
  }

  lemma NothingStaged(noNewPrivs: bool, rank: nat)
    ensures InStage([], noNewPrivs, rank, rank)
  {
  }

  lemma MountList(j: Jail, p: Platform)
    ensures Only(Part(7, j, p), MOUNTED, j.flags[NO_NEW_PRIVS]) == ListOf(j, MOUNTED)
  {
    hide Only, InStage, MountAll;
    PrepareDevCovers(j, p);
    MoveDevCovers(j, p);
    MountAllCovers(j, p);
    OnlyMiddle(When(j.Has(MOUNT_DEV), [PrepareDev]), MountAll(j.mounts, j),
               When(j.Has(MOUNT_DEV), [MoveDev(j.chrootdir)]), 12, MOUNTED, 15, j.flags[NO_NEW_PRIVS]);
    MountsAre(j.mounts, j, NoNewPrivs);
  }

  lemma RootList(j: Jail, p: Platform)
    ensures Only(Part(8, j, p), ROOTED, j.flags[NO_NEW_PRIVS]) == ListOf(j, ROOTED)
  {
    hide Only, InStage, HooksOf;
    var tmp := When(j.Has(MOUNT_TMP), [MountTmp(j.plain[TMPFS_SIZE])]);
    RootsCover(j, p);
    ChangesCover(j, p);
    MountTmpCovers(j, p);
    NothingStaged(j.flags[NO_NEW_PRIVS], 15);
    OnlyMiddle([], Changes(j), tmp, 15, ROOTED, 17, j.flags[NO_NEW_PRIVS]);
    assert [] + Changes(j) + tmp == Roots(j);
  }

  lemma HookList(j: Jail, p: Platform)
    ensures Only(Part(10, j, p), HOOKED, j.flags[NO_NEW_PRIVS]) == ListOf(j, HOOKED)
  {
    hide Only, InStage, HooksOf, RunHooks;
    LastHooksCover(j, p);
    OnlyInside(RunHooks(j.hooks, PreDropCaps), HOOKED, j.flags[NO_NEW_PRIVS]);
    HooksAre(j.hooks, PreDropCaps, NoNewPrivs);
  }

  lemma ListsAre(j: Jail, p: Platform, rank: nat)
    requires Many(rank)
    ensures Only(Upto(PARTS, j, p), rank, j.flags[NO_NEW_PRIVS]) == ListOf(j, rank)
  {
    hide Only, ListOf, Part, Upto;
    if rank == REMOUNTED {
      OnlyOnePart(PARTS, 1, REMOUNTED, j, p);
      RemountList(j, p);
    } else if rank == MOUNTED {
      OnlyOnePart(PARTS, 7, MOUNTED, j, p);
      MountList(j, p);
    } else if rank == ROOTED {
      OnlyOnePart(PARTS, 8, ROOTED, j, p);
      RootList(j, p);
    } else {
      OnlyOnePart(PARTS, 10, HOOKED, j, p);
      HookList(j, p);
    }
  }

  // ----- minijail_enter -----

  /** When it dies: a new process namespace, groups of a user that is not named, or a remount
      that is stricter than that of the root. */
  ghost predicate CannotEnter(j: Jail) {
    || j.flags[PIDS]
    || (j.flags[INHERIT_GIDS] && j.user == None)
    || (j.flags[VFS] && j.plain[REMOUNT_MODE] != 0 && exists r :: r in j.remounts && r.mode < j.plain[REMOUNT_MODE])
  }

  lemma {:induction false} StricterMeans(rs: seq<Remount>, mode: u64)
    ensures Stricter(rs, mode) <==> exists r :: r in rs && r.mode < mode
  {
    if rs != [] {
      StricterMeans(rs[1..], mode);
      if r :| r in rs && r.mode < mode {
        assert r == rs[0] || r in rs[1..];
      }
      if r :| r in rs[1..] && r.mode < mode {
        assert r in rs;
      }
    }
  }

  /** It dies exactly then, and otherwise does what is asked for, in order. */
  lemma EnterEnacts(j: Jail, p: Platform)
    ensures Enter(j, p).Died? <==> CannotEnter(j)
    ensures Enter(j, p).Entered? ==> Enacts(j, p, Enter(j, p).actions)
  {
    hide Upto, Part, Top, Only, ListOf, Asked, Rank, InStage;
    StricterMeans(j.remounts, j.plain[REMOUNT_MODE]);
    UptoIsConcat(PARTS, j, p);
    assert Parts(j, p)[..PARTS] == Parts(j, p);
    UptoEnacts(j, p);
  }

  lemma UptoEnacts(j: Jail, p: Platform)
    ensures Enacts(j, p, Upto(PARTS, j, p))
  {
    hide Upto, Part, Top, Only, ListOf, Asked, Rank;
    UptoCovers(PARTS, j, p);
    TopStarts();
    forall a | Asked(j, p, a)
      ensures 0 < Rank(a, j.flags[NO_NEW_PRIVS]) <= 34
    {
      AskedIsPlaced(j, p, a);
    }
    forall rank: nat | Many(rank)
      ensures Only(Upto(PARTS, j, p), rank, j.flags[NO_NEW_PRIVS]) == ListOf(j, rank)
    {
      ListsAre(j, p, rank);
    }
  }

  /** Some of this in words: all mounts come before the root changes, the bounding set and the
      securebits before the ids, groups before gid before uid before capabilities, the filter
      behind the capabilities exactly with no_new_privs, and strict seccomp at the end. */
  lemma OrderMeans(j: Jail, p: Platform, log: seq<Action>, x: nat, y: nat)
    requires Enacts(j, p, log) && x < |log| && y < |log|
    ensures log[x].DoMount? && (log[y].ChangeRoot? || log[y].PivotRoot?) ==> x < y
    ensures log[x].DropBoundingSet? || log[x].LockSecurebits? ==>
              log[y].SetGid? || log[y].SetUid? || log[y].DropCaps? ==> x < y
    ensures (log[x].InitGroups? || log[x].SetGroups?) && log[y].SetGid? ==> x < y
    ensures log[x].SetGid? && log[y].SetUid? ==> x < y
    ensures log[x].SetUid? && log[y].DropCaps? ==> x < y
    ensures log[x].InstallFilter? && log[y].DropCaps? ==> (x > y <==> j.flags[NO_NEW_PRIVS])
    ensures log[x].InstallFilter? && !j.flags[NO_NEW_PRIVS] && (log[y].InitGroups? || log[y].SetGroups?) ==> x < y
    ensures log[x].StrictSeccomp? ==> x == |log| - 1
  {
    hide Asked, Only, ListOf;
    if x < y {
      assert Follows(log[x], log[y], j.flags[NO_NEW_PRIVS]);
    } else if y < x {
      assert Follows(log[y], log[x], j.flags[NO_NEW_PRIVS]);
    }
    if log[x].StrictSeccomp? && x + 1 < |log| {
      assert Follows(log[x], log[x + 1], j.flags[NO_NEW_PRIVS]);
      LastAction(j, p, log, x + 1);
    }
  }

  lemma LastAction(j: Jail, p: Platform, log: seq<Action>, x: nat)
    requires Enacts(j, p, log) && x < |log|
    ensures Rank(log[x], j.flags[NO_NEW_PRIVS]) <= 34
  {
    hide Asked, Rank, Only, ListOf;
    assert log[x] in log;
    AskedIsPlaced(j, p, log[x]);
  }

  // ----- The two passes -----

  /** What is inherited across execve and so can be done before it. */
  predicate Early(a: Action) {
    match a
    case SetNs(_, what) => what == MountNs
    case CloseFd(_, what) => what == MountNs
    case Unshare(what) => what != IpcNs
    case RemountRoot(_) => true
    case RemountAt(_) => true
    case NameHost(_) => true
    case ConfigureLoopback => true
    case DetachProc => true
    case MountProcReadOnly => true
    case _ => false
  }

  predicate NewNetwork(a: Action) { a == Unshare(NetNs) || a == ConfigureLoopback }

  lemma FirstPassSees(j: Jail)
    requires j.hooks == []
    ensures var a, d := FirstPass(j), Direct(j);
      && OnlyEarly(a) && (forall f: Flag :: KeptForExec(f) ==> a.flags[f] == d.flags[f])
      && a.plain == d.plain && a.hostname == d.hostname && a.remounts == d.remounts && d.flags[NET] == j.flags[NET]
  {
  }

  lemma EarlyAsks(k: Jail, d: Jail, p: Platform, a: Action)
    requires forall f: Flag :: KeptForExec(f) ==> k.flags[f] == d.flags[f]
    requires k.plain == d.plain && k.hostname == d.hostname && k.remounts == d.remounts
    requires Early(a) && !NewNetwork(a)
    ensures Asked(k, p, a) <==> Asked(d, p, a)
  {
  }

  lemma NotEarlyAsks(k: Jail, p: Platform, a: Action)
    requires OnlyEarly(k) && !Early(a)
    ensures !Asked(k, p, a)
  {
  }

  lemma FirstPassAsks(j: Jail, p: Platform, a: Action)
    requires j.hooks == []
    ensures NewNetwork(a) ==> (Asked(FirstPass(j), p, a) <==> j.flags[NET])
    ensures !NewNetwork(a) ==> (Asked(FirstPass(j), p, a) <==> Early(a) && Asked(Direct(j), p, a))
  {
    FirstPassSees(j);
    hide FirstPass, Direct;
    if NewNetwork(a) {
    } else if Early(a) {
      hide Asked;
      EarlyAsks(FirstPass(j), Direct(j), p, a);
    } else {
      hide Asked;
      NotEarlyAsks(FirstPass(j), p, a);
    }
  }

  lemma SecondPassSees(j: Jail, pid: u32)
    requires j.hooks == []
    ensures var b, d := SecondPass(j, pid), Direct(j);
      && SameLater(b, d) && (forall f: Flag :: DoneBeforeExec(f) ==> !b.flags[f])
      && (j.flags[SECCOMP_FILTER] ==> b.filter == if j.filter == Some([]) then None else j.filter)
      && d.filter == j.filter && d.flags[SECCOMP_FILTER] == j.flags[SECCOMP_FILTER]
  {
    PassesSee(j, pid);
  }

  lemma EarlyIsDone(b: Jail, p: Platform, a: Action)
    requires (forall f: Flag :: DoneBeforeExec(f) ==> !b.flags[f]) && Early(a)
    ensures !Asked(b, p, a)
  {
  }

  /** The actions that drop privileges. */
  predicate Drops(a: Action) {
    a.InitGroups? || a.SetGroups? || a.SetGid? || a.SetUid? || a.DropCaps? || a.NoNewPrivs? || a.CatchSigsys? || a.ResetSigsys?
  }

  lemma DropsAsks(b: Jail, d: Jail, p: Platform, a: Action)
    requires SameLater(b, d) && Drops(a)
    ensures Asked(b, p, a) <==> Asked(d, p, a)
  {
  }

  lemma OthersAsk(b: Jail, d: Jail, p: Platform, a: Action)
    requires SameLater(b, d) && !Early(a) && !a.InstallFilter? && !Drops(a)
    ensures Asked(b, p, a) <==> Asked(d, p, a)
  {
  }

  lemma FilterAsks(b: Jail, d: Jail, p: Platform, a: Action)
    requires SameLater(b, d) && a.InstallFilter?
    requires d.flags[SECCOMP_FILTER] ==> b.filter == if d.filter == Some([]) then None else d.filter
    ensures Asked(b, p, a) <==>
      && a.prog != Some([])
      && (Asked(d, p, a) || (a.prog == None && Asked(d, p, a.(prog := Some([])))))
  {
  }

  lemma SecondPassAsks(j: Jail, pid: u32, p: Platform, a: Action)
    requires j.hooks == []
    ensures a.InstallFilter? ==>
              (Asked(SecondPass(j, pid), p, a)
               <==> && a.prog != Some([])
                    && (Asked(Direct(j), p, a) || (a.prog == None && Asked(Direct(j), p, a.(prog := Some([]))))))
    ensures !a.InstallFilter? ==> (Asked(SecondPass(j, pid), p, a) <==> !Early(a) && Asked(Direct(j), p, a))
  {
    hide SecondPass, Direct, Asked;
    SecondPassSees(j, pid);
    if a.InstallFilter? {
      FilterAsks(SecondPass(j, pid), Direct(j), p, a);
    } else if Early(a) {
      EarlyIsDone(SecondPass(j, pid), p, a);
    } else {
      if Drops(a) {
        DropsAsks(SecondPass(j, pid), Direct(j), p, a);
      } else {
        OthersAsk(SecondPass(j, pid), Direct(j), p, a);
      }
    }
  }

  /** The pass before execve is asked for the early actions, and the one behind it for the
      others; a new network is made even if one is entered, and an empty program is lost. */
  lemma PassesAsk(j: Jail, pid: u32, p: Platform, a: Action)
    requires j.hooks == []
    ensures NewNetwork(a) ==> (Asked(FirstPass(j), p, a) <==> j.flags[NET])
    ensures !NewNetwork(a) ==> (Asked(FirstPass(j), p, a) <==> Early(a) && Asked(Direct(j), p, a))
    ensures a.InstallFilter? ==>
              (Asked(SecondPass(j, pid), p, a)
               <==> && a.prog != Some([])
                    && (Asked(Direct(j), p, a) || (a.prog == None && Asked(Direct(j), p, a.(prog := Some([]))))))
    ensures !a.InstallFilter? ==> (Asked(SecondPass(j, pid), p, a) <==> !Early(a) && Asked(Direct(j), p, a))
  {
    hide Asked, FirstPass, SecondPass, Direct;
    FirstPassAsks(j, p, a);
    SecondPassAsks(j, pid, p, a);
  }

  // ----- The run without LD_PRELOAD -----

  /** An init program that minijail makes itself mounts /proc on its own. */
  predicate OwnInit(j: Jail) { j.flags[PIDS] && j.flags[DO_INIT] && !j.flags[RUN_AS_INIT] }

  lemma DirectSees(j: Jail)
    ensures var d := Direct(j);
      && d == j.(flags := d.flags) && !d.flags[PIDS]
      && (d.flags[REMOUNT_PROC_RO] <==> j.flags[REMOUNT_PROC_RO] && (!j.flags[PIDS] || OwnInit(j)))
      && (forall f: Flag :: f != PIDS && f != REMOUNT_PROC_RO ==> d.flags[f] == j.flags[f])
  {
  }

  lemma OtherFlagsAsk(d: Jail, j: Jail, p: Platform, a: Action)
    requires d == j.(flags := d.flags)
    requires forall f: Flag :: f != PIDS && f != REMOUNT_PROC_RO ==> d.flags[f] == j.flags[f]
    requires !a.DetachProc? && !a.MountProcReadOnly?
    ensures Asked(d, p, a) <==> Asked(j, p, a)
  {
  }

  /** The child is asked for what the jail asks for, but for /proc in a new process namespace
      without an init of minijail's own. */
  lemma DirectAsks(j: Jail, p: Platform, a: Action)
    ensures Asked(Direct(j), p, a) <==>
            Asked(j, p, a) && (a.DetachProc? || a.MountProcReadOnly? ==> !j.flags[PIDS] || OwnInit(j))
  {
    DirectSees(j);
    hide Direct, OwnInit;
    if !a.DetachProc? && !a.MountProcReadOnly? {
      hide Asked;
      OtherFlagsAsk(Direct(j), j, p, a);
    }
  }

  /** When the run dies: for two names of the program, for capabilities that only LD_PRELOAD
      keeps, and where the jail cannot be entered. */
  lemma DirectDies(j: Jail, c: Config, p: Platform)
    ensures RunDirect(j, c, p).Died? <==>
      || (c.filename && c.elfFd)
      || (j.flags[USE_CAPS] && j.plain[CAPS] != 0 && !j.flags[AMBIENT_CAPS])
      || (j.flags[INHERIT_GIDS] && j.user == None)
      || (j.flags[VFS] && j.plain[REMOUNT_MODE] != 0 && exists r :: r in j.remounts && r.mode < j.plain[REMOUNT_MODE])
  {
    DirectSees(j);
    EnterEnacts(Direct(j), p);
    hide Direct, Enter, Enacts;
  }
}
