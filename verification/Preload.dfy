/**
 Entering a jail in two passes. With LD_PRELOAD, the child applies what survives
 execve before it (minijail_preexec) and the preloaded library applies the rest after
 it, from the jail it received through a pipe (minijail_preenter). The two passes are
 compared with the single pass of a run without LD_PRELOAD.
 */
module Preload {
  import opened Words
  import opened Bpf
  import opened Jails
  import opened Marshal

  datatype Namespace = MountNs | IpcNs | UtsNs | NetNs | CgroupNs

  /** What minijail_enter does to the process, step by step. */
  datatype Action =
    | SetNs(fd: u64, what: Namespace)
    | CloseFd(fd: u64, what: Namespace)
    | Unshare(what: Namespace)
    | RemountRoot(mode: u64)
    | RemountAt(remount: Remount)
    | NameHost(name: CString)
    | ConfigureLoopback
    | JoinSessionKeyring
    | PrepareDev
    | DoMount(m: Mount, root: Option<CString>, uid: u64, gid: u64, dev: bool)
    | MoveDev(root: Option<CString>)
    | ChangeRoot(dir: Option<CString>)
    | PivotRoot(dir: Option<CString>)
    | MountTmp(size: u64)
    | DetachProc
    | MountProcReadOnly
    | RunHook(event: HookEvent, hook: nat)
    | DropBoundingSet(keep: u64)
    | LockSecurebits(skip: u64, keepCaps: bool)
    | InitGroups(user: Option<CString>, gid: u64)
    | SetGroups(count: u64, list: Option<seq<u32>>)
    | SetGid(gid: u64)
    | SetUid(uid: u64)
    | DropCaps(caps: u64, skip: u64, ambient: bool)
    | NoNewPrivs
    | CatchSigsys
    | ResetSigsys
    | InstallFilter(tsync: bool, speculation: bool, prog: Option<seq<Instr>>)
    | SelectSyscallTable(table: Option<CString>)
    | StrictSeccomp

  /** Properties of the build and the kernel. */
  datatype Platform = Platform(asan: bool, logByDefault: bool, retLog: bool)

  datatype Outcome = Died | Entered(actions: seq<Action>)

  // ----- minijail_enter, part by part -----

  function When(c: bool, a: seq<Action>): seq<Action> { if c then a else [] }

  function EnterVfs(j: Jail): seq<Action> {
    When(j.Has(ENTER_VFS), [SetNs(j.MountNsFd(), MountNs), CloseFd(j.MountNsFd(), MountNs)])
  }

  function Remounts(rs: seq<Remount>): seq<Action> {
    if rs == [] then [] else [RemountAt(rs[0])] + Remounts(rs[1..])
  }

  function NewVfs(j: Jail): seq<Action> {
    When(j.Has(VFS),
         [Unshare(MountNs)]
         + When(j.plain[REMOUNT_MODE] != 0, [RemountRoot(j.plain[REMOUNT_MODE])] + Remounts(j.remounts)))
  }

  function NewUts(j: Jail): seq<Action> {
    When(j.Has(UTS), [Unshare(UtsNs)] + if j.hostname.Some? then [NameHost(j.hostname.value)] else [])
  }

  function Network(j: Jail): seq<Action> { NetworkFor(j.Has(ENTER_NET), j.Has(NET), j.NetNsFd()) }

  function NetworkFor(enter: bool, create: bool, fd: u64): seq<Action> {
    if enter then [SetNs(fd, NetNs), CloseFd(fd, NetNs)] else When(create, [Unshare(NetNs), ConfigureLoopback])
  }

  function MountAction(m: Mount, j: Jail): Action {
    DoMount(m, j.chrootdir, j.Uid(), j.Gid(), j.Has(MOUNT_DEV))
  }

  function MountAll(ms: seq<Mount>, j: Jail): seq<Action> {
    if ms == [] then []
    else [MountAction(ms[0], j)] + MountAll(ms[1..], j)
  }

  function ProcessMounts(j: Jail): seq<Action> {
    When(j.Has(MOUNT_DEV), [PrepareDev]) + MountAll(j.mounts, j) + When(j.Has(MOUNT_DEV), [MoveDev(j.chrootdir)])
  }

  function Roots(j: Jail): seq<Action> {
    When(j.Has(CHROOT), RunHooks(j.hooks, PreChroot) + [ChangeRoot(j.chrootdir)])
    + When(j.Has(PIVOT_ROOT), RunHooks(j.hooks, PreChroot) + [PivotRoot(j.chrootdir)])
    + When(j.Has(MOUNT_TMP), [MountTmp(j.plain[TMPFS_SIZE])])
  }

  function RemountProc(j: Jail): seq<Action> {
    When(j.Has(REMOUNT_PROC_RO), When(!j.Has(USERNS), [DetachProc]) + [MountProcReadOnly])
  }

  /** run_hooks_or_die */
  function RunHooks(hs: seq<Hook>, e: HookEvent): seq<Action> {
    if hs == [] then [] else When(hs[0].event == e, [RunHook(e, hs[0].code)]) + RunHooks(hs[1..], e)
  }

  function Bounds(j: Jail): seq<Action> {
    When(j.Has(CAPBSET_DROP), [DropBoundingSet(j.plain[CAP_BSET])])
    + When(j.Has(USE_CAPS), [LockSecurebits(j.plain[SECUREBITS_SKIP], !j.Has(AMBIENT_CAPS))])
  }

  /** What drop_ugid reads. */
  datatype Ids = Ids(inherit: bool, assign: bool, keep: bool, disabled: bool, toUid: bool, toGid: bool,
                     user: Option<CString>, userGid: u32, count: u64, list: Option<seq<u32>>, uid: u32, gid: u32)

  function IdsOf(j: Jail): Ids {
    Ids(j.Has(INHERIT_GIDS), j.Has(SET_GIDS), j.Has(KEEP_GIDS), j.Has(DISABLE_SETGROUPS), j.Has(FUID), j.Has(FGID),
        j.user, j.UserGid(), j.gidCount, j.gids, j.Uid(), j.Gid())
  }

  /** drop_ugid */
  function DropUgid(i: Ids): seq<Action> {
    (if i.inherit then [InitGroups(i.user, i.userGid)]
     else if i.assign then [SetGroups(i.count, i.list)]
     else When(!i.keep && !i.disabled && (i.toUid || i.toGid), [SetGroups(0, None)]))
    + When(i.toGid, [SetGid(i.gid)])
    + When(i.toUid, [SetUid(i.uid)])
  }

  /** The value of a flag: GCC makes a bit-field declared int : 1 signed. */
  function BitField(flag: bool): int { if flag then -1 else 0 }

  /** So the check at the start of drop_ugid, for more than one of the three, never fires. */
  lemma GroupCheckIsIdle(j: Jail)
    ensures !(BitField(j.Has(INHERIT_GIDS)) + BitField(j.Has(KEEP_GIDS)) + BitField(j.Has(SET_GIDS)) > 1)
  {
  }

  function DropAllCaps(j: Jail): seq<Action> {
    When(j.Has(USE_CAPS), [DropCaps(j.plain[CAPS], j.plain[SECUREBITS_SKIP], j.Has(AMBIENT_CAPS))])
  }

  datatype FilterMode = FilterMode(noNewPrivs: bool, on: bool, logged: bool, tsync: bool, speculation: bool)

  function ModeOf(j: Jail): FilterMode {
    FilterMode(j.Has(NO_NEW_PRIVS), j.Has(SECCOMP_FILTER), j.Has(FILTER_LOGGING), j.Has(TSYNC), j.Has(SPECULATION))
  }

  /** set_seccomp_filter */
  function FilterSyscalls(c: FilterMode, prog: Option<seq<Instr>>, p: Platform): seq<Action> {
    When(c.noNewPrivs, [NoNewPrivs])
    + When(c.on && !p.asan, Sigsys(c, p) + [InstallFilter(c.tsync, c.speculation, prog)])
  }

  function Sigsys(c: FilterMode, p: Platform): seq<Action> {
    if p.logByDefault || c.logged then When(!p.retLog, [CatchSigsys]) else When(c.tsync, [ResetSigsys])
  }

  function Privileges(j: Jail, p: Platform): seq<Action> {
    InOrder(ModeOf(j).noNewPrivs, DropUgid(IdsOf(j)) + DropAllCaps(j), FilterSyscalls(ModeOf(j), j.filter, p))
  }

  /** With no_new_privs the filter comes last, so that it need not allow dropping privileges. */
  function InOrder(noNewPrivs: bool, drop: seq<Action>, filter: seq<Action>): seq<Action> {
    if noNewPrivs then drop + filter else filter + drop
  }

  function Last(j: Jail): seq<Action> {
    When(j.Has(ALT_SYSCALL), [SelectSyscallTable(j.altTable)]) + When(j.Has(SECCOMP), [StrictSeccomp])
  }

  const PARTS: nat := 14
  const NETWORK: nat := 4
  const PRIVILEGES: nat := 12

  /** The parts of minijail_enter in their order. */
  function Part(k: nat, j: Jail, p: Platform): seq<Action> {
    match k
    case 0 => EnterVfs(j)
    case 1 => NewVfs(j)
    case 2 => When(j.Has(IPC), [Unshare(IpcNs)])
    case 3 => NewUts(j)
    case 4 => Network(j)
    case 5 => When(j.Has(NS_CGROUPS), [Unshare(CgroupNs)])
    case 6 => When(j.Has(SESSION_KEYRING), [JoinSessionKeyring])
    case 7 => ProcessMounts(j)
    case 8 => Roots(j)
    case 9 => RemountProc(j)
    case 10 => RunHooks(j.hooks, PreDropCaps)
    case 11 => Bounds(j)
    case 12 => Privileges(j, p)
    case 13 => Last(j)
    case _ => []
  }

  function Parts(j: Jail, p: Platform): (ps: seq<seq<Action>>)
    ensures |ps| == PARTS
  {
    seq(PARTS, k requires 0 <= k < PARTS => Part(k, j, p))
  }

  /** The parts one after the other. */
  function Concat(ps: seq<seq<Action>>): seq<Action> {
    if ps == [] then [] else ps[0] + Concat(ps[1..])
  }

  /** A remount that would be stricter than that of the root directory. */
  predicate Stricter(rs: seq<Remount>, mode: u64) {
    rs != [] && (rs[0].mode < mode || Stricter(rs[1..], mode))
  }

  predicate Refused(j: Jail) {
    || j.Has(PIDS)
    || (j.Has(INHERIT_GIDS) && j.user.None?)
    || (j.Has(VFS) && j.plain[REMOUNT_MODE] != 0 && Stricter(j.remounts, j.plain[REMOUNT_MODE]))
  }

  /** minijail_enter, when the kernel refuses nothing. */
  function Enter(j: Jail, p: Platform): Outcome {
    if Refused(j) then Died else Entered(Concat(Parts(j, p)))
  }

  // ----- The two halves -----

  predicate KeptForExec(f: nat) {
    f == VFS || f == ENTER_VFS || f == NS_CGROUPS || f == NET || f == UTS || f == REMOUNT_PROC_RO || f == USERNS
  }

  /** minijail_preexec: what is inherited across execve stays. */
  function Preexec(j: Jail): Jail {
    j.(flags := seq(FLAG_COUNT, f requires 0 <= f < FLAG_COUNT => KeptForExec(f) && j.flags[f]),
       user := None, gids := None, preloadPath := None, mounts := [])
  }

  predicate DoneBeforeExec(f: nat) {
    || f == VFS || f == ENTER_VFS || f == NS_CGROUPS || f == NET || f == UTS || f == REMOUNT_PROC_RO || f == PIDS
    || f == DO_INIT || f == RUN_AS_INIT || f == PID_FILE || f == CGROUPS || f == FORWARD_SIGNALS || f == SETSID
  }

  /** minijail_preenter: what the parent and the first pass have done goes. */
  function Preenter(j: Jail): Jail {
    j.(flags := seq(FLAG_COUNT, f requires 0 <= f < FLAG_COUNT => !DoneBeforeExec(f) && j.flags[f]),
       plain := j.plain[REMOUNT_MODE := 0], remounts := [])
  }

  /** What the child does to its copy in either case: an init program mounts /proc itself. */
  function InChild(j: Jail): Jail {
    if j.Has(PIDS) && !(j.Has(DO_INIT) && !j.Has(RUN_AS_INIT)) then j.Lower(REMOUNT_PROC_RO) else j
  }

  function Direct(j: Jail): Jail { InChild(j).Lower(PIDS) }

  function FirstPass(j: Jail): Jail { Preexec(InChild(j)) }

  /** The parent notes the child's process id before it sends the jail. */
  function Sender(j: Jail, pid: u32): Jail { j.(plain := j.plain[PROCESS := pid + TWO32 * Hi(j.plain[PROCESS])]) }

  function SecondPass(j: Jail, pid: u32): Jail { Preenter(Received(Sender(j, pid))) }

  // ----- Each part is done once -----

  /** A part of the direct run is done by exactly one of the passes. */
  predicate Splits(first: seq<Action>, second: seq<Action>, direct: seq<Action>) {
    multiset(first) + multiset(second) == multiset(direct)
  }

  /** The first pass finds only the flags that it keeps. */
  predicate OnlyEarly(a: Jail) {
    (forall f: Flag :: !KeptForExec(f) ==> !a.flags[f]) && a.mounts == [] && a.hooks == []
  }

  /** The second pass finds all that the later parts of the direct run find. */
  predicate SameLater(a: Jail, b: Jail) {
    && (forall f: Flag :: !DoneBeforeExec(f) ==> a.flags[f] == b.flags[f])
    && (forall i: Member :: i != REMOUNT_MODE && i != PROCESS ==> a.plain[i] == b.plain[i])
    && a.user == b.user && a.gids == b.gids && a.gidCount == b.gidCount && a.chrootdir == b.chrootdir
    && a.altTable == b.altTable && a.mounts == b.mounts && a.hooks == b.hooks == []
  }

  lemma PassesSee(j: Jail, pid: u32)
    requires j.hooks == []
    ensures OnlyEarly(FirstPass(j)) && SameLater(SecondPass(j, pid), Direct(j))
  {
  }

  lemma EarlyParts(j: Jail, pid: u32, p: Platform, k: nat)
    requires k in {0, 1, 3, 5, 9}
    ensures Part(k, FirstPass(j), p) == Part(k, Direct(j), p) && Part(k, SecondPass(j, pid), p) == []
  {
  }

  lemma {:induction false} SameMounts(ms: seq<Mount>, j: Jail, k: Jail)
    requires j.chrootdir == k.chrootdir && j.Uid() == k.Uid() && j.Gid() == k.Gid()
    requires j.Has(MOUNT_DEV) == k.Has(MOUNT_DEV)
    ensures MountAll(ms, j) == MountAll(ms, k)
  {
    if ms != [] {
      SameMounts(ms[1..], j, k);
    }
  }

  lemma LaterMounts(a: Jail, b: Jail, d: Jail)
    requires OnlyEarly(a) && SameLater(b, d)
    ensures ProcessMounts(a) == [] && ProcessMounts(b) == ProcessMounts(d)
  {
    SameMounts(d.mounts, b, d);
  }

  lemma LaterRoots(a: Jail, b: Jail, d: Jail)
    requires OnlyEarly(a) && SameLater(b, d)
    ensures Roots(a) == [] && Roots(b) == Roots(d)
  {
  }

  lemma LaterBounds(a: Jail, b: Jail, d: Jail)
    requires OnlyEarly(a) && SameLater(b, d)
    ensures Bounds(a) == [] && Bounds(b) == Bounds(d)
  {
  }

  lemma LaterLast(a: Jail, b: Jail, d: Jail)
    requires OnlyEarly(a) && SameLater(b, d)
    ensures Last(a) == [] && Last(b) == Last(d)
  {
  }

  lemma LaterFlags(a: Jail, b: Jail, d: Jail)
    requires OnlyEarly(a) && SameLater(b, d)
    ensures !a.Has(IPC) && !a.Has(SESSION_KEYRING)
    ensures b.Has(IPC) == d.Has(IPC) && b.Has(SESSION_KEYRING) == d.Has(SESSION_KEYRING)
    ensures a.hooks == b.hooks == d.hooks == []
  {
  }

  lemma LaterParts(a: Jail, b: Jail, d: Jail, p: Platform, k: nat)
    requires k in {2, 6, 7, 8, 10, 11, 13} && OnlyEarly(a) && SameLater(b, d)
    ensures Part(k, a, p) == [] && Part(k, b, p) == Part(k, d, p)
  {
    hide OnlyEarly, SameLater, ProcessMounts, Roots, Bounds, Last;
    match k
    case 7 => LaterMounts(a, b, d);
    case 8 => LaterRoots(a, b, d);
    case 11 => LaterBounds(a, b, d);
    case 13 => LaterLast(a, b, d);
    case _ => LaterFlags(a, b, d);
  }

  /** Asking for a new and for an existing network namespace gives both in two passes, but one directly. */
  lemma NetworkForSplits(enter: bool, create: bool, fd: u64)
    ensures var first, second, direct :=
        NetworkFor(false, create, fd), NetworkFor(enter, false, fd), NetworkFor(enter, create, fd);
      && (!(enter && create) ==> Splits(first, second, direct))
      && |first| + |second| == |direct| + if enter && create then 2 else 0
  {
  }

  lemma NetworkParts(j: Jail, pid: u32, p: Platform)
    ensures Part(NETWORK, FirstPass(j), p) == NetworkFor(false, j.Has(NET), j.NetNsFd())
    ensures Part(NETWORK, SecondPass(j, pid), p) == NetworkFor(j.Has(ENTER_NET), false, j.NetNsFd())
    ensures Part(NETWORK, Direct(j), p) == NetworkFor(j.Has(ENTER_NET), j.Has(NET), j.NetNsFd())
  {
  }

  lemma NetworkSplits(j: Jail, pid: u32, p: Platform)
    ensures !BothNets(j) ==> PartSplits(NETWORK, FirstPass(j), SecondPass(j, pid), Direct(j), p)
    ensures PartSizes(NETWORK, FirstPass(j), SecondPass(j, pid), Direct(j), p, if BothNets(j) then 2 else 0)
  {
    NetworkForSplits(j.Has(ENTER_NET), j.Has(NET), j.NetNsFd());
    NetworkParts(j, pid, p);
  }

  predicate BothNets(j: Jail) { j.Has(NET) && j.Has(ENTER_NET) }

  /** Two lists that differ in their last element at most. */
  lemma LastElement(a: seq<Action>, x: Action, y: Action)
    ensures multiset(a + [x]) == multiset(a + [y]) <==> x == y
  {
    assert multiset(a + [x])[x] == multiset(a)[x] + 1;
    assert multiset(a + [y])[x] == multiset(a)[x] + if x == y then 1 else 0;
  }

  lemma FilterForm(c: FilterMode, x: Option<seq<Instr>>, p: Platform)
    requires c.on && !p.asan
    ensures FilterSyscalls(c, x, p)
         == When(c.noNewPrivs, [NoNewPrivs]) + Sigsys(c, p) + [InstallFilter(c.tsync, c.speculation, x)]
  {
  }

  lemma FilterDiffers(c: FilterMode, x: Option<seq<Instr>>, y: Option<seq<Instr>>, p: Platform)
    ensures |FilterSyscalls(c, x, p)| == |FilterSyscalls(c, y, p)|
    ensures multiset(FilterSyscalls(c, x, p)) == multiset(FilterSyscalls(c, y, p)) <==> (c.on && !p.asan ==> x == y)
  {
    if c.on && !p.asan {
      var front := When(c.noNewPrivs, [NoNewPrivs]) + Sigsys(c, p);
      var f, g := InstallFilter(c.tsync, c.speculation, x), InstallFilter(c.tsync, c.speculation, y);
      FilterForm(c, x, p);
      FilterForm(c, y, p);
      LastElement(front, f, g);
    }
  }

  lemma OrderIsFree(noNewPrivs: bool, drop: seq<Action>, f: seq<Action>, g: seq<Action>)
    ensures multiset(InOrder(noNewPrivs, drop, f)) == multiset(InOrder(noNewPrivs, drop, g))
            <==> multiset(f) == multiset(g)
  {
    SumsEqual(multiset(drop), multiset(f), multiset(g));
    assert multiset(InOrder(noNewPrivs, drop, f)) == multiset(drop) + multiset(f);
    assert multiset(InOrder(noNewPrivs, drop, g)) == multiset(drop) + multiset(g);
  }

  lemma SumsEqual(m: multiset<Action>, a: multiset<Action>, b: multiset<Action>)
    ensures m + a == m + b <==> a == b
  {
    if m + a == m + b {
      forall x
        ensures a[x] == b[x]
      {
        assert (m + a)[x] == m[x] + a[x] && (m + b)[x] == m[x] + b[x];
      }
    }
  }

  lemma SameIds(b: Jail, d: Jail)
    requires SameLater(b, d)
    ensures IdsOf(b) == IdsOf(d)
  {
  }

  lemma SameModes(b: Jail, d: Jail)
    requires SameLater(b, d)
    ensures DropAllCaps(b) == DropAllCaps(d) && ModeOf(b) == ModeOf(d)
  {
  }

  lemma NoPrivileges(a: Jail, p: Platform)
    requires OnlyEarly(a)
    ensures Privileges(a, p) == []
  {
  }

  /** The first pass drops nothing, and the second drops what the direct run drops. */
  lemma PrivilegesSplit(a: Jail, b: Jail, d: Jail, p: Platform)
    requires OnlyEarly(a) && SameLater(b, d)
    ensures |Privileges(a, p)| + |Privileges(b, p)| == |Privileges(d, p)|
    ensures Splits(Privileges(a, p), Privileges(b, p), Privileges(d, p))
            <==> (ModeOf(d).on && !p.asan ==> b.filter == d.filter)
  {
    NoPrivileges(a, p);
    SameIds(b, d);
    SameModes(b, d);
    SamePrivileges(ModeOf(d), DropUgid(IdsOf(d)) + DropAllCaps(d), b.filter, d.filter, p);
  }

  lemma SamePrivileges(c: FilterMode, drop: seq<Action>, x: Option<seq<Instr>>, y: Option<seq<Instr>>, p: Platform)
    ensures var l, r :=
        InOrder(c.noNewPrivs, drop, FilterSyscalls(c, x, p)), InOrder(c.noNewPrivs, drop, FilterSyscalls(c, y, p));
      |l| == |r| && (Splits([], l, r) <==> (c.on && !p.asan ==> x == y))
  {
    FilterDiffers(c, x, y, p);
    OrderIsFree(c.noNewPrivs, drop, FilterSyscalls(c, x, p), FilterSyscalls(c, y, p));
  }

  // ----- The whole pass -----

  predicate PartSplits(k: nat, a: Jail, b: Jail, d: Jail, p: Platform) {
    Splits(Part(k, a, p), Part(k, b, p), Part(k, d, p))
  }

  predicate PartSizes(k: nat, a: Jail, b: Jail, d: Jail, p: Platform, excess: nat) {
    |Part(k, a, p)| + |Part(k, b, p)| == |Part(k, d, p)| + excess
  }

  lemma {:induction false} ConcatSizes(a: seq<seq<Action>>, b: seq<seq<Action>>, d: seq<seq<Action>>, x: nat, excess: nat)
    requires |a| == |b| == |d|
    requires forall i :: 0 <= i < |d| ==> |a[i]| + |b[i]| == |d[i]| + if i == x then excess else 0
    ensures |Concat(a)| + |Concat(b)| == |Concat(d)| + if x < |d| then excess else 0
  {
    if d != [] {
      ConcatSizes(a[1..], b[1..], d[1..], if x == 0 then |d| else x - 1, excess);
    }
  }

  /** When all parts but one are split well, the whole is if and only if that one is. */
  lemma {:induction false} ConcatSplits(a: seq<seq<Action>>, b: seq<seq<Action>>, d: seq<seq<Action>>, x: nat)
    requires |a| == |b| == |d|
    requires forall i :: 0 <= i < |d| && i != x ==> Splits(a[i], b[i], d[i])
    ensures Splits(Concat(a), Concat(b), Concat(d)) <==> (x < |d| ==> Splits(a[x], b[x], d[x]))
  {
    if d != [] {
      ConcatSplits(a[1..], b[1..], d[1..], if x == 0 then |d| else x - 1);
      SplitsJoin(a[0], b[0], d[0], Concat(a[1..]), Concat(b[1..]), Concat(d[1..]));
    }
  }

  lemma SplitsJoin(a1: seq<Action>, a2: seq<Action>, a: seq<Action>, b1: seq<Action>, b2: seq<Action>, b: seq<Action>)
    ensures Splits(a1, a2, a) ==> (Splits(a1 + b1, a2 + b2, a + b) <==> Splits(b1, b2, b))
    ensures Splits(b1, b2, b) ==> (Splits(a1 + b1, a2 + b2, a + b) <==> Splits(a1, a2, a))
  {
    var early, late := multiset(a1) + multiset(a2), multiset(b1) + multiset(b2);
    assert multiset(a1 + b1) + multiset(a2 + b2) == early + late;
    SumsEqual(multiset(a), late, multiset(b));
    SumsEqual(multiset(b), early, multiset(a));
    assert early + multiset(b) == multiset(b) + early;
  }

  // ----- Preload equals direct -----

  lemma PartSplit(k: nat, j: Jail, pid: u32, p: Platform)
    requires k < PARTS && k != PRIVILEGES && j.hooks == []
    ensures k != NETWORK || !BothNets(j) ==> PartSplits(k, FirstPass(j), SecondPass(j, pid), Direct(j), p)
    ensures PartSizes(k, FirstPass(j), SecondPass(j, pid), Direct(j), p, if k == NETWORK && BothNets(j) then 2 else 0)
  {
    if k == NETWORK {
      NetworkSplits(j, pid, p);
    } else if k in {0, 1, 3, 5, 9} {
      EarlyParts(j, pid, p, k);
    } else {
      PassesSee(j, pid);
      LaterParts(FirstPass(j), SecondPass(j, pid), Direct(j), p, k);
    }
  }

  /** The direct run is refused if and only if one of the passes is. */
  lemma SameRefusals(j: Jail, pid: u32)
    ensures Refused(Direct(j)) <==> Refused(FirstPass(j)) || Refused(SecondPass(j, pid))
  {
  }

  /** An empty program is installed by the direct run, and no program at all after execve. */
  predicate FilterLost(j: Jail, p: Platform) {
    j.Has(SECCOMP_FILTER) && !p.asan && j.filter == Some([])
  }

  lemma FilterArrives(j: Jail, pid: u32, p: Platform)
    ensures ModeOf(Direct(j)).on && !p.asan && SecondPass(j, pid).filter != Direct(j).filter <==> FilterLost(j, p)
  {
  }

  lemma PrivilegesArrive(j: Jail, pid: u32, p: Platform)
    requires j.hooks == []
    ensures |Privileges(FirstPass(j), p)| + |Privileges(SecondPass(j, pid), p)| == |Privileges(Direct(j), p)|
    ensures Splits(Privileges(FirstPass(j), p), Privileges(SecondPass(j, pid), p), Privileges(Direct(j), p))
            <==> !FilterLost(j, p)
  {
    PassesSee(j, pid);
    FilterArrives(j, pid, p);
    PrivilegesSplit(FirstPass(j), SecondPass(j, pid), Direct(j), p);
  }

  lemma PrivilegesPart(a: Jail, b: Jail, d: Jail, p: Platform, kept: bool)
    requires |Privileges(a, p)| + |Privileges(b, p)| == |Privileges(d, p)|
    requires Splits(Privileges(a, p), Privileges(b, p), Privileges(d, p)) <==> kept
    ensures PartSplits(PRIVILEGES, a, b, d, p) <==> kept
    ensures PartSizes(PRIVILEGES, a, b, d, p, 0)
  {
    PartIsPrivileges(a, p);
    PartIsPrivileges(b, p);
    PartIsPrivileges(d, p);
    assert Splits(Part(PRIVILEGES, a, p), Part(PRIVILEGES, b, p), Part(PRIVILEGES, d, p)) <==> kept;
  }

  lemma PartIsPrivileges(j: Jail, p: Platform)
    ensures Part(PRIVILEGES, j, p) == Privileges(j, p)
  {
  }

  lemma PrivilegesKept(j: Jail, pid: u32, p: Platform)
    requires j.hooks == []
    ensures PartSplits(PRIVILEGES, FirstPass(j), SecondPass(j, pid), Direct(j), p) <==> !FilterLost(j, p)
    ensures PartSizes(PRIVILEGES, FirstPass(j), SecondPass(j, pid), Direct(j), p, 0)
  {
    PrivilegesArrive(j, pid, p);
    PrivilegesPart(FirstPass(j), SecondPass(j, pid), Direct(j), p, !FilterLost(j, p));
  }

  lemma PassesTogether(j: Jail, pid: u32, p: Platform)
    requires j.hooks == []
    ensures Splits(Concat(Parts(FirstPass(j), p)), Concat(Parts(SecondPass(j, pid), p)), Concat(Parts(Direct(j), p)))
            <==> !BothNets(j) && !FilterLost(j, p)
  {
    var a, b, d := Parts(FirstPass(j), p), Parts(SecondPass(j, pid), p), Parts(Direct(j), p);
    PrivilegesKept(j, pid, p);
    forall k: nat | k < PARTS && k != PRIVILEGES
      ensures k != NETWORK || !BothNets(j) ==> Splits(a[k], b[k], d[k])
      ensures |a[k]| + |b[k]| == |d[k]| + if k == NETWORK && BothNets(j) then 2 else 0
    {
      PartSplit(k, j, pid, p);
    }
    if BothNets(j) {
      ConcatSizes(a, b, d, NETWORK, 2);
      SplitSizes(Concat(a), Concat(b), Concat(d));
    } else {
      ConcatSplits(a, b, d, PRIVILEGES);
    }
  }

  lemma SplitSizes(a: seq<Action>, b: seq<Action>, d: seq<Action>)
    ensures Splits(a, b, d) ==> |a| + |b| == |d|
  {
    assert |multiset(a) + multiset(b)| == |a| + |b| && |multiset(d)| == |d|;
  }

  // ----- The two ways to start a process (minijail_run_internal) -----

  /** Whether a filename and a descriptor name the program, and whether the child executes it. */
  datatype Config = Config(filename: bool, elfFd: bool, execInChild: bool)

  predicate Ambiguous(c: Config) { c.filename && c.elfFd }

  /** Capabilities that execve would drop: only a run with LD_PRELOAD can keep them. */
  predicate NeedsPreload(j: Jail) { j.Has(USE_CAPS) && j.plain[CAPS] != 0 && !j.Has(AMBIENT_CAPS) }

  function RunDirect(j: Jail, c: Config, p: Platform): Outcome {
    if Ambiguous(c) || NeedsPreload(j) then Died else Enter(Direct(j), p)
  }

  /** What LD_PRELOAD cannot do: run hooks, or return to the caller in the child. */
  predicate NotForPreload(j: Jail, c: Config) { j.hooks != [] || !c.execInChild }

  /** The pass before execve, then the pass on what came through the pipe. */
  function RunPreloaded(j: Jail, c: Config, m: Memory, pid: u32, p: Platform): Outcome
    requires Consistent(j) && MemoryOk(m) && |Serialized(Sender(j, pid), m)| < TWO64
  {
    if Ambiguous(c) || NotForPreload(j, c) then Died
    else
      var received := Receive(Message(Sender(j, pid), m));
      if !received.Arrived? then Died else Both(Enter(FirstPass(j), p), Enter(Preenter(received.jail), p))
  }

  function Both(a: Outcome, b: Outcome): Outcome {
    if a.Died? || b.Died? then Died else Entered(a.actions + b.actions)
  }

  lemma PreloadedIs(j: Jail, c: Config, m: Memory, pid: u32, p: Platform)
    requires Consistent(j) && MemoryOk(m) && |Serialized(Sender(j, pid), m)| < TWO64
    ensures RunPreloaded(j, c, m, pid, p)
         == if Ambiguous(c) || NotForPreload(j, c) || |Serialized(Sender(j, pid), m)| > USHRT_MAX then Died
            else Both(Enter(FirstPass(j), p), Enter(SecondPass(j, pid), p))
  {
    PipeRoundTrip(Sender(j, pid), m);
  }

  lemma WaysCompare(j: Jail, c: Config, m: Memory, pid: u32, p: Platform)
    requires Consistent(j) && MemoryOk(m) && |Serialized(Sender(j, pid), m)| < TWO64
    ensures NotForPreload(j, c) || |Serialized(Sender(j, pid), m)| > USHRT_MAX ==> RunPreloaded(j, c, m, pid, p).Died?
    ensures !NotForPreload(j, c) && |Serialized(Sender(j, pid), m)| <= USHRT_MAX ==>
              (RunDirect(j, c, p).Died? <==> RunPreloaded(j, c, m, pid, p).Died? || NeedsPreload(j))
    ensures RunDirect(j, c, p).Entered? && RunPreloaded(j, c, m, pid, p).Entered? ==>
              (multiset(RunPreloaded(j, c, m, pid, p).actions) == multiset(RunDirect(j, c, p).actions)
               <==> !BothNets(j) && !FilterLost(j, p))
  {
    PreloadedIs(j, c, m, pid, p);
    BothDie(j, pid, p);
    if j.hooks == [] && !Refused(Direct(j)) {
      BothDo(j, pid, p);
    }
  }

  /**
   Where LD_PRELOAD can be used at all, the run without it dies if and only if the run
   with it does or there are capabilities to keep. Where neither dies, both do exactly
   the same to the process, unless the jail asks for two network namespaces or has an
   empty program.
   */
  lemma PreloadEqualsDirect(j: Jail, c: Config, m: Memory, pid: u32, p: Platform)
    requires Consistent(j) && MemoryOk(m) && |Serialized(Sender(j, pid), m)| < TWO64
    ensures j.hooks != [] || !c.execInChild || |Serialized(Sender(j, pid), m)| > 65535 ==>
              RunPreloaded(j, c, m, pid, p).Died?
    ensures j.hooks == [] && c.execInChild && |Serialized(Sender(j, pid), m)| <= 65535 ==>
              (RunDirect(j, c, p).Died? <==>
               || RunPreloaded(j, c, m, pid, p).Died?
               || (j.flags[USE_CAPS] && j.plain[CAPS] != 0 && !j.flags[AMBIENT_CAPS]))
    ensures RunDirect(j, c, p).Entered? && RunPreloaded(j, c, m, pid, p).Entered? ==>
              (multiset(RunPreloaded(j, c, m, pid, p).actions) == multiset(RunDirect(j, c, p).actions)
               <==> && !(j.flags[NET] && j.flags[ENTER_NET])
                    && !(j.flags[SECCOMP_FILTER] && !p.asan && j.filter == Some([])))
  {
    hide RunDirect, RunPreloaded, Serialized, Sender, Consistent, MemoryOk;
    WaysCompare(j, c, m, pid, p);
  }

  lemma BothDie(j: Jail, pid: u32, p: Platform)
    ensures Both(Enter(FirstPass(j), p), Enter(SecondPass(j, pid), p)).Died? <==> Enter(Direct(j), p).Died?
    ensures Enter(Direct(j), p).Died? <==> Refused(Direct(j))
  {
    SameRefusals(j, pid);
  }

  lemma BothDo(j: Jail, pid: u32, p: Platform)
    requires j.hooks == [] && !Refused(Direct(j))
    ensures var both, direct := Both(Enter(FirstPass(j), p), Enter(SecondPass(j, pid), p)), Enter(Direct(j), p);
      && both.Entered? && direct.Entered?
      && (multiset(both.actions) == multiset(direct.actions) <==> !BothNets(j) && !FilterLost(j, p))
  {
    hide Concat, Parts, FirstPass, SecondPass, Direct, BothNets, FilterLost;
    SameRefusals(j, pid);
    PassesTogether(j, pid, p);
    JoinedSplits(Concat(Parts(FirstPass(j), p)), Concat(Parts(SecondPass(j, pid), p)), Concat(Parts(Direct(j), p)));
  }

  lemma JoinedSplits(a: seq<Action>, b: seq<Action>, d: seq<Action>)
    ensures multiset(a + b) == multiset(d) <==> Splits(a, b, d)
  {
  }

  /** A jail that keeps a capability: one way refuses it, the other enters it. */
  const CAPABLE_JAIL: Jail := NEW_JAIL.Raise(USE_CAPS).(plain := NEW_JAIL.plain[CAPS := 1])

  /** A jail that has nothing to send but its structure. */
  predicate Bare(j: Jail) {
    && j.user.None? && j.gids.None? && j.chrootdir.None? && j.hostname.None? && j.altTable.None?
    && (j.filter.None? || j.filter == Some([])) && j.mounts == [] && j.cgroups == [] && j.hooks == []
  }

  lemma BareSize(j: Jail, m: Memory, pid: u32)
    requires Consistent(j) && MemoryOk(m) && Bare(j)
    ensures |Serialized(Sender(j, pid), m)| == IMAGE_SIZE
  {
    SerializedParts(Sender(j, pid), m);
  }

  lemma CapabilitiesNeedPreload(m: Memory, pid: u32, p: Platform)
    requires MemoryOk(m)
    ensures var c := Config(true, false, true);
      && Consistent(CAPABLE_JAIL) && |Serialized(Sender(CAPABLE_JAIL, pid), m)| < TWO64
      && RunDirect(CAPABLE_JAIL, c, p).Died?
      && RunPreloaded(CAPABLE_JAIL, c, m, pid, p).Entered?
  {
    CapableIs();
    BareSize(CAPABLE_JAIL, m, pid);
    OneWayOnly(CAPABLE_JAIL, Config(true, false, true), m, pid, p);
  }

  lemma CapableIs()
    ensures Consistent(CAPABLE_JAIL) && NeedsPreload(CAPABLE_JAIL) && !Refused(Direct(CAPABLE_JAIL))
    ensures Bare(CAPABLE_JAIL)
  {
  }

  lemma OneWayOnly(j: Jail, c: Config, m: Memory, pid: u32, p: Platform)
    requires Consistent(j) && MemoryOk(m) && |Serialized(Sender(j, pid), m)| <= USHRT_MAX
    requires !Ambiguous(c) && !NotForPreload(j, c) && NeedsPreload(j) && !Refused(Direct(j))
    ensures RunDirect(j, c, p).Died? && RunPreloaded(j, c, m, pid, p).Entered?
  {
    PreloadedIs(j, c, m, pid, p);
    BothDie(j, pid, p);
  }

  /** Both ways enter the jail, and what they do is not the same. */
  predicate Differ(j: Jail, m: Memory, pid: u32, p: Platform)
    requires Consistent(j) && MemoryOk(m) && |Serialized(Sender(j, pid), m)| < TWO64
  {
    var c := Config(true, false, true);
    var preloaded, direct := RunPreloaded(j, c, m, pid, p), RunDirect(j, c, p);
    preloaded.Entered? && direct.Entered? && multiset(preloaded.actions) != multiset(direct.actions)
  }

  lemma BareDiffer(j: Jail, m: Memory, pid: u32, p: Platform)
    requires Consistent(j) && MemoryOk(m) && Bare(j)
    requires !NeedsPreload(j) && !Refused(Direct(j)) && (BothNets(j) || FilterLost(j, p))
    ensures |Serialized(Sender(j, pid), m)| < TWO64 && Differ(j, m, pid, p)
  {
    hide Consistent, MemoryOk, Serialized, Sender, Refused, FilterLost, Enter, RunPreloaded;
    BareSize(j, m, pid);
    WaysCompare(j, Config(true, false, true), m, pid, p);
    BothDie(j, pid, p);
  }

  const TWO_NETWORKS: Jail := NEW_JAIL.Raise(NET).Raise(ENTER_NET)

  const EMPTY_PROGRAM: Jail := NEW_JAIL.Raise(SECCOMP_FILTER).(filter := Some([]))

  /** The smallest jails for which the two ways differ. */
  lemma TwoNetworksDiffer(m: Memory, pid: u32, p: Platform)
    requires MemoryOk(m)
    ensures Consistent(TWO_NETWORKS) && |Serialized(Sender(TWO_NETWORKS, pid), m)| < TWO64
    ensures Differ(TWO_NETWORKS, m, pid, p)
  {
    TwoNetworksAre();
    BareDiffer(TWO_NETWORKS, m, pid, p);
  }

  lemma TwoNetworksAre()
    ensures Consistent(TWO_NETWORKS) && Bare(TWO_NETWORKS) && BothNets(TWO_NETWORKS)
    ensures !NeedsPreload(TWO_NETWORKS) && !Refused(Direct(TWO_NETWORKS))
  {
  }

  /** Here the argument of the call differs; the kernel refuses an empty program as well as none. */
  lemma EmptyProgramsDiffer(m: Memory, pid: u32, p: Platform)
    requires MemoryOk(m) && !p.asan
    ensures Consistent(EMPTY_PROGRAM) && |Serialized(Sender(EMPTY_PROGRAM, pid), m)| < TWO64
    ensures Differ(EMPTY_PROGRAM, m, pid, p)
  {
    EmptyProgramIs(p);
    BareDiffer(EMPTY_PROGRAM, m, pid, p);
  }

  lemma EmptyProgramIs(p: Platform)
    ensures Consistent(EMPTY_PROGRAM) && Bare(EMPTY_PROGRAM) && (!p.asan ==> FilterLost(EMPTY_PROGRAM, p))
    ensures !NeedsPreload(EMPTY_PROGRAM) && !Refused(Direct(EMPTY_PROGRAM))
  {
  }
}
