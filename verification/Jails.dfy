/**
 The jail configuration (struct minijail of libminijail.c), the calls that fill it in,
 and what every sequence of such calls keeps true of it.
 */
module Jails {
  import opened Words
  import opened Bpf

  /** A C string: the bytes before the terminating NUL. */
  type CString = s: seq<u8> | 0 !in s

  /** The bytes of a C string literal. */
  function Ascii(text: string): (s: CString)
    ensures text != "" && '\0' < text[0] < 128 as char ==> s != []
  {
    if text == "" then []
    else if '\0' < text[0] < 128 as char then [text[0] as int] + Ascii(text[1..])
    else Ascii(text[1..])
  }

  const SLASH: u8 := '/' as int
  const TMPFS: CString := Ascii("tmpfs")
  const TMPFS_DATA: CString := Ascii("mode=0755,size=10M")
  /** MS_NODEV | MS_NOEXEC | MS_NOSUID */
  const SECURE_MOUNT: u64 := 14
  const MAX_CGROUPS: nat := 10
  const USHRT_MAX: nat := 65535
  const MS_PRIVATE: u64 := 0x4_0000

  // ----- Flags: the bit-field at the start of the structure -----

  const FLAG_COUNT: nat := 40
  type Flags = f: seq<bool> | |f| == FLAG_COUNT witness seq(FLAG_COUNT, _ => false)
  type Flag = i: nat | i < FLAG_COUNT

  const FUID: Flag := 0
  const FGID: Flag := 1
  const INHERIT_GIDS: Flag := 2
  const SET_GIDS: Flag := 3
  const KEEP_GIDS: Flag := 4
  const USE_CAPS: Flag := 5
  const CAPBSET_DROP: Flag := 6
  const AMBIENT_CAPS: Flag := 7
  const VFS: Flag := 8
  const ENTER_VFS: Flag := 9
  const PIDS: Flag := 10
  const IPC: Flag := 11
  const UTS: Flag := 12
  const NET: Flag := 13
  const ENTER_NET: Flag := 14
  const NS_CGROUPS: Flag := 15
  const USERNS: Flag := 16
  const DISABLE_SETGROUPS: Flag := 17
  const SECCOMP: Flag := 18
  const REMOUNT_PROC_RO: Flag := 19
  const NO_NEW_PRIVS: Flag := 20
  const SECCOMP_FILTER: Flag := 21
  const TSYNC: Flag := 22
  const FILTER_LOGGING: Flag := 23
  const SPECULATION: Flag := 24
  const CHROOT: Flag := 25
  const PIVOT_ROOT: Flag := 26
  const MOUNT_DEV: Flag := 27
  const MOUNT_TMP: Flag := 28
  const DO_INIT: Flag := 29
  const RUN_AS_INIT: Flag := 30
  const PID_FILE: Flag := 31
  const CGROUPS: Flag := 32
  const ALT_SYSCALL: Flag := 33
  const SESSION_KEYRING: Flag := 37
  const FORWARD_SIGNALS: Flag := 38
  const SETSID: Flag := 39

  // ----- Plain members: numbers that are copied and nothing more -----

  /** The words that hold them: four for the 32-bit members, in pairs, five for 64-bit
      members, then the tables of rlimits and preserved descriptors with their counts. */
  const PLAIN_COUNT: nat := 235
  type Plain = p: seq<u64> | |p| == PLAIN_COUNT witness seq(PLAIN_COUNT, _ => 0)
  type Member = i: nat | i < PLAIN_COUNT

  /** uid and gid; usergid; initpid and mountns_fd; netns_fd */
  const IDS: Member := 0
  const USERGID: Member := 1
  const PROCESS: Member := 2
  const NETNS: Member := 3
  const CAPS: Member := 4
  const CAP_BSET: Member := 5
  const REMOUNT_MODE: Member := 6
  const TMPFS_SIZE: Member := 7
  const SECUREBITS_SKIP: Member := 8

  // ----- The jail -----

  datatype Mount = Mount(src: CString, dest: CString, kind: CString, data: Option<CString>, flags: u64)

  datatype Remount = Remount(mode: u64, name: CString)

  datatype HookEvent = PreDropCaps | PreExecve | PreChroot

  datatype Hook = Hook(event: HookEvent, code: nat)

  datatype Jail = Jail(
    flags: Flags,
    plain: Plain,
    user: Option<CString>,
    gidCount: u64,
    gids: Option<seq<u32>>,
    chrootdir: Option<CString>,
    hostname: Option<CString>,
    altTable: Option<CString>,
    filterLen: u64,
    filter: Option<seq<Instr>>,
    mountCount: u64,
    mounts: seq<Mount>,
    cgroups: seq<CString>,
    // The members below do not travel with the jail.
    preloadPath: Option<CString>,
    pidFile: Option<CString>,
    uidmap: Option<CString>,
    gidmap: Option<CString>,
    remounts: seq<Remount>,
    hooks: seq<Hook>
  ) {
    predicate Has(f: Flag) { flags[f] }

    function Uid(): u32 { Lo(plain[IDS]) }

    function Gid(): u32 { Hi(plain[IDS]) }

    function UserGid(): u32 { Lo(plain[USERGID]) }

    function MountNsFd(): u32 { Hi(plain[PROCESS]) }

    function NetNsFd(): u32 { Lo(plain[NETNS]) }

    function Raise(f: Flag): Jail { this.(flags := flags[f := true]) }

    function Lower(f: Flag): Jail { this.(flags := flags[f := false]) }
  }

  const NEW_JAIL: Jail :=
    Jail(seq(FLAG_COUNT, _ => false), seq(PLAIN_COUNT, _ => 0)[REMOUNT_MODE := MS_PRIVATE],
         None, 0, None, None, None, None, 0, None, 0, [], [], None, None, None, None, [], [])

  // ----- Mounts -----

  /** The mount point that a request is stored as: the secure defaults are filled in. */
  function Stored(m: Mount): Mount {
    Mount(m.src, m.dest, m.kind,
          if m.kind == TMPFS && (m.data.None? || m.data.value == []) then Some(TMPFS_DATA) else m.data,
          if m.flags == 0 then SECURE_MOUNT else m.flags)
  }

  predicate MountAccepted(m: Mount) { m.dest != [] && m.dest[0] == SLASH }

  /** minijail_mount_with_data; None stands for -EINVAL. */
  function MountWithData(j: Jail, m: Mount): Option<Jail>
    requires |j.mounts| < TWO64 - 1
  {
    if !MountAccepted(m) then None
    else
      var k := if j.Has(ENTER_VFS) then j else j.Raise(VFS);
      Some(k.(mounts := k.mounts + [Stored(m)], mountCount := |k.mounts| + 1))
  }

  /** What is true of a mount point once it has been stored. */
  predicate MountOk(m: Mount) {
    MountAccepted(m) && m.flags != 0 && (m.kind == TMPFS ==> m.data.Some? && m.data.value != [])
  }

  /** Storing a stored mount point changes nothing: the defaults are filled in only once. */
  lemma StoredIsStable(m: Mount)
    ensures Stored(m) == m <==> m.flags != 0 && (m.kind == TMPFS ==> m.data.Some? && m.data.value != [])
    ensures Stored(Stored(m)) == Stored(m)
    ensures MountAccepted(m) ==> MountOk(Stored(m))
  {
  }

  predicate MountsOk(ms: seq<Mount>) { forall m :: m in ms ==> MountOk(m) }

  // ----- The calls that fill a jail in -----

  datatype Call =
    | RaiseFlag(f: Flag)                 // the calls that only turn a flag on
    | StorePlain(i: Member, value: u64)  // the calls that only store a number
    | OverrideBoundingSet                // the part of minijail_use_caps that gives up capbset_drop
    | ChangeUser(user: CString)
    | SetSupplementaryGids(list: seq<u32>)
    | EnterChroot(dir: CString)
    | EnterPivotRoot(dir: CString)
    | SetHostname(name: CString)
    | UseAltSyscall(table: CString)
    | SetFilter(prog: seq<Instr>)
    | ClearSeccomp                       // clear_seccomp_options, on a kernel without seccomp
    | ForbidSpeculation                  // on a kernel without that filter flag
    | AddMount(m: Mount)
    | AddToCgroup(path: CString)
    | SetPreloadPath(path: CString)
    | WritePidFile(path: CString)
    | SetUidMap(text: CString)
    | SetGidMap(text: CString)
    | AddRemount(r: Remount)
    | AddHook(hook: Hook)

  /** The calls as the types of the C arguments allow them; lists stay below 2^64 entries. */
  predicate Possible(j: Jail, c: Call) {
    && (c.SetFilter? ==> |c.prog| <= USHRT_MAX)
    && (c.SetSupplementaryGids? ==> |c.list| < TWO64)
    && (c.AddMount? ==> |j.mounts| < TWO64 - 1)
  }

  /** The jail after a call; one that reports an error, or dies, leaves it as it was. */
  function After(j: Jail, c: Call): Jail
    requires Possible(j, c)
  {
    match c
    case RaiseFlag(f) => j.Raise(f)
    case StorePlain(i, value) => j.(plain := j.plain[i := value])
    case OverrideBoundingSet => j.Lower(CAPBSET_DROP).(plain := j.plain[CAP_BSET := 0])
    case ChangeUser(user) => j.Raise(FUID).(user := Some(user))
    case SetSupplementaryGids(list) =>
      if j.Has(INHERIT_GIDS) || j.Has(KEEP_GIDS) then j
      else j.Raise(SET_GIDS).(gids := if list == [] then None else Some(list), gidCount := |list|)
    case EnterChroot(dir) => if j.chrootdir.Some? then j else j.Raise(CHROOT).(chrootdir := Some(dir))
    case EnterPivotRoot(dir) => if j.chrootdir.Some? then j else j.Raise(PIVOT_ROOT).(chrootdir := Some(dir))
    case SetHostname(name) => if j.hostname.Some? then j else j.Raise(UTS).(hostname := Some(name))
    case UseAltSyscall(table) => j.Raise(ALT_SYSCALL).(altTable := Some(table))
    case SetFilter(prog) => j.(filter := Some(prog), filterLen := |prog|)
    case ClearSeccomp =>
      j.Lower(SECCOMP_FILTER).Lower(TSYNC).Lower(FILTER_LOGGING).Lower(SPECULATION).Lower(NO_NEW_PRIVS)
      .(filter := None, filterLen := 0)
    case ForbidSpeculation => j.Lower(SPECULATION)
    case AddMount(m) => if MountWithData(j, m).None? then j else MountWithData(j, m).value
    case AddToCgroup(path) =>
      if |j.cgroups| >= MAX_CGROUPS then j else j.Raise(CGROUPS).(cgroups := j.cgroups + [path])
    case SetPreloadPath(path) => if j.preloadPath.Some? then j else j.(preloadPath := Some(path))
    case WritePidFile(path) => j.Raise(PID_FILE).(pidFile := Some(path))
    case SetUidMap(text) => j.(uidmap := Some(text))
    case SetGidMap(text) => j.(gidmap := Some(text))
    case AddRemount(r) => if r.name == [] || r.name[0] != SLASH then j else j.(remounts := j.remounts + [r])
    case AddHook(hook) => j.(hooks := j.hooks + [hook])
  }

  /** What the calls keep true, and marshalling relies on. */
  predicate Consistent(j: Jail) {
    && (j.gids.Some? ==> j.gidCount == |j.gids.value|)
    && j.filterLen == (if j.filter.Some? then |j.filter.value| else 0)
    && j.filterLen <= USHRT_MAX
    && j.mountCount == |j.mounts|
    && MountsOk(j.mounts)
    && (j.mounts != [] ==> j.Has(VFS) || j.Has(ENTER_VFS))
    && |j.cgroups| <= MAX_CGROUPS
  }

  lemma FlagCallsKeep(j: Jail, c: Call)
    requires Consistent(j) && Possible(j, c)
    requires c.RaiseFlag? || c.StorePlain? || c.OverrideBoundingSet? || c.ClearSeccomp? || c.ForbidSpeculation?
    ensures Consistent(After(j, c))
  {
  }

  lemma NameCallsKeep(j: Jail, c: Call)
    requires Consistent(j) && Possible(j, c)
    requires c.ChangeUser? || c.EnterChroot? || c.EnterPivotRoot? || c.SetHostname? || c.UseAltSyscall?
    ensures Consistent(After(j, c))
  {
  }

  lemma ListCallsKeep(j: Jail, c: Call)
    requires Consistent(j) && Possible(j, c)
    requires c.SetSupplementaryGids? || c.SetFilter? || c.AddToCgroup?
    ensures Consistent(After(j, c))
  {
  }

  lemma MountKeeps(j: Jail, c: Call)
    requires Consistent(j) && Possible(j, c) && c.AddMount?
    ensures Consistent(After(j, c))
  {
    StoredIsStable(c.m);
  }

  /** The members that marshalling resets are not counted. */
  lemma UnsentCallsKeep(j: Jail, c: Call)
    requires Consistent(j) && Possible(j, c)
    requires c.SetPreloadPath? || c.WritePidFile? || c.SetUidMap? || c.SetGidMap? || c.AddRemount? || c.AddHook?
    ensures Consistent(After(j, c))
  {
  }

  lemma CallKeepsConsistent(j: Jail, c: Call)
    requires Consistent(j) && Possible(j, c)
    ensures Consistent(After(j, c))
  {
    hide After, Consistent;
    match c
    case RaiseFlag(_) | StorePlain(_, _) | OverrideBoundingSet | ClearSeccomp | ForbidSpeculation => FlagCallsKeep(j, c);
    case ChangeUser(_) | EnterChroot(_) | EnterPivotRoot(_) | SetHostname(_) | UseAltSyscall(_) => NameCallsKeep(j, c);
    case SetSupplementaryGids(_) | SetFilter(_) | AddToCgroup(_) => ListCallsKeep(j, c);
    case AddMount(_) => MountKeeps(j, c);
    case _ => UnsentCallsKeep(j, c);
  }

  /** The jail after a sequence of calls, if all of them are possible. */
  function AfterAll(j: Jail, calls: seq<Call>): Option<Jail>
    decreases calls
  {
    if calls == [] then Some(j)
    else if Possible(j, calls[0]) then AfterAll(After(j, calls[0]), calls[1..])
    else None
  }

  lemma {:induction false} CallsKeepConsistent(j: Jail, calls: seq<Call>)
    requires Consistent(j) && AfterAll(j, calls).Some?
    ensures Consistent(AfterAll(j, calls).value)
    decreases calls
  {
    if calls != [] {
      CallKeepsConsistent(j, calls[0]);
      CallsKeepConsistent(After(j, calls[0]), calls[1..]);
    }
  }

  /** Every jail that can be built is consistent. */
  lemma BuiltIsConsistent(calls: seq<Call>)
    requires AfterAll(NEW_JAIL, calls).Some?
    ensures Consistent(AfterAll(NEW_JAIL, calls).value)
  {
    CallsKeepConsistent(NEW_JAIL, calls);
  }
}
