/**
 The start-up handshake of minijail_run_internal: after the fork the parent sets the
 child up from outside, then releases it by closing a pipe; a failing step kills the
 child. The two processes are one state machine, and every interleaving is a run.
 */
module Handshake {
  import F = FdRemap

  /** The part of a jail's configuration that parent-side set-up depends on. */
  datatype Config = Config(
    forwardSignals: bool,
    pidFile: bool,
    cgroups: bool,
    cgroupCount: nat,
    rlimitCount: nat,
    userns: bool,
    uidmap: bool,
    gidmap: bool,
    disableSetgroups: bool)

  datatype Step = WritePidFile | AddCgroup(i: nat) | SetRlimit(i: nat) | WriteUidMap | DenySetgroups | WriteGidMap

  function Cgroups(n: nat): seq<Step> { seq(n, i requires 0 <= i < n => AddCgroup(i)) }

  function Rlimits(n: nat): seq<Step> { seq(n, i requires 0 <= i < n => SetRlimit(i)) }

  /** What the parent does after the fork, in order. */
  function Steps(c: Config): seq<Step> {
    (if c.pidFile then [WritePidFile] else [])
    + (if c.cgroups then Cgroups(c.cgroupCount) else [])
    + Rlimits(c.rlimitCount)
    + (if c.userns then Maps(c) else [])
  }

  /** write_ugid_maps_or_die */
  function Maps(c: Config): seq<Step> {
    (if c.uidmap then [WriteUidMap] else [])
    + (if c.gidmap && c.disableSetgroups then [DenySetgroups] else [])
    + (if c.gidmap then [WriteGidMap] else [])
  }

  /** Whether a pipe is made and the child waits on it. */
  predicate SyncChild(c: Config) {
    c.forwardSignals || c.pidFile || c.cgroups || c.rlimitCount > 0 || c.userns
  }

  datatype Parent = SettingUp | Released | Dying | Exited

  datatype Child = Starting | Waiting | Passed | Dead

  /** done: the steps carried out; parentHolds: the parent still has the write end open;
      childCopies: how many descriptors of the child still hold the write end. */
  datatype State = State(parent: Parent, child: Child, done: seq<Step>, parentHolds: bool, childCopies: nat)

  /** Just after the fork. */
  predicate Init(s: State, copies: nat) { s == State(SettingUp, Starting, [], true, copies) }

  // ----- The parent's moves -----

  predicate StepSucceeds(c: Config, s: State, s': State) {
    && s.parent == SettingUp && |s.done| < |Steps(c)|
    && s' == s.(done := s.done + [Steps(c)[|s.done|]])
  }

  /** kill_child_and_die: SIGKILL comes first, the parent exits later. */
  predicate StepFails(c: Config, s: State, s': State) {
    && s.parent == SettingUp && |s.done| < |Steps(c)|
    && s' == s.(parent := Dying, child := Dead)
  }

  predicate ParentExits(s: State, s': State) {
    s.parent == Dying && s' == s.(parent := Exited, parentHolds := false)
  }

  /** parent_setup_complete. */
  predicate Release(c: Config, s: State, s': State) {
    && s.parent == SettingUp && |s.done| == |Steps(c)|
    && s' == s.(parent := Released, parentHolds := false)
  }

  // ----- The child's moves (wait_for_parent_setup) -----

  predicate CloseOwnEnd(s: State, s': State) {
    s.child == Starting && s.childCopies > 0 && s' == s.(child := Waiting, childCopies := s.childCopies - 1)
  }

  /** read(2) returns 0 once nobody holds the write end; nothing is ever written. */
  predicate ReadsEof(s: State, s': State) {
    s.child == Waiting && !s.parentHolds && s.childCopies == 0 && s' == s.(child := Passed)
  }

  predicate ChildDies(s: State, s': State) {
    s.child in {Starting, Waiting} && s' == s.(child := Dead)
  }

  predicate Next(c: Config, s: State, s': State) {
    || StepSucceeds(c, s, s') || StepFails(c, s, s') || ParentExits(s, s') || Release(c, s, s')
    || CloseOwnEnd(s, s') || ReadsEof(s, s') || ChildDies(s, s')
  }

  predicate IsRun(c: Config, copies: nat, run: seq<State>) {
    && run != [] && Init(run[0], copies)
    && forall i :: 0 <= i < |run| - 1 ==> Next(c, run[i], run[i + 1])
  }

  // ----- Safety -----

  predicate Inv(c: Config, copies: nat, s: State) {
    && s.done <= Steps(c)
    && (s.parent == SettingUp || s.parent == Dying ==> s.parentHolds)
    && (s.parent == Released ==> s.done == Steps(c) && !s.parentHolds)
    && (s.parent == Dying || s.parent == Exited ==> s.child == Dead)
    && (s.child == Passed ==> s.parent == Released)
    && (s.child == Starting ==> s.childCopies == copies)
    && (s.child == Waiting ==> s.childCopies + 1 == copies)
    && (s.child == Passed ==> copies == 1)
  }

  lemma {:induction false} RunKeepsInv(c: Config, copies: nat, run: seq<State>, i: nat)
    requires IsRun(c, copies, run) && i < |run|
    ensures Inv(c, copies, run[i])
    decreases i
  {
    if i > 0 {
      RunKeepsInv(c, copies, run, i - 1);
      assert Next(c, run[i - 1], run[i]);
    }
  }

  /** In every run, a child that got past the pipe was set up completely, and a parent
      that failed has killed the child, which never gets past the pipe. */
  lemma HandshakeSafe(c: Config, copies: nat, run: seq<State>, i: nat)
    requires IsRun(c, copies, run) && i < |run|
    ensures run[i].child == Passed ==> run[i].done == Steps(c)
    ensures run[i].parent == Dying || run[i].parent == Exited ==> run[i].child == Dead
  {
    RunKeepsInv(c, copies, run, i);
  }

  /** What a configuration asks the parent to do. */
  predicate Asked(c: Config, s: Step) {
    match s
    case WritePidFile => c.pidFile
    case AddCgroup(i) => c.cgroups && i < c.cgroupCount
    case SetRlimit(i) => i < c.rlimitCount
    case WriteUidMap => c.userns && c.uidmap
    case DenySetgroups => c.userns && c.gidmap && c.disableSetgroups
    case WriteGidMap => c.userns && c.gidmap
  }

  /** The order: pid file, cgroups, limits, and the maps of the user namespace. */
  function Turn(c: Config, s: Step): nat {
    match s
    case WritePidFile => 0
    case AddCgroup(i) => 1 + i
    case SetRlimit(i) => 1 + c.cgroupCount + i
    case WriteUidMap => 1 + c.cgroupCount + c.rlimitCount
    case DenySetgroups => 2 + c.cgroupCount + c.rlimitCount
    case WriteGidMap => 3 + c.cgroupCount + c.rlimitCount
  }

  /** Behind a child that got past the pipe, every step that was asked for has been carried
      out, no other one, each once and in its turn. In particular setgroups is denied before
      the gid map is written. */
  lemma PassedChildIsSetUp(c: Config, copies: nat, run: seq<State>, i: nat)
    requires IsRun(c, copies, run) && i < |run| && run[i].child == Passed
    ensures forall s :: s in run[i].done <==> Asked(c, s)
    ensures forall x, y :: 0 <= x < y < |run[i].done| ==> Turn(c, run[i].done[x]) < Turn(c, run[i].done[y])
  {
    HandshakeSafe(c, copies, run, i);
    StepsInTurn(c);
    forall s
      ensures s in Steps(c) <==> Asked(c, s)
    {
      StepIsAsked(c, s);
    }
  }

  lemma StepIsAsked(c: Config, s: Step)
    ensures s in Steps(c) <==> Asked(c, s)
  {
    hide Cgroups, Rlimits;
    InCgroups(c.cgroupCount, s);
    InRlimits(c.rlimitCount, s);
  }

  lemma InCgroups(n: nat, s: Step)
    ensures s in Cgroups(n) <==> s.AddCgroup? && s.i < n
  {
    if s.AddCgroup? && s.i < n {
      assert Cgroups(n)[s.i] == s;
    }
  }

  lemma InRlimits(n: nat, s: Step)
    ensures s in Rlimits(n) <==> s.SetRlimit? && s.i < n
  {
    if s.SetRlimit? && s.i < n {
      assert Rlimits(n)[s.i] == s;
    }
  }

  /** In order, with all turns from lo up to hi. */
  predicate InTurn(c: Config, ss: seq<Step>, lo: nat, hi: nat) {
    && (forall x :: 0 <= x < |ss| ==> lo <= Turn(c, ss[x]) < hi)
    && (forall x, y :: 0 <= x < y < |ss| ==> Turn(c, ss[x]) < Turn(c, ss[y]))
  }

  lemma TurnsJoin(c: Config, a: seq<Step>, b: seq<Step>, lo: nat, mid: nat, hi: nat)
    requires InTurn(c, a, lo, mid) && InTurn(c, b, mid, hi) && lo <= mid <= hi
    ensures InTurn(c, a + b, lo, hi)
  {
    hide Turn;
  }

  lemma PiecesInTurn(c: Config)
    ensures InTurn(c, if c.pidFile then [WritePidFile] else [], 0, 1)
    ensures InTurn(c, if c.cgroups then Cgroups(c.cgroupCount) else [], 1, 1 + c.cgroupCount)
    ensures InTurn(c, Rlimits(c.rlimitCount), 1 + c.cgroupCount, 1 + c.cgroupCount + c.rlimitCount)
  {
  }

  lemma MapsInTurn(c: Config)
    ensures var m := 1 + c.cgroupCount + c.rlimitCount;
      InTurn(c, if c.userns then Maps(c) else [], m, m + 3)
  {
  }

  lemma StepsInTurn(c: Config)
    ensures InTurn(c, Steps(c), 0, 4 + c.cgroupCount + c.rlimitCount)
  {
    hide InTurn, Maps, Cgroups, Rlimits;
    var pid := if c.pidFile then [WritePidFile] else [];
    var groups := if c.cgroups then Cgroups(c.cgroupCount) else [];
    var maps := if c.userns then Maps(c) else [];
    var m := 1 + c.cgroupCount + c.rlimitCount;
    PiecesInTurn(c);
    MapsInTurn(c);
    TurnsJoin(c, pid, groups, 0, 1, 1 + c.cgroupCount);
    TurnsJoin(c, pid + groups, Rlimits(c.rlimitCount), 0, 1 + c.cgroupCount, m);
    TurnsJoin(c, pid + groups + Rlimits(c.rlimitCount), maps, 0, m, m + 3);
  }

  /** Without a pipe there is nothing to wait for. */
  lemma NoPipeNoSteps(c: Config)
    requires !SyncChild(c)
    ensures Steps(c) == []
  {
    assert Rlimits(0) == [];
  }

  // ----- No lost wake-up -----

  /** A released child that waits can go on exactly when its own descriptor was the only
      one of the child holding the write end. */
  lemma ReleasedChildGoesOn(c: Config, copies: nat, run: seq<State>, i: nat)
    requires IsRun(c, copies, run) && i < |run| && run[i].parent == Released && run[i].child == Waiting
    ensures (exists s' :: ReadsEof(run[i], s')) <==> copies == 1
  {
    RunKeepsInv(c, copies, run, i);
    if copies == 1 {
      assert ReadsEof(run[i], run[i].(child := Passed));
    }
  }

  // ----- The child's descriptors -----

  ghost function Holders(fds: F.Table, file: F.File): set<int> { set fd | fd in fds && fds[fd] == file }

  /** After the descriptors have been set up, the write end (entry k of the pipe ends) has
      one holder in the child, so that a child that is released and waits can go on. */
  lemma SetUpChildGoesOn(pairs: seq<F.PreservedFd>, t: F.Table, ends: seq<int>, moved: seq<int>, final: F.Table, k: nat,
                         c: Config, run: seq<State>, i: nat)
    requires |ends| == |moved| && F.WellFormed(pairs, t) && F.DistinctTargets(pairs, |pairs|)
    requires F.ExclusivePipes(ends, pairs, t) && F.RemappedWithPipes(pairs, t, ends, moved, final)
    requires k < |ends| && ends[k] != -1 && ends[k] in t
    requires IsRun(c, |Holders(final, t[ends[k]])|, run) && i < |run|
    requires run[i].parent == Released && run[i].child == Waiting
    ensures |Holders(final, t[ends[k]])| == 1
    ensures exists s' :: ReadsEof(run[i], s')
  {
    F.PipeHolders(pairs, t, ends, moved, final, k);
    assert Holders(final, t[ends[k]]) == {moved[k]};
    ReleasedChildGoesOn(c, 1, run, i);
  }
}
