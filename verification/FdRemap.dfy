/**
 Descriptor remapping when a jail is started (get_child_fds, avoid_pipe_conflicts,
 redirect_fds): a parallel assignment of open files to descriptors, carried out with
 dup2 and close, for any mapping with distinct targets: cycles, chains and shared
 sources included.
 */
module FdRemap {
  import opened Finite
  import opened Words

  const FD_SETSIZE: int := 1024

  /** An open file description. */
  type File = nat

  datatype PreservedFd = PreservedFd(parent: int, child: int)

  datatype Status = Ok | Err | Died

  type Table = map<int, File>

  /** The descriptor table of the child process. */
  class Process {
    var fds: Table

    /** dup2(2) fails exactly when the source is not open. */
    method Dup2(from: int, to: int) returns (ok: bool)
      modifies this
      ensures ok == (from in old(fds))
      ensures fds == if ok then old(fds)[to := old(fds)[from]] else old(fds)
    {
      ok := from in fds;
      if ok {
        fds := fds[to := fds[from]];
      }
    }

    method Close(fd: int)
      modifies this
      ensures fds == old(fds) - {fd}
    {
      fds := fds - {fd};
    }
  }

  /** A descriptor that can be used as a temporary. */
  predicate Free(open: set<int>, childFds: set<int>, fd: int) {
    0 <= fd < FD_SETSIZE && fd !in childFds && fd !in open
  }

  /** The highest of them that is not above fd, or -1. */
  function HighestFree(open: set<int>, childFds: set<int>, fd: int): (r: int)
    requires -1 <= fd < FD_SETSIZE
    ensures r == -1 || (r <= fd && Free(open, childFds, r))
    ensures r == -1 ==> forall f :: 0 <= f <= fd ==> !Free(open, childFds, f)
    decreases fd + 1
  {
    if fd < 0 then -1 else if fd in childFds || fd in open then HighestFree(open, childFds, fd - 1) else fd
  }

  /** Where a conflicting descriptor goes: to its own target if that is unused. */
  function Temporary(open: set<int>, childFds: set<int>, childFd: int): (fd: int)
    requires -1 <= childFd < FD_SETSIZE
    ensures fd != -1 && childFd !in childFds ==> Free(open, childFds, fd)
    ensures childFd !in childFds ==> (fd == -1 <==> forall f :: !Free(open, childFds, f))
  {
    if childFd != -1 && childFd !in open then
      assert childFd !in childFds ==> Free(open, childFds, childFd);
      childFd
    else HighestFree(open, childFds, FD_SETSIZE - 1)
  }

  /** The open descriptors after a conflict has been looked for; None if there is one and
      no unused place. */
  function Cleared(open: set<int>, childFds: set<int>, childFd: int, parentFd: int): Option<set<int>>
    requires -1 <= childFd < FD_SETSIZE
  {
    if parentFd !in childFds then Some(open)
    else
      var fd := Temporary(open, childFds, childFd);
      if fd == -1 then None else Some(open + {fd})
  }

  /** ensure_no_fd_conflict: a descriptor that a child descriptor would replace gets
      a copy at an unused place; it dies exactly if there is no unused place. */
  method EnsureNoFdConflict(p: Process, childFds: set<int>, childFd: int, parentFd: int)
    returns (st: Status, fd: int)
    requires -1 <= childFd < FD_SETSIZE && childFd !in childFds
    modifies p
    ensures st.Ok? && parentFd !in childFds ==> fd == parentFd && p.fds == old(p.fds)
    ensures st.Ok? && parentFd in childFds ==>
              && fd == Temporary(old(p.fds).Keys, childFds, childFd) && Free(old(p.fds).Keys, childFds, fd)
              && parentFd in old(p.fds) && p.fds == old(p.fds)[fd := old(p.fds)[parentFd]]
    ensures !st.Ok? ==> p.fds == old(p.fds)
    ensures st.Ok? ==> Cleared(old(p.fds).Keys, childFds, childFd, parentFd) == Some(p.fds.Keys)
    ensures st.Err? <==> parentFd in childFds && parentFd !in old(p.fds) &&
                         Temporary(old(p.fds).Keys, childFds, childFd) != -1
    ensures st.Died? <==> Cleared(old(p.fds).Keys, childFds, childFd, parentFd).None?
  {
    fd := parentFd;
    if parentFd !in childFds {
      return Ok, fd;
    }
    fd := childFd;
    if fd == -1 || fd in p.fds {
      fd := FD_SETSIZE - 1;
      while fd in childFds || fd in p.fds
        invariant 0 <= fd < FD_SETSIZE
        invariant HighestFree(p.fds.Keys, childFds, FD_SETSIZE - 1) == HighestFree(p.fds.Keys, childFds, fd)
        decreases fd
      {
        fd := fd - 1;
        if fd < 0 {
          return Died, fd;
        }
      }
    }
    assert fd == Temporary(p.fds.Keys, childFds, childFd) && Free(p.fds.Keys, childFds, fd);
    var ok := p.Dup2(parentFd, fd);
    assert ok ==> p.fds.Keys == old(p.fds).Keys + {fd};
    st := if ok then Ok else Err;
  }

  /** The targets of the first n pairs. */
  ghost function Targets(pairs: seq<PreservedFd>, n: nat): set<int>
    requires n <= |pairs|
  {
    set i | 0 <= i < n :: pairs[i].child
  }

  ghost function Sources(pairs: seq<PreservedFd>): set<int> {
    set i | 0 <= i < |pairs| :: pairs[i].parent
  }

  ghost predicate DistinctTargets(pairs: seq<PreservedFd>, n: nat)
    requires n <= |pairs|
  {
    forall i, j :: 0 <= i < j < n ==> pairs[i].child != pairs[j].child
  }

  /** What callers of minijail_preserve_fd and FD_SET have to provide. */
  ghost predicate WellFormed(pairs: seq<PreservedFd>, fds: Table) {
    forall i :: 0 <= i < |pairs| ==>
      0 <= pairs[i].child < FD_SETSIZE && 0 <= pairs[i].parent < FD_SETSIZE && pairs[i].parent in fds
  }

  ghost predicate InRange(pairs: seq<PreservedFd>) { forall i :: 0 <= i < |pairs| ==> 0 <= pairs[i].child < FD_SETSIZE }

  /** The open descriptors after the first n pairs have been looked at; None if there was
      no temporary for one of them. */
  ghost function AfterPairs(pairs: seq<PreservedFd>, open: set<int>, n: nat): Option<set<int>>
    requires n <= |pairs| && InRange(pairs)
  {
    if n == 0 then Some(open)
    else
      var r := AfterPairs(pairs, open, n - 1);
      if r.None? then None else Cleared(r.value, Targets(pairs, n - 1), pairs[n - 1].child, pairs[n - 1].parent)
  }

  lemma {:induction false} NoneStays(pairs: seq<PreservedFd>, open: set<int>, n: nat, m: nat)
    requires n <= m <= |pairs| && InRange(pairs) && AfterPairs(pairs, open, n).None?
    ensures AfterPairs(pairs, open, m).None?
    decreases m - n
  {
    if n < m {
      NoneStays(pairs, open, n, m - 1);
    }
  }

  /** Where each source is after the first n pairs have been looked at: its file is
      there, no earlier target will replace it, and it moved only if one would have. */
  ghost predicate Relocated(before: seq<PreservedFd>, t: Table, after: seq<PreservedFd>, fds: Table, n: nat)
    requires n <= |before| == |after| && WellFormed(before, t)
  {
    && (forall i :: 0 <= i < |before| ==> after[i].child == before[i].child)
    && (forall i :: n <= i < |before| ==> after[i] == before[i])
    && (forall i :: 0 <= i < n ==> after[i].parent in fds && fds[after[i].parent] == t[before[i].parent])
    && (forall i, k :: 0 <= k < i < n ==> after[i].parent != before[k].child)
    && (forall i :: 0 <= i < n ==>
          if before[i].parent in Targets(before, i) then after[i].parent !in t else after[i].parent == before[i].parent)
    && Opened(t, after, fds, n)
  }

  /** Of the descriptors, only sources have been opened, and none has changed. */
  ghost predicate Opened(t: Table, after: seq<PreservedFd>, fds: Table, n: nat)
    requires n <= |after|
  {
    && (forall fd :: fd in t ==> fd in fds && fds[fd] == t[fd])
    && (forall fd :: fd in fds ==> fd in t || exists i :: 0 <= i < n && after[i].parent == fd)
  }

  lemma OpenedOne(t: Table, after: seq<PreservedFd>, fds: Table, n: nat, fd: int, file: nat)
    requires n < |after| && Opened(t, after, fds, n) && fd !in fds
    ensures Opened(t, after[n := after[n].(parent := fd)], fds[fd := file], n + 1)
  {
    var next := after[n := after[n].(parent := fd)];
    forall f | f in fds[fd := file] && f !in t
      ensures exists i :: 0 <= i < n + 1 && next[i].parent == f
    {
      if f in fds {
        var i :| 0 <= i < n && after[i].parent == f;
        assert next[i].parent == f;
      } else {
        assert next[n].parent == f;
      }
    }
  }

  /** One more pair, with its source left alone or copied to a free place. */
  lemma RelocateOne(before: seq<PreservedFd>, t: Table, after: seq<PreservedFd>, fds: Table, n: nat, fd: int, fds': Table)
    requires n < |before| == |after| && WellFormed(before, t) && Relocated(before, t, after, fds, n)
    requires if before[n].parent in Targets(before, n)
             then fd !in fds && fd !in Targets(before, n) && fds' == fds[fd := fds[before[n].parent]]
             else fd == before[n].parent && fds' == fds
    ensures Relocated(before, t, after[n := after[n].(parent := fd)], fds', n + 1)
  {
    if before[n].parent in Targets(before, n) {
      RelocateMoved(before, t, after, fds, n, fd);
    } else {
      RelocateKept(before, t, after, fds, n);
    }
  }

  lemma RelocateKept(before: seq<PreservedFd>, t: Table, after: seq<PreservedFd>, fds: Table, n: nat)
    requires n < |before| == |after| && WellFormed(before, t) && Relocated(before, t, after, fds, n)
    requires before[n].parent !in Targets(before, n)
    ensures Relocated(before, t, after[n := after[n].(parent := before[n].parent)], fds, n + 1)
  {
    assert after[n := after[n].(parent := before[n].parent)] == after;
    assert forall k :: 0 <= k < n ==> before[k].child in Targets(before, n);
  }

  lemma RelocateMoved(before: seq<PreservedFd>, t: Table, after: seq<PreservedFd>, fds: Table, n: nat, fd: int)
    requires n < |before| == |after| && WellFormed(before, t) && Relocated(before, t, after, fds, n)
    requires before[n].parent in Targets(before, n) && fd !in fds && fd !in Targets(before, n)
    ensures Relocated(before, t, after[n := after[n].(parent := fd)], fds[fd := fds[before[n].parent]], n + 1)
  {
    var next := after[n := after[n].(parent := fd)];
    OpenedOne(t, after, fds, n, fd, fds[before[n].parent]);
    assert fds[before[n].parent] == t[before[n].parent];
    assert before[n].parent in t && forall i :: 0 <= i < n ==> next[i] == after[i];
    assert forall k :: 0 <= k < n ==> before[k].child in Targets(before, n);
  }

  lemma {:induction false} TargetsSize(pairs: seq<PreservedFd>, n: nat)
    requires n <= |pairs|
    ensures |Targets(pairs, n)| <= n
  {
    if n > 0 {
      TargetsSize(pairs, n - 1);
      assert Targets(pairs, n) == Targets(pairs, n - 1) + {pairs[n - 1].child};
    }
  }

  lemma TargetTwice(pairs: seq<PreservedFd>, n: nat)
    requires n < |pairs| && pairs[n].child in Targets(pairs, n)
    ensures !DistinctTargets(pairs, |pairs|)
  {
    var k :| 0 <= k < n && pairs[k].child == pairs[n].child;
  }

  /** The loop body of get_child_fds: the source of pair i, out of harm's way. */
  method RelocateSource(p: Process, preserved: array<PreservedFd>, childFds: set<int>, i: nat,
                        ghost before: seq<PreservedFd>, ghost t: Table) returns (st: Status)
    requires i < preserved.Length == |before| && WellFormed(before, t)
    requires childFds == Targets(before, i) && before[i].child !in childFds
    requires Relocated(before, t, preserved[..], p.fds, i)
    modifies p, preserved
    ensures st.Ok? ==> Relocated(before, t, preserved[..], p.fds, i + 1)
    ensures !st.Err?
    ensures Cleared(old(p.fds).Keys, childFds, before[i].child, before[i].parent)
            == if st.Ok? then Some(p.fds.Keys) else None
  {
    ghost var fds, after := p.fds, preserved[..];
    assert after[i] == before[i];
    var parent;
    st, parent := EnsureNoFdConflict(p, childFds, preserved[i].child, preserved[i].parent);
    if st.Ok? {
      RelocateOne(before, t, after, fds, i, parent, p.fds);
      preserved[i] := preserved[i].(parent := parent);
      assert preserved[..] == after[i := after[i].(parent := parent)];
    }
  }

  lemma NothingRelocated(before: seq<PreservedFd>, t: Table)
    requires WellFormed(before, t)
    ensures Relocated(before, t, before, t, 0)
  {
  }

  lemma SameChild(before: seq<PreservedFd>, t: Table, after: seq<PreservedFd>, fds: Table, n: nat, i: nat)
    requires n <= |before| == |after| && i < |before| && WellFormed(before, t) && Relocated(before, t, after, fds, n)
    ensures after[i].child == before[i].child
  {
  }

  lemma NotYetRelocated(before: seq<PreservedFd>, t: Table, after: seq<PreservedFd>, fds: Table, n: nat, i: nat)
    requires n <= i < |before| == |after| && WellFormed(before, t) && Relocated(before, t, after, fds, n)
    ensures after[i] == before[i]
  {
  }

  /** get_child_fds: relocates the sources that an earlier pair would overwrite; dies
      exactly on a target given twice or for want of a temporary. */
  method GetChildFds(p: Process, preserved: array<PreservedFd>) returns (st: Status, childFds: set<int>)
    requires WellFormed(preserved[..], p.fds)
    modifies p, preserved
    ensures !st.Err?
    ensures st.Died? <==> !DistinctTargets(old(preserved[..]), preserved.Length) ||
                          AfterPairs(old(preserved[..]), old(p.fds).Keys, preserved.Length).None?
    ensures st.Ok? ==> childFds == Targets(old(preserved[..]), preserved.Length)
    ensures st.Ok? ==> Relocated(old(preserved[..]), old(p.fds), preserved[..], p.fds, preserved.Length)
    ensures st.Ok? ==> AfterPairs(old(preserved[..]), old(p.fds).Keys, preserved.Length) == Some(p.fds.Keys)
  {
    hide Relocated, Cleared;
    ghost var before, t := preserved[..], p.fds;
    childFds := {};
    NothingRelocated(before, t);
    for i := 0 to preserved.Length
      invariant childFds == Targets(before, i) && DistinctTargets(before, i)
      invariant Relocated(before, t, preserved[..], p.fds, i)
      invariant AfterPairs(before, t.Keys, i) == Some(p.fds.Keys)
    {
      NotYetRelocated(before, t, preserved[..], p.fds, i, i);
      if preserved[i].child in childFds {
        TargetTwice(before, i);
        return Died, childFds;
      }
      st := RelocateSource(p, preserved, childFds, i, before, t);
      if !st.Ok? {
        NoneStays(before, t.Keys, i + 1, |before|);
        return;
      }
      assert preserved[..][i].child == before[i].child by {
        SameChild(before, t, preserved[..], p.fds, i + 1, i);
      }
      childFds := childFds + {preserved[i].child};
    }
    st := Ok;
  }

  /** The open descriptors after the first n pipe ends have been looked at. */
  ghost function AfterEnds(ends: seq<int>, childFds: set<int>, open: set<int>, n: nat): Option<set<int>>
    requires n <= |ends|
  {
    if n == 0 then Some(open)
    else
      var r := AfterEnds(ends, childFds, open, n - 1);
      if r.None? || ends[n - 1] == -1 then r else Cleared(r.value, childFds, -1, ends[n - 1])
  }

  lemma {:induction false} NoneStaysBehind(ends: seq<int>, childFds: set<int>, open: set<int>, n: nat, m: nat)
    requires n <= m <= |ends| && AfterEnds(ends, childFds, open, n).None?
    ensures AfterEnds(ends, childFds, open, m).None?
    decreases m - n
  {
    if n < m {
      NoneStaysBehind(ends, childFds, open, n, m - 1);
    }
  }

  /** avoid_pipe_conflicts, and the same treatment of elf_fd: each entry is a
      descriptor or -1. */
  method AvoidPipeConflicts(p: Process, childFds: set<int>, pipes: array<int>) returns (st: Status)
    requires forall k :: 0 <= k < pipes.Length && pipes[k] != -1 ==> pipes[k] in p.fds
    requires -1 !in childFds
    modifies p, pipes
    ensures !st.Err?
    ensures st.Ok? ==> Avoided(childFds, old(pipes[..]), old(p.fds), pipes[..], p.fds, pipes.Length)
    ensures st.Died? <==> AfterEnds(old(pipes[..]), childFds, old(p.fds).Keys, pipes.Length).None?
  {
    hide Cleared, Temporary;
    ghost var before, t := pipes[..], p.fds;
    for k := 0 to pipes.Length
      invariant Avoided(childFds, before, t, pipes[..], p.fds, k)
      invariant AfterEnds(before, childFds, t.Keys, k) == Some(p.fds.Keys)
    {
      ghost var after, fds := pipes[..], p.fds;
      if pipes[k] != -1 {
        var fd;
        st, fd := EnsureNoFdConflict(p, childFds, -1, pipes[k]);
        if !st.Ok? {
          NoneStaysBehind(before, childFds, t.Keys, k + 1, |before|);
          return;
        }
        pipes[k] := fd;
      }
      AvoidOne(childFds, before, t, after, fds, k, pipes[k], p.fds);
      assert pipes[..] == after[k := pipes[k]];
    }
    st := Ok;
  }

  /** No pipe is where a target will be; a pipe moved only if it had to, to a place
      that was not open, and nothing else was opened or changed. */
  ghost predicate Avoided(childFds: set<int>, before: seq<int>, t: Table, after: seq<int>, fds: Table, n: nat)
    requires n <= |before| == |after|
  {
    && (forall k :: n <= k < |before| ==> after[k] == before[k])
    && (forall k :: 0 <= k < n && before[k] != -1 ==>
          && after[k] !in childFds && before[k] in t && after[k] in fds && fds[after[k]] == t[before[k]]
          && (if before[k] in childFds then after[k] !in t else after[k] == before[k]))
    && (forall k :: 0 <= k < n && before[k] == -1 ==> after[k] == -1)
    && (forall fd :: fd in t ==> fd in fds && fds[fd] == t[fd])
    && (forall fd :: fd in fds ==> fd in t || exists k :: 0 <= k < n && before[k] != -1 && after[k] == fd)
  }

  lemma AvoidOne(childFds: set<int>, before: seq<int>, t: Table, after: seq<int>, fds: Table, n: nat, fd: int, fds': Table)
    requires n < |before| == |after| && Avoided(childFds, before, t, after, fds, n)
    requires if before[n] == -1 then fd == -1 && fds' == fds
             else if before[n] in childFds
             then before[n] in t && fd !in fds && fd !in childFds && fds' == fds[fd := fds[before[n]]]
             else before[n] in t && fd == before[n] && fds' == fds
    ensures Avoided(childFds, before, t, after[n := fd], fds', n + 1)
  {
    var next := after[n := fd];
    assert forall k :: 0 <= k < n ==> next[k] == after[k];
    forall f | f in fds'
      ensures f in t || exists k :: 0 <= k < n + 1 && before[k] != -1 && next[k] == f
    {
      if f !in t && f in fds {
        var k :| 0 <= k < n && before[k] != -1 && after[k] == f;
        assert next[k] == f;
      } else if f !in t {
        assert next[n] == f;
      }
    }
  }

  lemma OneMoreTarget(pairs: seq<PreservedFd>, i: nat)
    requires i < |pairs|
    requires forall k :: 0 <= k < i ==> pairs[i].parent != pairs[k].child
    ensures pairs[i].parent !in Targets(pairs, i)
    ensures Targets(pairs, i + 1) == Targets(pairs, i) + {pairs[i].child}
  {
  }

  /** redirect_fds, first loop: every target gets its source's file. */
  method DupAll(p: Process, preserved: array<PreservedFd>) returns (st: Status)
    requires DistinctTargets(preserved[..], preserved.Length)
    requires forall i :: 0 <= i < preserved.Length ==> preserved[i].parent in p.fds
    requires forall i, k :: 0 <= k < i < preserved.Length ==> preserved[i].parent != preserved[k].child
    modifies p
    ensures st.Ok?
    ensures forall i :: 0 <= i < preserved.Length ==>
              preserved[i].child in p.fds && p.fds[preserved[i].child] == old(p.fds)[preserved[i].parent]
    ensures forall fd :: fd !in Targets(preserved[..], preserved.Length) ==>
              (fd in p.fds <==> fd in old(p.fds)) && (fd in p.fds ==> p.fds[fd] == old(p.fds)[fd])
  {
    hide Targets;
    ghost var t, pairs := p.fds, preserved[..];
    for i := 0 to preserved.Length
      invariant forall k :: 0 <= k < i ==> pairs[k].child in p.fds && p.fds[pairs[k].child] == t[pairs[k].parent]
      invariant forall fd :: fd !in Targets(pairs, i) ==> (fd in p.fds <==> fd in t) && (fd in p.fds ==> p.fds[fd] == t[fd])
    {
      OneMoreTarget(pairs, i);
      if preserved[i].parent != preserved[i].child {
        var ok := p.Dup2(preserved[i].parent, preserved[i].child);
        if !ok {
          return Err;
        }
      }
    }
    st := Ok;
  }

  /** redirect_fds, second loop: close the sources that are not targets. */
  method CloseSources(p: Process, preserved: array<PreservedFd>, childFds: set<int>)
    modifies p
    ensures p.fds == old(p.fds) - (Sources(preserved[..]) - childFds)
  {
    ghost var t, pairs := p.fds, preserved[..];
    for i := 0 to preserved.Length
      invariant p.fds == t - (Sources(pairs[..i]) - childFds)
    {
      assert Sources(pairs[..i + 1]) == Sources(pairs[..i]) + {pairs[i].parent} by {
        assert pairs[..i + 1] == pairs[..i] + [pairs[i]];
        assert forall k :: 0 <= k < i ==> pairs[..i + 1][k] == pairs[..i][k];
      }
      if preserved[i].parent !in childFds {
        p.Close(preserved[i].parent);
      }
    }
    assert pairs[..|pairs|] == pairs;
  }

  // ----- The whole remapping -----

  /** The intended result for the mapped descriptors: targets hold what their sources
      held, sources that are not targets are closed, everything else stays. */
  ghost function Assigned(pairs: seq<PreservedFd>, t: Table): Table
    requires WellFormed(pairs, t) && DistinctTargets(pairs, |pairs|)
  {
    map fd | fd in (t.Keys - Sources(pairs)) + Targets(pairs, |pairs|) ::
      if fd in Targets(pairs, |pairs|) then t[SourceOf(pairs, fd)] else t[fd]
  }

  ghost function SourceOf(pairs: seq<PreservedFd>, child: int): (parent: int)
    requires child in Targets(pairs, |pairs|)
    ensures exists i :: 0 <= i < |pairs| && pairs[i] == PreservedFd(parent, child)
  {
    var i :| 0 <= i < |pairs| && pairs[i].child == child;
    pairs[i].parent
  }

  lemma SourceOfIs(pairs: seq<PreservedFd>, i: nat)
    requires i < |pairs| && DistinctTargets(pairs, |pairs|)
    ensures pairs[i].child in Targets(pairs, |pairs|)
    ensures SourceOf(pairs, pairs[i].child) == pairs[i].parent
  {
  }

  /** The effect of the two loops of redirect_fds on relocated sources. */
  ghost predicate Redirected(after: seq<PreservedFd>, fds: Table, dupped: Table, final: Table) {
    && (forall i :: 0 <= i < |after| ==> after[i].parent in fds && after[i].child in dupped &&
                                         dupped[after[i].child] == fds[after[i].parent])
    && (forall fd :: fd !in Targets(after, |after|) ==>
          (fd in dupped <==> fd in fds) && (fd in dupped ==> dupped[fd] == fds[fd]))
    && final == dupped - (Sources(after) - Targets(after, |after|))
  }

  /** redirect_fds. */
  method RedirectFds(p: Process, preserved: array<PreservedFd>, childFds: set<int>)
    returns (st: Status, ghost dupped: Table)
    requires DistinctTargets(preserved[..], preserved.Length) && childFds == Targets(preserved[..], preserved.Length)
    requires forall i :: 0 <= i < preserved.Length ==> preserved[i].parent in p.fds
    requires forall i, k :: 0 <= k < i < preserved.Length ==> preserved[i].parent != preserved[k].child
    modifies p
    ensures st.Ok? && Redirected(preserved[..], old(p.fds), dupped, p.fds)
  {
    hide DistinctTargets, Targets, Sources;
    st := DupAll(p, preserved);
    dupped := p.fds;
    CloseSources(p, preserved, childFds);
  }

  /** get_child_fds followed by redirect_fds: the parallel assignment, exactly. */
  method RemapFds(p: Process, preserved: array<PreservedFd>) returns (st: Status)
    requires WellFormed(preserved[..], p.fds)
    modifies p, preserved
    ensures !st.Err?
    ensures st.Died? <==> !DistinctTargets(old(preserved[..]), preserved.Length) ||
                          AfterPairs(old(preserved[..]), old(p.fds).Keys, preserved.Length).None?
    ensures st.Ok? ==> p.fds == Assigned(old(preserved[..]), old(p.fds))
  {
    hide Relocated, Redirected, Assigned, Targets, Sources, WellFormed;
    ghost var before, t := preserved[..], p.fds;
    var childFds;
    st, childFds := GetChildFds(p, preserved);
    if !st.Ok? {
      return;
    }
    ghost var after, fds := preserved[..], p.fds;
    RelocatedReady(before, t, after, fds);
    ghost var dupped;
    st, dupped := RedirectFds(p, preserved, childFds);
    RemapIsAssigned(before, t, after, fds, dupped, p.fds);
  }

  lemma RelocatedReady(before: seq<PreservedFd>, t: Table, after: seq<PreservedFd>, fds: Table)
    requires |before| == |after| && WellFormed(before, t) && DistinctTargets(before, |before|)
    requires Relocated(before, t, after, fds, |before|)
    ensures DistinctTargets(after, |after|) && Targets(after, |after|) == Targets(before, |before|)
    ensures forall i :: 0 <= i < |after| ==> after[i].parent in fds
    ensures forall i, k :: 0 <= k < i < |after| ==> after[i].parent != after[k].child
  {
  }

  lemma RemapIsAssigned(before: seq<PreservedFd>, t: Table, after: seq<PreservedFd>, fds: Table, dupped: Table, final: Table)
    requires |before| == |after| && WellFormed(before, t) && DistinctTargets(before, |before|)
    requires Relocated(before, t, after, fds, |before|) && Redirected(after, fds, dupped, final)
    ensures final == Assigned(before, t)
  {
    hide WellFormed, Relocated, Redirected;
    forall fd
      ensures AssignedAt(before, t, final, fd)
    {
      if fd in Targets(before, |before|) {
        TargetAssigned(before, t, after, fds, dupped, final, fd);
      } else {
        OtherAssigned(before, t, after, fds, dupped, final, fd);
      }
    }
    AssignedIs(before, t, final);
  }

  /** The final table is right at one descriptor. */
  ghost predicate AssignedAt(before: seq<PreservedFd>, t: Table, final: Table, fd: int)
    requires WellFormed(before, t)
  {
    if fd in Targets(before, |before|) then SourceOf(before, fd) in t && fd in final && final[fd] == t[SourceOf(before, fd)]
    else (fd in final <==> fd in t && fd !in Sources(before)) && (fd in final ==> final[fd] == t[fd])
  }

  lemma AssignedIs(before: seq<PreservedFd>, t: Table, final: Table)
    requires WellFormed(before, t) && DistinctTargets(before, |before|)
    requires forall fd :: AssignedAt(before, t, final, fd)
    ensures final == Assigned(before, t)
  {
    forall fd
      ensures fd in final <==> fd in Assigned(before, t)
      ensures fd in final ==> final[fd] == Assigned(before, t)[fd]
    {
      assert AssignedAt(before, t, final, fd);
    }
  }

  lemma TargetAssigned(before: seq<PreservedFd>, t: Table, after: seq<PreservedFd>, fds: Table, dupped: Table, final: Table,
                       fd: int)
    requires |before| == |after| && WellFormed(before, t) && DistinctTargets(before, |before|)
    requires Relocated(before, t, after, fds, |before|) && Redirected(after, fds, dupped, final)
    requires fd in Targets(before, |before|)
    ensures AssignedAt(before, t, final, fd)
  {
    RelocatedReady(before, t, after, fds);
    var i :| 0 <= i < |before| && before[i].child == fd;
    SourceOfIs(before, i);
    assert after[i].child == fd;
  }

  lemma OtherAssigned(before: seq<PreservedFd>, t: Table, after: seq<PreservedFd>, fds: Table, dupped: Table, final: Table,
                      fd: int)
    requires |before| == |after| && WellFormed(before, t) && DistinctTargets(before, |before|)
    requires Relocated(before, t, after, fds, |before|) && Redirected(after, fds, dupped, final)
    requires fd !in Targets(before, |before|)
    ensures AssignedAt(before, t, final, fd)
  {
    hide Relocated, WellFormed, Targets, Sources, DistinctTargets;
    RelocatedReady(before, t, after, fds);
    SourcesKept(before, t, after, fds, fd);
  }

  lemma TargetsGrow(pairs: seq<PreservedFd>, n: nat)
    requires n <= |pairs|
    ensures Targets(pairs, n) <= Targets(pairs, |pairs|)
  {
  }

  /** Outside the targets, the relocated sources are the old sources and the temporaries. */
  lemma SourcesKept(before: seq<PreservedFd>, t: Table, after: seq<PreservedFd>, fds: Table, fd: int)
    requires |before| == |after| && WellFormed(before, t) && Relocated(before, t, after, fds, |before|)
    requires fd !in Targets(before, |before|)
    ensures fd in t ==> (fd in Sources(after) <==> fd in Sources(before)) && fd in fds && fds[fd] == t[fd]
    ensures fd in fds && fd !in t ==> fd in Sources(after)
  {
    if fd in t && fd in Sources(before) {
      var i :| 0 <= i < |before| && before[i].parent == fd;
      TargetsGrow(before, i);
      assert after[i].parent == fd;
    }
    if fd in t && fd in Sources(after) {
      var i :| 0 <= i < |after| && after[i].parent == fd;
      assert before[i].parent == fd;
    }
  }

  // ----- With the pipes of the run state -----

  /** The descriptor is open, is no source, and alone holds its file. */
  ghost predicate Exclusive(fd: int, pairs: seq<PreservedFd>, t: Table) {
    fd in t && fd !in Sources(pairs) && forall f :: f in t && t[f] == t[fd] ==> f == fd
  }

  /** Every pipe end in use is exclusive, and no two are the same descriptor. */
  ghost predicate ExclusivePipes(pipes: seq<int>, pairs: seq<PreservedFd>, t: Table) {
    && (forall k :: 0 <= k < |pipes| && pipes[k] != -1 ==> Exclusive(pipes[k], pairs, t))
    && (forall k, m :: 0 <= k < m < |pipes| && pipes[k] != -1 ==> pipes[k] != pipes[m])
  }

  ghost predicate IsPipe(before: seq<int>, after: seq<int>, fd: int)
    requires |before| == |after|
  {
    exists k :: 0 <= k < |after| && before[k] != -1 && after[k] == fd
  }

  /** The result with pipes: targets as assigned, pipes where the run state says,
      sources closed, everything else untouched. */
  ghost predicate RemappedWithPipes(pairs: seq<PreservedFd>, t: Table, before: seq<int>, after: seq<int>, final: Table)
    requires |before| == |after| && WellFormed(pairs, t) && DistinctTargets(pairs, |pairs|)
  {
    var targets := Targets(pairs, |pairs|);
    && (forall fd :: fd in targets ==> fd in final && final[fd] == t[SourceOf(pairs, fd)])
    && (forall fd :: fd !in targets ==> (fd in final <==> (fd in t && fd !in Sources(pairs)) || IsPipe(before, after, fd)))
    && (forall fd :: fd !in targets && fd in t && fd !in Sources(pairs) ==> fd in final && final[fd] == t[fd])
    && (forall k :: 0 <= k < |after| && before[k] != -1 ==>
          && before[k] in t && after[k] !in targets && after[k] in final && final[after[k]] == t[before[k]]
          && (before[k] !in targets ==> after[k] == before[k]))
  }

  /** There is a temporary for each conflict, first among the pairs and then of the pipe ends. */
  ghost predicate RoomForAll(pairs: seq<PreservedFd>, ends: seq<int>, open: set<int>)
    requires InRange(pairs)
  {
    var r := AfterPairs(pairs, open, |pairs|);
    r.Some? && AfterEnds(ends, Targets(pairs, |pairs|), r.value, |ends|).Some?
  }

  /** The descriptor set-up of the child: get_child_fds, avoid_pipe_conflicts, redirect_fds. */
  method SetUpChildFds(p: Process, preserved: array<PreservedFd>, pipes: array<int>) returns (st: Status)
    requires WellFormed(preserved[..], p.fds) && ExclusivePipes(pipes[..], preserved[..], p.fds)
    modifies p, preserved, pipes
    ensures !st.Err?
    ensures st.Died? <==> !DistinctTargets(old(preserved[..]), preserved.Length) ||
                          !RoomForAll(old(preserved[..]), old(pipes[..]), old(p.fds).Keys)
    ensures st.Ok? ==> RemappedWithPipes(old(preserved[..]), old(p.fds), old(pipes[..]), pipes[..], p.fds)
  {
    ghost var pairs, t, ends := preserved[..], p.fds, pipes[..];
    var childFds;
    st, childFds := GetChildFds(p, preserved);
    if !st.Ok? {
      return;
    }
    ghost var after, fds := preserved[..], p.fds;
    assert forall k :: 0 <= k < pipes.Length ==> pipes[k] == ends[k];
    st := AvoidPipeConflicts(p, childFds, pipes);
    if !st.Ok? {
      return;
    }
    ghost var more := p.fds;
    RelocatedReady(pairs, t, after, fds);
    ghost var dupped;
    st, dupped := RedirectFds(p, preserved, childFds);
    RedirectWithPipes(pairs, t, after, fds, ends, pipes[..], more, dupped, p.fds);
  }

  lemma RedirectWithPipes(pairs: seq<PreservedFd>, t: Table, after: seq<PreservedFd>, fds: Table,
                          ends: seq<int>, moved: seq<int>, more: Table, dupped: Table, final: Table)
    requires |pairs| == |after| && |ends| == |moved| && WellFormed(pairs, t) && DistinctTargets(pairs, |pairs|)
    requires ExclusivePipes(ends, pairs, t) && Relocated(pairs, t, after, fds, |pairs|)
    requires Avoided(Targets(pairs, |pairs|), ends, fds, moved, more, |ends|) && Redirected(after, more, dupped, final)
    ensures RemappedWithPipes(pairs, t, ends, moved, final)
  {
    hide DistinctTargets, Relocated, Avoided, Redirected, Sources, ExclusivePipes, IsPipe;
    var targets := Targets(pairs, |pairs|);
    forall fd
      ensures fd in targets ==> fd in final && final[fd] == t[SourceOf(pairs, fd)]
      ensures fd !in targets ==> (fd in final <==> (fd in t && fd !in Sources(pairs)) || IsPipe(ends, moved, fd))
      ensures fd !in targets && fd in t && fd !in Sources(pairs) ==> fd in final && final[fd] == t[fd]
    {
      if fd in targets {
        TargetWithPipes(pairs, t, after, fds, ends, moved, more, dupped, final, fd);
      } else {
        OtherWithPipes(pairs, t, after, fds, ends, moved, more, dupped, final, fd);
      }
    }
    forall k | 0 <= k < |moved| && ends[k] != -1
      ensures ends[k] in t && moved[k] !in targets && moved[k] in final && final[moved[k]] == t[ends[k]]
      ensures ends[k] !in targets ==> moved[k] == ends[k]
    {
      PipeInPlace(pairs, t, after, fds, ends, moved, more, dupped, final, k);
    }
  }

  lemma TargetWithPipes(pairs: seq<PreservedFd>, t: Table, after: seq<PreservedFd>, fds: Table,
                        ends: seq<int>, moved: seq<int>, more: Table, dupped: Table, final: Table, fd: int)
    requires |pairs| == |after| && |ends| == |moved| && WellFormed(pairs, t) && DistinctTargets(pairs, |pairs|)
    requires Relocated(pairs, t, after, fds, |pairs|)
    requires Avoided(Targets(pairs, |pairs|), ends, fds, moved, more, |ends|) && Redirected(after, more, dupped, final)
    requires fd in Targets(pairs, |pairs|)
    ensures SourceOf(pairs, fd) in t && fd in final && final[fd] == t[SourceOf(pairs, fd)]
  {
    RelocatedReady(pairs, t, after, fds);
    var i :| 0 <= i < |pairs| && pairs[i].child == fd;
    SourceOfIs(pairs, i);
    assert after[i].child == fd;
  }

  lemma OtherWithPipes(pairs: seq<PreservedFd>, t: Table, after: seq<PreservedFd>, fds: Table,
                       ends: seq<int>, moved: seq<int>, more: Table, dupped: Table, final: Table, fd: int)
    requires |pairs| == |after| && |ends| == |moved| && WellFormed(pairs, t) && DistinctTargets(pairs, |pairs|)
    requires ExclusivePipes(ends, pairs, t) && Relocated(pairs, t, after, fds, |pairs|)
    requires Avoided(Targets(pairs, |pairs|), ends, fds, moved, more, |ends|) && Redirected(after, more, dupped, final)
    requires fd !in Targets(pairs, |pairs|)
    ensures fd in final <==> (fd in t && fd !in Sources(pairs)) || IsPipe(ends, moved, fd)
    ensures fd in t && fd !in Sources(pairs) ==> fd in final && final[fd] == t[fd]
  {
    hide WellFormed, Relocated, ExclusivePipes, Targets, Sources;
    RelocatedReady(pairs, t, after, fds);
    SourcesKept(pairs, t, after, fds, fd);
    if IsPipe(ends, moved, fd) {
      PipeIsKept(pairs, t, after, fds, ends, moved, more, fd);
    }
  }

  lemma PipeInPlace(pairs: seq<PreservedFd>, t: Table, after: seq<PreservedFd>, fds: Table,
                    ends: seq<int>, moved: seq<int>, more: Table, dupped: Table, final: Table, k: nat)
    requires |pairs| == |after| && |ends| == |moved| && WellFormed(pairs, t) && DistinctTargets(pairs, |pairs|)
    requires ExclusivePipes(ends, pairs, t) && Relocated(pairs, t, after, fds, |pairs|)
    requires Avoided(Targets(pairs, |pairs|), ends, fds, moved, more, |ends|) && Redirected(after, more, dupped, final)
    requires k < |moved| && ends[k] != -1
    ensures ends[k] in t && moved[k] !in Targets(pairs, |pairs|)
    ensures moved[k] in final && final[moved[k]] == t[ends[k]]
    ensures ends[k] !in Targets(pairs, |pairs|) ==> moved[k] == ends[k]
  {
    hide WellFormed, Targets, Sources;
    RelocatedReady(pairs, t, after, fds);
    SourcesKept(pairs, t, after, fds, moved[k]);
    assert IsPipe(ends, moved, moved[k]);
    PipeIsKept(pairs, t, after, fds, ends, moved, more, moved[k]);
  }

  /** No pipe descriptor is among the sources that redirect_fds closes. */
  lemma PipeIsKept(pairs: seq<PreservedFd>, t: Table, after: seq<PreservedFd>, fds: Table,
                   ends: seq<int>, moved: seq<int>, more: Table, fd: int)
    requires |pairs| == |after| && |ends| == |moved| && WellFormed(pairs, t) && DistinctTargets(pairs, |pairs|)
    requires ExclusivePipes(ends, pairs, t) && Relocated(pairs, t, after, fds, |pairs|)
    requires Avoided(Targets(pairs, |pairs|), ends, fds, moved, more, |ends|) && IsPipe(ends, moved, fd)
    ensures fd !in Targets(pairs, |pairs|) && fd in more && fd !in Sources(after)
  {
    var k :| 0 <= k < |moved| && ends[k] != -1 && moved[k] == fd;
    SourcesKept(pairs, t, after, fds, fd);
    assert Exclusive(ends[k], pairs, t);
    assert forall i :: 0 <= i < |after| ==> after[i].parent in fds;
  }

  /** No hidden copies: afterwards each pipe end is held by the one descriptor recorded
      in the run state, so closing that one closes the end. */
  lemma PipesHaveOneHolder(pairs: seq<PreservedFd>, t: Table, ends: seq<int>, moved: seq<int>, final: Table, k: nat, fd: int)
    requires |ends| == |moved| && WellFormed(pairs, t) && DistinctTargets(pairs, |pairs|)
    requires ExclusivePipes(ends, pairs, t) && RemappedWithPipes(pairs, t, ends, moved, final)
    requires k < |ends| && ends[k] != -1 && fd in final && final[fd] == t[ends[k]]
    ensures fd == moved[k]
  {
    assert Exclusive(ends[k], pairs, t);
    if fd in Targets(pairs, |pairs|) {
      SourceHoldsNoPipe(pairs, t, ends[k], fd);
    } else if IsPipe(ends, moved, fd) {
      var m :| 0 <= m < |moved| && ends[m] != -1 && moved[m] == fd;
      assert t[ends[m]] == t[ends[k]];
      assert m == k;
    } else {
      assert fd in t && t[fd] == t[ends[k]];
    }
  }

  /** The holders of a pipe end, as a set. */
  lemma PipeHolders(pairs: seq<PreservedFd>, t: Table, ends: seq<int>, moved: seq<int>, final: Table, k: nat)
    requires |ends| == |moved| && WellFormed(pairs, t) && DistinctTargets(pairs, |pairs|)
    requires ExclusivePipes(ends, pairs, t) && RemappedWithPipes(pairs, t, ends, moved, final)
    requires k < |ends| && ends[k] != -1
    ensures (set fd | fd in final && final[fd] == t[ends[k]]) == {moved[k]}
  {
    forall fd | fd in final && final[fd] == t[ends[k]]
      ensures fd == moved[k]
    {
      PipesHaveOneHolder(pairs, t, ends, moved, final, k, fd);
    }
  }

  lemma SourceHoldsNoPipe(pairs: seq<PreservedFd>, t: Table, pipe: int, fd: int)
    requires WellFormed(pairs, t) && DistinctTargets(pairs, |pairs|) && Exclusive(pipe, pairs, t)
    requires fd in Targets(pairs, |pairs|)
    ensures t[SourceOf(pairs, fd)] != t[pipe]
  {
    var i :| 0 <= i < |pairs| && pairs[i].child == fd;
    SourceOfIs(pairs, i);
    assert pairs[i].parent in Sources(pairs);
  }

  /** Searching for a temporary can only fail when FD_SETSIZE descriptors are taken. */
  lemma SearchFailsOnlyWhenFull(open: set<int>, childFds: set<int>)
    requires forall f :: !Free(open, childFds, f)
    ensures |open| + |childFds| >= FD_SETSIZE
  {
    forall f | f in Below(FD_SETSIZE)
      ensures f in open + childFds
    {
      assert !Free(open, childFds, f);
    }
    SubsetSize(Below(FD_SETSIZE), open + childFds);
    assert |open + childFds| + |open * childFds| == |open| + |childFds|;
  }

  /** So there are temporaries if open descriptors and twice the pairs fit below the limit. */
  lemma {:induction false} RoomForPairs(pairs: seq<PreservedFd>, open: set<int>, n: nat)
    requires n <= |pairs| && InRange(pairs) && DistinctTargets(pairs, n) && |open| + 2 * n <= FD_SETSIZE
    ensures AfterPairs(pairs, open, n).Some? && |AfterPairs(pairs, open, n).value| <= |open| + n
  {
    if n > 0 {
      RoomForPairs(pairs, open, n - 1);
      var r, childFds, pair := AfterPairs(pairs, open, n - 1).value, Targets(pairs, n - 1), pairs[n - 1];
      TargetsSize(pairs, n - 1);
      ClearedSize(r, childFds, pair.child, pair.parent);
    }
  }

  lemma ClearedSize(open: set<int>, childFds: set<int>, childFd: int, parentFd: int)
    requires -1 <= childFd < FD_SETSIZE && childFd !in childFds && |open| + |childFds| < FD_SETSIZE
    ensures var r := Cleared(open, childFds, childFd, parentFd);
      r.Some? && |r.value| <= |open| + 1
  {
    if Cleared(open, childFds, childFd, parentFd).None? {
      SearchFailsOnlyWhenFull(open, childFds);
    }
  }

  lemma {:induction false} RoomForEnds(ends: seq<int>, childFds: set<int>, open: set<int>, n: nat)
    requires n <= |ends| && -1 !in childFds && |open| + |childFds| + n <= FD_SETSIZE
    ensures AfterEnds(ends, childFds, open, n).Some? && |AfterEnds(ends, childFds, open, n).value| <= |open| + n
  {
    if n > 0 {
      RoomForEnds(ends, childFds, open, n - 1);
      ClearedSize(AfterEnds(ends, childFds, open, n - 1).value, childFds, -1, ends[n - 1]);
    }
  }

  /** The same with the pipe ends. */
  lemma RoomFits(pairs: seq<PreservedFd>, ends: seq<int>, open: set<int>)
    requires InRange(pairs) && DistinctTargets(pairs, |pairs|)
    requires |open| + 2 * |pairs| + |ends| <= FD_SETSIZE
    ensures RoomForAll(pairs, ends, open)
  {
    RoomForPairs(pairs, open, |pairs|);
    TargetsSize(pairs, |pairs|);
    RoomForEnds(ends, Targets(pairs, |pairs|), AfterPairs(pairs, open, |pairs|).value, |ends|);
  }

  /** Exchanging two descriptors needs a temporary, and there is none when all are open. */
  lemma ExchangeNeedsRoom(open: set<int>)
    requires forall f :: 0 <= f < FD_SETSIZE ==> f in open
    ensures AfterPairs([PreservedFd(0, 1), PreservedFd(1, 0)], open, 2).None?
  {
    var pairs := [PreservedFd(0, 1), PreservedFd(1, 0)];
    assert pairs[0].child in Targets(pairs, 1) && AfterPairs(pairs, open, 0) == Some(open);
    assert Targets(pairs, 0) == {} && 0 !in Targets(pairs, 1);
    assert AfterPairs(pairs, open, 1) == Some(open);
  }

  ghost function Below(n: nat): (s: set<int>)
    ensures |s| == n && forall f :: f in s <==> 0 <= f < n
  {
    if n == 0 then {} else Below(n - 1) + {n - 1}
  }
}
