/**
 The label table (bpf_label_id) and the one-pass backward resolver
 (bpf_resolve_jumps), with the proof that resolving refines the symbolic program.
 */
module Labels {
  import opened Words
  import opened Bpf

  const BPF_LABELS_MAX: nat := 512
  const MAX_BPF_LABEL_LEN: nat := 32
  const UNRESOLVED: u32 := 0xffff_ffff

  datatype LabelEntry = LabelEntry(name: string, location: u32)

  function Truncate(s: string, n: nat): (r: string)
    ensures |r| <= n && r <= s && (|s| <= n ==> r == s)
  {
    if |s| <= n then s else s[..n]
  }

  /** The position of the first entry equal to a label, or the table's length. */
  function IndexOf(table: seq<string>, name: string): (i: nat)
    ensures i <= |table| && name !in table[..i]
    ensures i < |table| ==> table[i] == name
  {
    if table == [] || table[0] == name then 0 else 1 + IndexOf(table[1..], name)
  }

  /** What a lookup leaves in the table, and the id it returns (-1 when full). */
  function Intern(table: seq<string>, name: string): (r: (seq<string>, int))
    requires |table| <= BPF_LABELS_MAX
    ensures |r.0| <= BPF_LABELS_MAX && table <= r.0 && -1 <= r.1 < |r.0|
  {
    var i: int := IndexOf(table, name);
    if i < |table| then (table, i)
    else if |table| == BPF_LABELS_MAX then (table, -1)
    else (table + [Truncate(name, MAX_BPF_LABEL_LEN)], i)
  }

  lemma {:induction false} IndexStable(table: seq<string>, more: seq<string>, name: string)
    requires table <= more && name in table
    ensures IndexOf(more, name) == IndexOf(table, name) < |table|
  {
    if table[0] != name {
      assert table[1..] <= more[1..];
      IndexStable(table[1..], more[1..], name);
    }
  }

  lemma {:induction false} IndexAppend(table: seq<string>, name: string)
    requires name !in table
    ensures IndexOf(table + [name], name) == |table|
  {
    if table != [] {
      assert (table + [name])[1..] == table[1..] + [name];
      IndexAppend(table[1..], name);
    }
  }

  /** A label that fits is found again under the same id, in this table and in
      every table that grows from it. */
  lemma InternStable(table: seq<string>, more: seq<string>, name: string)
    requires |table| <= BPF_LABELS_MAX && |more| <= BPF_LABELS_MAX
    requires |name| <= MAX_BPF_LABEL_LEN && Intern(table, name).1 >= 0
    requires Intern(table, name).0 <= more
    ensures Intern(more, name) == (more, Intern(table, name).1)
  {
    var grown := Intern(table, name).0;
    if IndexOf(table, name) == |table| {
      assert table[..|table|] == table;
      IndexAppend(table, name);
    }
    assert name in grown;
    IndexStable(grown, more, name);
  }

  /** struct bpf_labels. */
  class BpfLabels {
    var labels: seq<LabelEntry>

    constructor ()
      ensures labels == []
    {
      labels := [];
    }

    ghost predicate Valid()
      reads this
    {
      |labels| <= BPF_LABELS_MAX && forall i :: 0 <= i < |labels| ==> labels[i].location == UNRESOLVED
    }

    ghost function Names(): seq<string>
      reads this
    {
      seq(|labels|, i requires 0 <= i < |labels| reads this => labels[i].name)
    }

    /** bpf_label_id: look the label up, or add it if there is room. */
    method LabelId(name: string) returns (id: int)
      requires Valid()
      modifies this
      ensures Valid()
      ensures (Names(), id) == Intern(old(Names()), name)
    {
      ghost var names := Names();
      id := 0;
      while id < |labels| && labels[id].name != name
        invariant 0 <= id <= |labels|
        invariant IndexOf(names, name) == id + IndexOf(names[id..], name)
      {
        assert names[id..][1..] == names[id + 1..];
        id := id + 1;
      }
      if id == |labels| {
        assert names[id..] == [];
        if |labels| == BPF_LABELS_MAX {
          return -1;
        }
        labels := labels + [LabelEntry(Truncate(name, MAX_BPF_LABEL_LEN), UNRESOLVED)];
        assert Names() == names + [Truncate(name, MAX_BPF_LABEL_LEN)];
      }
    }
  }

  // ----- Resolution -----

  /** Jumps from a position on name known labels placed later, and the labels from that
      position on have an entry in the table and are not repeated. */
  predicate ResolvableFrom(p: seq<Instr>, from: nat, count: nat)
    decreases |p| - from
  {
    from >= |p| ||
    (&& (IsJumpLbl(p[from]) ==> p[from].k < count && LabelFrom(p, from + 1, p[from].k).Some?)
     && (IsLbl(p[from]) ==> p[from].k < count && LabelFrom(p, from + 1, p[from].k).None?)
     && ResolvableFrom(p, from + 1, count))
  }

  predicate Resolvable(p: seq<Instr>, count: nat) {
    |p| <= BPF_MAXINSNS && ResolvableFrom(p, 0, count)
  }

  lemma {:induction false} ResolvableSuffix(p: seq<Instr>, from: nat, at: nat, count: nat)
    requires from <= at && ResolvableFrom(p, from, count)
    ensures ResolvableFrom(p, at, count)
    decreases at - from
  {
    if from < at && from < |p| {
      ResolvableSuffix(p, from + 1, at, count);
    }
  }

  lemma {:induction false} ResolvableIsUnique(p: seq<Instr>, from: nat, count: nat)
    requires ResolvableFrom(p, from, count)
    ensures UniqueFrom(p, from)
    decreases |p| - from
  {
    if from < |p| {
      ResolvableIsUnique(p, from + 1, count);
    }
  }

  /** The condition without recursion: no oversized program, no jump to an unknown
      id, no jump without a later label, no label outside the table, no repeated label. */
  lemma ResolvableMeans(p: seq<Instr>, count: nat)
    ensures Resolvable(p, count) <==>
            && |p| <= BPF_MAXINSNS
            && (forall i :: 0 <= i < |p| && IsJumpLbl(p[i]) ==>
                  p[i].k < count && exists j :: i < j < |p| && p[j] == Lbl(p[i].k))
            && (forall i :: 0 <= i < |p| && IsLbl(p[i]) ==> p[i].k < count)
            && (forall i, j :: 0 <= i < j < |p| && IsLbl(p[i]) && IsLbl(p[j]) ==> p[i].k != p[j].k)
  {
    if Resolvable(p, count) {
      forall i | 0 <= i < |p| && IsLbl(p[i])
        ensures p[i].k < count
      {
        ResolvableSuffix(p, 0, i, count);
      }
      forall i | 0 <= i < |p| && IsJumpLbl(p[i])
        ensures p[i].k < count && exists j :: i < j < |p| && p[j] == Lbl(p[i].k)
      {
        ResolvableSuffix(p, 0, i, count);
      }
      ResolvableIsUnique(p, 0, count);
      forall i, j | 0 <= i < j < |p| && IsLbl(p[i]) && IsLbl(p[j])
        ensures p[i].k != p[j].k
      {
        UniqueIds(p, 0, i, j);
      }
    } else if |p| <= BPF_MAXINSNS {
      var at := NotResolvable(p, 0, count);
      if IsJumpLbl(p[at]) && exists j :: at < j < |p| && p[j] == Lbl(p[at].k) {
        var j :| at < j < |p| && p[j] == Lbl(p[at].k);
        LabelFromFirst(p, at + 1, p[at].k, j);
      }
    }
  }

  /** Where the condition fails, one instruction is to blame; all behind it is in order. */
  lemma {:induction false} NotResolvable(p: seq<Instr>, from: nat, count: nat) returns (at: nat)
    requires !ResolvableFrom(p, from, count)
    ensures from <= at < |p| && ResolvableFrom(p, at + 1, count)
    ensures || (IsJumpLbl(p[at]) && (p[at].k >= count || LabelFrom(p, at + 1, p[at].k).None?))
            || (IsLbl(p[at]) && (p[at].k >= count || LabelFrom(p, at + 1, p[at].k).Some?))
    decreases |p| - from
  {
    if ResolvableFrom(p, from + 1, count) {
      at := from;
    } else {
      at := NotResolvable(p, from + 1, count);
    }
  }

  // ----- The walk -----

  /** How the backward walk ends: at the front, with -1, or at an entry that the table
      does not have. */
  datatype Walk = Done | Refused | OutOfTable

  /** What the walk does with an instruction, once all behind it are done. */
  function Visit(p: seq<Instr>, at: nat, count: nat): Walk
    requires at < |p|
  {
    if IsJumpLbl(p[at]) then
      if p[at].k >= count || LabelFrom(p, at + 1, p[at].k).None? then Refused else Done
    else if IsLbl(p[at]) then
      if p[at].k >= count then OutOfTable
      else if LabelFrom(p, at + 1, p[at].k).Some? then Refused
      else Done
    else Done
  }

  /** The walk from the end down to a position stops at the first thing it finds. */
  function WalkDownTo(p: seq<Instr>, from: nat, count: nat): Walk
    decreases |p| - from
  {
    if from >= |p| then Done
    else
      var behind := WalkDownTo(p, from + 1, count);
      if behind == Done then Visit(p, from, count) else behind
  }

  lemma {:induction false} WalkIsDone(p: seq<Instr>, from: nat, count: nat)
    ensures WalkDownTo(p, from, count) == Done <==> ResolvableFrom(p, from, count)
    decreases |p| - from
  {
    if from < |p| {
      WalkIsDone(p, from + 1, count);
    }
  }

  lemma {:induction false} WalkStays(p: seq<Instr>, from: nat, at: nat, count: nat)
    requires from <= at && WalkDownTo(p, at, count) != Done
    ensures WalkDownTo(p, from, count) == WalkDownTo(p, at, count)
    decreases at - from
  {
    if from < at {
      WalkStays(p, from + 1, at, count);
    }
  }

  /** The walk leaves the table exactly when some label has no entry and all behind it is in order. */
  lemma OutOfTableMeans(p: seq<Instr>, count: nat)
    ensures WalkDownTo(p, 0, count) == OutOfTable <==>
            exists at :: 0 <= at < |p| && IsLbl(p[at]) && p[at].k >= count && ResolvableFrom(p, at + 1, count)
  {
    if WalkDownTo(p, 0, count) == OutOfTable {
      WalkIsDone(p, 0, count);
      var at := NotResolvable(p, 0, count);
      WalkIsDone(p, at + 1, count);
      WalkStays(p, 0, at, count);
    }
    if at: nat :| at < |p| && IsLbl(p[at]) && p[at].k >= count && ResolvableFrom(p, at + 1, count) {
      WalkIsDone(p, at + 1, count);
      WalkStays(p, 0, at, count);
    }
  }

  // ----- The result -----

  function ResolvedAt(p: seq<Instr>, i: nat): Instr
    requires i < |p| <= BPF_MAXINSNS
  {
    if IsJumpLbl(p[i]) then
      var target := LabelFrom(p, i + 1, p[i].k);
      Stmt(JMP_JA, if target.Some? then target.value - (i + 1) else 0)
    else if IsLbl(p[i]) then Stmt(JMP_JA, 0)
    else p[i]
  }

  function Resolved(p: seq<Instr>): (q: seq<Instr>)
    requires |p| <= BPF_MAXINSNS
    ensures |q| == |p| && forall i :: 0 <= i < |p| ==> q[i] == ResolvedAt(p, i)
  {
    seq(|p|, i requires 0 <= i < |p| => ResolvedAt(p, i))
  }

  /** Rewriting labels to offsets changes no run, from no state. */
  lemma {:induction false} ResolutionPreservesRuns(p: seq<Instr>, count: nat, d: Data, pc: nat, s: Machine)
    requires Resolvable(p, count) && d.Valid()
    ensures Run(Resolved(p), d, pc, s) == RunL(p, d, pc, s)
    decreases |p| - pc
  {
    if pc < |p| {
      ResolvableSuffix(p, 0, pc, count);
      if IsLbl(p[pc]) {
        ResolutionPreservesRuns(p, count, d, pc + 1, s);
      } else if IsJumpLbl(p[pc]) {
        ResolutionPreservesRuns(p, count, d, LabelFrom(p, pc + 1, p[pc].k).value, s);
      } else {
        match Step(p[pc], d, s)
        case Stop(_) =>
        case Go(n, s') =>
          if pc + 1 + n <= |p| {
            ResolutionPreservesRuns(p, count, d, pc + 1 + n, s');
          }
      }
    }
  }

  function Location(p: seq<Instr>, from: nat, id: u32): u32
    requires |p| <= BPF_MAXINSNS
  {
    var r := LabelFrom(p, from, id);
    if r.Some? then r.value else UNRESOLVED
  }

  /** The table after the instructions from a position on have been visited. */
  ghost predicate Recorded(labels: seq<LabelEntry>, p: seq<Instr>, from: nat)
    requires |p| <= BPF_MAXINSNS
  {
    forall id: u32 :: id < |labels| ==> labels[id].location == Location(p, from, id)
  }

  lemma RecordedStep(labels: seq<LabelEntry>, p: seq<Instr>, at: nat)
    requires at < |p| <= BPF_MAXINSNS && |labels| <= BPF_LABELS_MAX
    requires Recorded(labels, p, at + 1)
    requires IsLbl(p[at]) ==> p[at].k < |labels|
    ensures Recorded(if IsLbl(p[at]) then labels[p[at].k := labels[p[at].k].(location := at)] else labels, p, at)
  {
    forall id: u32
      ensures Location(p, at, id) == if p[at] == Lbl(id) then at else Location(p, at + 1, id)
    {
    }
  }

  /** The body of the resolver's loop: fix up one instruction, or stop. */
  method ResolveOne(table: BpfLabels, filter: array<Instr>, offset: nat, ghost p: seq<Instr>) returns (r: Walk)
    requires offset < filter.Length == |p| <= BPF_MAXINSNS && filter[offset] == p[offset]
    requires |table.labels| <= BPF_LABELS_MAX && Recorded(table.labels, p, offset + 1)
    modifies table, filter
    ensures |table.labels| == old(|table.labels|)
    ensures r == Visit(p, offset, |table.labels|)
    ensures r == Done ==> Recorded(table.labels, p, offset)
    ensures r == Done ==> filter[..] == old(filter[..])[offset := ResolvedAt(p, offset)]
  {
    var instr := filter[offset];
    if IsJumpLbl(instr) {
      if instr.k >= |table.labels| || table.labels[instr.k].location == UNRESOLVED {
        return Refused;
      }
      RecordedStep(table.labels, p, offset);
      filter[offset] := Stmt(JMP_JA, table.labels[instr.k].location - (offset + 1));
    } else if IsLbl(instr) {
      if instr.k >= |table.labels| {
        return OutOfTable;
      }
      RecordedStep(table.labels, p, offset);
      if table.labels[instr.k].location != UNRESOLVED {
        return Refused;
      }
      table.labels := table.labels[instr.k := table.labels[instr.k].(location := offset)];
      filter[offset] := Stmt(JMP_JA, 0);
    } else {
      RecordedStep(table.labels, p, offset);
    }
    return Done;
  }

  lemma OverwriteFromBack(s: seq<Instr>, p: seq<Instr>, q: seq<Instr>, at: nat)
    requires |p| == |q| && at < |p| && s == p[..at + 1] + q[at + 1..]
    ensures s[at := q[at]] == p[..at] + q[at..]
  {
  }

  /** bpf_resolve_jumps, on a table without locations. */
  method ResolveJumps(table: BpfLabels, filter: array<Instr>) returns (r: Walk)
    requires table.Valid()
    modifies table, filter
    ensures r == if filter.Length > BPF_MAXINSNS then Refused else WalkDownTo(old(filter[..]), 0, old(|table.labels|))
    ensures r == Done ==> filter[..] == Resolved(old(filter[..]))
  {
    ghost var p, count := filter[..], |table.labels|;
    var n := filter.Length;
    if n > BPF_MAXINSNS {
      return Refused;
    }
    ghost var q := Resolved(p);
    for i := 0 to n
      invariant |table.labels| == count
      invariant Recorded(table.labels, p, n - i)
      invariant filter[..] == p[..n - i] + q[n - i..]
      invariant WalkDownTo(p, n - i, count) == Done
    {
      var offset := n - i - 1;
      assert n - i == offset + 1;
      OverwriteFromBack(filter[..], p, q, offset);
      r := ResolveOne(table, filter, offset, p);
      if r != Done {
        WalkStays(p, 0, offset, count);
        return;
      }
    }
    r := Done;
  }
}
