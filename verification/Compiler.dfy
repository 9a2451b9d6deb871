/**
 The compiler of syscall_filter.c in its own form: it walks lines, groups and
 atoms, interns labels in a shared table, appends blocks to linked lists, flattens
 the lists into the final buffer and resolves the labels there. Each method is
 proved to produce what the functions of Compile describe.
 */
module Compiler {
  import opened Words
  import opened Bpf
  import opened Emit
  import opened Labels
  import opened Blocks
  import opened Policy
  import opened Compile

  lemma PrependTwice(a: seq<seq<Instr>>, b: seq<seq<Instr>>, r: Result<Code>)
    ensures Prepend(a, Prepend(b, r)) == Prepend(a + b, r)
  {
    if r.Ok? {
      assert a + (b + r.value.blocks) == a + b + r.value.blocks;
    }
  }

  lemma PrependNothing(r: Result<Code>)
    ensures Prepend([], r) == r
  {
    if r.Ok? {
      assert [] + r.value.blocks == r.value.blocks;
    }
  }

  lemma Assoc(a: seq<seq<Instr>>, b: seq<seq<Instr>>, c: seq<seq<Instr>>)
    ensures a + b + c == a + (b + c)
  {
  }

  lemma TwoMore(a: seq<seq<Instr>>, x: seq<Instr>, y: seq<Instr>)
    ensures a + [x] + [y] == a + [x, y]
  {
  }

  /** A step ends as described: with this table and having appended these blocks. */
  ghost predicate Agrees(spec: Result<Code>, r: Result<()>, table: seq<string>, blocks: seq<seq<Instr>>) {
    && r.Ok? == spec.Ok? && r.Failed? == spec.Failed?
    && (r.Ok? ==> spec.value.table == table && spec.value.blocks == blocks)
  }

  method CompileOneAtom(labels: BpfLabels, list: FilterList, a: Atom, nr: u32, group: nat)
    returns (r: Result<()>, ghost blocks: seq<seq<Instr>>)
    requires labels.Valid() && list.Valid()
    modifies labels, list, list.Repr
    ensures labels.Valid() && list.Valid() && fresh(list.Repr - old(list.Repr))
    ensures list.codes == old(list.codes) + blocks
    ensures Agrees(CompileAtom(old(labels.Names()), nr, group, a), r, labels.Names(), blocks)
  {
    blocks := [];
    if a.BadAtom? {
      return Failed, [];
    }
    var id := labels.LabelId(GroupEndLabel(nr, group));
    if id < 0 {
      return Died, [];
    }
    var filter := EmitArgComp(a.op, a.argidx, a.c, id);
    list.Add(filter[..]);
    return Ok(()), [filter[..]];
  }

  /** The inner loop of compile_policy_line: the atoms of one group. */
  method CompileGroupAtoms(labels: BpfLabels, list: FilterList, atoms: seq<Atom>, nr: u32, group: nat)
    returns (r: Result<()>, ghost blocks: seq<seq<Instr>>)
    requires labels.Valid() && list.Valid()
    modifies labels, list, list.Repr
    ensures labels.Valid() && list.Valid() && fresh(list.Repr - old(list.Repr))
    ensures list.codes == old(list.codes) + blocks
    ensures Agrees(CompileAtoms(old(labels.Names()), nr, group, atoms), r, labels.Names(), blocks)
  {
    hide ListOrEmpty, CompileAtom;
    blocks := [];
    ghost var spec := CompileAtoms(labels.Names(), nr, group, atoms);
    PrependNothing(spec);
    assert atoms[0..] == atoms;
    for i := 0 to |atoms|
      invariant labels.Valid() && list.Valid() && fresh(list.Repr - old(list.Repr))
      invariant list.codes == old(list.codes) + blocks
      invariant spec == Prepend(blocks, CompileAtoms(labels.Names(), nr, group, atoms[i..]))
    {
      assert atoms[i..][1..] == atoms[i + 1..];
      ghost var more;
      r, more := CompileOneAtom(labels, list, atoms[i], nr, group);
      Assoc(old(list.codes), blocks, more);
      PrependTwice(blocks, more, CompileAtoms(labels.Names(), nr, group, atoms[i + 1..]));
      blocks := blocks + more;
      if !r.Ok? {
        return;
      }
    }
    r := Ok(());
  }

  /** One group: its atoms, then the jump to success and the group's end label. */
  method CompileGroup(labels: BpfLabels, list: FilterList, atoms: seq<Atom>, nr: u32, group: nat)
    returns (r: Result<()>, ghost blocks: seq<seq<Instr>>)
    requires labels.Valid() && list.Valid()
    modifies labels, list, list.Repr
    ensures labels.Valid() && list.Valid() && fresh(list.Repr - old(list.Repr))
    ensures list.codes == old(list.codes) + blocks
    ensures Agrees(Compile.CompileGroup(old(labels.Names()), nr, group, atoms), r, labels.Names(), blocks)
  {
    hide ListOrEmpty, CompileAtoms;
    r, blocks := CompileGroupAtoms(labels, list, atoms, nr, group);
    if !r.Ok? {
      return;
    }
    var success := labels.LabelId(SuccessLabel(nr));
    if success < 0 {
      return Died, blocks;
    }
    var end := labels.LabelId(GroupEndLabel(nr, group));
    if end < 0 {
      return Died, blocks;
    }
    list.Add([JumpLbl(success), Lbl(end)]);
    Assoc(old(list.codes), blocks, [[JumpLbl(success), Lbl(end)]]);
    blocks := blocks + [[JumpLbl(success), Lbl(end)]];
  }

  /** The outer loop of compile_policy_line: the groups of a line. */
  method CompileAllGroups(labels: BpfLabels, list: FilterList, groups: seq<seq<Atom>>, nr: u32)
    returns (r: Result<()>, ghost blocks: seq<seq<Instr>>)
    requires labels.Valid() && list.Valid()
    modifies labels, list, list.Repr
    ensures labels.Valid() && list.Valid() && fresh(list.Repr - old(list.Repr))
    ensures list.codes == old(list.codes) + blocks
    ensures Agrees(CompileGroups(old(labels.Names()), nr, 0, groups), r, labels.Names(), blocks)
  {
    hide ListOrEmpty, Compile.CompileGroup;
    blocks := [];
    ghost var spec := CompileGroups(labels.Names(), nr, 0, groups);
    PrependNothing(spec);
    assert groups[0..] == groups;
    for g := 0 to |groups|
      invariant labels.Valid() && list.Valid() && fresh(list.Repr - old(list.Repr))
      invariant list.codes == old(list.codes) + blocks
      invariant spec == Prepend(blocks, CompileGroups(labels.Names(), nr, g, groups[g..]))
    {
      assert groups[g..][1..] == groups[g + 1..];
      ghost var more;
      r, more := CompileGroup(labels, list, groups[g], nr, g);
      Assoc(old(list.codes), blocks, more);
      PrependTwice(blocks, more, CompileGroups(labels.Names(), nr, g + 1, groups[g + 1..]));
      blocks := blocks + more;
      if !r.Ok? {
        return;
      }
    }
    r := Ok(());
  }

  /** compile_errno. */
  method CompileReturn(list: FilterList, clause: Clause, action: Action) returns (r: Result<()>)
    requires list.Valid()
    modifies list, list.Repr
    ensures list.Valid() && fresh(list.Repr - old(list.Repr))
    ensures r.Ok? == CompileClause(clause, action).Ok? && r.Failed? == CompileClause(clause, action).Failed?
    ensures r.Ok? ==> list.codes == old(list.codes) + [CompileClause(clause, action).value]
  {
    match clause {
      case BadClause => return Failed;
      case Errno(v) =>
        if v % TWO32 == 0xffff_ffff {
          return Failed;
        }
        list.Add([Stmt(RET_K, RET_ERRNO + v % 0x1_0000)]);
      case NoErrno =>
        if action == LOG {
          return Failed;
        }
        list.Add([Stmt(RET_K, ActionValue(action))]);
    }
    r := Ok(());
  }

  method AppendOtherwise(list: FilterList, otherwise: Option<Clause>, action: Action) returns (r: Result<()>)
    requires list.Valid()
    modifies list, list.Repr
    ensures list.Valid() && fresh(list.Repr - old(list.Repr))
    ensures r.Ok? == CompileOtherwise(otherwise, action).Ok? && r.Failed? == CompileOtherwise(otherwise, action).Failed?
    ensures r.Ok? ==> list.codes == old(list.codes) + [CompileOtherwise(otherwise, action).value]
  {
    if otherwise.Some? {
      r := CompileReturn(list, otherwise.value, action);
    } else {
      list.Add([Stmt(RET_K, ActionValue(action))]);
      r := Ok(());
    }
  }

  /** The fallback of a section, then its success label with RET ALLOW. */
  method AppendTail(labels: BpfLabels, list: FilterList, nr: u32, otherwise: Option<Clause>, action: Action)
    returns (r: Result<()>, ghost blocks: seq<seq<Instr>>)
    requires labels.Valid() && list.Valid()
    modifies labels, list, list.Repr
    ensures labels.Valid() && list.Valid() && fresh(list.Repr - old(list.Repr))
    ensures r.Ok? ==> list.codes == old(list.codes) + blocks
    ensures Agrees(CompileTail(old(labels.Names()), nr, otherwise, action), r, labels.Names(), blocks)
  {
    hide ListOrEmpty, CompileOtherwise, Intern;
    blocks := [];
    r := AppendOtherwise(list, otherwise, action);
    if !r.Ok? {
      return;
    }
    var success := labels.LabelId(SuccessLabel(nr));
    if success < 0 {
      r := Died;
      return;
    }
    ghost var ret := CompileOtherwise(otherwise, action).value;
    list.Add([Lbl(success), Stmt(RET_K, RET_ALLOW)]);
    TwoMore(old(list.codes), ret, [Lbl(success), Stmt(RET_K, RET_ALLOW)]);
    r, blocks := Ok(()), [ret, [Lbl(success), Stmt(RET_K, RET_ALLOW)]];
  }

  method CompileArgs(labels: BpfLabels, list: FilterList, nr: u32, groups: seq<seq<Atom>>,
                     otherwise: Option<Clause>, action: Action)
    returns (r: Result<()>, ghost blocks: seq<seq<Instr>>)
    requires labels.Valid() && list.Valid()
    modifies labels, list, list.Repr
    ensures labels.Valid() && list.Valid() && fresh(list.Repr - old(list.Repr))
    ensures r.Ok? ==> list.codes == old(list.codes) + blocks
    ensures var spec := CompileGroups(old(labels.Names()), nr, 0, groups);
            Agrees(if spec.Ok?
                   then Prepend(spec.value.blocks, CompileTail(spec.value.table, nr, otherwise, action)) else spec,
                   r, labels.Names(), blocks)
  {
    r, blocks := CompileAllGroups(labels, list, groups, nr);
    if !r.Ok? {
      return;
    }
    ghost var tail;
    r, tail := AppendTail(labels, list, nr, otherwise, action);
    Assoc(old(list.codes), blocks, tail);
    blocks := blocks + tail;
  }

  /** compile_policy_line. */
  method CompilePolicyLine(labels: BpfLabels, nr: u32, body: Body, entry: u32, action: Action)
    returns (r: Result<()>, list: FilterList)
    requires labels.Valid() && !body.Allow?
    modifies labels
    ensures labels.Valid() && list.Valid() && fresh(list) && fresh(list.Repr)
    ensures Agrees(CompileBody(old(labels.Names()), nr, body, entry, action), r, labels.Names(), list.codes)
    ensures r.Ok? ==> |list.codes| >= 2
  {
    hide ListOrEmpty, CompileGroups;
    list := new FilterList();
    list.Add([Lbl(entry)]);
    assert list.codes == [[Lbl(entry)]];
    match body
    case Return(clause) =>
      r := CompileReturn(list, clause, action);
    case Args(groups, otherwise) =>
      ghost var blocks;
      r, blocks := CompileArgs(labels, list, nr, groups, otherwise, action);
  }
}
