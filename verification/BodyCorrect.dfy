/**
 The section compiled for one policy line returns that line's verdict.
 */
module BodyCorrect {
  import opened Words
  import opened Bpf
  import opened Compare
  import opened Labels
  import opened Blocks
  import opened Policy
  import opened Compile
  import opened Sections

  // ----- The code of a section, read off the final label table -----

  function AtomCode(a: Atom, id: u32): seq<Instr> {
    if a.Atom? then ArgComp(a.op, a.argidx, a.c, id) else []
  }

  function AtomBlocks(atoms: seq<Atom>, id: u32): seq<seq<Instr>> {
    if atoms == [] then []
    else [AtomCode(atoms[0], id)] + AtomBlocks(atoms[1..], id)
  }

  /** The id of a label in a table that contains it. */
  function IdOf(table: Table, name: string): u32 { IndexOf(table, name) }

  function GroupBlocks(table: Table, nr: u32, group: nat, groups: seq<seq<Atom>>): seq<seq<Instr>>
    decreases |groups|
  {
    if groups == [] then []
    else
      var end := IdOf(table, GroupEndLabel(nr, group));
      AtomBlocks(groups[0], end) + [[JumpLbl(IdOf(table, SuccessLabel(nr))), Lbl(end)]]
      + GroupBlocks(table, nr, group + 1, groups[1..])
  }

  predicate Parsed(atoms: seq<Atom>) {
    atoms == [] || (atoms[0].Atom? && Parsed(atoms[1..]))
  }

  predicate AllParsed(groups: seq<seq<Atom>>) {
    groups == [] || (Parsed(groups[0]) && AllParsed(groups[1..]))
  }

  /** Once handed out, an id stays: any later table gives the same one. */
  lemma InternIsId(table: Table, more: Table, name: string)
    requires |name| <= MAX_BPF_LABEL_LEN && Intern(table, name).1 >= 0 && Intern(table, name).0 <= more
    ensures Intern(table, name).1 == IdOf(more, name)
  {
    InternStable(table, more, name);
  }

  lemma {:induction false} AtomsCode(table: Table, nr: u32, group: nat, atoms: seq<Atom>, more: Table)
    requires CompileAtoms(table, nr, group, atoms).Ok?
    requires CompileAtoms(table, nr, group, atoms).value.table <= more
    ensures table <= more
    ensures Parsed(atoms)
    ensures CompileAtoms(table, nr, group, atoms).value.blocks ==
            AtomBlocks(atoms, IdOf(more, GroupEndLabel(nr, group)))
    decreases |atoms|
  {
    if atoms != [] {
      AtomsCode(CompileAtom(table, nr, group, atoms[0]).value.table, nr, group, atoms[1..], more);
      InternIsId(table, more, GroupEndLabel(nr, group));
    }
  }

  lemma {:induction false} GroupsCode(table: Table, nr: u32, group: nat, groups: seq<seq<Atom>>, more: Table)
    requires CompileGroups(table, nr, group, groups).Ok?
    requires CompileGroups(table, nr, group, groups).value.table <= more
    ensures table <= more
    ensures AllParsed(groups)
    ensures CompileGroups(table, nr, group, groups).value.blocks == GroupBlocks(more, nr, group, groups)
    decreases |groups|
  {
    if groups != [] {
      var atoms := CompileAtoms(table, nr, group, groups[0]).value;
      var table1 := Intern(atoms.table, SuccessLabel(nr)).0;
      var end := CompileGroupEnd(atoms.table, nr, group).value;
      GroupsCode(end.table, nr, group + 1, groups[1..], more);
      InternIsId(table1, more, GroupEndLabel(nr, group));
      InternIsId(atoms.table, more, SuccessLabel(nr));
      AtomsCode(table, nr, group, groups[0], more);
    }
  }

  // ----- Atoms as tests -----

  function TestsOf(atoms: seq<Atom>, id: u32, d: Data): seq<Test>
    requires d.Valid()
  {
    if atoms == [] then []
    else [Test(AtomCode(atoms[0], id), AtomHolds(atoms[0], d))] + TestsOf(atoms[1..], id, d)
  }

  function ConjsOf(table: Table, nr: u32, group: nat, groups: seq<seq<Atom>>, d: Data): seq<Conj>
    requires d.Valid()
    decreases |groups|
  {
    if groups == [] then []
    else
      var end := IdOf(table, GroupEndLabel(nr, group));
      [Conj(TestsOf(groups[0], end, d), end)] + ConjsOf(table, nr, group + 1, groups[1..], d)
  }

  lemma AtomDecidesAt(p: seq<Instr>, d: Data, a: Atom, id: u32, at: nat, s: Machine, end: nat)
    requires d.Valid() && UniqueFrom(p, 0) && a.Atom? && SlotOk(a)
    ensures DecidesAt(p, d, Test(AtomCode(a, id), AtomHolds(a, d)), id, at, s, end)
  {
    var code := AtomCode(a, id);
    if CodeAt(p, at, code) && at + |code| <= end < |p| && p[end] == Lbl(id) {
      var s' := ArgCompRuns(p, d, at, s, a.op, a.argidx, a.c, id, end);
    }
  }

  lemma AtomDecides(p: seq<Instr>, d: Data, a: Atom, id: u32)
    requires d.Valid() && UniqueFrom(p, 0) && a.Atom? && SlotOk(a)
    ensures Decides(p, d, Test(AtomCode(a, id), AtomHolds(a, d)), id)
  {
    forall at: nat, s, end: nat
      ensures DecidesAt(p, d, Test(AtomCode(a, id), AtomHolds(a, d)), id, at, s, end)
    {
      AtomDecidesAt(p, d, a, id, at, s, end);
    }
  }

  lemma {:induction false} AtomsDecide(p: seq<Instr>, d: Data, atoms: seq<Atom>, id: u32)
    requires d.Valid() && UniqueFrom(p, 0)
    requires Parsed(atoms) && AtomSlotsOk(atoms)
    ensures AllDecide(p, d, TestsOf(atoms, id, d), id)
    ensures AllHold(TestsOf(atoms, id, d)) == GroupHolds(atoms, d)
    ensures TestsCode(TestsOf(atoms, id, d)) == Flat(AtomBlocks(atoms, id))
  {
    if atoms != [] {
      AtomDecides(p, d, atoms[0], id);
      AtomsDecide(p, d, atoms[1..], id);
    }
  }

  lemma {:induction false} GroupsDecide(p: seq<Instr>, d: Data, table: Table, nr: u32, group: nat, groups: seq<seq<Atom>>)
    requires d.Valid() && UniqueFrom(p, 0)
    requires AllParsed(groups) && GroupSlotsOk(groups)
    ensures var cs := ConjsOf(table, nr, group, groups, d);
            && ConjsDecide(p, d, cs)
            && SomeHolds(cs) == Dnf(groups, d)
            && ConjsCode(cs, IdOf(table, SuccessLabel(nr))) == Flat(GroupBlocks(table, nr, group, groups))
    decreases |groups|
  {
    if groups != [] {
      var success, end := IdOf(table, SuccessLabel(nr)), IdOf(table, GroupEndLabel(nr, group));
      AtomsDecide(p, d, groups[0], end);
      GroupsDecide(p, d, table, nr, group + 1, groups[1..]);
      FlatGroup(AtomBlocks(groups[0], end), [JumpLbl(success), Lbl(end)],
                GroupBlocks(table, nr, group + 1, groups[1..]));
    }
  }

  lemma FlatGroup(blocks: seq<seq<Instr>>, last: seq<Instr>, rest: seq<seq<Instr>>)
    ensures Flat(blocks + [last] + rest) == Flat(blocks) + last + Flat(rest)
  {
    FlatConcat(blocks + [last], rest);
    FlatSnoc(blocks, last);
  }

  /** The value that ends a section when no group holds. */
  function OtherwiseValue(otherwise: Option<Clause>, action: Action): u32 {
    if otherwise.Some? then ClauseValue(otherwise.value, action) else ActionValue(action)
  }

  lemma FlatSection(entry: u32, blocks: seq<seq<Instr>>, ret: u32, success: u32)
    ensures Flat([[Lbl(entry)]] + (blocks + [[Stmt(RET_K, ret)], [Lbl(success), Stmt(RET_K, RET_ALLOW)]])) ==
            [Lbl(entry)] + (Flat(blocks) + SectionTail(ret, success))
  {
    var tail := [[Stmt(RET_K, ret)], [Lbl(success), Stmt(RET_K, RET_ALLOW)]];
    FlatSnoc([tail[0]], tail[1]);
    FlatSnoc([], tail[0]);
    assert tail == [tail[0]] + [tail[1]];
    FlatConcat(blocks, tail);
  }

  lemma ArgsBlocks(table: Table, nr: u32, groups: seq<seq<Atom>>, otherwise: Option<Clause>, entry: u32, action: Action)
    returns (code: Code)
    requires CompileBody(table, nr, Args(groups, otherwise), entry, action).Ok?
    ensures CompileGroups(table, nr, 0, groups) == Ok(code) && Intern(code.table, SuccessLabel(nr)).1 >= 0
    ensures var (final, success) := Intern(code.table, SuccessLabel(nr));
      CompileBody(table, nr, Args(groups, otherwise), entry, action)
      == Ok(Code(final, [[Lbl(entry)]] + (code.blocks + [[Stmt(RET_K, OtherwiseValue(otherwise, action))],
                                                         [Lbl(success), Stmt(RET_K, RET_ALLOW)]])))
  {
    code := CompileGroups(table, nr, 0, groups).value;
  }

  lemma ArgsCode(table: Table, nr: u32, groups: seq<seq<Atom>>, otherwise: Option<Clause>, entry: u32, action: Action)
    returns (final: Table)
    requires CompileBody(table, nr, Args(groups, otherwise), entry, action).Ok?
    ensures AllParsed(groups)
    ensures Flat(CompileBody(table, nr, Args(groups, otherwise), entry, action).value.blocks) ==
            [Lbl(entry)] + (Flat(GroupBlocks(final, nr, 0, groups)) +
                            SectionTail(OtherwiseValue(otherwise, action), IdOf(final, SuccessLabel(nr))))
  {
    var code := ArgsBlocks(table, nr, groups, otherwise, entry, action);
    final := Intern(code.table, SuccessLabel(nr)).0;
    InternIsId(code.table, final, SuccessLabel(nr));
    GroupsCode(table, nr, 0, groups, final);
    FlatSection(entry, code.blocks, OtherwiseValue(otherwise, action), IdOf(final, SuccessLabel(nr)));
  }

  /** A compiled section gives its line's verdict, wherever it lies in a program
      with unique labels and whatever the machine holds on entry. */
  lemma BodyRuns(p: seq<Instr>, d: Data, at: nat, s: Machine,
                 table: Table, nr: u32, body: Body, entry: u32, action: Action)
    requires d.Valid() && UniqueFrom(p, 0) && !body.Allow? && SlotsOk(body)
    requires CompileBody(table, nr, body, entry, action).Ok?
    requires CodeAt(p, at, Flat(CompileBody(table, nr, body, entry, action).value.blocks))
    ensures RunL(p, d, at, s) == Ret(BodyVerdict(body, action, d))
  {
    match body
    case Return(clause) =>
      var ret := CompileClause(clause, action).value;
      var code := [Lbl(entry)] + ret;
      assert Flat([[Lbl(entry)], ret]) == code by {
        FlatSnoc([[Lbl(entry)]], ret);
        FlatSnoc([], [Lbl(entry)]);
      }
      CodeAtIndex(p, at, code, 0);
      CodeAtIndex(p, at, code, 1);
      assert RunL(p, d, at, s) == RunL(p, d, at + 1, s);
    case Args(groups, otherwise) =>
      var final := ArgsCode(table, nr, groups, otherwise, entry, action);
      GroupsDecide(p, d, final, nr, 0, groups);
      SectionRuns(p, d, at, s, entry, ConjsOf(final, nr, 0, groups, d),
                  OtherwiseValue(otherwise, action), IdOf(final, SuccessLabel(nr)));
  }
}
