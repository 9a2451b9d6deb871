/**
 Which policies the label resolver turns down. Every jump that the compiler emits has
 its label further on, so only the length of the program and a label placed twice
 can make resolution fail.
 */
module Acceptance {
  import opened Words
  import opened Bpf
  import opened Labels
  import opened Compare
  import opened Emit
  import opened Blocks
  import opened Policy
  import opened Compile
  import opened Sections
  import opened BodyCorrect
  import opened Correct

  // ----- Labels and jumps of a piece of code -----

  /** The ids of the labels in a piece of code, in order. */
  function LabelIds(code: seq<Instr>): seq<u32> {
    if code == [] then []
    else LabelId(code[0]) + LabelIds(code[1..])
  }

  function LabelId(i: Instr): seq<u32> { if IsLbl(i) then [i.k] else [] }

  /** Every label jump has its label later in the code, or among those that follow it. */
  predicate JumpsTo(code: seq<Instr>, later: seq<u32>) {
    code == [] ||
    (&& (IsJumpLbl(code[0]) ==> code[0].k in LabelIds(code[1..]) || code[0].k in later)
     && JumpsTo(code[1..], later))
  }

  predicate NoRepeats<T(==)>(s: seq<T>) {
    s == [] || (s[0] !in s[1..] && NoRepeats(s[1..]))
  }

  lemma {:induction false} LabelIdsConcat(a: seq<Instr>, b: seq<Instr>)
    ensures LabelIds(a + b) == LabelIds(a) + LabelIds(b)
  {
    if a == [] {
      assert a + b == b;
    } else {
      assert (a + b)[1..] == a[1..] + b;
      LabelIdsConcat(a[1..], b);
      Assoc(LabelId(a[0]), LabelIds(a[1..]), LabelIds(b));
    }
  }

  lemma Assoc<T>(a: seq<T>, b: seq<T>, c: seq<T>)
    ensures (a + b) + c == a + (b + c)
  {
  }

  lemma {:induction false} JumpsWiden(a: seq<Instr>, later: seq<u32>, wider: seq<u32>)
    requires JumpsTo(a, later) && forall x :: x in later ==> x in wider
    ensures JumpsTo(a, wider)
  {
    if a != [] {
      JumpsWiden(a[1..], later, wider);
    }
  }

  lemma {:induction false} JumpsConcat(a: seq<Instr>, b: seq<Instr>, la: seq<u32>, later: seq<u32>)
    requires JumpsTo(a, la) && JumpsTo(b, later)
    requires forall x :: x in la ==> x in LabelIds(b) || x in later
    ensures JumpsTo(a + b, later)
  {
    if a == [] {
      assert a + b == b;
    } else {
      assert (a + b)[1..] == a[1..] + b;
      JumpsConcat(a[1..], b, la, later);
      LabelIdsConcat(a[1..], b);
    }
  }

  /** The labels of a piece of code, and where its jumps go outside it. */
  ghost predicate Places(code: seq<Instr>, ids: seq<u32>, later: seq<u32>) {
    LabelIds(code) == ids && JumpsTo(code, later)
  }

  lemma PlacesConcat(a: seq<Instr>, ia: seq<u32>, la: seq<u32>, b: seq<Instr>, ib: seq<u32>, later: seq<u32>)
    requires Places(a, ia, la) && Places(b, ib, later)
    requires forall x :: x in la ==> x in ib || x in later
    ensures Places(a + b, ia + ib, later)
  {
    LabelIdsConcat(a, b);
    JumpsConcat(a, b, la, later);
  }

  /** Code without labels and label jumps. */
  lemma {:induction false} PlainCode(code: seq<Instr>)
    requires forall i :: 0 <= i < |code| ==> !IsLbl(code[i]) && !IsJumpLbl(code[i])
    ensures Places(code, [], [])
  {
    if code != [] {
      PlainCode(code[1..]);
    }
  }

  lemma OneLabel(id: u32)
    ensures Places([Lbl(id)], [id], [])
  {
    assert [Lbl(id)][1..] == [];
  }

  lemma OneJump(id: u32)
    ensures Places([JumpLbl(id)], [], [id])
  {
    assert [JumpLbl(id)][1..] == [];
  }

  // ----- Sections -----

  lemma TestIsPlain(a: Atom)
    requires a.Atom?
    ensures var code := LoadArg(a.argidx) + Comp(a.op, a.c);
      forall i :: 0 <= i < |code| ==> !IsLbl(code[i]) && !IsJumpLbl(code[i])
  {
    var load, comp := LoadArg(a.argidx), Comp(a.op, a.c);
    assert forall i :: 0 <= i < |load| ==> !IsLbl(load[i]) && !IsJumpLbl(load[i]);
    assert forall i :: 0 <= i < |comp| ==> !IsLbl(comp[i]) && !IsJumpLbl(comp[i]);
  }

  lemma AtomPlaces(a: Atom, id: u32)
    requires a.Atom?
    ensures Places(AtomCode(a, id), [], [id])
  {
    hide Places, LoadArg, Comp;
    var code := LoadArg(a.argidx) + Comp(a.op, a.c);
    TestIsPlain(a);
    PlainCode(code);
    OneJump(id);
    PlacesConcat(code, [], [], [JumpLbl(id)], [], [id]);
    assert AtomCode(a, id) == code + [JumpLbl(id)];
  }

  lemma {:induction false} AtomsPlace(atoms: seq<Atom>, id: u32)
    requires Parsed(atoms)
    ensures Places(Flat(AtomBlocks(atoms, id)), [], [id])
  {
    if atoms == [] {
      PlainCode([]);
      JumpsWiden([], [], [id]);
    } else {
      AtomPlaces(atoms[0], id);
      AtomsPlace(atoms[1..], id);
      PlacesConcat(AtomCode(atoms[0], id), [], [id], Flat(AtomBlocks(atoms[1..], id)), [], [id]);
    }
  }

  lemma GroupEndPlaces(success: u32, end: u32)
    ensures Places([JumpLbl(success), Lbl(end)], [end], [success])
  {
    OneJump(success);
    OneLabel(end);
    JumpsWiden([Lbl(end)], [], [success]);
    PlacesConcat([JumpLbl(success)], [], [success], [Lbl(end)], [end], [success]);
    assert [JumpLbl(success)] + [Lbl(end)] == [JumpLbl(success), Lbl(end)];
  }

  /** The ids of the labels that end groups. */
  function EndIds(table: Table, nr: u32, group: nat, groups: seq<seq<Atom>>): seq<u32>
    decreases |groups|
  {
    if groups == [] then []
    else [IdOf(table, GroupEndLabel(nr, group))] + EndIds(table, nr, group + 1, groups[1..])
  }

  lemma GroupPlaces(atoms: seq<Atom>, success: u32, end: u32)
    requires Parsed(atoms)
    ensures Places(Flat(AtomBlocks(atoms, end)) + [JumpLbl(success), Lbl(end)], [end], [success])
  {
    AtomsPlace(atoms, end);
    GroupEndPlaces(success, end);
    PlacesConcat(Flat(AtomBlocks(atoms, end)), [], [end], [JumpLbl(success), Lbl(end)], [end], [success]);
  }

  lemma {:induction false} GroupsPlace(table: Table, nr: u32, group: nat, groups: seq<seq<Atom>>)
    requires AllParsed(groups)
    ensures Places(Flat(GroupBlocks(table, nr, group, groups)), EndIds(table, nr, group, groups),
                   [IdOf(table, SuccessLabel(nr))])
    decreases |groups|
  {
    var success := IdOf(table, SuccessLabel(nr));
    if groups == [] {
      PlainCode([]);
      JumpsWiden([], [], [success]);
    } else {
      var end := IdOf(table, GroupEndLabel(nr, group));
      var first := Flat(AtomBlocks(groups[0], end)) + [JumpLbl(success), Lbl(end)];
      var rest := GroupBlocks(table, nr, group + 1, groups[1..]);
      GroupPlaces(groups[0], success, end);
      GroupsPlace(table, nr, group + 1, groups[1..]);
      PlacesConcat(first, [end], [success], Flat(rest), EndIds(table, nr, group + 1, groups[1..]), [success]);
      FlatGroup(AtomBlocks(groups[0], end), [JumpLbl(success), Lbl(end)], rest);
    }
  }

  lemma TailPlaces(ret: u32, success: u32)
    ensures Places(SectionTail(ret, success), [success], [])
  {
    PlainCode([Stmt(RET_K, ret)]);
    PlainCode([Stmt(RET_K, RET_ALLOW)]);
    OneLabel(success);
    PlacesConcat([Lbl(success)], [success], [], [Stmt(RET_K, RET_ALLOW)], [], []);
    PlacesConcat([Stmt(RET_K, ret)], [], [], [Lbl(success)] + [Stmt(RET_K, RET_ALLOW)], [success], []);
    assert SectionTail(ret, success) == [Stmt(RET_K, ret)] + ([Lbl(success)] + [Stmt(RET_K, RET_ALLOW)]);
  }

  /** The labels of a section after the one it is entered by. */
  function InnerIds(table: Table, nr: u32, body: Body): seq<u32> {
    if body.Args? then EndIds(table, nr, 0, body.groups) + [IdOf(table, SuccessLabel(nr))] else []
  }

  lemma SectionPlaces(table: Table, nr: u32, groups: seq<seq<Atom>>, entry: u32, ret: u32)
    requires AllParsed(groups)
    ensures var success := IdOf(table, SuccessLabel(nr));
      Places([Lbl(entry)] + (Flat(GroupBlocks(table, nr, 0, groups)) + SectionTail(ret, success)),
             [entry] + (EndIds(table, nr, 0, groups) + [success]), [])
  {
    var success, ends := IdOf(table, SuccessLabel(nr)), EndIds(table, nr, 0, groups);
    var tests, tail := Flat(GroupBlocks(table, nr, 0, groups)), SectionTail(ret, success);
    GroupsPlace(table, nr, 0, groups);
    TailPlaces(ret, success);
    PlacesConcat(tests, ends, [success], tail, [success], []);
    OneLabel(entry);
    PlacesConcat([Lbl(entry)], [entry], [], tests + tail, ends + [success], []);
  }

  lemma ReturnPlaces(entry: u32, ret: seq<Instr>)
    requires Places(ret, [], [])
    ensures Places(Flat([[Lbl(entry)], ret]), [entry], [])
  {
    OneLabel(entry);
    PlacesConcat([Lbl(entry)], [entry], [], ret, [], []);
    FlatSnoc([[Lbl(entry)]], ret);
    FlatSnoc([], [Lbl(entry)]);
    assert [[Lbl(entry)]] + [ret] == [[Lbl(entry)], ret] && [] + [[Lbl(entry)]] == [[Lbl(entry)]];
  }

  lemma ClausePlaces(clause: Clause, action: Action)
    requires CompileClause(clause, action).Ok?
    ensures Places(CompileClause(clause, action).value, [], [])
  {
    PlainCode(CompileClause(clause, action).value);
  }

  lemma ArgsPlace(table: Table, nr: u32, groups: seq<seq<Atom>>, otherwise: Option<Clause>, entry: u32, action: Action,
                  more: Table)
    requires CompileBody(table, nr, Args(groups, otherwise), entry, action).Ok?
    requires CompileBody(table, nr, Args(groups, otherwise), entry, action).value.table <= more
    ensures table <= more
    ensures Places(Flat(CompileBody(table, nr, Args(groups, otherwise), entry, action).value.blocks),
                   [entry] + InnerIds(more, nr, Args(groups, otherwise)), [])
  {
    var code := ArgsBlocks(table, nr, groups, otherwise, entry, action);
    var ret, success := OtherwiseValue(otherwise, action), IdOf(more, SuccessLabel(nr));
    InternIsId(code.table, more, SuccessLabel(nr));
    GroupsCode(table, nr, 0, groups, more);
    SectionPlaces(more, nr, groups, entry, ret);
    FlatSection(entry, code.blocks, ret, success);
  }

  lemma BodyPlaces(table: Table, nr: u32, body: Body, entry: u32, action: Action, more: Table)
    requires !body.Allow? && CompileBody(table, nr, body, entry, action).Ok?
    requires CompileBody(table, nr, body, entry, action).value.table <= more
    ensures table <= more
    ensures Places(Flat(CompileBody(table, nr, body, entry, action).value.blocks), [entry] + InnerIds(more, nr, body), [])
  {
    match body
    case Return(clause) =>
      ClausePlaces(clause, action);
      ReturnPlaces(entry, CompileClause(clause, action).value);
    case Args(groups, otherwise) =>
      ArgsPlace(table, nr, groups, otherwise, entry, action, more);
  }

  // ----- Inner labels are in the table -----

  predicate EndIdsIn(table: Table, nr: u32, group: nat, groups: seq<seq<Atom>>)
    decreases |groups|
  {
    groups == [] ||
    (IdOf(table, GroupEndLabel(nr, group)) < |table| && EndIdsIn(table, nr, group + 1, groups[1..]))
  }

  predicate InnerIdsIn(table: Table, nr: u32, body: Body) {
    body.Args? ==> EndIdsIn(table, nr, 0, body.groups) && IdOf(table, SuccessLabel(nr)) < |table|
  }

  lemma {:induction false} GroupIdsIn(table: Table, nr: u32, group: nat, groups: seq<seq<Atom>>, more: Table)
    requires CompileGroups(table, nr, group, groups).Ok?
    requires CompileGroups(table, nr, group, groups).value.table <= more
    ensures EndIdsIn(more, nr, group, groups)
    decreases |groups|
  {
    if groups != [] {
      var atoms := CompileAtoms(table, nr, group, groups[0]).value;
      var table1 := Intern(atoms.table, SuccessLabel(nr)).0;
      var end := CompileGroupEnd(atoms.table, nr, group).value;
      GroupsCode(end.table, nr, group + 1, groups[1..], more);
      InternIsId(table1, more, GroupEndLabel(nr, group));
      GroupIdsIn(end.table, nr, group + 1, groups[1..], more);
    }
  }

  lemma BodyIdsIn(table: Table, nr: u32, body: Body, entry: u32, action: Action, more: Table)
    requires !body.Allow? && CompileBody(table, nr, body, entry, action).Ok?
    requires CompileBody(table, nr, body, entry, action).value.table <= more
    ensures InnerIdsIn(more, nr, body)
  {
    if body.Args? {
      var code := ArgsBlocks(table, nr, body.groups, body.otherwise, entry, action);
      InternIsId(code.table, more, SuccessLabel(nr));
      GroupIdsIn(table, nr, 0, body.groups, more);
    }
  }

  lemma {:induction false} EndIdsBelow(table: Table, nr: u32, group: nat, groups: seq<seq<Atom>>)
    requires EndIdsIn(table, nr, group, groups)
    ensures forall x :: x in EndIds(table, nr, group, groups) ==> x < |table|
    decreases |groups|
  {
    if groups != [] {
      EndIdsBelow(table, nr, group + 1, groups[1..]);
    }
  }

  // ----- Entries -----

  /** The rules in force with the names that label their sections. */
  datatype NamedRule = NamedRule(name: string, nr: u32, body: Body)

  function NamedRules(lines: seq<Line>, opts: Options, level: nat): seq<NamedRule>
    decreases if level == 0 then 1 else 0, |lines|
  {
    if lines == [] then []
    else
      var rest := NamedRules(lines[1..], opts, level);
      match lines[0]
      case Rule(name, body) =>
        var r := Lookup(opts.syscalls, name);
        if r.Some? then [NamedRule(name, opts.syscalls[r.value].nr, body)] + rest else rest
      case Include(path) =>
        if level == 0 && path in opts.files then NamedRules(opts.files[path], opts, 1) + rest else rest
      case _ => rest
  }

  /** An entry's section places its own label and those of its groups, and jumps nowhere else. */
  ghost predicate Placed(e: Entry, r: NamedRule, table: Table) {
    if r.body.Allow? then e.AllowEntry?
    else
      && e.ArgEntry?
      && Places(Flat(e.blocks), [e.id] + InnerIds(table, r.nr, r.body), [])
      && InnerIdsIn(table, r.nr, r.body)
      && (e.id < BPF_LABELS_MAX ==> e.id < |table| && (|r.name| <= MAX_BPF_LABEL_LEN ==> e.id == IdOf(table, r.name)))
  }

  ghost predicate AllPlaced(es: seq<Entry>, rs: seq<NamedRule>, table: Table) {
    |es| == |rs| && (es == [] || (Placed(es[0], rs[0], table) && AllPlaced(es[1..], rs[1..], table)))
  }

  lemma AllPlacedCons(e: Entry, r: NamedRule, es: seq<Entry>, rs: seq<NamedRule>, table: Table)
    requires Placed(e, r, table) && AllPlaced(es, rs, table)
    ensures AllPlaced([e] + es, [r] + rs, table)
  {
    assert ([e] + es)[1..] == es && ([r] + rs)[1..] == rs;
  }

  lemma ConsConcat<T>(a: seq<T>, b: seq<T>)
    requires a != []
    ensures a + b == [a[0]] + (a[1..] + b)
  {
  }

  lemma {:induction false} AllPlacedConcat(a: seq<Entry>, ra: seq<NamedRule>, b: seq<Entry>, rb: seq<NamedRule>,
                                           table: Table)
    requires AllPlaced(a, ra, table) && AllPlaced(b, rb, table)
    ensures AllPlaced(a + b, ra + rb, table)
  {
    if a == [] {
      assert a + b == b && ra + rb == rb;
    } else {
      AllPlacedConcat(a[1..], ra[1..], b, rb, table);
      AllPlacedCons(a[0], ra[0], a[1..] + b, ra[1..] + rb, table);
      ConsConcat(a, b);
      ConsConcat(ra, rb);
    }
  }

  lemma RulePlaced(name: string, body: Body, ind: nat, opts: Options, st: State, more: Table) returns (e: Entry)
    requires ind < |opts.syscalls| && CompileRule(name, body, ind, opts, st).Ok?
    requires CompileRule(name, body, ind, opts, st).value.table <= more
    ensures st.table <= more
    ensures CompileRule(name, body, ind, opts, st).value.entries == st.entries + [e]
    ensures Placed(e, NamedRule(name, opts.syscalls[ind].nr, body), more)
  {
    var nr := opts.syscalls[ind].nr;
    if body.Allow? {
      e := AllowEntry(nr);
    } else {
      var (table, id) := Intern(st.table, name);
      var code := CompileBody(table, nr, body, AsId(id), opts.action).value;
      e := ArgEntry(nr, AsId(id), code.blocks);
      BodyPlaces(table, nr, body, AsId(id), opts.action, more);
      BodyIdsIn(table, nr, body, AsId(id), opts.action, more);
      if |name| <= MAX_BPF_LABEL_LEN && id >= 0 {
        InternIsId(st.table, more, name);
      }
    }
  }

  lemma {:induction false} LinesPlaced(lines: seq<Line>, opts: Options, level: nat, st: State, bad: bool, more: Table)
    returns (es: seq<Entry>)
    requires CompileLines(lines, opts, level, st, bad).Ok?
    requires CompileLines(lines, opts, level, st, bad).value.table <= more
    ensures st.table <= more
    ensures CompileLines(lines, opts, level, st, bad).value.entries == st.entries + es
    ensures AllPlaced(es, NamedRules(lines, opts, level), more)
    decreases if level == 0 then 1 else 0, |lines|
  {
    es := [];
    if lines != [] {
      match lines[0]
      case Blank => es := LinesPlaced(lines[1..], opts, level, st, bad, more);
      case Frequency => es := LinesPlaced(lines[1..], opts, level, st, bad, more);
      case Include(path) =>
        var st' := CompileLines(opts.files[path], opts, level + 1, st, false).value;
        var rest := LinesPlaced(lines[1..], opts, level, st', bad, more);
        var inner := LinesPlaced(opts.files[path], opts, level + 1, st, false, more);
        AllPlacedConcat(inner, NamedRules(opts.files[path], opts, 1), rest, NamedRules(lines[1..], opts, level), more);
        es := inner + rest;
        Assoc(st.entries, inner, rest);
      case Rule(name, body) =>
        var r := Lookup(opts.syscalls, name);
        if r.None? {
          es := LinesPlaced(lines[1..], opts, level, st, bad, more);
        } else {
          var st' := CompileRule(name, body, r.value, opts, st).value;
          var rest := LinesPlaced(lines[1..], opts, level, st', bad || (r.value in st.seen && !opts.allowDuplicates), more);
          var e := RulePlaced(name, body, r.value, opts, st, more);
          AllPlacedCons(e, NamedRule(name, opts.syscalls[r.value].nr, body),
                        rest, NamedRules(lines[1..], opts, level), more);
          es := [e] + rest;
          Assoc(st.entries, [e], rest);
        }
    }
  }

  // ----- The whole program -----

  function EntryIds(e: Entry, r: NamedRule, table: Table): seq<u32> {
    if e.AllowEntry? then [] else [e.id] + InnerIds(table, r.nr, r.body)
  }

  function AllIds(es: seq<Entry>, rs: seq<NamedRule>, table: Table): seq<u32>
    requires |es| == |rs|
  {
    if es == [] then [] else EntryIds(es[0], rs[0], table) + AllIds(es[1..], rs[1..], table)
  }

  lemma {:induction false} SectionsPlace(es: seq<Entry>, rs: seq<NamedRule>, table: Table)
    requires AllPlaced(es, rs, table)
    ensures Places(Flat(ArgBlocks(es)), AllIds(es, rs, table), [])
  {
    if es == [] {
      PlainCode([]);
    } else {
      SectionsPlace(es[1..], rs[1..], table);
      FlatConcat(EntryArgs(es[0]), ArgBlocks(es[1..]));
      if es[0].AllowEntry? {
        PlainCode([]);
      }
      PlacesConcat(Flat(EntryArgs(es[0])), EntryIds(es[0], rs[0], table), [],
                   Flat(ArgBlocks(es[1..])), AllIds(es[1..], rs[1..], table), []);
    }
  }

  /** The label that an entry's pair in the jump table jumps to. */
  function Target(e: Entry): seq<u32> { if e.AllowEntry? then [] else [e.id] }

  function Targets(es: seq<Entry>): seq<u32> {
    if es == [] then [] else Target(es[0]) + Targets(es[1..])
  }

  lemma PairPlaces(e: Entry)
    ensures Places(EntryHead(e), [], Target(e))
  {
    if e.AllowEntry? {
      PlainCode(EntryHead(e));
    } else {
      var test := EntryHead(e)[..1];
      PlainCode(test);
      OneJump(e.id);
      PlacesConcat(test, [], [], [JumpLbl(e.id)], [], [e.id]);
      assert EntryHead(e) == test + [JumpLbl(e.id)];
    }
  }

  lemma {:induction false} PairsPlace(es: seq<Entry>)
    ensures Places(Flat(HeadBlocks(es)), [], Targets(es))
  {
    if es == [] {
      PlainCode([]);
    } else {
      PairPlaces(es[0]);
      PairsPlace(es[1..]);
      JumpsWiden(Flat(HeadBlocks(es[1..])), Targets(es[1..]), Targets(es));
      PlacesConcat(EntryHead(es[0]), [], Target(es[0]), Flat(HeadBlocks(es[1..])), [], Targets(es));
    }
  }

  lemma {:induction false} TargetsAreIds(es: seq<Entry>, rs: seq<NamedRule>, table: Table, x: u32)
    requires |es| == |rs| && x in Targets(es)
    ensures x in AllIds(es, rs, table)
  {
    if x !in Target(es[0]) {
      TargetsAreIds(es[1..], rs[1..], table, x);
    }
  }

  lemma {:induction false} LogTargets(log: seq<Entry>, es: seq<Entry>)
    requires AllAllow(log)
    ensures Targets(log + es) == Targets(es)
  {
    if log == [] {
      assert log + es == es;
    } else {
      assert (log + es)[1..] == log[1..] + es;
      LogTargets(log[1..], es);
    }
  }

  /** The whole program has the labels of its sections, and every jump has its label later. */
  lemma ProgramPlaces(opts: Options, es: seq<Entry>, rs: seq<NamedRule>, table: Table)
    requires AllPlaced(es, rs, table)
    ensures Places(Labelled(opts, es), AllIds(es, rs, table), [])
  {
    var pre, pairs, sections :=
      ValidateArchCode() + LoadNrCode(), Flat(HeadBlocks(LogEntries(opts) + es)), Flat(ArgBlocks(es));
    LabelledLayout(opts, es);
    SectionsPlace(es, rs, table);
    PairsPlace(LogEntries(opts) + es);
    LogEntriesAllow(opts, 0);
    LogTargets(LogEntries(opts), es);
    PlainCode(Default(opts));
    PlainCode(pre);
    PlacesConcat(Default(opts), [], [], sections, AllIds(es, rs, table), []);
    forall x | x in Targets(es)
      ensures x in AllIds(es, rs, table)
    {
      TargetsAreIds(es, rs, table, x);
    }
    PlacesConcat(pairs, [], Targets(es), Default(opts) + sections, AllIds(es, rs, table), []);
    PlacesConcat(pre, [], [], pairs + (Default(opts) + sections), AllIds(es, rs, table), []);
    Assoc(pairs, Default(opts), sections);
  }

  // ----- The walk, seen from the labels alone -----

  /** The walk over a list of label ids, from its end. */
  function WalkIds(ids: seq<u32>, count: nat): Walk {
    if ids == [] then Done
    else
      var behind := WalkIds(ids[1..], count);
      if behind != Done then behind
      else if ids[0] >= count then OutOfTable
      else if ids[0] in ids[1..] then Refused
      else Done
  }

  predicate AllBelow(s: seq<u32>, n: nat) { forall x :: x in s ==> x < n }

  lemma AllOfBoth(a: seq<u32>, b: seq<u32>, n: nat)
    ensures AllBelow(a + b, n) <==> AllBelow(a, n) && AllBelow(b, n)
  {
    assert forall x :: x in a ==> x in a + b;
    assert forall x :: x in b ==> x in a + b;
  }

  lemma {:induction false} WalkIdsDone(ids: seq<u32>, count: nat)
    ensures WalkIds(ids, count) == Done <==> AllBelow(ids, count) && NoRepeats(ids)
  {
    if ids != [] {
      WalkIdsDone(ids[1..], count);
      AllOfBoth([ids[0]], ids[1..], count);
      assert [ids[0]] + ids[1..] == ids;
      assert AllBelow([ids[0]], count) <==> ids[0] < count by {
        assert ids[0] in [ids[0]];
      }
    }
  }

  /** The ids behind the last one that has no entry in the table. */
  function BehindLast(ids: seq<u32>, count: nat): Option<seq<u32>> {
    if ids == [] then None
    else
      var later := BehindLast(ids[1..], count);
      if later.Some? then later else if ids[0] >= count then Some(ids[1..]) else None
  }

  lemma {:induction false} BehindLastNone(ids: seq<u32>, count: nat)
    ensures BehindLast(ids, count).None? <==> AllBelow(ids, count)
  {
    if ids != [] {
      BehindLastNone(ids[1..], count);
      AllOfBoth([ids[0]], ids[1..], count);
      assert [ids[0]] + ids[1..] == ids && ids[0] in [ids[0]];
    }
  }

  /** The walk leaves the table exactly when it meets no repeated label before that. */
  lemma {:induction false} WalkIdsOutOfTable(ids: seq<u32>, count: nat)
    ensures WalkIds(ids, count) == OutOfTable
            <==> BehindLast(ids, count).Some? && NoRepeats(BehindLast(ids, count).value)
  {
    if ids != [] {
      WalkIdsOutOfTable(ids[1..], count);
      WalkIdsDone(ids[1..], count);
      BehindLastNone(ids[1..], count);
    }
  }

  lemma {:induction false} BehindLastBelow(ids: seq<u32>, count: nat)
    requires BehindLast(ids, count).Some?
    ensures AllBelow(BehindLast(ids, count).value, count) && |BehindLast(ids, count).value| < |ids|
  {
    BehindLastNone(ids[1..], count);
    if BehindLast(ids[1..], count).Some? {
      BehindLastBelow(ids[1..], count);
    }
  }

  lemma {:induction false} BehindLastConcat(a: seq<u32>, b: seq<u32>, count: nat)
    ensures BehindLast(a + b, count)
         == if BehindLast(b, count).Some? then BehindLast(b, count)
            else if BehindLast(a, count).Some? then Some(BehindLast(a, count).value + b)
            else None
  {
    if a == [] {
      assert a + b == b;
    } else {
      assert (a + b)[1..] == a[1..] + b;
      BehindLastConcat(a[1..], b, count);
    }
  }

  lemma {:induction false} LabelFromIs(p: seq<Instr>, from: nat, id: u32)
    requires from <= |p|
    ensures LabelFrom(p, from, id).Some? <==> id in LabelIds(p[from..])
    decreases |p| - from
  {
    if from < |p| {
      assert p[from..][1..] == p[from + 1..];
      LabelFromIs(p, from + 1, id);
    }
  }

  /** Where every jump has its label later, the walk over the code is the walk over its labels. */
  lemma {:induction false} WalkIsWalkIds(p: seq<Instr>, from: nat, count: nat)
    requires from <= |p| && JumpsTo(p[from..], [])
    ensures WalkDownTo(p, from, count) == WalkIds(LabelIds(p[from..]), count)
    decreases |p| - from
  {
    if from < |p| {
      var ids, more := LabelIds(p[from..]), LabelIds(p[from + 1..]);
      assert p[from..][1..] == p[from + 1..];
      assert ids == LabelId(p[from]) + more;
      WalkIsWalkIds(p, from + 1, count);
      LabelFromIs(p, from + 1, p[from].k);
      WalkIdsDone(more, count);
      if IsLbl(p[from]) {
        assert ids[0] == p[from].k && ids[1..] == more;
      } else {
        assert ids == more;
      }
    }
  }

  // ----- The outcome -----

  lemma InnerIdsBelow(e: Entry, r: NamedRule, table: Table)
    requires Placed(e, r, table)
    ensures AllBelow(InnerIds(table, r.nr, r.body), |table|)
  {
    if r.body.Args? {
      EndIdsBelow(table, r.nr, 0, r.body.groups);
      AllOfBoth(EndIds(table, r.nr, 0, r.body.groups), [IdOf(table, SuccessLabel(r.nr))], |table|);
    }
  }

  /** After the lines have been read, the outcome is that of the walk over the labels. */
  lemma OutcomeByIds(lines: seq<Line>, opts: Options)
    requires CompileLines(lines, opts, 0, START, false).Ok? && !(opts.action == LOG && !opts.allowLogging)
    ensures var st := CompileLines(lines, opts, 0, START, false).value;
      var p := Labelled(opts, st.entries);
      CompileFilter(lines, opts) ==
        if |p| > BPF_MAXINSNS then Rejected
        else match WalkIds(LabelIds(p), |st.table|)
          case Refused => Rejected
          case OutOfTable => Undefined
          case Done => Program(Resolved(p))
  {
    var st := CompileLines(lines, opts, 0, START, false).value;
    var es := LinesPlaced(lines, opts, 0, START, false, st.table);
    assert [] + es == es;
    var p := Labelled(opts, es);
    ProgramPlaces(opts, es, NamedRules(lines, opts, 0), st.table);
    assert p[0..] == p;
    WalkIsWalkIds(p, 0, |st.table|);
  }
}
