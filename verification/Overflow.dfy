/**
 The label table has 512 entries. A generated label that does not fit ends the compiler,
 but a section's own label that does not fit is used with the id -1, which is no index
 of the table. This module says for which policies the resolver gets to see it.
 */
module Overflow {
  import opened Words
  import opened Bpf
  import opened Labels
  import opened Compare
  import opened Blocks
  import opened Policy
  import opened Compile
  import opened BodyCorrect
  import opened Correct
  import opened Reading
  import opened Acceptance

  // ----- Sections without a label -----

  /** The table after a rule. */
  function AfterRule(labels: seq<string>, r: NamedRule, action: Action): seq<string> {
    var q := Process(labels, RuleRequests(r.name, r.nr, r.body, action));
    if q.Fine? then q.labels else labels
  }

  function AfterRules(labels: seq<string>, rs: seq<NamedRule>, action: Action): seq<string>
    decreases rs
  {
    if rs == [] then labels else AfterRules(AfterRule(labels, rs[0], action), rs[1..], action)
  }

  /** The rule has a section, and its name does not get into the table. */
  predicate NoRoomFor(labels: seq<string>, r: NamedRule) { !r.body.Allow? && NoRoom(labels, r.name) }

  /** Which rules have no room for the names of their sections. */
  function WithoutRoom(labels: seq<string>, rs: seq<NamedRule>, action: Action): (bs: seq<bool>)
    ensures |bs| == |rs|
    decreases rs
  {
    if rs == [] then []
    else [NoRoomFor(labels, rs[0])] + WithoutRoom(AfterRule(labels, rs[0], action), rs[1..], action)
  }

  /** The position of the last true, or the length if there is none. */
  function LastTrue(bs: seq<bool>): (k: nat)
    ensures k <= |bs|
  {
    if bs == [] then 0
    else
      var later := LastTrue(bs[1..]);
      if later < |bs| - 1 then later + 1 else if bs[0] then 0 else |bs|
  }

  /** The position of the last rule without room, or the number of rules if there is none. */
  function LastOverflow(labels: seq<string>, rs: seq<NamedRule>, action: Action): (k: nat)
    ensures k <= |rs|
  {
    LastTrue(WithoutRoom(labels, rs, action))
  }

  predicate Unlabelled(e: Entry) { e.ArgEntry? && e.id >= BPF_LABELS_MAX }

  /** These sections are without a label. */
  predicate Marks(es: seq<Entry>, bs: seq<bool>) {
    |es| == |bs| && (es == [] || (Unlabelled(es[0]) == bs[0] && Marks(es[1..], bs[1..])))
  }

  /** Exactly the sections without room for their name are without a label. */
  predicate RoomAgrees(labels: seq<string>, es: seq<Entry>, rs: seq<NamedRule>, action: Action) {
    Marks(es, WithoutRoom(labels, rs, action))
  }

  lemma RoomAgreesCons(labels: seq<string>, e: Entry, es: seq<Entry>, r: NamedRule, rs: seq<NamedRule>, action: Action)
    requires Unlabelled(e) <==> NoRoomFor(labels, r)
    requires RoomAgrees(AfterRule(labels, r, action), es, rs, action)
    ensures RoomAgrees(labels, [e] + es, [r] + rs, action)
    ensures AfterRules(labels, [r] + rs, action) == AfterRules(AfterRule(labels, r, action), rs, action)
  {
    var bs := WithoutRoom(AfterRule(labels, r, action), rs, action);
    assert ([e] + es)[1..] == es && ([r] + rs)[1..] == rs && ([NoRoomFor(labels, r)] + bs)[1..] == bs;
  }

  lemma {:induction false} RoomAgreesConcat(labels: seq<string>, a: seq<Entry>, ra: seq<NamedRule>,
                                            b: seq<Entry>, rb: seq<NamedRule>, action: Action)
    requires RoomAgrees(labels, a, ra, action) && RoomAgrees(AfterRules(labels, ra, action), b, rb, action)
    ensures RoomAgrees(labels, a + b, ra + rb, action)
    ensures AfterRules(labels, ra + rb, action) == AfterRules(AfterRules(labels, ra, action), rb, action)
    decreases ra
  {
    if a == [] {
      assert a + b == b && ra + rb == rb;
    } else {
      var next := AfterRule(labels, ra[0], action);
      assert WithoutRoom(labels, ra, action)[1..] == WithoutRoom(next, ra[1..], action);
      RoomAgreesConcat(next, a[1..], ra[1..], b, rb, action);
      RoomAgreesCons(labels, a[0], a[1..] + b, ra[0], ra[1..] + rb, action);
      ConsConcat(a, b);
      ConsConcat(ra, rb);
    }
  }

  lemma RuleOverflows(name: string, body: Body, ind: nat, opts: Options, st: State) returns (e: Entry)
    requires ind < |opts.syscalls| && CompileRule(name, body, ind, opts, st).Ok?
    ensures var r := NamedRule(name, opts.syscalls[ind].nr, body);
      var next := CompileRule(name, body, ind, opts, st).value;
      && next.entries == st.entries + [e]
      && (Unlabelled(e) <==> NoRoomFor(st.table, r))
      && next.table == AfterRule(st.table, r, opts.action)
  {
    var nr := opts.syscalls[ind].nr;
    RuleRead(name, body, ind, opts, st);
    if body.Allow? {
      e := AllowEntry(nr);
    } else {
      var (table, id) := Intern(st.table, name);
      InternIs(st.table, name);
      e := ArgEntry(nr, AsId(id), CompileBody(table, nr, body, AsId(id), opts.action).value.blocks);
    }
  }

  /** The file contributes these entries, and leaves this table. */
  ghost predicate Contributes(lines: seq<Line>, opts: Options, level: nat, st: State, bad: bool, es: seq<Entry>) {
    var c, rs := CompileLines(lines, opts, level, st, bad), NamedRules(lines, opts, level);
    && c.Ok? && c.value.entries == st.entries + es
    && RoomAgrees(st.table, es, rs, opts.action)
    && c.value.table == AfterRules(st.table, rs, opts.action)
  }

  lemma {:induction false} LinesOverflow(lines: seq<Line>, opts: Options, level: nat, st: State, bad: bool)
    returns (es: seq<Entry>)
    requires CompileLines(lines, opts, level, st, bad).Ok?
    ensures Contributes(lines, opts, level, st, bad, es)
    decreases if level == 0 then 1 else 0, |lines|, 1
  {
    es := [];
    if lines != [] {
      match lines[0]
      case Blank => es := LinesOverflow(lines[1..], opts, level, st, bad);
      case Frequency => es := LinesOverflow(lines[1..], opts, level, st, bad);
      case Include(path) => es := IncludeOverflows(lines, path, opts, st, bad);
      case Rule(name, body) =>
        if Lookup(opts.syscalls, name).None? {
          es := LinesOverflow(lines[1..], opts, level, st, bad);
        } else {
          es := RuleLineOverflows(lines, name, body, opts, level, st, bad);
        }
    }
  }

  lemma {:induction false} IncludeOverflows(lines: seq<Line>, path: string, opts: Options, st: State, bad: bool)
    returns (es: seq<Entry>)
    requires lines != [] && lines[0] == Include(path) && CompileLines(lines, opts, 0, st, bad).Ok?
    ensures Contributes(lines, opts, 0, st, bad, es)
    decreases 1, |lines|, 0
  {
    var st' := CompileLines(opts.files[path], opts, 1, st, false).value;
    var inner := LinesOverflow(opts.files[path], opts, 1, st, false);
    var rest := LinesOverflow(lines[1..], opts, 0, st', bad);
    es := inner + rest;
    Assoc(st.entries, inner, rest);
    RoomAgreesConcat(st.table, inner, NamedRules(opts.files[path], opts, 1),
                     rest, NamedRules(lines[1..], opts, 0), opts.action);
  }

  lemma {:induction false} RuleLineOverflows(lines: seq<Line>, name: string, body: Body, opts: Options, level: nat,
                                             st: State, bad: bool)
    returns (es: seq<Entry>)
    requires lines != [] && lines[0] == Rule(name, body) && Lookup(opts.syscalls, name).Some?
    requires CompileLines(lines, opts, level, st, bad).Ok?
    ensures Contributes(lines, opts, level, st, bad, es)
    decreases if level == 0 then 1 else 0, |lines|, 0
  {
    var ind := Lookup(opts.syscalls, name).value;
    var st' := CompileRule(name, body, ind, opts, st).value;
    var e := RuleOverflows(name, body, ind, opts, st);
    var rest := LinesOverflow(lines[1..], opts, level, st', bad || (ind in st.seen && !opts.allowDuplicates));
    es := [e] + rest;
    Assoc(st.entries, [e], rest);
    RoomAgreesCons(st.table, e, rest, NamedRule(name, opts.syscalls[ind].nr, body),
                   NamedRules(lines[1..], opts, level), opts.action);
  }

  // ----- What the walk meets behind the last of them -----

  lemma EntryBehind(e: Entry, r: NamedRule, table: Table)
    requires Placed(e, r, table)
    ensures BehindLast(EntryIds(e, r, table), |table|)
         == if Unlabelled(e) then Some(InnerIds(table, r.nr, r.body)) else None
  {
    if e.ArgEntry? {
      var inner := InnerIds(table, r.nr, r.body);
      InnerIdsBelow(e, r, table);
      BehindLastNone(inner, |table|);
      assert ([e.id] + inner)[1..] == inner;
    }
  }

  lemma AllPlacedFrom(es: seq<Entry>, rs: seq<NamedRule>, table: Table, k: nat)
    requires AllPlaced(es, rs, table) && k <= |es|
    ensures AllPlaced(es[k..], rs[k..], table)
    decreases k
  {
    if k > 0 {
      AllPlacedFrom(es[1..], rs[1..], table, k - 1);
      assert es[1..][k - 1..] == es[k..] && rs[1..][k - 1..] == rs[k..];
    } else {
      assert es[0..] == es && rs[0..] == rs;
    }
  }

  /** The ids behind the entry label of section k: its inner labels, and all later sections. */
  function Behind(es: seq<Entry>, rs: seq<NamedRule>, table: Table, k: nat): seq<u32>
    requires k < |es| == |rs|
  {
    InnerIds(table, rs[k].nr, rs[k].body) + AllIds(es[k + 1..], rs[k + 1..], table)
  }

  lemma BehindNext(es: seq<Entry>, rs: seq<NamedRule>, table: Table, k: nat)
    requires k + 1 < |es| == |rs|
    ensures Behind(es[1..], rs[1..], table, k) == Behind(es, rs, table, k + 1)
  {
    assert es[1..][k + 1..] == es[k + 2..] && rs[1..][k + 1..] == rs[k + 2..];
  }

  lemma BehindFirst(e: Entry, es: seq<Entry>, r: NamedRule, rs: seq<NamedRule>, table: Table)
    requires Placed(e, r, table) && |es| == |rs|
    ensures var later := BehindLast(AllIds(es, rs, table), |table|);
      BehindLast(EntryIds(e, r, table) + AllIds(es, rs, table), |table|)
      == if later.Some? then later
         else if Unlabelled(e) then Some(InnerIds(table, r.nr, r.body) + AllIds(es, rs, table))
         else None
  {
    EntryBehind(e, r, table);
    BehindLastConcat(EntryIds(e, r, table), AllIds(es, rs, table), |table|);
  }

  lemma FirstIds(es: seq<Entry>, rs: seq<NamedRule>, table: Table)
    requires |es| == |rs| > 0
    ensures AllIds(es, rs, table) == EntryIds(es[0], rs[0], table) + AllIds(es[1..], rs[1..], table)
    ensures Behind(es, rs, table, 0) == InnerIds(table, rs[0].nr, rs[0].body) + AllIds(es[1..], rs[1..], table)
  {
  }

  lemma NothingBehind(table: Table)
    ensures BehindLast(AllIds([], [], table), |table|) == None
  {
  }

  /** They are what the walk meets before it meets the last label without an entry. */
  lemma {:induction false} BehindMarked(es: seq<Entry>, rs: seq<NamedRule>, table: Table, bs: seq<bool>)
    requires AllPlaced(es, rs, table) && Marks(es, bs)
    ensures var k := LastTrue(bs);
      BehindLast(AllIds(es, rs, table), |table|) == if k == |rs| then None else Some(Behind(es, rs, table, k))
  {
    hide AllIds, BehindLast, Behind;
    if es == [] {
      NothingBehind(table);
    } else {
      FirstIds(es, rs, table);
      BehindMarked(es[1..], rs[1..], table, bs[1..]);
      BehindFirst(es[0], es[1..], rs[0], rs[1..], table);
      if LastTrue(bs[1..]) < |bs| - 1 {
        BehindNext(es, rs, table, LastTrue(bs[1..]));
      }
    }
  }

  // ----- The length of the program -----

  function AtomsLength(atoms: seq<Atom>): nat {
    if atoms == [] then 0
    else (if atoms[0].Atom? then ArgCompLen(atoms[0].op, atoms[0].c) else 0) + AtomsLength(atoms[1..])
  }

  function GroupsLength(groups: seq<seq<Atom>>): nat {
    if groups == [] then 0 else AtomsLength(groups[0]) + 2 + GroupsLength(groups[1..])
  }

  /** The pair in the jump table, and the section. */
  function RuleLength(body: Body): nat {
    match body
    case Allow => 2
    case Return(_) => 4
    case Args(groups, _) => 6 + GroupsLength(groups)
  }

  function RulesLength(rules: seq<NumberedRule>): nat {
    if rules == [] then 0 else RuleLength(rules[0].body) + RulesLength(rules[1..])
  }

  /** The number of instructions a policy needs. */
  function PolicyLength(lines: seq<Line>, opts: Options): nat {
    5 + 2 * |LogEntries(opts)| + RulesLength(Rules(lines, opts, 0))
  }

  lemma {:induction false} AtomBlocksLength(atoms: seq<Atom>, id: u32)
    ensures |Flat(AtomBlocks(atoms, id))| == AtomsLength(atoms)
  {
    if atoms != [] {
      AtomBlocksLength(atoms[1..], id);
      if atoms[0].Atom? {
        ArgCompLenExact(atoms[0].op, atoms[0].argidx, atoms[0].c, id);
      }
    }
  }

  lemma {:induction false} GroupBlocksLength(table: Table, nr: u32, group: nat, groups: seq<seq<Atom>>)
    ensures |Flat(GroupBlocks(table, nr, group, groups))| == GroupsLength(groups)
    decreases |groups|
  {
    if groups != [] {
      var success, end := IdOf(table, SuccessLabel(nr)), IdOf(table, GroupEndLabel(nr, group));
      AtomBlocksLength(groups[0], end);
      GroupBlocksLength(table, nr, group + 1, groups[1..]);
      FlatGroup(AtomBlocks(groups[0], end), [JumpLbl(success), Lbl(end)],
                GroupBlocks(table, nr, group + 1, groups[1..]));
    }
  }

  lemma BodyLength(table: Table, nr: u32, body: Body, entry: u32, action: Action)
    requires !body.Allow? && CompileBody(table, nr, body, entry, action).Ok?
    ensures |Flat(CompileBody(table, nr, body, entry, action).value.blocks)| + 2 == RuleLength(body)
  {
    match body
    case Return(clause) =>
      var ret := CompileClause(clause, action).value;
      FlatSnoc([[Lbl(entry)]], ret);
      FlatSnoc([], [Lbl(entry)]);
      assert [[Lbl(entry)]] + [ret] == [[Lbl(entry)], ret] && [] + [[Lbl(entry)]] == [[Lbl(entry)]];
    case Args(groups, otherwise) =>
      var final := ArgsCode(table, nr, groups, otherwise, entry, action);
      GroupBlocksLength(final, nr, 0, groups);
  }

  lemma {:induction false} EntriesLength(es: seq<Entry>, rules: seq<NumberedRule>, action: Action)
    requires AllImplement(es, rules, action)
    ensures 2 * |es| + |Flat(ArgBlocks(es))| == RulesLength(rules)
    decreases |es|
  {
    if es != [] {
      EntriesLength(es[1..], rules[1..], action);
      FlatConcat(EntryArgs(es[0]), ArgBlocks(es[1..]));
      if es[0].ArgEntry? {
        var t: Table :| CompilesTo(t, rules[0], es[0].id, action, es[0].blocks);
        BodyLength(t, rules[0].nr, rules[0].body, es[0].id, action);
      }
    }
  }

  lemma {:induction false} HeadLength(es: seq<Entry>)
    ensures |Flat(HeadBlocks(es))| == 2 * |es|
  {
    if es != [] {
      HeadLength(es[1..]);
      assert |EntryHead(es[0])| == 2;
    }
  }

  lemma ProgramLength(lines: seq<Line>, opts: Options)
    requires CompileLines(lines, opts, 0, START, false).Ok?
    ensures |Labelled(opts, CompileLines(lines, opts, 0, START, false).value.entries)| == PolicyLength(lines, opts)
  {
    var es := LinesImplement(lines, opts, 0, START, false);
    assert [] + es == es;
    EntriesLength(es, Rules(lines, opts, 0), opts.action);
    HeadLength(LogEntries(opts) + es);
    LabelledLayout(opts, es);
  }

  // ----- The outcome -----

  /** The default action can be compiled. */
  predicate ActionOk(opts: Options) { opts.action == LOG ==> opts.allowLogging }

  /** The policy reaches the resolver. */
  predicate ReachesResolver(lines: seq<Line>, opts: Options) {
    Read(lines, opts).Fine? && ActionOk(opts) && PolicyLength(lines, opts) <= BPF_MAXINSNS
  }

  /** The label ids of the program that the resolver gets, and the size of its table. */
  function FinalIds(lines: seq<Line>, opts: Options): seq<u32>
    requires CompileLines(lines, opts, 0, START, false).Ok?
  {
    LabelIds(Labelled(opts, CompileLines(lines, opts, 0, START, false).value.entries))
  }

  /** All outcomes, for all policies. Only a generated label that does not fit aborts; and
      what the resolver gets is undefined exactly when it has a label outside the table and
      no label is placed twice behind the last such label. */
  lemma OutcomeExactly(lines: seq<Line>, opts: Options)
    ensures CompileFilter(lines, opts).Aborted? <==> Read(lines, opts).Overrun?
    ensures CompileFilter(lines, opts).Program? || CompileFilter(lines, opts).Undefined? ==> ReachesResolver(lines, opts)
    ensures ReachesResolver(lines, opts) ==>
      && CompileLines(lines, opts, 0, START, false).Ok?
      && var count := |Read(lines, opts).labels|;
      var ids := FinalIds(lines, opts);
      && (CompileFilter(lines, opts).Program? <==> AllBelow(ids, count) && NoRepeats(ids))
      && (CompileFilter(lines, opts).Undefined?
          <==> BehindLast(ids, count).Some? && NoRepeats(BehindLast(ids, count).value))
  {
    ReadExactly(lines, opts);
    if Read(lines, opts).Fine? {
      ProgramLength(lines, opts);
      if ActionOk(opts) {
        OutcomeByIds(lines, opts);
        WalkIdsDone(FinalIds(lines, opts), |Read(lines, opts).labels|);
        WalkIdsOutOfTable(FinalIds(lines, opts), |Read(lines, opts).labels|);
      }
    }
  }

  /** What the sections of a policy have to do with it: the ids, and the last section without room. */
  lemma SectionsDecide(lines: seq<Line>, opts: Options) returns (es: seq<Entry>)
    requires Read(lines, opts).Fine?
    ensures CompileLines(lines, opts, 0, START, false).Ok?
    ensures var table, rs := Read(lines, opts).labels, NamedRules(lines, opts, 0);
      && |table| <= BPF_LABELS_MAX && AllPlaced(es, rs, table)
      && FinalIds(lines, opts) == AllIds(es, rs, table)
      && var k := LastOverflow([], rs, opts.action);
         BehindLast(FinalIds(lines, opts), |table|)
         == if k == |rs| then None
            else Some(Behind(es, rs, table, k))
  {
    ReadExactly(lines, opts);
    var st, rs := CompileLines(lines, opts, 0, START, false).value, NamedRules(lines, opts, 0);
    es := LinesPlaced(lines, opts, 0, START, false, st.table);
    var same := LinesOverflow(lines, opts, 0, START, false);
    assert [] + es == es && [] + same == same;
    ProgramPlaces(opts, es, rs, st.table);
    BehindMarked(es, rs, st.table, WithoutRoom([], rs, opts.action));
  }
}
