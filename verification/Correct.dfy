/**
 The jump table in front of the sections, and the main theorem.
 */
module Correct {
  import opened Words
  import opened Bpf
  import opened Compare
  import opened Emit
  import opened Labels
  import opened Blocks
  import opened Policy
  import opened Compile
  import opened BodyCorrect

  // ----- From lines to entries -----

  /** An entry is what compiling this rule gives, for some state of the label table. */
  ghost predicate Implements(e: Entry, r: NumberedRule, action: Action) {
    && e.nr == r.nr
    && if r.body.Allow? then e.AllowEntry?
       else e.ArgEntry? && exists t: Table :: CompilesTo(t, r, e.id, action, e.blocks)
  }

  predicate CompilesTo(t: Table, r: NumberedRule, id: u32, action: Action, blocks: seq<seq<Instr>>)
    requires !r.body.Allow?
  {
    var code := CompileBody(t, r.nr, r.body, id, action);
    code.Ok? && code.value.blocks == blocks
  }

  ghost predicate AllImplement(es: seq<Entry>, rules: seq<NumberedRule>, action: Action) {
    |es| == |rules| &&
    (es == [] || (Implements(es[0], rules[0], action) && AllImplement(es[1..], rules[1..], action)))
  }

  lemma AllImplementCons(e: Entry, r: NumberedRule, es: seq<Entry>, rules: seq<NumberedRule>, action: Action)
    requires Implements(e, r, action) && AllImplement(es, rules, action)
    ensures AllImplement([e] + es, [r] + rules, action)
  {
    assert ([e] + es)[1..] == es && ([r] + rules)[1..] == rules;
  }

  lemma {:induction false} AllImplementConcat(a: seq<Entry>, ra: seq<NumberedRule>,
                                              b: seq<Entry>, rb: seq<NumberedRule>, action: Action)
    requires AllImplement(a, ra, action) && AllImplement(b, rb, action)
    ensures AllImplement(a + b, ra + rb, action)
  {
    if a == [] {
      assert a + b == b && ra + rb == rb;
    } else {
      AllImplementConcat(a[1..], ra[1..], b, rb, action);
      AllImplementCons(a[0], ra[0], a[1..] + b, ra[1..] + rb, action);
      assert a + b == [a[0]] + (a[1..] + b) && ra + rb == [ra[0]] + (ra[1..] + rb);
    }
  }

  lemma RuleEntry(name: string, body: Body, ind: nat, opts: Options, st: State) returns (e: Entry)
    requires ind < |opts.syscalls| && CompileRule(name, body, ind, opts, st).Ok?
    ensures CompileRule(name, body, ind, opts, st).value.entries == st.entries + [e]
    ensures Implements(e, NumberedRule(opts.syscalls[ind].nr, body), opts.action)
  {
    var r := NumberedRule(opts.syscalls[ind].nr, body);
    if body.Allow? {
      e := AllowEntry(r.nr);
    } else {
      var (table, id) := Intern(st.table, name);
      var code := CompileBody(table, r.nr, body, AsId(id), opts.action).value;
      e := ArgEntry(r.nr, AsId(id), code.blocks);
      assert CompilesTo(table, r, e.id, opts.action, e.blocks);
    }
  }

  lemma ConcatAssoc(a: seq<Entry>, b: seq<Entry>, c: seq<Entry>)
    ensures a + b + c == a + (b + c)
  {
  }

  /** An accepted file contributes exactly the entries of its rules, in order. */
  lemma {:induction false} LinesImplement(lines: seq<Line>, opts: Options, level: nat, st: State, bad: bool)
    returns (es: seq<Entry>)
    requires CompileLines(lines, opts, level, st, bad).Ok?
    ensures CompileLines(lines, opts, level, st, bad).value.entries == st.entries + es
    ensures AllImplement(es, Rules(lines, opts, level), opts.action)
    decreases if level == 0 then 1 else 0, |lines|
  {
    es := [];
    if lines != [] {
      match lines[0]
      case Blank => es := LinesImplement(lines[1..], opts, level, st, bad);
      case Frequency => es := LinesImplement(lines[1..], opts, level, st, bad);
      case Include(path) =>
        var inner := LinesImplement(opts.files[path], opts, level + 1, st, false);
        var st' := CompileLines(opts.files[path], opts, level + 1, st, false).value;
        var rest := LinesImplement(lines[1..], opts, level, st', bad);
        AllImplementConcat(inner, Rules(opts.files[path], opts, 1), rest, Rules(lines[1..], opts, level), opts.action);
        es := inner + rest;
        ConcatAssoc(st.entries, inner, rest);
      case Rule(name, body) =>
        var r := Lookup(opts.syscalls, name);
        if r.None? {
          es := LinesImplement(lines[1..], opts, level, st, bad);
        } else {
          var e := RuleEntry(name, body, r.value, opts, st);
          var st' := CompileRule(name, body, r.value, opts, st).value;
          var rest := LinesImplement(lines[1..], opts, level, st', bad || (r.value in st.seen && !opts.allowDuplicates));
          AllImplementCons(e, NumberedRule(opts.syscalls[r.value].nr, body),
                           rest, Rules(lines[1..], opts, level), opts.action);
          es := [e] + rest;
          ConcatAssoc(st.entries, [e], rest);
        }
    }
  }

  // ----- Entries whose sections are in place -----

  /** From this entry's code the run returns v. */
  ghost predicate Gives(p: seq<Instr>, d: Data, e: Entry, v: u32, after: nat)
    requires d.Valid()
  {
    match e
    case AllowEntry(_) => v == RET_ALLOW
    case ArgEntry(_, id, _) => exists at: nat :: after <= at < |p| && p[at] == Lbl(id) && Returns(p, d, at, v)
  }

  ghost predicate Returns(p: seq<Instr>, d: Data, at: nat, v: u32)
    requires d.Valid()
  {
    forall s :: RunL(p, d, at, s) == Ret(v)
  }

  ghost predicate AllGive(p: seq<Instr>, d: Data, es: seq<Entry>, vs: seq<u32>, after: nat)
    requires d.Valid()
  {
    |es| == |vs| &&
    (es == [] || (Gives(p, d, es[0], vs[0], after) && AllGive(p, d, es[1..], vs[1..], after)))
  }

  function Verdicts(rules: seq<NumberedRule>, action: Action, d: Data): seq<u32>
    requires d.Valid()
  {
    if rules == [] then [] else [BodyVerdict(rules[0].body, action, d)] + Verdicts(rules[1..], action, d)
  }

  lemma SectionGives(p: seq<Instr>, d: Data, at: nat, e: Entry, r: NumberedRule, action: Action, after: nat)
    requires d.Valid() && UniqueFrom(p, 0) && after <= at && SlotsOk(r.body) && Implements(e, r, action)
    requires e.ArgEntry? ==> CodeAt(p, at, Flat(e.blocks))
    ensures Gives(p, d, e, BodyVerdict(r.body, action, d), after)
  {
    if e.ArgEntry? {
      var t: Table :| CompilesTo(t, r, e.id, action, e.blocks);
      assert e.blocks[0] == [Lbl(e.id)];
      CodeAtSplit(p, at, e.blocks[0], Flat(e.blocks[1..]));
      CodeAtIndex(p, at, e.blocks[0], 0);
      forall s
        ensures RunL(p, d, at, s) == Ret(BodyVerdict(r.body, action, d))
      {
        BodyRuns(p, d, at, s, t, r.nr, r.body, e.id, action);
      }
      assert Returns(p, d, at, BodyVerdict(r.body, action, d));
    }
  }

  lemma FirstSection(p: seq<Instr>, at: nat, es: seq<Entry>) returns (next: nat)
    requires es != [] && CodeAt(p, at, Flat(ArgBlocks(es)))
    ensures at <= next && CodeAt(p, at, Flat(EntryArgs(es[0]))) && CodeAt(p, next, Flat(ArgBlocks(es[1..])))
  {
    var first := EntryArgs(es[0]);
    FlatConcat(first, ArgBlocks(es[1..]));
    CodeAtSplit(p, at, Flat(first), Flat(ArgBlocks(es[1..])));
    next := at + |Flat(first)|;
  }

  lemma {:induction false} SectionsGive(p: seq<Instr>, d: Data, at: nat, es: seq<Entry>,
                                        rules: seq<NumberedRule>, action: Action, after: nat)
    requires d.Valid() && UniqueFrom(p, 0) && after <= at && RuleSlotsOk(rules) && AllImplement(es, rules, action)
    requires CodeAt(p, at, Flat(ArgBlocks(es)))
    ensures AllGive(p, d, es, Verdicts(rules, action, d), after)
    decreases |es|
  {
    if es != [] {
      var next := FirstSection(p, at, es);
      SectionGives(p, d, at, es[0], rules[0], action, after);
      SectionsGive(p, d, next, es[1..], rules[1..], action, after);
      AllGiveCons(p, d, es, BodyVerdict(rules[0].body, action, d), Verdicts(rules[1..], action, d), after);
    }
  }

  lemma AllGiveCons(p: seq<Instr>, d: Data, es: seq<Entry>, v: u32, vs: seq<u32>, after: nat)
    requires d.Valid() && es != [] && Gives(p, d, es[0], v, after) && AllGive(p, d, es[1..], vs, after)
    ensures AllGive(p, d, es, [v] + vs, after)
  {
    assert ([v] + vs)[1..] == vs;
  }

  // ----- The jump table -----

  function FirstMatch(es: seq<Entry>, vs: seq<u32>, nr: u32, otherwise: u32): u32
    requires |es| == |vs|
  {
    if es == [] then otherwise
    else if es[0].nr == nr then vs[0]
    else FirstMatch(es[1..], vs[1..], nr, otherwise)
  }

  lemma EntryRuns(p: seq<Instr>, d: Data, at: nat, s: Machine, e: Entry, v: u32, after: nat)
    requires d.Valid() && UniqueFrom(p, 0) && s.a == d.nr && Gives(p, d, e, v, after)
    requires CodeAt(p, at, EntryHead(e)) && at + 2 < |p| && at + 2 <= after
    ensures RunL(p, d, at, s) == if e.nr == d.nr then Ret(v) else RunL(p, d, at + 2, s)
  {
    CodeAtIndex(p, at, EntryHead(e), 0);
    CodeAtIndex(p, at, EntryHead(e), 1);
    if e.nr == d.nr {
      assert RunL(p, d, at, s) == RunL(p, d, at + 1, s);
      if e.ArgEntry? {
        var t: nat :| after <= t < |p| && p[t] == Lbl(e.id) && Returns(p, d, t, v);
        JumpReaches(p, d, at + 1, s, e.id, t);
      }
    }
  }

  /** The jump table dispatches to the first entry with the system call's number. */
  lemma {:induction false} TableRuns(p: seq<Instr>, d: Data, at: nat, s: Machine,
                                     es: seq<Entry>, vs: seq<u32>, otherwise: u32, after: nat)
    requires d.Valid() && UniqueFrom(p, 0) && s.a == d.nr && AllGive(p, d, es, vs, after)
    requires CodeAt(p, at, Flat(HeadBlocks(es)) + [Stmt(RET_K, otherwise)])
    requires at + |Flat(HeadBlocks(es))| + 1 <= after
    ensures RunL(p, d, at, s) == Ret(FirstMatch(es, vs, d.nr, otherwise))
    decreases |es|
  {
    var last := [Stmt(RET_K, otherwise)];
    if es == [] {
      CodeAtIndex(p, at, Flat(HeadBlocks(es)) + last, 0);
    } else {
      var head, rest := EntryHead(es[0]), Flat(HeadBlocks(es[1..]));
      assert Flat(HeadBlocks(es)) + last == head + (rest + last);
      CodeAtSplit(p, at, head, rest + last);
      EntryRuns(p, d, at, s, es[0], vs[0], after);
      TableRuns(p, d, at + 2, s, es[1..], vs[1..], otherwise, after);
    }
  }

  /** The architecture check, then the load of the system call number. */
  lemma PrologueRuns(p: seq<Instr>, d: Data, s: Machine)
    requires d.Valid() && CodeAt(p, 0, ValidateArchCode() + LoadNrCode()) && |p| > 4
    ensures d.arch != MINIJAIL_ARCH_NR ==> RunL(p, d, 0, s) == Ret(RET_KILL)
    ensures d.arch == MINIJAIL_ARCH_NR ==> RunL(p, d, 0, s) == RunL(p, d, 4, s.(a := d.nr))
  {
    var code := ValidateArchCode() + LoadNrCode();
    CodeAtIndex(p, 0, code, 0);
    CodeAtIndex(p, 0, code, 1);
    CodeAtIndex(p, 0, code, 2);
    CodeAtIndex(p, 0, code, 3);
    assert d.Word(0) == Some(d.nr) && d.Word(4) == Some(d.arch);
    var s1 := s.(a := d.arch);
    assert RunL(p, d, 0, s) == RunL(p, d, 1, s1);
    if d.arch == MINIJAIL_ARCH_NR {
      assert RunL(p, d, 1, s1) == RunL(p, d, 3, s1);
    } else {
      assert RunL(p, d, 1, s1) == RunL(p, d, 2, s1);
    }
  }

  // ----- The main theorem -----

  lemma {:induction false} FirstMatchIsVerdict(es: seq<Entry>, rules: seq<NumberedRule>, action: Action, d: Data)
    requires d.Valid() && AllImplement(es, rules, action)
    ensures |Verdicts(rules, action, d)| == |es|
    ensures FirstMatch(es, Verdicts(rules, action, d), d.nr, ActionValue(action)) == RulesVerdict(rules, action, d)
    decreases |es|
  {
    if es != [] {
      FirstMatchIsVerdict(es[1..], rules[1..], action, d);
    }
  }

  predicate AllAllow(es: seq<Entry>) {
    es == [] || (es[0].AllowEntry? && AllAllow(es[1..]))
  }

  function Allows(n: nat): seq<u32> { seq(n, _ => RET_ALLOW) }

  /** Entries that simply allow, put in front, win for their own numbers. */
  lemma {:induction false} AllowsGive(p: seq<Instr>, d: Data, log: seq<Entry>, es: seq<Entry>, vs: seq<u32>, after: nat)
    requires d.Valid() && AllAllow(log) && AllGive(p, d, es, vs, after)
    ensures AllGive(p, d, log + es, Allows(|log|) + vs, after)
    decreases |log|
  {
    if log == [] {
      assert log + es == es && Allows(0) + vs == vs;
    } else {
      AllowsGive(p, d, log[1..], es, vs, after);
      assert (log + es)[1..] == log[1..] + es;
      AllGiveCons(p, d, log + es, RET_ALLOW, Allows(|log| - 1) + vs, after);
      assert [RET_ALLOW] + (Allows(|log| - 1) + vs) == Allows(|log|) + vs;
    }
  }

  lemma {:induction false} AllowsMatch(log: seq<Entry>, es: seq<Entry>, vs: seq<u32>, nr: u32, otherwise: u32)
    requires |es| == |vs|
    ensures FirstMatch(log + es, Allows(|log|) + vs, nr, otherwise) ==
            if exists i :: 0 <= i < |log| && log[i].nr == nr then RET_ALLOW else FirstMatch(es, vs, nr, otherwise)
    decreases |log|
  {
    if log == [] {
      assert log + es == es && Allows(0) + vs == vs;
    } else {
      AllowsMatch(log[1..], es, vs, nr, otherwise);
      assert (log + es)[1..] == log[1..] + es;
      assert (Allows(|log|) + vs)[1..] == Allows(|log| - 1) + vs;
      assert forall i :: 0 < i < |log| ==> log[i] == log[1..][i - 1];
      assert forall i :: 0 <= i < |log| - 1 ==> log[1..][i] == log[i + 1];
    }
  }

  lemma {:induction false} EachAllows(es: seq<Entry>)
    requires forall i :: 0 <= i < |es| ==> es[i].AllowEntry?
    ensures AllAllow(es)
  {
    if es != [] {
      EachAllows(es[1..]);
    }
  }

  lemma LogEntriesAllow(opts: Options, nr: u32)
    ensures AllAllow(LogEntries(opts))
    ensures IsLogged(opts, nr) <==> exists i :: 0 <= i < |LogEntries(opts)| && LogEntries(opts)[i].nr == nr
  {
    var log := LogEntries(opts);
    EachAllows(log);
    if opts.allowSyscallsForLogging {
      if IsLogged(opts, nr) {
        var i :| 0 <= i < |LOG_SYSCALLS| && LogNr(opts.syscalls, LOG_SYSCALLS[i]) == nr;
        assert log[i].nr == nr;
      }
    }
  }

  /** The labelled program, cut where its parts meet. */
  lemma LabelledLayout(opts: Options, entries: seq<Entry>)
    ensures var table := Flat(HeadBlocks(LogEntries(opts) + entries)) + Default(opts);
            && |MainCode(opts, entries)| == 4 + |table|
            && Labelled(opts, entries) ==
               (ValidateArchCode() + LoadNrCode()) + (table + Flat(ArgBlocks(entries)))
  {
    PrologueLength();
    LayoutOf(ValidateArchCode(), LoadNrCode(), HeadBlocks(LogEntries(opts) + entries), Default(opts),
             Flat(ArgBlocks(entries)));
  }

  lemma PrologueLength()
    ensures |ValidateArchCode()| + |LoadNrCode()| == 4
  {
  }

  lemma LayoutOf(a: seq<Instr>, b: seq<Instr>, head: seq<seq<Instr>>, last: seq<Instr>, args: seq<Instr>)
    ensures |Flat([a, b] + head + [last])| == |a| + |b| + |Flat(head) + last|
    ensures Flat([a, b] + head + [last]) + args == (a + b) + ((Flat(head) + last) + args)
  {
    hide Flat;
    FlatSnoc([a, b] + head, last);
    FlatConcat([a, b], head);
    FlatPair(a, b);
    Regrouped(a, b, Flat(head), last, args);
  }

  lemma FlatPair(a: seq<Instr>, b: seq<Instr>)
    ensures Flat([a, b]) == a + b
  {
    FlatSnoc([a], b);
    FlatSnoc([], a);
    assert [] + [a] == [a] && [a] + [b] == [a, b];
  }

  lemma Regrouped(a: seq<Instr>, b: seq<Instr>, c: seq<Instr>, d: seq<Instr>, e: seq<Instr>)
    ensures a + b + c + d + e == (a + b) + ((c + d) + e)
  {
  }

  /** Where its three parts are: the prologue, the jump table and the argument sections. */
  lemma LabelledCode(opts: Options, entries: seq<Entry>) returns (after: nat)
    ensures after == |MainCode(opts, entries)|
    ensures var p := Labelled(opts, entries);
            var table := Flat(HeadBlocks(LogEntries(opts) + entries)) + Default(opts);
            && after == 4 + |table|
            && CodeAt(p, 0, ValidateArchCode() + LoadNrCode())
            && CodeAt(p, 4, table)
            && CodeAt(p, after, Flat(ArgBlocks(entries)))
  {
    var p, args := Labelled(opts, entries), Flat(ArgBlocks(entries));
    var pre, table :=
      ValidateArchCode() + LoadNrCode(), Flat(HeadBlocks(LogEntries(opts) + entries)) + Default(opts);
    after := 4 + |table|;
    PrologueLength();
    LabelledLayout(opts, entries);
    CodeAtSlice(p, 0, pre + (table + args));
    CodeAtSplit(p, 0, pre, table + args);
    CodeAtSplit(p, 4, table, args);
  }

  /** The labelled program gives the policy's verdict. */
  lemma LabelledRuns(opts: Options, entries: seq<Entry>, rules: seq<NumberedRule>, d: Data)
    requires d.Valid() && RuleSlotsOk(rules) && AllImplement(entries, rules, opts.action)
    requires UniqueFrom(Labelled(opts, entries), 0)
    ensures RunL(Labelled(opts, entries), d, 0, RESET) ==
            Ret(if d.arch != MINIJAIL_ARCH_NR then RET_KILL
                else if IsLogged(opts, d.nr) then RET_ALLOW
                else RulesVerdict(rules, opts.action, d))
  {
    var p, log := Labelled(opts, entries), LogEntries(opts);
    var after := LabelledCode(opts, entries);
    PrologueRuns(p, d, RESET);
    SectionsGive(p, d, after, entries, rules, opts.action, after);
    FirstMatchIsVerdict(entries, rules, opts.action, d);
    LogEntriesAllow(opts, d.nr);
    AllowsGive(p, d, log, entries, Verdicts(rules, opts.action, d), after);
    AllowsMatch(log, entries, Verdicts(rules, opts.action, d), d.nr, ActionValue(opts.action));
    TableRuns(p, d, 4, RESET.(a := d.nr), log + entries, Allows(|log|) + Verdicts(rules, opts.action, d),
              ActionValue(opts.action), after);
  }

  /** Compiler correctness: every accepted policy, every system call. */
  lemma CompilerCorrect(lines: seq<Line>, opts: Options, d: Data)
    requires d.Valid() && RuleSlotsOk(Rules(lines, opts, 0))
    requires CompileFilter(lines, opts).Program?
    ensures Filter(CompileFilter(lines, opts).code, d) == Ret(Verdict(lines, opts, d))
  {
    var st := CompileLines(lines, opts, 0, START, false).value;
    var p := Labelled(opts, st.entries);
    var es := LinesImplement(lines, opts, 0, START, false);
    assert [] + es == es;
    WalkIsDone(p, 0, |st.table|);
    ResolvableIsUnique(p, 0, |st.table|);
    LabelledRuns(opts, es, Rules(lines, opts, 0), d);
    ResolutionPreservesRuns(p, |st.table|, d, 0, RESET);
  }
}
