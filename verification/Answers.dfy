/**
 What the kernel gets to hear from the filter of an accepted policy, in numbers: said of the
 lines of the policy, with included files in place, and of the words that seccomp knows.
 */
module Answers {
  import opened Words
  import opened Bpf
  import opened Compare
  import opened Labels
  import opened Policy
  import opened Compile
  import opened Correct
  import opened Include

  /** What the filter of the policy says. */
  function Answer(lines: seq<Line>, opts: Options, d: Data): Outcome
    requires d.Valid() && CompileFilter(lines, opts).Program?
  {
    Filter(CompileFilter(lines, opts).code, d)
  }

  // ----- Which line is in charge -----

  predicate FirstNamed(syscalls: seq<Syscall>, name: string, s: nat) {
    s < |syscalls| && syscalls[s].name == name && forall h :: 0 <= h < s ==> syscalls[h].name != name
  }

  /** The line is a rule for this system call. */
  ghost predicate LineNames(line: Line, opts: Options, nr: u32) {
    line.Rule? && exists s: nat :: FirstNamed(opts.syscalls, line.name, s) && opts.syscalls[s].nr == nr
  }

  ghost predicate FirstLine(lines: seq<Line>, opts: Options, nr: u32, i: nat) {
    i < |lines| && LineNames(lines[i], opts, nr) && forall h :: 0 <= h < i ==> !LineNames(lines[h], opts, nr)
  }

  ghost predicate Unnamed(lines: seq<Line>, opts: Options, nr: u32) {
    forall h :: 0 <= h < |lines| ==> !LineNames(lines[h], opts, nr)
  }

  /** One of the calls that logging needs; the number of one that has no entry is -1. */
  ghost predicate Logging(opts: Options, nr: u32) {
    opts.allowSyscallsForLogging && exists name ::
      name in ["socket", "connect", "sendto", "writev"] && IsNumberOf(opts.syscalls, name, nr)
  }

  ghost predicate IsNumberOf(syscalls: seq<Syscall>, name: string, nr: u32) {
    if exists s: nat :: FirstNamed(syscalls, name, s)
    then exists s: nat :: FirstNamed(syscalls, name, s) && syscalls[s].nr == nr
    else nr == 0xffff_ffff
  }

  lemma LookupFinds(syscalls: seq<Syscall>, name: string, s: nat)
    ensures FirstNamed(syscalls, name, s) <==> Lookup(syscalls, name) == Some(s)
  {
    var r := Lookup(syscalls, name);
    if FirstNamed(syscalls, name, s) && r.Some? {
      assert !(r.value < s) && !(s < r.value);
    }
  }

  lemma LogNrIs(syscalls: seq<Syscall>, name: string, nr: u32)
    ensures LogNr(syscalls, name) == nr <==> IsNumberOf(syscalls, name, nr)
  {
    var r := Lookup(syscalls, name);
    forall s: nat
      ensures FirstNamed(syscalls, name, s) <==> r == Some(s)
    {
      LookupFinds(syscalls, name, s);
    }
    if r.Some? {
      assert FirstNamed(syscalls, name, r.value);
    }
  }

  lemma LoggedMeans(opts: Options, nr: u32)
    ensures IsLogged(opts, nr) <==> Logging(opts, nr)
  {
    forall i | 0 <= i < |LOG_SYSCALLS|
      ensures LogNr(opts.syscalls, LOG_SYSCALLS[i]) == nr <==> IsNumberOf(opts.syscalls, LOG_SYSCALLS[i], nr)
    {
      LogNrIs(opts.syscalls, LOG_SYSCALLS[i], nr);
    }
    if IsLogged(opts, nr) {
      var i :| 0 <= i < |LOG_SYSCALLS| && LogNr(opts.syscalls, LOG_SYSCALLS[i]) == nr;
      assert LOG_SYSCALLS[i] in ["socket", "connect", "sendto", "writev"];
    }
    if Logging(opts, nr) {
      var name :| name in ["socket", "connect", "sendto", "writev"] && IsNumberOf(opts.syscalls, name, nr);
      var i :| 0 <= i < |LOG_SYSCALLS| && LOG_SYSCALLS[i] == name;
    }
  }

  /** A line is a rule for a call exactly if it gives a numbered rule with that number. */
  lemma LineNamesMeans(line: Line, opts: Options, nr: u32)
    ensures LineNames(line, opts, nr) <==>
            line.Rule? && Lookup(opts.syscalls, line.name).Some? &&
            opts.syscalls[Lookup(opts.syscalls, line.name).value].nr == nr
  {
    if line.Rule? {
      forall s: nat
        ensures FirstNamed(opts.syscalls, line.name, s) <==> Lookup(opts.syscalls, line.name) == Some(s)
      {
        LookupFinds(opts.syscalls, line.name, s);
      }
    }
  }

  lemma NoRulesForIt(lines: seq<Line>, opts: Options, action: Action, d: Data)
    requires d.Valid() && NoIncludes(lines) && Unnamed(lines, opts, d.nr)
    ensures RulesVerdict(Rules(lines, opts, 0), action, d) == ActionValue(action)
  {
    if lines != [] {
      LineNamesMeans(lines[0], opts, d.nr);
      assert forall h :: 0 <= h < |lines| - 1 ==> lines[1..][h] == lines[h + 1];
      NoRulesForIt(lines[1..], opts, action, d);
    }
  }

  lemma FirstRuleDecides(lines: seq<Line>, opts: Options, action: Action, d: Data, i: nat)
    requires d.Valid() && NoIncludes(lines) && FirstLine(lines, opts, d.nr, i)
    ensures RulesVerdict(Rules(lines, opts, 0), action, d) == BodyVerdict(lines[i].body, action, d)
  {
    LineNamesMeans(lines[0], opts, d.nr);
    if i > 0 {
      assert !LineNames(lines[0], opts, d.nr);
      assert forall h :: 0 <= h < i ==> lines[1..][h] == lines[h + 1];
      FirstRuleDecides(lines[1..], opts, action, d, i - 1);
    }
  }

  // ----- Included files -----

  lemma {:induction false} RulesConcat(a: seq<Line>, b: seq<Line>, opts: Options)
    requires NoIncludes(a)
    ensures Rules(a + b, opts, 0) == Rules(a, opts, 1) + Rules(b, opts, 0)
    decreases |a|
  {
    if a == [] {
      assert a + b == b;
    } else {
      assert (a + b)[0] == a[0] && (a + b)[1..] == a[1..] + b;
      RulesConcat(a[1..], b, opts);
    }
  }

  lemma {:induction false} NoIncludesConcat(a: seq<Line>, b: seq<Line>)
    requires NoIncludes(a) && NoIncludes(b)
    ensures NoIncludes(a + b)
  {
    if a == [] {
      assert a + b == b;
    } else {
      assert (a + b)[0] == a[0] && (a + b)[1..] == a[1..] + b;
      NoIncludesConcat(a[1..], b);
    }
  }

  /** In a policy that was read, every include has been spliced. */
  lemma {:induction false} AllSpliced(lines: seq<Line>, opts: Options, st: State, bad: bool)
    requires CompileLines(lines, opts, 0, st, bad).Ok?
    ensures var flat := Splice(lines, opts.files);
      NoIncludes(flat) && Rules(flat, opts, 0) == Rules(lines, opts, 0)
    decreases |lines|
  {
    if lines != [] {
      match lines[0]
      case Include(path) =>
        var inner := CompileLines(opts.files[path], opts, 1, st, false);
        if !NoIncludes(opts.files[path]) {
          NestedIncludeFails(opts.files[path], opts, 1, st, false);
        }
        AllSpliced(lines[1..], opts, inner.value, bad);
        NoIncludesConcat(opts.files[path], Splice(lines[1..], opts.files));
        RulesConcat(opts.files[path], Splice(lines[1..], opts.files), opts);
      case Rule(name, body) =>
        RuleSpliced(lines, name, body, opts, st, bad);
      case Blank => AllSpliced(lines[1..], opts, st, bad);
      case Frequency => AllSpliced(lines[1..], opts, st, bad);
      case _ =>
    }
  }

  lemma {:induction false} RuleSpliced(lines: seq<Line>, name: string, body: Body, opts: Options, st: State, bad: bool)
    requires lines != [] && lines[0] == Rule(name, body) && CompileLines(lines, opts, 0, st, bad).Ok?
    ensures var flat := Splice(lines, opts.files);
      NoIncludes(flat) && Rules(flat, opts, 0) == Rules(lines, opts, 0)
    decreases |lines|, 0
  {
    var rest := Splice(lines[1..], opts.files);
    assert Splice(lines, opts.files) == [lines[0]] + rest && ([lines[0]] + rest)[1..] == rest;
    var r := Lookup(opts.syscalls, name);
    if r.None? {
      AllSpliced(lines[1..], opts, st, bad);
    } else {
      AllSpliced(lines[1..], opts, CompileRule(name, body, r.value, opts, st).value,
                 bad || (r.value in st.seen && !opts.allowDuplicates));
    }
  }

  // ----- The answers -----

  /** What a call gets that nothing lets run. */
  predicate IsDefault(action: Action, o: Outcome) {
    && (action == KILL ==> o == Ret(0))
    && (action == TRAP ==> o == Ret(0x3_0000))
    && (action == LOG ==> o == Ret(0x7ffc_0000))
    && (action == KILL_PROCESS ==> o == Ret(0x8000_0000))
  }

  /** The clause behind a rule: an errno of 16 bits, or the default. */
  predicate IsClause(clause: Clause, action: Action, o: Outcome) {
    match clause
    case Errno(v) => o == Ret(0x5_0000 + v % 0x1_0000)
    case _ => IsDefault(action, o)
  }

  /** All conditions of a conjunction hold. */
  ghost predicate Conjunction(atoms: seq<Atom>, d: Data)
    requires d.Valid()
  {
    forall a :: 0 <= a < |atoms| ==> AtomHolds(atoms[a], d)
  }

  /** Some conjunction holds. */
  ghost predicate Satisfied(groups: seq<seq<Atom>>, d: Data)
    requires d.Valid()
  {
    exists g :: 0 <= g < |groups| && Conjunction(groups[g], d)
  }

  lemma {:induction false} GroupMeans(atoms: seq<Atom>, d: Data)
    requires d.Valid()
    ensures GroupHolds(atoms, d) <==> Conjunction(atoms, d)
  {
    if atoms != [] {
      GroupMeans(atoms[1..], d);
      assert forall a :: 0 < a < |atoms| ==> atoms[a] == atoms[1..][a - 1];
    }
  }

  lemma {:induction false} DnfMeans(groups: seq<seq<Atom>>, d: Data)
    requires d.Valid()
    ensures Dnf(groups, d) <==> Satisfied(groups, d)
  {
    if groups != [] {
      var rest := groups[1..];
      DnfMeans(rest, d);
      GroupMeans(groups[0], d);
      hide GroupHolds, Conjunction;
      assert forall g :: 0 < g < |groups| ==> groups[g] == rest[g - 1];
      assert forall g :: 0 <= g < |rest| ==> rest[g] == groups[g + 1];
    }
  }

  /** The rule answers for the call. */
  ghost predicate IsAnswer(body: Body, action: Action, d: Data, o: Outcome)
    requires d.Valid()
  {
    match body
    case Allow => o == Ret(0x7fff_0000)
    case Return(clause) => IsClause(clause, action, o)
    case Args(groups, otherwise) =>
      if Satisfied(groups, d) then o == Ret(0x7fff_0000)
      else if otherwise.Some? then IsClause(otherwise.value, action, o)
      else IsDefault(action, o)
  }

  lemma DefaultIs(action: Action)
    ensures IsDefault(action, Ret(ActionValue(action)))
  {
  }

  lemma BodyAnswers(body: Body, action: Action, d: Data)
    requires d.Valid()
    ensures IsAnswer(body, action, d, Ret(BodyVerdict(body, action, d)))
  {
    DefaultIs(action);
    if body.Args? {
      DnfMeans(body.groups, d);
    }
  }

  lemma NamedAnswer(lines: seq<Line>, opts: Options, d: Data, i: nat)
    requires d.Valid() && RuleSlotsOk(Rules(lines, opts, 0)) && CompileFilter(lines, opts).Program?
    requires d.arch == 0xC000_003E && !Logging(opts, d.nr) && FirstLine(Splice(lines, opts.files), opts, d.nr, i)
    ensures IsAnswer(Splice(lines, opts.files)[i].body, opts.action, d, Answer(lines, opts, d))
  {
    hide RuleSlotsOk, Rules, Filter, Splice, IsAnswer, BodyVerdict, RulesVerdict, IsLogged, Logging;
    var flat := Splice(lines, opts.files);
    CompilerCorrect(lines, opts, d);
    LoggedMeans(opts, d.nr);
    AllSpliced(lines, opts, START, false);
    FirstRuleDecides(flat, opts, opts.action, d, i);
    BodyAnswers(flat[i].body, opts.action, d);
  }

  lemma UnnamedAnswer(lines: seq<Line>, opts: Options, d: Data)
    requires d.Valid() && RuleSlotsOk(Rules(lines, opts, 0)) && CompileFilter(lines, opts).Program?
    requires d.arch == 0xC000_003E && !Logging(opts, d.nr) && Unnamed(Splice(lines, opts.files), opts, d.nr)
    ensures IsDefault(opts.action, Answer(lines, opts, d))
  {
    hide RuleSlotsOk, Rules, Filter, Splice, RulesVerdict, IsLogged, Logging, IsDefault;
    CompilerCorrect(lines, opts, d);
    LoggedMeans(opts, d.nr);
    AllSpliced(lines, opts, START, false);
    NoRulesForIt(Splice(lines, opts.files), opts, opts.action, d);
    DefaultIs(opts.action);
  }

  /**
   The answer to every call. A call for a foreign architecture is killed, one that logging
   needs is allowed, and of the others the first line that names the call decides, or else
   the default action does.
   */
  lemma EveryAnswer(lines: seq<Line>, opts: Options, d: Data)
    requires d.Valid() && RuleSlotsOk(Rules(lines, opts, 0)) && CompileFilter(lines, opts).Program?
    ensures var flat, o := Splice(lines, opts.files), Answer(lines, opts, d);
      && (d.arch != 0xC000_003E ==> o == Ret(0))
      && (d.arch == 0xC000_003E && Logging(opts, d.nr) ==> o == Ret(0x7fff_0000))
      && (d.arch == 0xC000_003E && !Logging(opts, d.nr) ==>
            && (Unnamed(flat, opts, d.nr) ==> IsDefault(opts.action, o))
            && (forall i: nat :: FirstLine(flat, opts, d.nr, i) ==> IsAnswer(flat[i].body, opts.action, d, o)))
  {
    hide RuleSlotsOk, Rules, Splice, RulesVerdict, IsLogged, Logging, IsDefault, IsAnswer, FirstLine, Unnamed;
    var flat := Splice(lines, opts.files);
    if d.arch != 0xC000_003E || Logging(opts, d.nr) {
      CompilerCorrect(lines, opts, d);
      LoggedMeans(opts, d.nr);
    } else {
      if Unnamed(flat, opts, d.nr) {
        UnnamedAnswer(lines, opts, d);
      }
      forall i: nat | FirstLine(flat, opts, d.nr, i)
        ensures i < |flat| && flat[i].Rule? && IsAnswer(flat[i].body, opts.action, d, Answer(lines, opts, d))
      {
        FirstIsRule(flat, opts, d.nr, i);
        NamedAnswer(lines, opts, d, i);
      }
    }
  }

  lemma FirstIsRule(flat: seq<Line>, opts: Options, nr: u32, i: nat)
    requires FirstLine(flat, opts, nr, i)
    ensures i < |flat| && flat[i].Rule?
  {
  }

  /** A line that lets the call run. */
  ghost predicate Passes(body: Body, d: Data)
    requires d.Valid()
  {
    body.Allow? || (body.Args? && Satisfied(body.groups, d))
  }

  ghost predicate NamedAndPasses(flat: seq<Line>, opts: Options, d: Data)
    requires d.Valid()
  {
    exists i: nat :: FirstLine(flat, opts, d.nr, i) && Passes(flat[i].body, d)
  }

  lemma NamedOrNot(lines: seq<Line>, opts: Options, nr: u32) returns (i: nat)
    ensures FirstLine(lines, opts, nr, i) || Unnamed(lines, opts, nr)
  {
    i := 0;
    while i < |lines| && !LineNames(lines[i], opts, nr)
      invariant i <= |lines| && forall h :: 0 <= h < i ==> !LineNames(lines[h], opts, nr)
    {
      i := i + 1;
    }
  }

  lemma OnlyOneIsFirst(lines: seq<Line>, opts: Options, nr: u32, i: nat)
    ensures FirstLine(lines, opts, nr, i) ==> forall k: nat :: FirstLine(lines, opts, nr, k) ==> k == i
    ensures Unnamed(lines, opts, nr) ==> forall k: nat :: !FirstLine(lines, opts, nr, k)
  {
  }

  lemma AnswerMeans(body: Body, action: Action, d: Data, o: Outcome)
    requires d.Valid() && IsAnswer(body, action, d, o)
    ensures o == Ret(0x7fff_0000) <==> Passes(body, d)
    ensures o == Ret(0x7ffc_0000) ==> action == LOG
  {
    hide Satisfied;
  }

  /** No call is let run by mistake: ALLOW is the answer exactly for a logging call and for a
      call whose first line passes it, and LOG is the answer only if it is the default. */
  lemma OnlyPassedCallsRun(lines: seq<Line>, opts: Options, d: Data)
    requires d.Valid() && RuleSlotsOk(Rules(lines, opts, 0)) && CompileFilter(lines, opts).Program?
    requires d.arch == 0xC000_003E
    ensures var flat, o := Splice(lines, opts.files), Answer(lines, opts, d);
      && (o == Ret(0x7fff_0000) <==> Logging(opts, d.nr) || NamedAndPasses(flat, opts, d))
      && (o == Ret(0x7ffc_0000) ==> opts.action == LOG)
  {
    hide RuleSlotsOk, Rules, Splice, Answer, Logging, FirstLine, Unnamed, Passes, IsAnswer;
    var flat := Splice(lines, opts.files);
    if Logging(opts, d.nr) {
      EveryAnswer(lines, opts, d);
    } else {
      var i := NamedOrNot(flat, opts, d.nr);
      OnlyOneIsFirst(flat, opts, d.nr, i);
      if FirstLine(flat, opts, d.nr, i) {
        FirstIsRule(flat, opts, d.nr, i);
        NamedAnswer(lines, opts, d, i);
        AnswerMeans(flat[i].body, opts.action, d, Answer(lines, opts, d));
      } else {
        UnnamedAnswer(lines, opts, d);
      }
    }
  }

  /** The operators of a condition on argument n, in numbers. */
  ghost predicate Compares(op: Op, x: u64, c: u64) {
    && (op == EQ ==> x == c) && (op == NE ==> x != c)
    && (op == LT ==> x < c) && (op == LE ==> x <= c) && (op == GT ==> c < x) && (op == GE ==> c <= x)
    && (op == SET ==> exists b: nat :: b < 64 && Bit(x, b) && Bit(c, b))
    && (op == IN ==> forall b: nat :: b < 64 && Bit(x, b) ==> Bit(c, b))
  }

  /** A call whose first line has one condition runs exactly if its argument meets it. */
  lemma OneCondition(lines: seq<Line>, opts: Options, d: Data, i: nat, n: nat, op: Op, c: u64)
    requires d.Valid() && RuleSlotsOk(Rules(lines, opts, 0)) && CompileFilter(lines, opts).Program?
    requires d.arch == 0xC000_003E && !Logging(opts, d.nr) && n < 6
    requires FirstLine(Splice(lines, opts.files), opts, d.nr, i)
    requires var body := Splice(lines, opts.files)[i].body; body.Args? && body.groups == [[Atom(n, op, c)]]
    ensures Answer(lines, opts, d) == Ret(0x7fff_0000) <==> Compares(op, d.args[n], c)
  {
    hide RuleSlotsOk, Rules, Splice, Answer, Logging, IsAnswer, Passes, FirstLine;
    var flat := Splice(lines, opts.files);
    FirstIsRule(flat, opts, d.nr, i);
    NamedAnswer(lines, opts, d, i);
    AnswerMeans(flat[i].body, opts.action, d, Answer(lines, opts, d));
    ConditionPasses(flat[i].body, d, n, op, c);
  }

  lemma ConditionPasses(body: Body, d: Data, n: nat, op: Op, c: u64)
    requires d.Valid() && n < 6 && body.Args? && body.groups == [[Atom(n, op, c)]]
    ensures Passes(body, d) <==> Compares(op, d.args[n], c)
  {
    assert ArgSlot(n) == n + 2 && d.Slot(ArgSlot(n)) == d.args[n];
    OneAtom(Atom(n, op, c), d);
  }

  lemma OneAtom(a: Atom, d: Data)
    requires d.Valid()
    ensures Satisfied([[a]], d) <==> AtomHolds(a, d)
  {
    DnfMeans([[a]], d);
    GroupMeans([a], d);
    assert [[a]][1..] == [] && [a][1..] == [];
  }

  // ----- What an accepted policy cannot have -----

  ghost predicate Known(line: Line, opts: Options) {
    line.Rule? && exists s :: 0 <= s < |opts.syscalls| && opts.syscalls[s].name == line.name
  }

  /** A clause that can be compiled: an errno other than -1, or "return" where there is a
      default that it can stand for. */
  predicate ClauseOk(clause: Clause, action: Action) {
    match clause
    case Errno(v) => v % 0x1_0000_0000 != 0xffff_ffff
    case NoErrno => action != LOG
    case BadClause => false
  }

  predicate AtomsOk(groups: seq<seq<Atom>>) {
    forall g, a :: 0 <= g < |groups| && 0 <= a < |groups[g]| ==> groups[g][a].Atom?
  }

  predicate BodyOk(body: Body, action: Action) {
    match body
    case Allow => true
    case Return(clause) => ClauseOk(clause, action)
    case Args(groups, otherwise) => AtomsOk(groups) && (otherwise.Some? ==> ClauseOk(otherwise.value, action))
  }

  ghost predicate LineOk(line: Line, opts: Options) {
    || line.Blank? || line.Frequency?
    || (line.Rule? && if Known(line, opts) then BodyOk(line.body, opts.action) else opts.allowLogging)
  }

  /** No two rules for the same name, among the known ones. */
  ghost predicate NoDuplicates(lines: seq<Line>, opts: Options) {
    forall i, k :: 0 <= i < k < |lines| && Known(lines[i], opts) && Known(lines[k], opts) ==>
      lines[i].name != lines[k].name
  }

  lemma KnownMeans(line: Line, opts: Options)
    ensures Known(line, opts) <==> line.Rule? && Lookup(opts.syscalls, line.name).Some?
  {
  }

  lemma {:induction false} AtomsCompiled(table: Table, nr: u32, group: nat, atoms: seq<Atom>)
    requires CompileAtoms(table, nr, group, atoms).Ok?
    ensures forall a :: 0 <= a < |atoms| ==> atoms[a].Atom?
    decreases |atoms|
  {
    if atoms != [] {
      AtomsCompiled(CompileAtom(table, nr, group, atoms[0]).value.table, nr, group, atoms[1..]);
    }
  }

  lemma {:induction false} GroupsCompiled(table: Table, nr: u32, group: nat, groups: seq<seq<Atom>>)
    requires CompileGroups(table, nr, group, groups).Ok?
    ensures AtomsOk(groups)
    decreases |groups|
  {
    if groups != [] {
      AtomsCompiled(table, nr, group, groups[0]);
      GroupsCompiled(Compile.CompileGroup(table, nr, group, groups[0]).value.table, nr, group + 1, groups[1..]);
      assert forall g :: 0 < g < |groups| ==> groups[g] == groups[1..][g - 1];
    }
  }

  lemma RuleCompiled(name: string, body: Body, ind: nat, opts: Options, st: State)
    requires ind < |opts.syscalls| && CompileRule(name, body, ind, opts, st).Ok?
    ensures BodyOk(body, opts.action) && CompileRule(name, body, ind, opts, st).value.seen == st.seen + {ind}
  {
    if body.Args? {
      var (table, id) := Intern(st.table, name);
      GroupsCompiled(table, opts.syscalls[ind].nr, 0, body.groups);
    }
  }

  function IndexOf(line: Line, opts: Options): nat {
    if line.Rule? && Lookup(opts.syscalls, line.name).Some? then Lookup(opts.syscalls, line.name).value else 0
  }

  /** The known rules have not been seen before. */
  ghost predicate NotSeen(lines: seq<Line>, opts: Options, seen: set<nat>) {
    forall i :: 0 <= i < |lines| && Known(lines[i], opts) ==> IndexOf(lines[i], opts) !in seen
  }

  ghost predicate AllOk(lines: seq<Line>, opts: Options) { forall i :: 0 <= i < |lines| ==> LineOk(lines[i], opts) }

  lemma OneMoreLine(lines: seq<Line>, opts: Options, seen: set<nat>)
    requires lines != [] && NoDuplicates(lines[1..], opts)
    requires if Known(lines[0], opts)
             then NotSeen(lines[1..], opts, seen + {IndexOf(lines[0], opts)}) && IndexOf(lines[0], opts) !in seen
             else NotSeen(lines[1..], opts, seen)
    ensures NoDuplicates(lines, opts) && NotSeen(lines, opts, seen)
  {
    assert forall i :: 0 < i < |lines| ==> lines[i] == lines[1..][i - 1];
    forall k | 0 < k < |lines| && Known(lines[0], opts) && Known(lines[k], opts)
      ensures lines[0].name != lines[k].name
    {
      assert lines[k] == lines[1..][k - 1];
      assert IndexOf(lines[k], opts) != IndexOf(lines[0], opts);
    }
  }

  lemma {:induction false} ReadLines(lines: seq<Line>, opts: Options, st: State, bad: bool)
    requires NoIncludes(lines) && CompileLines(lines, opts, 0, st, bad).Ok?
    ensures !bad && AllOk(lines, opts)
    ensures !opts.allowDuplicates ==> NoDuplicates(lines, opts) && NotSeen(lines, opts, st.seen)
    decreases |lines|
  {
    if lines != [] {
      KnownMeans(lines[0], opts);
      var rest := lines[1..];
      assert forall i :: 0 < i < |lines| ==> lines[i] == rest[i - 1];
      match lines[0]
      case Blank => ReadLines(rest, opts, st, bad);
      case Frequency => ReadLines(rest, opts, st, bad);
      case Rule(name, body) =>
        var r := Lookup(opts.syscalls, name);
        if r.None? {
          ReadLines(rest, opts, st, bad);
        } else {
          RuleCompiled(name, body, r.value, opts, st);
          ReadLines(rest, opts, CompileRule(name, body, r.value, opts, st).value,
                    bad || (r.value in st.seen && !opts.allowDuplicates));
        }
      case _ =>
    }
    if lines != [] && !opts.allowDuplicates {
      OneMoreLine(lines, opts, st.seen);
    }
  }

  /** The path is absolute or starts with a dot and a slash. */
  predicate Explicit(path: string) {
    (|path| >= 1 && path[0] == '/') || (|path| >= 2 && path[0] == '.' && path[1] == '/')
  }

  lemma ExplicitMeans(path: string)
    ensures IsImplicitRelativePath(path) <==> !Explicit(path)
  {
    if |path| >= 1 && path[0] == '/' {
      assert path[..1] == "/";
    }
    if |path| >= 2 && path[0] == '.' && path[1] == '/' {
      assert path[..2] == "./";
    }
  }

  /** The file can be included. */
  ghost predicate IncludeOk(line: Line, opts: Options) {
    line.Include? ==> Explicit(line.path) && line.path in opts.files && NoIncludes(opts.files[line.path])
  }

  lemma {:induction false} ReadIncludes(lines: seq<Line>, opts: Options, st: State, bad: bool)
    requires CompileLines(lines, opts, 0, st, bad).Ok?
    ensures forall i :: 0 <= i < |lines| ==> IncludeOk(lines[i], opts)
    decreases |lines|
  {
    if lines != [] {
      assert forall i :: 0 < i < |lines| ==> lines[i] == lines[1..][i - 1];
      match lines[0]
      case Blank => ReadIncludes(lines[1..], opts, st, bad);
      case Frequency => ReadIncludes(lines[1..], opts, st, bad);
      case Include(path) =>
        ExplicitMeans(path);
        if !NoIncludes(opts.files[path]) {
          NestedIncludeFails(opts.files[path], opts, 1, st, false);
        }
        ReadIncludes(lines[1..], opts, CompileLines(opts.files[path], opts, 1, st, false).value, bad);
      case Rule(name, body) =>
        var r := Lookup(opts.syscalls, name);
        if r.None? {
          ReadIncludes(lines[1..], opts, st, bad);
        } else {
          ReadIncludes(lines[1..], opts, CompileRule(name, body, r.value, opts, st).value,
                       bad || (r.value in st.seen && !opts.allowDuplicates));
        }
      case _ =>
    }
  }

  /** An explicit include of such a file is replaced by the file. */
  lemma IncludeIsReplaced(path: string, rest: seq<Line>, files: map<string, seq<Line>>)
    requires Explicit(path) && path in files && NoIncludes(files[path])
    ensures Splice([Include(path)] + rest, files) == files[path] + Splice(rest, files)
  {
    ExplicitMeans(path);
    assert ([Include(path)] + rest)[1..] == rest;
  }

  /** What every accepted policy is like: its includes name files by an explicit path, and
      of its lines, with the files in place, none is malformed, none has an unknown name unless
      that is only logged, and none repeats a name unless that is allowed. */
  lemma AcceptedPolicies(lines: seq<Line>, opts: Options)
    requires CompileFilter(lines, opts).Program?
    ensures var flat := Splice(lines, opts.files);
      && (forall i :: 0 <= i < |lines| ==> IncludeOk(lines[i], opts))
      && AllOk(flat, opts)
      && (!opts.allowDuplicates ==> NoDuplicates(flat, opts))
      && (opts.action == LOG ==> opts.allowLogging)
  {
    ReadIncludes(lines, opts, START, false);
    AllSpliced(lines, opts, START, false);
    SpliceLines(lines, opts, START, false);
    ReadLines(Splice(lines, opts.files), opts, START, false);
  }
}
