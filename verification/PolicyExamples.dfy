/**
 Policies on which the compiler does not do what it should, small enough for the system
 call table of x86-64: one that makes the resolver leave its table, one that would but is
 refused first, and one whose program the kernel does not load.
 */
module PolicyExamples {
  import opened Words
  import opened Labels
  import opened Compare
  import opened Policy
  import opened Compile
  import opened Decimals
  import opened Reading
  import opened Acceptance
  import opened Overflow
  import opened LabelNames
  import opened Loadable

  // ----- System calls -----

  function CallName(i: nat): string { "s" + Digits(i) }

  /** n system calls, and no logging; a rule may be repeated. */
  function CallsOnly(n: nat): Options
    requires n < 1000
  {
    Options(KILL, false, false, true, map[], seq(n, i requires 0 <= i < n => Syscall(CallName(i), i)))
  }

  lemma CallNamesDiffer(i: nat, k: nat)
    requires CallName(i) == CallName(k)
    ensures i == k
  {
    assert Digits(i) == CallName(i)[1..] && Digits(k) == CallName(k)[1..];
    DigitsInjective(i, k);
  }

  lemma CallIsFound(i: nat, n: nat)
    requires i < n < 1000
    ensures Lookup(CallsOnly(n).syscalls, CallName(i)) == Some(i) && CallsOnly(n).syscalls[i].nr == i
  {
    var r := Lookup(CallsOnly(n).syscalls, CallName(i));
    assert CallsOnly(n).syscalls[i].name == CallName(i);
    CallNamesDiffer(r.value, i);
  }

  /** Options that know the first n of these calls. */
  ghost predicate Knows(opts: Options, n: nat) {
    && opts.action == KILL && !opts.allowSyscallsForLogging && opts.allowDuplicates && n < 1000
    && forall i: nat :: i < n ==> Known(opts, i)
  }

  predicate Known(opts: Options, i: nat) {
    Lookup(opts.syscalls, CallName(i)) == Some(i) && opts.syscalls[i].nr == i
  }

  lemma CallNameOrdinary(i: nat)
    requires i < 1000
    ensures OrdinaryName(CallName(i)) && |CallName(i)| <= MAX_BPF_LABEL_LEN
  {
    assert Pow10(3) == 1000;
    DigitsShort(i, 3);
  }

  // ----- Rules with a comparison, then three that return an errno -----

  /** "arg0 == 0" for the first t rules, then "return 1". */
  function BodyAt(i: nat, t: nat): Body {
    if i < t then Args([[Atom(0, EQ, 0)]], None) else Return(Errno(1))
  }

  function LineAt(i: nat, t: nat): Line { Rule(CallName(i), BodyAt(i, t)) }

  function RuleAt(i: nat, t: nat): NamedRule
    requires i < 1000
  {
    NamedRule(CallName(i), i, BodyAt(i, t))
  }

  /** The rules from a position on, and more lines behind them. */
  function Lines(from: nat, t: nat, more: seq<Line>): seq<Line>
    decreases t + 3 - from
  {
    if from >= t + 3 then more else [LineAt(from, t)] + Lines(from + 1, t, more)
  }

  /** What stands for the labels in the table before rule i: three for each comparison,
      one for the next two rules, and none for the last. */
  function TagsBefore(i: nat, t: nat): seq<Tag>
    requires i <= t + 3 < 1000
  {
    if i == 0 then []
    else if i <= t then TagsBefore(i - 1, t) + [Section(CallName(i - 1)), GroupEnd(i - 1, 0), Success(i - 1)]
    else if i < t + 3 then TagsBefore(i - 1, t) + [Section(CallName(i - 1))]
    else TagsBefore(i - 1, t)
  }

  function LabelsBefore(i: nat, t: nat): seq<string>
    requires i <= t + 3 < 1000
  {
    Spelled(TagsBefore(i, t))
  }

  predicate FromEarlierRule(u: Tag, i: nat) {
    match u
    case Section(name) => exists k: nat :: k < i && name == CallName(k)
    case GroupEnd(nr, group) => nr < i && group == 0
    case Success(nr) => nr < i
  }

  lemma {:induction false} TagsAreEarlier(i: nat, t: nat, u: Tag)
    requires i <= t + 3 < 1000 && u in TagsBefore(i, t)
    ensures FromEarlierRule(u, i)
  {
    if u in TagsBefore(i - 1, t) {
      TagsAreEarlier(i - 1, t, u);
    }
  }

  lemma TagsAreNew(i: nat, t: nat)
    requires i < t + 3 < 1000
    ensures Section(CallName(i)) !in TagsBefore(i, t)
    ensures GroupEnd(i, 0) !in TagsBefore(i, t) && Success(i) !in TagsBefore(i, t)
  {
    if Section(CallName(i)) in TagsBefore(i, t) {
      TagsAreEarlier(i, t, Section(CallName(i)));
      var k: nat :| k < i && CallName(i) == CallName(k);
      CallNamesDiffer(i, k);
    }
    if GroupEnd(i, 0) in TagsBefore(i, t) {
      TagsAreEarlier(i, t, GroupEnd(i, 0));
    }
    if Success(i) in TagsBefore(i, t) {
      TagsAreEarlier(i, t, Success(i));
    }
  }

  lemma {:induction false} TagsCount(i: nat, t: nat)
    requires i <= t + 3 < 1000
    ensures |TagsBefore(i, t)| == if i <= t then 3 * i else if i < t + 3 then 2 * t + i else 3 * t + 2
  {
    if i > 0 {
      TagsCount(i - 1, t);
    }
  }

  lemma TagsBeforeOrdinary(i: nat, t: nat)
    requires i <= t + 3 < 1000
    ensures AllOrdinary(TagsBefore(i, t))
  {
    forall u | u in TagsBefore(i, t)
      ensures Ordinary(u)
    {
      TagsAreEarlier(i, t, u);
      if u.Section? {
        var k: nat :| k < i && u.name == CallName(k);
        CallNameOrdinary(k);
      }
    }
  }

  // ----- The table while the rules are read -----

  lemma {:induction false} SpelledSnoc(ts: seq<Tag>, t: Tag)
    ensures Spelled(ts + [t]) == Spelled(ts) + [Spell(t)]
  {
    if ts == [] {
      assert ts + [t] == [t] && [t][1..] == [];
    } else {
      assert (ts + [t])[1..] == ts[1..] + [t];
      SpelledSnoc(ts[1..], t);
    }
  }

  lemma NewLabel(ts: seq<Tag>, t: Tag)
    requires AllOrdinary(ts) && Ordinary(t) && |Spell(t)| <= MAX_BPF_LABEL_LEN && t !in ts && |ts| < BPF_LABELS_MAX
    ensures Meet(Spelled(ts), Demand(Spell(t))) == Fine(Spelled(ts + [t]))
    ensures Meet(Spelled(ts), Ask(Spell(t))) == Fine(Spelled(ts + [t])) && !NoRoom(Spelled(ts), Spell(t))
  {
    SpelledMember(t, ts);
    SpelledSnoc(ts, t);
  }

  lemma OldLabel(ts: seq<Tag>, t: Tag)
    requires AllOrdinary(ts) && Ordinary(t) && t in ts
    ensures Meet(Spelled(ts), Demand(Spell(t))) == Fine(Spelled(ts))
  {
    SpelledMember(t, ts);
  }

  lemma LostLabel(ts: seq<Tag>, t: Tag)
    requires AllOrdinary(ts) && Ordinary(t) && t !in ts && |ts| >= BPF_LABELS_MAX
    ensures Meet(Spelled(ts), Ask(Spell(t))) == Fine(Spelled(ts)) && NoRoom(Spelled(ts), Spell(t))
  {
    SpelledMember(t, ts);
  }

  lemma Snoc(ts: seq<Tag>, t: Tag, u: Tag)
    requires AllOrdinary(ts) && Ordinary(t)
    ensures AllOrdinary(ts + [t])
    ensures u in ts + [t] <==> u in ts || u == t
  {
  }

  lemma ThreeMeets(ts: seq<Tag>, a: Tag, b: Tag, c: Tag)
    requires AllOrdinary(ts) && |ts| + 3 <= BPF_LABELS_MAX && Ordinary(a) && Ordinary(b) && Ordinary(c)
    requires |Spell(a)| <= MAX_BPF_LABEL_LEN && |Spell(b)| <= MAX_BPF_LABEL_LEN && |Spell(c)| <= MAX_BPF_LABEL_LEN
    requires a !in ts && b !in ts && c !in ts && a != b && a != c && b != c
    ensures Meet(Spelled(ts), Ask(Spell(a))) == Fine(Spelled(ts + [a]))
    ensures Meet(Spelled(ts + [a]), Demand(Spell(b))) == Fine(Spelled(ts + [a] + [b]))
    ensures Meet(Spelled(ts + [a] + [b]), Demand(Spell(c))) == Fine(Spelled(ts + [a] + [b] + [c]))
    ensures AllOrdinary(ts + [a])
  {
    Snoc(ts, a, b);
    Snoc(ts, a, c);
    Snoc(ts + [a], b, c);
    NewLabel(ts, a);
    NewLabel(ts + [a], b);
    NewLabel(ts + [a] + [b], c);
  }

  lemma Grouped(ts: seq<Tag>, a: Tag, b: Tag, c: Tag)
    ensures ts + [a] + [b] + [c] == ts + [a, b, c]
  {
  }

  /** The five requests of a rule with one comparison take three entries. */
  lemma ThreeTags(ts: seq<Tag>, a: Tag, b: Tag, c: Tag)
    requires AllOrdinary(ts) && |ts| + 3 <= BPF_LABELS_MAX && Ordinary(a) && Ordinary(b) && Ordinary(c)
    requires |Spell(a)| <= MAX_BPF_LABEL_LEN && |Spell(b)| <= MAX_BPF_LABEL_LEN && |Spell(c)| <= MAX_BPF_LABEL_LEN
    requires a !in ts && b !in ts && c !in ts && a != b && a != c && b != c
    ensures Process(Spelled(ts), [Ask(Spell(a)), Demand(Spell(b)), Demand(Spell(c)), Demand(Spell(b)), Demand(Spell(c))])
         == Fine(Spelled(ts + [a, b, c]))
  {
    ThreeMeets(ts, a, b, c);
    LastTwo(ts + [a], b, c);
    Grouped(ts, a, b, c);
    FiveInTurn(Spelled(ts), Ask(Spell(a)), Demand(Spell(b)), Demand(Spell(c)),
               Spelled(ts + [a]), Spelled(ts + [a] + [b]), Spelled(ts + [a] + [b] + [c]));
  }

  lemma LastTwo(ta: seq<Tag>, b: Tag, c: Tag)
    requires AllOrdinary(ta) && Ordinary(b) && Ordinary(c)
    ensures Meet(Spelled(ta + [b] + [c]), Demand(Spell(b))) == Fine(Spelled(ta + [b] + [c]))
    ensures Meet(Spelled(ta + [b] + [c]), Demand(Spell(c))) == Fine(Spelled(ta + [b] + [c]))
  {
    Snoc(ta, b, b);
    Snoc(ta + [b], c, b);
    Snoc(ta + [b], c, c);
    OldLabel(ta + [b] + [c], b);
    OldLabel(ta + [b] + [c], c);
  }

  lemma FiveInTurn(l: seq<string>, qa: Request, qb: Request, qc: Request, la: seq<string>, lb: seq<string>, lc: seq<string>)
    requires Meet(l, qa) == Fine(la) && Meet(la, qb) == Fine(lb) && Meet(lb, qc) == Fine(lc)
    requires Meet(lc, qb) == Fine(lc) && Meet(lc, qc) == Fine(lc)
    ensures Process(l, [qa, qb, qc, qb, qc]) == Fine(lc)
  {
    ProcessConcat(l, [qa], [qb, qc, qb, qc]);
    ProcessConcat(la, [qb], [qc, qb, qc]);
    ProcessConcat(lb, [qc], [qb, qc]);
    ProcessConcat(lc, [qb], [qc]);
    ProcessOne(l, qa);
    ProcessOne(la, qb);
    ProcessOne(lb, qc);
    ProcessOne(lc, qb);
    ProcessOne(lc, qc);
    assert [qa] + [qb, qc, qb, qc] == [qa, qb, qc, qb, qc];
    assert [qb] + [qc, qb, qc] == [qb, qc, qb, qc];
    assert [qc] + [qb, qc] == [qc, qb, qc];
    assert [qb] + [qc] == [qb, qc];
  }

  lemma ComparisonRequests(name: string, nr: u32, atom: Atom, action: Action)
    requires atom.Atom?
    ensures RuleRequests(name, nr, Args([[atom]], None), action)
         == [Ask(name), Demand(GroupEndLabel(nr, 0)), Demand(SuccessLabel(nr)),
             Demand(GroupEndLabel(nr, 0)), Demand(SuccessLabel(nr))]
  {
    var e, s := Demand(GroupEndLabel(nr, 0)), Demand(SuccessLabel(nr));
    assert [atom][1..] == [] && [[atom]][1..] == [];
    assert AtomsRequests(nr, 0, [atom]) == [e];
    assert GroupsRequests(nr, 0, [[atom]]) == [e, s, e];
  }

  lemma ComparisonMet(ts: seq<Tag>, name: string, nr: u32, atom: Atom)
    requires AllOrdinary(ts) && |ts| + 3 <= BPF_LABELS_MAX && OrdinaryName(name) && |name| <= MAX_BPF_LABEL_LEN
    requires Section(name) !in ts && GroupEnd(nr, 0) !in ts && Success(nr) !in ts && atom.Atom?
    ensures Process(Spelled(ts), RuleRequests(name, nr, Args([[atom]], None), KILL))
         == Fine(Spelled(ts + [Section(name), GroupEnd(nr, 0), Success(nr)]))
    ensures !NoRoom(Spelled(ts), name)
  {
    ComparisonRequests(name, nr, atom, KILL);
    ThreeTags(ts, Section(name), GroupEnd(nr, 0), Success(nr));
    NewLabel(ts, Section(name));
  }

  lemma ReturnRequests(name: string, nr: u32)
    ensures RuleRequests(name, nr, Return(Errno(1)), KILL) == [Ask(name)]
  {
  }

  /** One rule, from the table before it to the table behind it. */
  lemma RuleMet(i: nat, t: nat)
    requires i < t + 3 < 1000 && 3 * t + 2 == BPF_LABELS_MAX
    ensures Process(LabelsBefore(i, t), RuleRequests(CallName(i), i, BodyAt(i, t), KILL)) == Fine(LabelsBefore(i + 1, t))
    ensures NoRoom(LabelsBefore(i, t), CallName(i)) <==> i == t + 2
  {
    var ts := TagsBefore(i, t);
    TagsCount(i, t);
    TagsAreNew(i, t);
    TagsBeforeOrdinary(i, t);
    CallNameOrdinary(i);
    if i < t {
      ComparisonMet(ts, CallName(i), i, Atom(0, EQ, 0));
    } else {
      ReturnRequests(CallName(i), i);
      ProcessOne(LabelsBefore(i, t), Ask(CallName(i)));
      if i < t + 2 {
        NewLabel(ts, Section(CallName(i)));
      } else {
        LostLabel(ts, Section(CallName(i)));
      }
    }
  }

  // ----- The whole policy -----

  lemma LinesStep(from: nat, t: nat, more: seq<Line>, opts: Options, seen: set<nat>)
    requires from < t + 3 && Knows(opts, t + 3)
    ensures LinesRequests(Lines(from, t, more), opts, 0, seen, false)
         == RuleRequests(CallName(from), from, BodyAt(from, t), KILL)
            + LinesRequests(Lines(from + 1, t, more), opts, 0, seen + {from}, false)
    ensures NamedRules(Lines(from, t, more), opts, 0)
         == [RuleAt(from, t)] + NamedRules(Lines(from + 1, t, more), opts, 0)
    ensures Rules(Lines(from, t, more), opts, 0)
         == [NumberedRule(from, BodyAt(from, t))] + Rules(Lines(from + 1, t, more), opts, 0)
  {
    var lines := Lines(from, t, more);
    assert Known(opts, from);
    assert lines[0] == LineAt(from, t) && lines[1..] == Lines(from + 1, t, more);
  }

  lemma RuleLengthAt(i: nat, t: nat)
    ensures RuleLength(BodyAt(i, t)) == if i < t then 16 else 4
  {
    var atoms: seq<Atom> := [Atom(0, EQ, 0)];
    assert atoms[1..] == [];
    assert [atoms][1..] == [];
    assert AtomsLength(atoms) == 8;
    assert GroupsLength([atoms]) == 10;
  }

  lemma {:induction false} LengthFrom(i: nat, t: nat, more: seq<Line>, opts: Options)
    requires i <= t + 3 && Knows(opts, t + 3)
    ensures RulesLength(Rules(Lines(i, t, more), opts, 0))
         == (if i < t then 16 * (t - i) + 12 else 4 * (t + 3 - i)) + RulesLength(Rules(more, opts, 0))
    decreases t + 3 - i
  {
    if i < t + 3 {
      LinesStep(i, t, more, opts, {});
      RuleLengthAt(i, t);
      LengthFrom(i + 1, t, more, opts);
      var r, rest := NumberedRule(i, BodyAt(i, t)), Rules(Lines(i + 1, t, more), opts, 0);
      assert ([r] + rest)[1..] == rest;
    }
  }

  function SeenBefore(i: nat): set<nat> { if i == 0 then {} else SeenBefore(i - 1) + {i - 1} }

  /** From rule i on, reading goes on to what stands behind the last rule. */
  lemma {:induction false} ReadFrom(i: nat, t: nat, more: seq<Line>, opts: Options)
    requires i <= t + 3 && 3 * t + 2 == BPF_LABELS_MAX && Knows(opts, t + 3)
    ensures Process(LabelsBefore(i, t), LinesRequests(Lines(i, t, more), opts, 0, SeenBefore(i), false))
         == Process(LabelsBefore(t + 3, t), LinesRequests(more, opts, 0, SeenBefore(t + 3), false))
    decreases t + 3 - i
  {
    if i < t + 3 {
      LinesStep(i, t, more, opts, SeenBefore(i));
      RuleMet(i, t);
      ProcessConcat(LabelsBefore(i, t), RuleRequests(CallName(i), i, BodyAt(i, t), KILL),
                    LinesRequests(Lines(i + 1, t, more), opts, 0, SeenBefore(i + 1), false));
      ReadFrom(i + 1, t, more, opts);
    }
  }

  lemma {:induction false} RulesFrom(i: nat, t: nat, more: seq<Line>, opts: Options)
    requires i < t + 3 && Knows(opts, t + 3)
    ensures var rs, later := NamedRules(Lines(i, t, more), opts, 0), NamedRules(more, opts, 0);
      |rs| == t + 3 - i + |later| && rs[t + 2 - i..] == [RuleAt(t + 2, t)] + later
    decreases t + 3 - i
  {
    hide RuleAt, LinesRequests;
    LinesStep(i, t, more, opts, {});
    var rest := NamedRules(Lines(i + 1, t, more), opts, 0);
    if i + 1 < t + 3 {
      RulesFrom(i + 1, t, more, opts);
      assert ([RuleAt(i, t)] + rest)[t + 2 - i..] == rest[t + 1 - i..];
    } else {
      assert ([RuleAt(i, t)] + rest)[0..] == [RuleAt(i, t)] + rest;
    }
  }

  lemma FirstOverflow(labels: seq<string>, r: NamedRule, rest: seq<NamedRule>, next: seq<string>)
    requires Process(labels, RuleRequests(r.name, r.nr, r.body, KILL)) == Fine(next)
    ensures var later := LastOverflow(next, rest, KILL);
      LastOverflow(labels, [r] + rest, KILL)
      == if later < |rest| then later + 1 else if NoRoomFor(labels, r) then 0 else |rest| + 1
  {
    assert ([r] + rest)[1..] == rest;
    var bs := WithoutRoom(next, rest, KILL);
    assert WithoutRoom(labels, [r] + rest, KILL) == [NoRoomFor(labels, r)] + bs;
    assert ([NoRoomFor(labels, r)] + bs)[1..] == bs;
  }

  /** The last of the rules is the only one of them without room. */
  lemma {:induction false} RoomFrom(i: nat, t: nat, more: seq<Line>, opts: Options)
    requires i < t + 3 && 3 * t + 2 == BPF_LABELS_MAX && Knows(opts, t + 3)
    requires LastOverflow(LabelsBefore(t + 3, t), NamedRules(more, opts, 0), KILL) == |NamedRules(more, opts, 0)|
    ensures LastOverflow(LabelsBefore(i, t), NamedRules(Lines(i, t, more), opts, 0), KILL) == t + 2 - i
    decreases t + 3 - i
  {
    LinesStep(i, t, more, opts, {});
    RuleMet(i, t);
    RulesFrom(i, t, more, opts);
    FirstOverflow(LabelsBefore(i, t), RuleAt(i, t), NamedRules(Lines(i + 1, t, more), opts, 0), LabelsBefore(i + 1, t));
    if i + 1 < t + 3 {
      RoomFrom(i + 1, t, more, opts);
    }
  }

  lemma {:induction false} NamesOrdinary(i: nat, t: nat, more: seq<Line>, opts: Options)
    requires i <= t + 3 && Knows(opts, t + 3) && OrdinaryNames(NamedRules(more, opts, 0))
    ensures OrdinaryNames(NamedRules(Lines(i, t, more), opts, 0))
    decreases t + 3 - i
  {
    if i < t + 3 {
      LinesStep(i, t, more, opts, {});
      NamesOrdinary(i + 1, t, more, opts);
      CallNameOrdinary(i);
      var rest := NamedRules(Lines(i + 1, t, more), opts, 0);
      assert ([RuleAt(i, t)] + rest)[1..] == rest;
    }
  }

  /** What is known of such a policy when the last rule is the last one without room. */
  lemma Whole(z: nat, t: nat, more: seq<Line>, opts: Options)
    requires z == 0 && 3 * t + 2 == BPF_LABELS_MAX && Knows(opts, t + 3) && OrdinaryNames(NamedRules(more, opts, 0))
    requires Process(LabelsBefore(t + 3, t), LinesRequests(more, opts, 0, SeenBefore(t + 3), false)).Fine?
    requires LastOverflow(LabelsBefore(t + 3, t), NamedRules(more, opts, 0), KILL) == |NamedRules(more, opts, 0)|
    requires RulesLength(Rules(more, opts, 0)) <= 1000
    ensures var lines := Lines(z, t, more);
      var rs, later := NamedRules(lines, opts, 0), NamedRules(more, opts, 0);
      && PolicyLength(lines, opts) == 16 * t + 17 + RulesLength(Rules(more, opts, 0))
      && ReachesResolver(lines, opts) && OrdinaryNames(rs)
      && LastOverflow([], rs, KILL) == t + 2 < |rs|
      && rs[t + 2..] == [RuleAt(t + 2, t)] + later && rs[t + 3..] == later
  {
    LengthFrom(z, t, more, opts);
    ReadFrom(z, t, more, opts);
    RoomFrom(z, t, more, opts);
    RulesFrom(z, t, more, opts);
    NamesOrdinary(z, t, more, opts);
    var rs := NamedRules(Lines(z, t, more), opts, 0);
    assert rs[t + 3..] == rs[t + 2..][1..];
    assert LabelsBefore(z, t) == [] && SeenBefore(z) == {} && LogEntries(opts) == [];
  }

  lemma CallsAreKnown(n: nat)
    requires n < 1000
    ensures Knows(CallsOnly(n), n) && |CallsOnly(n).syscalls| == n
  {
    forall i: nat | i < n
      ensures Known(CallsOnly(n), i)
    {
      CallIsFound(i, n);
    }
  }

  lemma {:induction false} LinesAt(from: nat, t: nat, more: seq<Line>, i: nat)
    requires from <= i < t + 3
    ensures |Lines(from, t, more)| == t + 3 - from + |more| && Lines(from, t, more)[i - from] == LineAt(i, t)
    decreases t + 3 - from
  {
    if from + 1 < t + 3 {
      LinesAt(from + 1, t, more, if i > from then i else i + 1);
    }
  }

  /** 170 lines "arg0 == 0", three lines "return 1", and then some more. */
  predicate IsExample(lines: seq<Line>, more: seq<Line>) {
    |lines| == 173 + |more| && lines[173..] == more && forall i: nat :: i < 173 ==> lines[i] == LineAt(i, 170)
  }

  lemma Built(z: nat, t: nat, more: seq<Line>)
    requires z == 0 && t == 170
    ensures IsExample(Lines(z, t, more), more)
  {
    MoreStands(z, t, more);
    forall i: nat | i < t + 3
      ensures Lines(z, t, more)[i] == LineAt(i, t)
    {
      LinesAt(z, t, more, i);
    }
  }

  lemma NothingMore(opts: Options, labels: seq<string>, seen: set<nat>)
    ensures NamedRules([], opts, 0) == [] && Rules([], opts, 0) == [] && OrdinaryNames([])
    ensures LinesRequests([], opts, 0, seen, false) == [] && Process(labels, []) == Fine(labels)
    ensures LastOverflow(labels, [], KILL) == 0
  {
  }

  /** 173 rules and 2737 instructions: the name of the last section is the 513th label, and
      the resolver reads an entry that its table does not have. */
  lemma LeavesTheTable() returns (lines: seq<Line>, opts: Options)
    ensures |opts.syscalls| == 173 && IsExample(lines, [])
    ensures PolicyLength(lines, opts) == 2737 && CompileFilter(lines, opts).Undefined?
  {
    var t: nat :| t == 170;
    var z: nat :| z == 0;
    opts, lines := CallsOnly(t + 3), Lines(z, t, []);
    CallsAreKnown(t + 3);
    Built(z, t, []);
    LeavesFor(z, t, opts);
  }

  lemma LeavesFor(z: nat, t: nat, opts: Options)
    requires z == 0 && 3 * t + 2 == BPF_LABELS_MAX && Knows(opts, t + 3)
    ensures PolicyLength(Lines(z, t, []), opts) == 16 * t + 17 && CompileFilter(Lines(z, t, []), opts).Undefined?
  {
    NothingMore(opts, LabelsBefore(t + 3, t), SeenBefore(t + 3));
    Whole(z, t, [], opts);
    LastAlone(t);
    OutcomeByNames(Lines(z, t, []), opts);
  }

  lemma LastAlone(t: nat)
    requires t < 900
    ensures NoRepeats(SectionNames([])) && NoRepeats(TestedNumbers([RuleAt(t + 2, t)] + []))
  {
    assert ([RuleAt(t + 2, t)] + [])[1..] == [];
  }

  // ----- The same, with a repeated rule behind it -----

  /** "s0: return 1", which gives s0 a second section. */
  const AGAIN: Line := Rule(CallName(0), Return(Errno(1)))

  function AgainRule(): NamedRule { NamedRule(CallName(0), 0, Return(Errno(1))) }

  lemma AgainIsRead(opts: Options, labels: seq<string>, seen: set<nat>)
    requires Known(opts, 0) && opts.action == KILL && opts.allowDuplicates && CallName(0) in labels
    ensures NamedRules([AGAIN, AGAIN], opts, 0) == [AgainRule(), AgainRule()]
    ensures RulesLength(Rules([AGAIN, AGAIN], opts, 0)) == 8
    ensures Process(labels, LinesRequests([AGAIN, AGAIN], opts, 0, seen, false)) == Fine(labels)
  {
    var n := NumberedRule(0, Return(Errno(1)));
    ReturnRequests(CallName(0), 0);
    ProcessOne(labels, Ask(CallName(0)));
    assert [AGAIN, AGAIN][1..] == [AGAIN] && [AGAIN][1..] == [];
    assert NamedRules([AGAIN], opts, 0) == [AgainRule()];
    assert Rules([AGAIN], opts, 0) == [n];
    assert Rules([AGAIN, AGAIN], opts, 0) == [n, n];
    assert [n, n][1..] == [n] && [n][1..] == [];
    assert RulesLength([n]) == 4;
    assert LinesRequests([AGAIN], opts, 0, seen + {0}, false) == [Ask(CallName(0))];
    assert LinesRequests([AGAIN, AGAIN], opts, 0, seen, false) == [Ask(CallName(0))] + [Ask(CallName(0))];
    ProcessConcat(labels, [Ask(CallName(0))], [Ask(CallName(0))]);
  }

  lemma AgainHasRoom(labels: seq<string>)
    requires CallName(0) in labels
    ensures LastOverflow(labels, [AgainRule(), AgainRule()], KILL) == 2
  {
    var r := AgainRule();
    ReturnRequests(CallName(0), 0);
    ProcessOne(labels, Ask(CallName(0)));
    FirstOverflow(labels, r, [r], labels);
    FirstOverflow(labels, r, [], labels);
    assert [r] + [r] == [r, r] && [r] + [] == [r];
  }

  lemma AgainRepeats()
    ensures OrdinaryNames([AgainRule(), AgainRule()]) && !NoRepeats(SectionNames([AgainRule(), AgainRule()]))
  {
    var r := AgainRule();
    CallNameOrdinary(0);
    assert [r, r][1..] == [r] && [r][1..] == [];
    assert SectionNames([r]) == [r.name];
    assert SectionNames([r, r]) == [r.name, r.name];
  }

  lemma {:induction false} FirstNameStays(i: nat, t: nat)
    requires 0 < t && 0 < i <= t + 3 < 1000
    ensures Section(CallName(0)) in TagsBefore(i, t)
  {
    if i > 1 {
      FirstNameStays(i - 1, t);
    }
  }

  /** Here too a section is without room, but the walk meets a repeated label before it. */
  lemma RefusedBefore() returns (lines: seq<Line>, opts: Options)
    ensures |opts.syscalls| == 173 && IsExample(lines, [AGAIN, AGAIN])
    ensures LastOverflow([], NamedRules(lines, opts, 0), KILL) == 172 < |NamedRules(lines, opts, 0)|
    ensures CompileFilter(lines, opts).Rejected?
  {
    var t: nat :| t == 170;
    var z: nat :| z == 0;
    var more := [AGAIN, AGAIN];
    opts, lines := CallsOnly(t + 3), Lines(z, t, more);
    CallsAreKnown(t + 3);
    Built(z, t, more);
    RefusedFor(z, t, opts, more);
  }

  lemma RefusedFor(z: nat, t: nat, opts: Options, more: seq<Line>)
    requires z == 0 && 3 * t + 2 == BPF_LABELS_MAX && Knows(opts, t + 3) && more == [AGAIN, AGAIN]
    ensures var rs := NamedRules(Lines(z, t, more), opts, 0);
      LastOverflow([], rs, KILL) == t + 2 < |rs|
    ensures CompileFilter(Lines(z, t, more), opts).Rejected?
  {
    assert Known(opts, z);
    FirstNameStays(t + 3, t);
    TagsBeforeOrdinary(t + 3, t);
    CallNameOrdinary(0);
    SpelledMember(Section(CallName(0)), TagsBefore(t + 3, t));
    AgainIsRead(opts, LabelsBefore(t + 3, t), SeenBefore(t + 3));
    AgainHasRoom(LabelsBefore(t + 3, t));
    AgainRepeats();
    Whole(z, t, more, opts);
    OutcomeByNames(Lines(z, t, more), opts);
  }

  lemma {:induction false} MoreStands(from: nat, t: nat, more: seq<Line>)
    requires from <= t + 3
    ensures |Lines(from, t, more)| == t + 3 - from + |more| && Lines(from, t, more)[t + 3 - from..] == more
    decreases t + 3 - from
  {
    if from < t + 3 {
      MoreStands(from + 1, t, more);
    } else {
      assert more[0..] == more;
    }
  }

  // ----- An index outside the data -----

  /** "s0: arg6 == 0" is accepted, and the kernel does not load its program. */
  lemma SeventhArgument(opts: Options)
    requires Known(opts, 0) && opts.action == KILL && !opts.allowSyscallsForLogging
    ensures var lines := [Rule(CallName(0), Args([[Atom(6, EQ, 0)]], None))];
      CompileFilter(lines, opts).Program? && !KernelAccepts(CompileFilter(lines, opts).code)
  {
    var body := Args([[Atom(6, EQ, 0)]], None);
    var lines, r, n := [Rule(CallName(0), body)], NamedRule(CallName(0), 0, body), NumberedRule(0, body);
    assert lines[1..] == [] && [r][1..] == [] && [n][1..] == [];
    assert NamedRules(lines, opts, 0) == [r] && Rules(lines, opts, 0) == [n];
    CallNameOrdinary(0);
    ComparisonMet([], CallName(0), 0, Atom(6, EQ, 0));
    assert Spelled([]) == [];
    assert LinesRequests(lines, opts, 0, {}, false) == RuleRequests(CallName(0), 0, body, KILL) + [];
    assert RuleRequests(CallName(0), 0, body, KILL) + [] == RuleRequests(CallName(0), 0, body, KILL);
    OneRuleReaches(lines, opts, n);
    FirstOverflow([], r, [], Process([], RuleRequests(CallName(0), 0, body, KILL)).labels);
    assert [r] + [] == [r];
    OneName(r);
    OutcomeByNames(lines, opts);
    SlotOutside(n);
    AcceptedIsLoadable(lines, opts);
  }

  lemma OneRuleReaches(lines: seq<Line>, opts: Options, n: NumberedRule)
    requires Read(lines, opts).Fine? && opts.action == KILL && !opts.allowSyscallsForLogging
    requires Rules(lines, opts, 0) == [n] && n.body == Args([[Atom(6, EQ, 0)]], None)
    ensures ReachesResolver(lines, opts)
  {
    var atoms: seq<Atom> := [Atom(6, EQ, 0)];
    assert atoms[1..] == [];
    assert [atoms][1..] == [];
    assert [n][1..] == [];
    assert AtomsLength(atoms) == 8;
    assert GroupsLength([atoms]) == 10;
    assert RulesLength([n]) == 16;
  }

  lemma OneName(r: NamedRule)
    requires r.body.Args? && OrdinaryName(r.name) && |r.name| <= MAX_BPF_LABEL_LEN
    ensures OrdinaryNames([r]) && NoRepeats(SectionNames([r])) && NoRepeats(TestedNumbers([r]))
  {
    assert [r][1..] == [];
    assert SectionNames([r]) == [r.name] && [r.name][1..] == [];
    assert TestedNumbers([r]) == [r.nr] && [r.nr][1..] == [];
  }

  lemma SlotOutside(n: NumberedRule)
    requires n.body == Args([[Atom(6, EQ, 0)]], None)
    ensures !RuleSlotsOk([n])
  {
    var atoms: seq<Atom> := [Atom(6, EQ, 0)];
    assert ArgSlot(6) == 8;
    assert !AtomSlotsOk(atoms);
    assert !GroupSlotsOk([atoms]);
  }
}
