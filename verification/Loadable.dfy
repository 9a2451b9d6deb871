/**
 The kernel's static check of a filter, and which accepted policies pass it.
 */
module Loadable {
  import opened Words
  import opened Bpf
  import opened Compare
  import opened Emit
  import opened Labels
  import opened Blocks
  import opened Policy
  import opened Compile
  import opened Sections
  import opened BodyCorrect
  import opened Correct
  import opened Scratch

  predicate LoadOk(i: Instr) { i.code == LD_W_ABS ==> i.k % 4 == 0 && i.k < 64 }

  /** The other rules for one instruction, where `room` more instructions may be skipped. */
  predicate ShapeOk(i: Instr, room: int) {
    || i.code == LD_W_ABS || i.code == RET_K
    || (i.code in {LD_MEM, ST} && i.k < BPF_MEMWORDS)
    || (i.code == JMP_JA && i.k <= room)
    || (i.code in {JMP_JEQ_K, JMP_JGT_K, JMP_JGE_K, JMP_JSET_K} && i.jt <= room && i.jf <= room)
  }

  /** What the kernel demands before it installs a filter: known opcodes, loads inside
      seccomp_data, scratch indices in range, forward jumps that stay inside, RET last,
      and scratch cells that are written on every path before they are read. */
  predicate KernelAccepts(p: seq<Instr>) {
    && 0 < |p| <= BPF_MAXINSNS
    && p[|p| - 1].code == RET_K
    && (forall i :: 0 <= i < |p| ==> LoadOk(p[i]) && ShapeOk(p[i], |p| - i - 2))
    && ScratchOk(p)
  }

  /** The check is enough: no run of any program that passes it faults. */
  lemma AcceptedNeverFaults(p: seq<Instr>, d: Data)
    requires KernelAccepts(p) && d.Valid()
    ensures Filter(p, d).Ret?
  {
    forall pc, s | 0 <= pc < |p|
      ensures FineAt(p, d, pc, s)
    {
      assert LoadOk(p[pc]) && ShapeOk(p[pc], |p| - pc - 2);
    }
    SweepIsSound(p, 0, {}, seq(|p|, _ => ALL), 0, RESET, d);
  }

  // ----- Shape of the emitted code -----

  /** Labels and label jumps aside, no jump goes further than just past the code. */
  predicate Tidy(code: seq<Instr>)
    decreases |code|
  {
    code == [] || ((IsLbl(code[0]) || IsJumpLbl(code[0]) || ShapeOk(code[0], |code| - 1)) && Tidy(code[1..]))
  }

  predicate LoadsOk(code: seq<Instr>)
    decreases |code|
  {
    code == [] || (LoadOk(code[0]) && LoadsOk(code[1..]))
  }

  lemma {:induction false} TidyConcat(a: seq<Instr>, b: seq<Instr>)
    requires Tidy(a) && Tidy(b)
    ensures Tidy(a + b)
    decreases |a|
  {
    if a == [] {
      assert a + b == b;
    } else {
      assert (a + b)[1..] == a[1..] + b;
      TidyConcat(a[1..], b);
    }
  }

  lemma {:induction false} LoadsConcat(a: seq<Instr>, b: seq<Instr>)
    ensures LoadsOk(a + b) <==> LoadsOk(a) && LoadsOk(b)
    decreases |a|
  {
    if a == [] {
      assert a + b == b;
    } else {
      assert (a + b)[1..] == a[1..] + b;
      LoadsConcat(a[1..], b);
    }
  }

  lemma {:induction false} TidyAt(code: seq<Instr>)
    ensures Tidy(code) <==>
            forall i :: 0 <= i < |code| ==> IsLbl(code[i]) || IsJumpLbl(code[i]) || ShapeOk(code[i], |code| - 1 - i)
  {
    if code != [] {
      TidyAt(code[1..]);
      assert forall i :: 0 < i < |code| ==> code[i] == code[1..][i - 1];
      assert forall i :: 0 <= i < |code| - 1 ==> code[1..][i] == code[i + 1];
    }
  }

  lemma {:induction false} LoadsAt(code: seq<Instr>)
    ensures LoadsOk(code) <==> forall i :: 0 <= i < |code| ==> LoadOk(code[i])
  {
    if code != [] {
      LoadsAt(code[1..]);
      assert forall i :: 0 < i < |code| ==> code[i] == code[1..][i - 1];
      assert forall i :: 0 <= i < |code| - 1 ==> code[1..][i] == code[i + 1];
    }
  }

  // ----- Scratch memory -----

  /** The certificate for code with labels: a label, and so every jump to it, is in a
      position where nothing has to be written yet. */
  predicate MarkedAt(code: seq<Instr>, ann: seq<bool>, i: nat)
    requires i < |code| == |ann|
  {
    if IsLbl(code[i]) then !ann[i] && !Needs(ann, i + 1)
    else if IsJumpLbl(code[i]) then true
    else
      && CertifiedAt(code, ann, i) && code[i].code != JMP_JA
      && (IsBranch(code[i]) ==> i + 1 + code[i].jt <= |code| && i + 1 + code[i].jf <= |code|)
  }

  ghost predicate Marked(code: seq<Instr>, ann: seq<bool>) {
    |code| == |ann| && !Needs(ann, 0) && forall i: nat :: i < |code| ==> MarkedAt(code, ann, i)
  }

  /** Entered with nothing written and left with nothing promised, the code reads only
      what it has written. */
  ghost predicate Guarded(code: seq<Instr>) { exists ann :: Marked(code, ann) }

  lemma MarkedConcat(a: seq<Instr>, annA: seq<bool>, b: seq<Instr>, annB: seq<bool>)
    requires Marked(a, annA) && Marked(b, annB)
    ensures Marked(a + b, annA + annB)
  {
    var code, ann := a + b, annA + annB;
    assert forall t: nat :: t <= |a| ==> Needs(ann, t) == Needs(annA, t);
    assert forall t: nat :: Needs(ann, |a| + t) == Needs(annB, t);
    forall i: nat | i < |code|
      ensures MarkedAt(code, ann, i)
    {
      if i < |a| {
        assert MarkedAt(a, annA, i);
      } else {
        assert MarkedAt(b, annB, i - |a|);
        MarkedShift(a, annA, b, annB, i - |a|);
      }
    }
  }

  lemma MarkedShift(a: seq<Instr>, annA: seq<bool>, b: seq<Instr>, annB: seq<bool>, i: nat)
    requires |a| == |annA| && i < |b| == |annB| && MarkedAt(b, annB, i)
    ensures MarkedAt(a + b, annA + annB, |a| + i)
  {
    var code, ann := a + b, annA + annB;
    assert code[|a| + i] == b[i] && ann[|a| + i] == annB[i];
    assert forall t: nat :: Needs(ann, |a| + t) == Needs(annB, t);
    assert Needs(ann, |a| + i + 1) == Needs(annB, i + 1);
    assert Needs(ann, |a| + i + 1 + b[i].jt) == Needs(annB, i + 1 + b[i].jt);
    assert Needs(ann, |a| + i + 1 + b[i].jf) == Needs(annB, i + 1 + b[i].jf);
  }

  lemma GuardedConcat(a: seq<Instr>, b: seq<Instr>)
    requires Guarded(a) && Guarded(b)
    ensures Guarded(a + b)
  {
    var annA :| Marked(a, annA);
    var annB :| Marked(b, annB);
    MarkedConcat(a, annA, b, annB);
  }

  /** Code that reads no scratch memory. */
  lemma PlainGuarded(code: seq<Instr>)
    requires Tidy(code) && forall i :: 0 <= i < |code| ==> code[i].code != LD_MEM
    requires forall i :: 0 <= i < |code| && code[i].code == JMP_JA ==> IsLbl(code[i]) || IsJumpLbl(code[i])
    ensures Guarded(code)
  {
    TidyAt(code);
    var ann := seq(|code|, _ => false);
    forall i: nat | i < |code|
      ensures MarkedAt(code, ann, i)
    {
    }
    assert Marked(code, ann);
  }

  /** In a comparison, cell 0 has to be written up to the load before the last test. */
  function CompNeeds(n: nat): seq<bool> { seq(n, _ => true) + [false, false] }

  predicate CompMarked(code: seq<Instr>, id: u32)
    requires code != []
  {
    var b, ann := code + [JumpLbl(id)], CompNeeds(|code| - 1);
    forall i: nat :: i < |b| ==> MarkedAt(b, ann, i)
  }

  lemma TestsMarked(c: u64, jt: u8, jf: u8, id: u32)
    requires jt <= 1 && jf <= 1
    ensures CompMarked(CompJeq(c, jt, jf), id) && CompMarked(CompJset(c, jt, jf), id)
  {
  }

  lemma OrderMarked(last: u16, c: u64, jt: u8, jf: u8, id: u32)
    requires jt <= 1 && jf <= 1 && last in {JMP_JGT_K, JMP_JGE_K}
    ensures CompMarked(CompOrder(last, c, jt, jf), id)
  {
  }

  lemma CompIsMarked(op: Op, c: u64, id: u32)
    ensures CompMarked(Comp(op, c), id)
  {
    match op
    case EQ => TestsMarked(c, SKIP, NEXT, id);
    case NE => TestsMarked(c, NEXT, SKIP, id);
    case LT => OrderMarked(JMP_JGE_K, c, NEXT, SKIP, id);
    case LE => OrderMarked(JMP_JGT_K, c, NEXT, SKIP, id);
    case GT => OrderMarked(JMP_JGT_K, c, SKIP, NEXT, id);
    case GE => OrderMarked(JMP_JGE_K, c, SKIP, NEXT, id);
    case SET => TestsMarked(c, SKIP, NEXT, id);
    case IN => TestsMarked(Not64(c), NEXT, SKIP, id);
  }

  /** A comparison block writes cell 0 first, and nothing enters it between store and load. */
  lemma BlockMarked(argidx: int, comp: seq<Instr>, id: u32)
    requires comp != [] && CompMarked(comp, id)
    ensures Guarded(LoadArg(argidx) + (comp + [JumpLbl(id)]))
  {
    var a, b := LoadArg(argidx), comp + [JumpLbl(id)];
    var annA, annB := [false, false, true, true], CompNeeds(|comp| - 1);
    forall i: nat | i < |a + b|
      ensures MarkedAt(a + b, annA + annB, i)
    {
      if i >= 4 {
        assert MarkedAt(b, annB, i - 4);
        MarkedShift(a, annA, b, annB, i - 4);
      } else {
        assert (a + b)[i] == a[i];
      }
    }
    assert Marked(a + b, annA + annB);
  }

  lemma AtomGuarded(op: Op, argidx: int, c: u64, id: u32)
    ensures Guarded(ArgComp(op, argidx, c, id))
  {
    CompIsMarked(op, c, id);
    BlockMarked(argidx, Comp(op, c), id);
    assert ArgComp(op, argidx, c, id) == LoadArg(argidx) + (Comp(op, c) + [JumpLbl(id)]);
  }

  /** A certificate survives the resolution of labels. */
  lemma ResolvedIsCertified(p: seq<Instr>, count: nat, ann: seq<bool>)
    requires Marked(p, ann) && Resolvable(p, count)
    ensures Certified(Resolved(p), ann)
  {
    var q := Resolved(p);
    forall i: nat | i < |q|
      ensures CertifiedAt(q, ann, i)
    {
      assert MarkedAt(p, ann, i);
      ResolvableSuffix(p, 0, i, count);
      if IsJumpLbl(p[i]) {
        var t := LabelFrom(p, i + 1, p[i].k).value;
        assert MarkedAt(p, ann, t);
      }
    }
  }

  // ----- Blocks -----

  /** Code is tidy and guarded, and its loads are all accepted exactly when a condition holds. */
  ghost predicate Fits(code: seq<Instr>, ok: bool) { Tidy(code) && Guarded(code) && LoadsOk(code) == ok }

  lemma FitsConcat(a: seq<Instr>, ok: bool, b: seq<Instr>, ok': bool)
    requires Fits(a, ok) && Fits(b, ok')
    ensures Fits(a + b, ok && ok')
  {
    TidyConcat(a, b);
    LoadsConcat(a, b);
    GuardedConcat(a, b);
  }

  lemma PlainFits(code: seq<Instr>)
    requires Tidy(code) && LoadsOk(code) && forall i :: 0 <= i < |code| ==> code[i].code != LD_MEM
    requires forall i :: 0 <= i < |code| && code[i].code == JMP_JA ==> IsLbl(code[i]) || IsJumpLbl(code[i])
    ensures Fits(code, true)
  {
    PlainGuarded(code);
  }

  lemma LoadArgFits(argidx: int)
    ensures Tidy(LoadArg(argidx)) && LoadsOk(LoadArg(argidx)) == (ArgSlot(argidx) < 8)
  {
    ArgOffset(argidx);
    TidyAt(LoadArg(argidx));
    LoadsAt(LoadArg(argidx));
    assert LoadArg(argidx)[0] == Stmt(LD_W_ABS, LoArg(argidx));
  }

  lemma CompFits(op: Op, c: u64, id: u32)
    ensures Tidy(Comp(op, c) + [JumpLbl(id)]) && LoadsOk(Comp(op, c) + [JumpLbl(id)])
  {
    TidyAt(Comp(op, c) + [JumpLbl(id)]);
    LoadsAt(Comp(op, c) + [JumpLbl(id)]);
  }

  lemma AtomFits(a: Atom, id: u32)
    requires a.Atom?
    ensures Fits(AtomCode(a, id), SlotOk(a))
  {
    LoadArgFits(a.argidx);
    CompFits(a.op, a.c, id);
    TidyConcat(LoadArg(a.argidx), Comp(a.op, a.c) + [JumpLbl(id)]);
    LoadsConcat(LoadArg(a.argidx), Comp(a.op, a.c) + [JumpLbl(id)]);
    AtomGuarded(a.op, a.argidx, a.c, id);
    assert AtomCode(a, id) == LoadArg(a.argidx) + (Comp(a.op, a.c) + [JumpLbl(id)]);
  }

  lemma {:induction false} AtomsFit(atoms: seq<Atom>, id: u32)
    requires Parsed(atoms)
    ensures Fits(Flat(AtomBlocks(atoms, id)), AtomSlotsOk(atoms))
  {
    if atoms == [] {
      PlainFits([]);
    } else {
      AtomFits(atoms[0], id);
      AtomsFit(atoms[1..], id);
      FitsConcat(AtomCode(atoms[0], id), SlotOk(atoms[0]), Flat(AtomBlocks(atoms[1..], id)), AtomSlotsOk(atoms[1..]));
    }
  }

  lemma GroupEndFits(success: u32, end: u32)
    ensures Fits([JumpLbl(success), Lbl(end)], true)
  {
    TidyAt([JumpLbl(success), Lbl(end)]);
    LoadsAt([JumpLbl(success), Lbl(end)]);
    PlainFits([JumpLbl(success), Lbl(end)]);
  }

  lemma {:induction false} GroupsFit(table: Table, nr: u32, group: nat, groups: seq<seq<Atom>>)
    requires AllParsed(groups)
    ensures Fits(Flat(GroupBlocks(table, nr, group, groups)), GroupSlotsOk(groups))
    decreases |groups|
  {
    if groups == [] {
      PlainFits([]);
    } else {
      var success, end := IdOf(table, SuccessLabel(nr)), IdOf(table, GroupEndLabel(nr, group));
      var first, last := Flat(AtomBlocks(groups[0], end)), [JumpLbl(success), Lbl(end)];
      var rest := GroupBlocks(table, nr, group + 1, groups[1..]);
      AtomsFit(groups[0], end);
      GroupEndFits(success, end);
      GroupsFit(table, nr, group + 1, groups[1..]);
      FitsConcat(first, AtomSlotsOk(groups[0]), last, true);
      FitsConcat(first + last, AtomSlotsOk(groups[0]), Flat(rest), GroupSlotsOk(groups[1..]));
      FlatGroup(AtomBlocks(groups[0], end), last, rest);
    }
  }

  // ----- Code that ends in RET -----

  /** The code ends in RET, and everything before that fits. */
  ghost predicate Closed(code: seq<Instr>, ok: bool) {
    code != [] && code[|code| - 1].code == RET_K && Fits(code[..|code| - 1], ok)
  }

  lemma ClosedFits(code: seq<Instr>, ok: bool)
    requires Closed(code, ok)
    ensures Fits(code, ok)
  {
    var last := [code[|code| - 1]];
    TidyAt(last);
    LoadsAt(last);
    PlainFits(last);
    FitsConcat(code[..|code| - 1], ok, last, true);
    assert code == code[..|code| - 1] + last;
  }

  lemma ClosedConcat(a: seq<Instr>, ok: bool, b: seq<Instr>, ok': bool)
    requires Fits(a, ok) && Closed(b, ok')
    ensures Closed(a + b, ok && ok')
  {
    FitsConcat(a, ok, b[..|b| - 1], ok');
    assert (a + b)[..|a + b| - 1] == a + b[..|b| - 1];
  }

  lemma TailClosed(ret: u32, success: u32)
    ensures Closed(SectionTail(ret, success), true)
  {
    var front := SectionTail(ret, success)[..2];
    assert front == [Stmt(RET_K, ret), Lbl(success)];
    TidyAt(front);
    LoadsAt(front);
    PlainFits(front);
  }

  lemma BodyClosed(table: Table, nr: u32, body: Body, entry: u32, action: Action)
    requires !body.Allow? && CompileBody(table, nr, body, entry, action).Ok?
    ensures Closed(Flat(CompileBody(table, nr, body, entry, action).value.blocks), SlotsOk(body))
  {
    var code := Flat(CompileBody(table, nr, body, entry, action).value.blocks);
    TidyAt([Lbl(entry)]);
    LoadsAt([Lbl(entry)]);
    PlainFits([Lbl(entry)]);
    match body
    case Return(clause) =>
      var ret := CompileClause(clause, action).value;
      FlatSnoc([[Lbl(entry)]], ret);
      FlatSnoc([], [Lbl(entry)]);
      assert code == [Lbl(entry)] + ret && code[..1] == [Lbl(entry)];
    case Args(groups, otherwise) =>
      var final := ArgsCode(table, nr, groups, otherwise, entry, action);
      var tests := Flat(GroupBlocks(final, nr, 0, groups));
      var tail := SectionTail(OtherwiseValue(otherwise, action), IdOf(final, SuccessLabel(nr)));
      GroupsFit(final, nr, 0, groups);
      TailClosed(OtherwiseValue(otherwise, action), IdOf(final, SuccessLabel(nr)));
      ClosedConcat(tests, GroupSlotsOk(groups), tail, true);
      ClosedConcat([Lbl(entry)], true, tests + tail, GroupSlotsOk(groups));
  }

  lemma {:induction false} SectionsClosed(es: seq<Entry>, rules: seq<NumberedRule>, action: Action)
    requires AllImplement(es, rules, action)
    ensures if Flat(ArgBlocks(es)) == [] then RuleSlotsOk(rules) else Closed(Flat(ArgBlocks(es)), RuleSlotsOk(rules))
    decreases |es|
  {
    if es != [] {
      var first, rest := Flat(EntryArgs(es[0])), Flat(ArgBlocks(es[1..]));
      FlatConcat(EntryArgs(es[0]), ArgBlocks(es[1..]));
      SectionsClosed(es[1..], rules[1..], action);
      if es[0].ArgEntry? {
        var t: Table :| CompilesTo(t, rules[0], es[0].id, action, es[0].blocks);
        BodyClosed(t, rules[0].nr, rules[0].body, es[0].id, action);
        if rest == [] {
          assert first + rest == first;
        } else {
          ClosedFits(first, SlotsOk(rules[0].body));
          ClosedConcat(first, SlotsOk(rules[0].body), rest, RuleSlotsOk(rules[1..]));
        }
      } else {
        assert first + rest == rest;
      }
    }
  }

  lemma PairFits(e: Entry)
    ensures Fits(EntryHead(e), true)
  {
    TidyAt(EntryHead(e));
    LoadsAt(EntryHead(e));
    PlainFits(EntryHead(e));
  }

  lemma {:induction false} PairsFit(es: seq<Entry>)
    ensures Fits(Flat(HeadBlocks(es)), true)
  {
    if es == [] {
      PlainFits([]);
    } else {
      PairFits(es[0]);
      PairsFit(es[1..]);
      FitsConcat(EntryHead(es[0]), true, Flat(HeadBlocks(es[1..])), true);
    }
  }

  lemma StartFits()
    ensures Fits(ValidateArchCode() + LoadNrCode(), true)
  {
    TidyAt(ValidateArchCode() + LoadNrCode());
    LoadsAt(ValidateArchCode() + LoadNrCode());
    PlainFits(ValidateArchCode() + LoadNrCode());
  }

  lemma LabelledClosed(opts: Options, es: seq<Entry>, rules: seq<NumberedRule>)
    requires AllImplement(es, rules, opts.action)
    ensures Closed(Labelled(opts, es), RuleSlotsOk(rules))
  {
    var pre, pairs := ValidateArchCode() + LoadNrCode(), Flat(HeadBlocks(LogEntries(opts) + es));
    var sections := Flat(ArgBlocks(es));
    LabelledLayout(opts, es);
    SectionsClosed(es, rules, opts.action);
    StartFits();
    PairsFit(LogEntries(opts) + es);
    assert Default(opts)[..0] == [];
    PlainFits([]);
    ClosedConcat(pairs, true, Default(opts), true);
    ClosedConcat(pre, true, pairs + Default(opts), true);
    if sections == [] {
      assert Labelled(opts, es) == pre + (pairs + Default(opts));
    } else {
      ClosedFits(pairs + Default(opts), true);
      ClosedConcat(pairs + Default(opts), true, sections, RuleSlotsOk(rules));
      ClosedConcat(pre, true, pairs + Default(opts) + sections, RuleSlotsOk(rules));
    }
  }

  /** Resolving labels in closed code gives what the kernel accepts, loads permitting. */
  lemma ResolvedIsAccepted(p: seq<Instr>, count: nat, ok: bool)
    requires Closed(p, ok) && Resolvable(p, count)
    ensures KernelAccepts(Resolved(p)) <==> ok
  {
    var q, front := Resolved(p), p[..|p| - 1];
    TidyAt(front);
    LoadsAt(front);
    forall i | 0 <= i < |p|
      ensures ShapeOk(q[i], |q| - i - 2) && (LoadOk(q[i]) <==> LoadOk(p[i]))
    {
      ResolvableSuffix(p, 0, i, count);
      assert i < |p| - 1 ==> front[i] == p[i];
    }
    assert forall i :: 0 <= i < |front| ==> front[i] == p[i];
    ResolvedIsGuarded(p, count, ok);
  }

  lemma ResolvedIsGuarded(p: seq<Instr>, count: nat, ok: bool)
    requires Closed(p, ok) && Resolvable(p, count)
    ensures ScratchOk(Resolved(p))
  {
    ClosedFits(p, ok);
    var ann :| Marked(p, ann);
    ResolvedIsCertified(p, count, ann);
    CertifiedIsOk(Resolved(p), ann);
  }

  /** Every accepted program passes the kernel's pass over scratch memory. */
  lemma AcceptedIsGuarded(lines: seq<Line>, opts: Options)
    requires CompileFilter(lines, opts).Program?
    ensures ScratchOk(CompileFilter(lines, opts).code)
  {
    var st := CompileLines(lines, opts, 0, START, false).value;
    var es := LinesImplement(lines, opts, 0, START, false);
    assert [] + es == es;
    LabelledClosed(opts, es, Rules(lines, opts, 0));
    WalkIsDone(Labelled(opts, es), 0, |st.table|);
    ResolvedIsGuarded(Labelled(opts, es), |st.table|, RuleSlotsOk(Rules(lines, opts, 0)));
  }

  /** An accepted policy yields a program the kernel takes exactly when every argument
      index names a slot of seccomp_data. */
  lemma AcceptedIsLoadable(lines: seq<Line>, opts: Options)
    requires CompileFilter(lines, opts).Program?
    ensures KernelAccepts(CompileFilter(lines, opts).code) <==> RuleSlotsOk(Rules(lines, opts, 0))
  {
    var st := CompileLines(lines, opts, 0, START, false).value;
    var es := LinesImplement(lines, opts, 0, START, false);
    assert [] + es == es;
    LabelledClosed(opts, es, Rules(lines, opts, 0));
    WalkIsDone(Labelled(opts, es), 0, |st.table|);
    ResolvedIsAccepted(Labelled(opts, es), |st.table|, RuleSlotsOk(Rules(lines, opts, 0)));
  }
}
