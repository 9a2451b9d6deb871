/**
 The kernel's pass over loads from and stores to scratch memory (check_load_and_stores
 in net/core/filter.c of Linux): one sweep that keeps the cells known to be written,
 and meets them at jump targets. A program that passes never reads a cell that its run
 has not written.
 */
module Scratch {
  import opened Bpf

  type Cells = set<nat>

  /** All bits of the 16-bit mask. */
  const ALL: Cells := set c: nat | c < BPF_MEMWORDS

  predicate IsBranch(i: Instr) { i.code in {JMP_JEQ_K, JMP_JGT_K, JMP_JGE_K, JMP_JSET_K} }

  /** masks[t] &= valid */
  function Meet(masks: seq<Cells>, t: nat, valid: Cells): (r: seq<Cells>)
    ensures |r| == |masks|
    ensures forall i :: 0 <= i < |r| ==> r[i] == if i == t then masks[i] * valid else masks[i]
  {
    if t < |masks| then masks[t := masks[t] * valid] else masks
  }

  /** The masks after the instruction at pc, where the cells in valid are written. */
  function MasksAfter(p: seq<Instr>, pc: nat, valid: Cells, masks: seq<Cells>): (r: seq<Cells>)
    requires pc < |p|
    ensures |r| == |masks|
  {
    var i := p[pc];
    if i.code == JMP_JA then Meet(masks, pc + 1 + i.k, valid)
    else if IsBranch(i) then Meet(Meet(masks, pc + 1 + i.jt, valid), pc + 1 + i.jf, valid)
    else masks
  }

  /** The cells carried to the next instruction; after a jump only its mask counts. */
  function ValidAfter(i: Instr, valid: Cells): Cells {
    if i.code == ST then valid + {i.k}
    else if i.code == JMP_JA || IsBranch(i) then ALL
    else valid
  }

  /** The sweep from pc on. */
  predicate Sweep(p: seq<Instr>, pc: nat, carried: Cells, masks: seq<Cells>)
    requires |masks| == |p|
    decreases |p| - pc
  {
    pc >= |p| ||
    (var valid := carried * masks[pc];
     && (p[pc].code == LD_MEM ==> p[pc].k in valid)
     && Sweep(p, pc + 1, ValidAfter(p[pc], valid), MasksAfter(p, pc, valid, masks)))
  }

  predicate ScratchOk(p: seq<Instr>) { Sweep(p, 0, {}, seq(|p|, _ => ALL)) }

  // ----- What the sweep is good for -----

  /** A run that is at or past the sweep, with all cells written that the sweep counts on. */
  predicate Covered(p: seq<Instr>, at: nat, carried: Cells, masks: seq<Cells>, pc: nat, s: Machine)
    requires |masks| == |p|
  {
    at <= pc < |p| && (if pc == at then carried * masks[pc] else masks[pc]) <= s.mem.Keys
  }

  lemma SkipOne(p: seq<Instr>, at: nat, carried: Cells, masks: seq<Cells>, pc: nat, s: Machine)
    requires |masks| == |p| && at < pc && Covered(p, at, carried, masks, pc, s)
    ensures var valid := carried * masks[at];
      Covered(p, at + 1, ValidAfter(p[at], valid), MasksAfter(p, at, valid, masks), pc, s)
  {
  }

  lemma StepCovered(p: seq<Instr>, at: nat, carried: Cells, masks: seq<Cells>, s: Machine, d: Data)
    requires |masks| == |p| && d.Valid() && Covered(p, at, carried, masks, at, s) && Step(p[at], d, s).Go?
    requires at + 1 + Step(p[at], d, s).skip < |p|
    ensures var valid := carried * masks[at];
      Covered(p, at + 1, ValidAfter(p[at], valid), MasksAfter(p, at, valid, masks),
              at + 1 + Step(p[at], d, s).skip, Step(p[at], d, s).next)
  {
  }

  /** Nothing but a load from scratch memory can fault here. */
  ghost predicate OtherwiseFine(p: seq<Instr>, d: Data)
    requires d.Valid()
  {
    forall pc, s :: 0 <= pc < |p| ==> FineAt(p, d, pc, s)
  }

  predicate FineAt(p: seq<Instr>, d: Data, pc: int, s: Machine)
    requires d.Valid() && 0 <= pc < |p|
  {
    match Step(p[pc], d, s)
    case Stop(o) => o == Fault ==> p[pc].code == LD_MEM && p[pc].k !in s.mem
    case Go(n, _) => pc + 1 + n < |p|
  }

  /** Every run of a program that passes the sweep ends with a value. */
  lemma {:induction false} SweepIsSound(p: seq<Instr>, at: nat, carried: Cells, masks: seq<Cells>,
                                        pc: nat, s: Machine, d: Data)
    requires d.Valid() && |masks| == |p| && OtherwiseFine(p, d)
    requires Sweep(p, at, carried, masks) && Covered(p, at, carried, masks, pc, s)
    ensures Run(p, d, pc, s).Ret?
    decreases |p| - at
  {
    var valid := carried * masks[at];
    var carried', masks' := ValidAfter(p[at], valid), MasksAfter(p, at, valid, masks);
    if pc > at {
      SkipOne(p, at, carried, masks, pc, s);
      SweepIsSound(p, at + 1, carried', masks', pc, s, d);
    } else {
      assert FineAt(p, d, pc, s);
      if Step(p[pc], d, s).Go? {
        StepCovered(p, at, carried, masks, s, d);
        SweepIsSound(p, at + 1, carried', masks', pc + 1 + Step(p[pc], d, s).skip, Step(p[pc], d, s).next, d);
      }
    }
  }

  // ----- A certificate for the sweep -----

  /** Positions at which cell 0 has to be written already; past the end, none. */
  predicate Needs(ann: seq<bool>, i: nat) { i < |ann| && ann[i] }

  /** Needs are met: a load is in such a position, and control gets to one only from
      another, or from a store to the cell. */
  predicate CertifiedAt(p: seq<Instr>, ann: seq<bool>, i: nat)
    requires i < |p| == |ann|
  {
    var code := p[i];
    && (code.code == LD_MEM ==> code.k == 0 && ann[i])
    && (code.code == JMP_JA ==> Needs(ann, i + 1 + code.k) ==> ann[i])
    && (IsBranch(code) ==> Needs(ann, i + 1 + code.jt) || Needs(ann, i + 1 + code.jf) ==> ann[i])
    && (code.code != JMP_JA && !IsBranch(code) && !(code.code == ST && code.k == 0) ==> Needs(ann, i + 1) ==> ann[i])
  }

  ghost predicate Certified(p: seq<Instr>, ann: seq<bool>) {
    |p| == |ann| && !Needs(ann, 0) && forall i: nat :: i < |p| ==> CertifiedAt(p, ann, i)
  }

  /** What the sweep has established agrees with the certificate. */
  predicate Agrees(ann: seq<bool>, pc: nat, carried: Cells, masks: seq<Cells>)
    requires |masks| == |ann|
  {
    (Needs(ann, pc) ==> 0 in carried) && forall t :: pc <= t < |ann| && ann[t] ==> 0 in masks[t]
  }

  lemma AgreesStep(p: seq<Instr>, ann: seq<bool>, pc: nat, carried: Cells, masks: seq<Cells>)
    requires |masks| == |ann| == |p| && pc < |p| && CertifiedAt(p, ann, pc) && Agrees(ann, pc, carried, masks)
    ensures var valid := carried * masks[pc];
      Agrees(ann, pc + 1, ValidAfter(p[pc], valid), MasksAfter(p, pc, valid, masks))
  {
  }

  lemma {:induction false} CertifiedSweeps(p: seq<Instr>, ann: seq<bool>, pc: nat, carried: Cells, masks: seq<Cells>)
    requires |masks| == |p| && Certified(p, ann) && pc <= |p| && Agrees(ann, pc, carried, masks)
    ensures Sweep(p, pc, carried, masks)
    decreases |p| - pc
  {
    if pc < |p| {
      assert CertifiedAt(p, ann, pc);
      var valid := carried * masks[pc];
      AgreesStep(p, ann, pc, carried, masks);
      CertifiedSweeps(p, ann, pc + 1, ValidAfter(p[pc], valid), MasksAfter(p, pc, valid, masks));
    }
  }

  lemma CertifiedIsOk(p: seq<Instr>, ann: seq<bool>)
    requires Certified(p, ann)
    ensures ScratchOk(p)
  {
    CertifiedSweeps(p, ann, 0, {}, seq(|p|, _ => ALL));
  }
}
