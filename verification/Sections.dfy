/**
 How an argument section runs, for any tests: a conjunction is a row of test
 blocks that leave for the conjunction's end label, a section is a row of
 conjunctions that jump to a shared success label. What a test block contains
 does not matter here, only that it decides its test.
 */
module Sections {
  import opened Words
  import opened Bpf
  import opened Compare

  /** A block of instructions and whether its test holds on the system call at hand. */
  datatype Test = Test(code: seq<Instr>, holds: bool)

  datatype Conj = Conj(tests: seq<Test>, end: u32)

  function TestsCode(tests: seq<Test>): seq<Instr> {
    if tests == [] then [] else tests[0].code + TestsCode(tests[1..])
  }

  predicate AllHold(tests: seq<Test>) {
    tests == [] || (tests[0].holds && AllHold(tests[1..]))
  }

  function ConjCode(c: Conj, success: u32): seq<Instr> {
    TestsCode(c.tests) + [JumpLbl(success), Lbl(c.end)]
  }

  function ConjsCode(cs: seq<Conj>, success: u32): seq<Instr> {
    if cs == [] then [] else ConjCode(cs[0], success) + ConjsCode(cs[1..], success)
  }

  predicate SomeHolds(cs: seq<Conj>) {
    cs != [] && (AllHold(cs[0].tests) || SomeHolds(cs[1..]))
  }

  function SectionTail(ret: u32, success: u32): seq<Instr> {
    [Stmt(RET_K, ret), Lbl(success), Stmt(RET_K, RET_ALLOW)]
  }

  function SectionCode(entry: u32, cs: seq<Conj>, ret: u32, success: u32): seq<Instr> {
    [Lbl(entry)] + (ConjsCode(cs, success) + SectionTail(ret, success))
  }

  // ----- Runs -----

  /** The run from here is a run from there, in some machine state. */
  ghost predicate Continues(p: seq<Instr>, d: Data, at: nat, s: Machine, to: nat)
    requires d.Valid()
  {
    exists s' :: RunL(p, d, at, s) == RunL(p, d, to, s')
  }

  /** A block before its label falls through if its test holds, and reaches the
      label if not. */
  ghost predicate DecidesAt(p: seq<Instr>, d: Data, t: Test, id: u32, at: nat, s: Machine, end: nat)
    requires d.Valid()
  {
    CodeAt(p, at, t.code) && at + |t.code| <= end < |p| && p[end] == Lbl(id) ==>
      Continues(p, d, at, s, if t.holds then at + |t.code| else end)
  }

  ghost predicate Decides(p: seq<Instr>, d: Data, t: Test, id: u32)
    requires d.Valid()
  {
    forall at: nat, s, end: nat :: DecidesAt(p, d, t, id, at, s, end)
  }

  ghost predicate AllDecide(p: seq<Instr>, d: Data, tests: seq<Test>, id: u32)
    requires d.Valid()
  {
    tests == [] || (Decides(p, d, tests[0], id) && AllDecide(p, d, tests[1..], id))
  }

  ghost predicate ConjsDecide(p: seq<Instr>, d: Data, cs: seq<Conj>)
    requires d.Valid()
  {
    cs == [] || (AllDecide(p, d, cs[0].tests, cs[0].end) && ConjsDecide(p, d, cs[1..]))
  }

  lemma {:induction false} TestsRun(p: seq<Instr>, d: Data, at: nat, s: Machine, tests: seq<Test>, id: u32, end: nat)
    requires d.Valid() && AllDecide(p, d, tests, id)
    requires CodeAt(p, at, TestsCode(tests)) && at + |TestsCode(tests)| <= end < |p| && p[end] == Lbl(id)
    ensures Continues(p, d, at, s, if AllHold(tests) then at + |TestsCode(tests)| else end)
    decreases |tests|
  {
    hide RunL, Decides;
    if tests == [] {
      assert RunL(p, d, at, s) == RunL(p, d, at + |TestsCode(tests)|, s);
    } else {
      var t, more := tests[0], tests[1..];
      CodeAtSplit(p, at, t.code, TestsCode(more));
      DecidesHere(p, d, t, id, at, s, end);
      if t.holds {
        var mid := at + |t.code|;
        var s1 :| RunL(p, d, at, s) == RunL(p, d, mid, s1);
        TestsRun(p, d, mid, s1, more, id, end);
        ContinuesVia(p, d, at, s, mid, s1, if AllHold(more) then mid + |TestsCode(more)| else end);
      }
    }
  }

  lemma DecidesHere(p: seq<Instr>, d: Data, t: Test, id: u32, at: nat, s: Machine, end: nat)
    requires d.Valid() && Decides(p, d, t, id)
    requires CodeAt(p, at, t.code) && at + |t.code| <= end < |p| && p[end] == Lbl(id)
    ensures Continues(p, d, at, s, if t.holds then at + |t.code| else end)
  {
    assert DecidesAt(p, d, t, id, at, s, end);
  }

  lemma ContinuesVia(p: seq<Instr>, d: Data, at: nat, s: Machine, mid: nat, s1: Machine, to: nat)
    requires d.Valid() && RunL(p, d, at, s) == RunL(p, d, mid, s1) && Continues(p, d, mid, s1, to)
    ensures Continues(p, d, at, s, to)
  {
  }

  /** A success label followed by RET ALLOW. */
  predicate SuccessAt(p: seq<Instr>, at: nat, id: u32) {
    at + 1 < |p| && p[at] == Lbl(id) && p[at + 1] == Stmt(RET_K, RET_ALLOW)
  }

  lemma ConjRuns(p: seq<Instr>, d: Data, at: nat, s: Machine, c: Conj, success: u32, ok: nat)
    requires d.Valid() && UniqueFrom(p, 0) && AllDecide(p, d, c.tests, c.end)
    requires CodeAt(p, at, ConjCode(c, success)) && at + |ConjCode(c, success)| <= ok && SuccessAt(p, ok, success)
    ensures AllHold(c.tests) ==> RunL(p, d, at, s) == Ret(RET_ALLOW)
    ensures !AllHold(c.tests) ==> Continues(p, d, at, s, at + |ConjCode(c, success)|)
  {
    var body, tail := TestsCode(c.tests), [JumpLbl(success), Lbl(c.end)];
    CodeAtSplit(p, at, body, tail);
    CodeAtIndex(p, at + |body|, tail, 0);
    CodeAtIndex(p, at + |body|, tail, 1);
    TestsRun(p, d, at, s, c.tests, c.end, at + |body| + 1);
    if AllHold(c.tests) {
      var s' :| RunL(p, d, at, s) == RunL(p, d, at + |body|, s');
      JumpReaches(p, d, at + |body|, s', success, ok);
      assert RunL(p, d, ok, s') == RunL(p, d, ok + 1, s');
    } else {
      var s' :| RunL(p, d, at, s) == RunL(p, d, at + |body| + 1, s');
      assert RunL(p, d, at + |body| + 1, s') == RunL(p, d, at + |body| + 2, s');
    }
  }

  /** All conjunctions: ALLOW as soon as one holds, otherwise fall through. */
  lemma {:induction false} ConjsRun(p: seq<Instr>, d: Data, at: nat, s: Machine, cs: seq<Conj>, success: u32, ok: nat)
    requires d.Valid() && UniqueFrom(p, 0) && ConjsDecide(p, d, cs)
    requires CodeAt(p, at, ConjsCode(cs, success)) && at + |ConjsCode(cs, success)| <= ok && SuccessAt(p, ok, success)
    ensures SomeHolds(cs) ==> RunL(p, d, at, s) == Ret(RET_ALLOW)
    ensures !SomeHolds(cs) ==> Continues(p, d, at, s, at + |ConjsCode(cs, success)|)
    decreases |cs|
  {
    hide RunL, AllDecide, ConjCode;
    if cs == [] {
      assert RunL(p, d, at, s) == RunL(p, d, at + |ConjsCode(cs, success)|, s);
    } else {
      var code := ConjCode(cs[0], success);
      CodeAtSplit(p, at, code, ConjsCode(cs[1..], success));
      ConjRuns(p, d, at, s, cs[0], success, ok);
      if !AllHold(cs[0].tests) {
        var s' :| RunL(p, d, at, s) == RunL(p, d, at + |code|, s');
        ConjsRun(p, d, at + |code|, s', cs[1..], success, ok);
      }
    }
  }

  /** A whole section returns ALLOW or its fallback value, from any machine state. */
  lemma SectionRuns(p: seq<Instr>, d: Data, at: nat, s: Machine, entry: u32, cs: seq<Conj>, ret: u32, success: u32)
    requires d.Valid() && UniqueFrom(p, 0) && ConjsDecide(p, d, cs)
    requires CodeAt(p, at, SectionCode(entry, cs, ret, success))
    ensures RunL(p, d, at, s) == Ret(if SomeHolds(cs) then RET_ALLOW else ret)
  {
    var code, tail := ConjsCode(cs, success), SectionTail(ret, success);
    CodeAtSplit(p, at, [Lbl(entry)], code + tail);
    CodeAtSplit(p, at + 1, code, tail);
    var after := at + 1 + |code|;
    CodeAtIndex(p, at, [Lbl(entry)], 0);
    CodeAtIndex(p, after, tail, 0);
    CodeAtIndex(p, after, tail, 1);
    CodeAtIndex(p, after, tail, 2);
    assert RunL(p, d, at, s) == RunL(p, d, at + 1, s);
    ConjsRun(p, d, at + 1, s, cs, success, after + 1);
    if !SomeHolds(cs) {
      var s' :| RunL(p, d, at + 1, s) == RunL(p, d, after, s');
    }
  }
}
