/**
 The emitters of bpf.c in their own form: each writes its block into a buffer
 through an advancing position and returns the number of instructions written.
 */
module Emit {
  import opened Words
  import opened Bpf
  import opened Compare

  function ValidateArchCode(): seq<Instr> {
    [Stmt(LD_W_ABS, 4), Instr(JMP_JEQ_K, MINIJAIL_ARCH_NR, SKIP, NEXT), Stmt(RET_K, RET_KILL)]
  }

  function AllowCode(nr: u32): seq<Instr> {
    [Instr(JMP_JEQ_K, nr, NEXT, SKIP), Stmt(RET_K, RET_ALLOW)]
  }

  function AllowArgsCode(nr: u32, id: u32): seq<Instr> {
    [Instr(JMP_JEQ_K, nr, NEXT, SKIP), JumpLbl(id)]
  }

  function LoadNrCode(): seq<Instr> { [Stmt(LD_W_ABS, 0)] }

  /** A buffer's contents once a block has been written at a position. */
  function Written(s: seq<Instr>, at: nat, code: seq<Instr>): (r: seq<Instr>)
    requires at + |code| <= |s|
    ensures |r| == |s| && r[at..at + |code|] == code
    ensures r[..at] == s[..at] && r[at + |code|..] == s[at + |code|..]
  {
    s[..at] + code + s[at + |code|..]
  }

  lemma WrittenTwice(s: seq<Instr>, at: nat, a: seq<Instr>, b: seq<Instr>)
    requires at + |a| + |b| <= |s|
    ensures Written(Written(s, at, a), at + |a|, b) == Written(s, at, a + b)
  {
  }

  function Fill(n: nat): seq<Instr> { seq(n, _ => Stmt(0, 0)) }

  method NewBuffer(n: nat) returns (buf: array<Instr>)
    ensures fresh(buf) && buf[..] == Fill(n)
  {
    buf := new Instr[n](_ => Stmt(0, 0));
  }

  /** set_bpf_instr: write the four fields of one instruction. */
  method SetInstr(buf: array<Instr>, at: nat, i: Instr) returns (n: nat)
    requires at < buf.Length
    modifies buf
    ensures n == 1 && buf[..] == Written(old(buf[..]), at, [i])
  {
    buf[at] := i;
    n := 1;
  }

  method EmitLoadArg(buf: array<Instr>, at: nat, argidx: int) returns (n: nat)
    requires at + 4 <= buf.Length
    modifies buf
    ensures n == 4 && buf[..] == Written(old(buf[..]), at, LoadArg(argidx))
  {
    buf[at] := Stmt(LD_W_ABS, LoArg(argidx));
    buf[at + 1] := Stmt(ST, 0);
    buf[at + 2] := Stmt(LD_W_ABS, HiArg(argidx));
    buf[at + 3] := Stmt(ST, 1);
    n := 4;
  }

  method EmitJeq(buf: array<Instr>, at: nat, c: u64, jt: u8, jf: u8) returns (n: nat)
    requires at + 3 <= buf.Length
    modifies buf
    ensures n == 3 && buf[..] == Written(old(buf[..]), at, CompJeq(c, jt, jf))
  {
    buf[at] := Instr(JMP_JEQ_K, Hi(c), NEXT, Dist(2, jf));
    buf[at + 1] := Stmt(LD_MEM, 0);
    buf[at + 2] := Instr(JMP_JEQ_K, Lo(c), jt, jf);
    n := 3;
  }

  /** bpf_comp_jgt64 (last is JGT) and bpf_comp_jge64 (last is JGE). */
  method EmitOrder(buf: array<Instr>, at: nat, last: u16, c: u64, jt: u8, jf: u8) returns (n: nat)
    requires at + |CompOrder(last, c, jt, jf)| <= buf.Length
    modifies buf
    ensures n == |CompOrder(last, c, jt, jf)|
    ensures buf[..] == Written(old(buf[..]), at, CompOrder(last, c, jt, jf))
  {
    n := 0;
    if Hi(c) == 0 {
      buf[at] := Instr(JMP_JGT_K, Hi(c), Dist(2, jt), NEXT);
      n := 1;
    } else {
      buf[at] := Instr(JMP_JGT_K, Hi(c), Dist(3, jt), NEXT);
      buf[at + 1] := Instr(JMP_JEQ_K, Hi(c), NEXT, Dist(2, jf));
      n := 2;
    }
    buf[at + n] := Stmt(LD_MEM, 0);
    buf[at + n + 1] := Instr(last, Lo(c), jt, jf);
    n := n + 2;
  }

  method EmitJset(buf: array<Instr>, at: nat, mask: u64, jt: u8, jf: u8) returns (n: nat)
    requires at + 3 <= buf.Length
    modifies buf
    ensures n == 3 && buf[..] == Written(old(buf[..]), at, CompJset(mask, jt, jf))
  {
    buf[at] := Instr(JMP_JSET_K, Hi(mask), Dist(2, jt), NEXT);
    buf[at + 1] := Stmt(LD_MEM, 0);
    buf[at + 2] := Instr(JMP_JSET_K, Lo(mask), jt, jf);
    n := 3;
  }

  method EmitComp(buf: array<Instr>, at: nat, op: Op, c: u64) returns (n: nat)
    requires at + |Comp(op, c)| <= buf.Length
    modifies buf
    ensures n == |Comp(op, c)| && buf[..] == Written(old(buf[..]), at, Comp(op, c))
  {
    // True skips the label jump; the flipped operators test the negation.
    match op {
      case EQ => n := EmitJeq(buf, at, c, SKIP, NEXT);
      case NE => n := EmitJeq(buf, at, c, NEXT, SKIP);
      case LT => n := EmitOrder(buf, at, JMP_JGE_K, c, NEXT, SKIP);
      case LE => n := EmitOrder(buf, at, JMP_JGT_K, c, NEXT, SKIP);
      case GT => n := EmitOrder(buf, at, JMP_JGT_K, c, SKIP, NEXT);
      case GE => n := EmitOrder(buf, at, JMP_JGE_K, c, SKIP, NEXT);
      case SET => n := EmitJset(buf, at, c, SKIP, NEXT);
      case IN => n := EmitJset(buf, at, Not64(c), NEXT, SKIP);
    }
  }

  /** bpf_arg_comp: the buffer is sized by bpf_arg_comp_len and filled exactly. */
  method EmitArgComp(op: Op, argidx: int, c: u64, id: u32) returns (filter: array<Instr>)
    ensures fresh(filter) && filter[..] == ArgComp(op, argidx, c, id)
  {
    ArgCompLenExact(op, argidx, c, id);
    filter := NewBuffer(ArgCompLen(op, c));
    ghost var empty := filter[..];
    var curr := EmitLoadArg(filter, 0, argidx);
    var n := EmitComp(filter, curr, op, c);
    WrittenTwice(empty, 0, LoadArg(argidx), Comp(op, c));
    curr := curr + n;
    n := SetInstr(filter, curr, JumpLbl(id));
    WrittenTwice(empty, 0, LoadArg(argidx) + Comp(op, c), [JumpLbl(id)]);
    assert curr + n == filter.Length;
  }
}
