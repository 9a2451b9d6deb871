/**
 The constant-expression parser of util.c (parse_constant): numbers and names joined
 by |, complemented by ~ and grouped by parentheses. It is proved to accept exactly
 the strings of a grammar, with their bitwise values.
 */
module Constants {
  import opened Words

  // ----- Bitwise operations -----

  function OrBits(x: nat, y: nat, n: nat): (r: nat)
    ensures r < Pow2(n)
    decreases n
  {
    if n == 0 then 0
    else (if x % 2 == 1 || y % 2 == 1 then 1 else 0) + 2 * OrBits(x / 2, y / 2, n - 1)
  }

  lemma {:induction false} OrBitsAre(x: nat, y: nat, n: nat, i: nat)
    requires i < n
    ensures Bit(OrBits(x, y, n), i) <==> Bit(x, i) || Bit(y, i)
    decreases n
  {
    if i > 0 {
      OrBitsAre(x / 2, y / 2, n - 1, i - 1);
    }
  }

  /** The C expression x | y on 64-bit words. */
  function Or64(x: u64, y: u64): u64 {
    Pow2At32();
    OrBits(x, y, 64)
  }

  lemma Or64Bits(x: u64, y: u64, i: nat)
    requires i < 64
    ensures Bit(Or64(x, y), i) <==> Bit(x, i) || Bit(y, i)
  {
    OrBitsAre(x, y, 64, i);
  }

  // ----- The parser -----

  /** parse_single_constant: the value of a name or number, if it is one. */
  type Leaf = string -> Option<u64>

  predicate Special(c: char) { c == '|' || c == '(' || c == ')' || c == '~' }

  /** Names and numbers are not empty and contain no operator or parenthesis. */
  ghost predicate Sane(leaf: Leaf) {
    forall s :: leaf(s).Some? ==> Plain(s)
  }

  predicate Plain(s: string) { s != "" && forall i :: 0 <= i < |s| ==> !Special(s[i]) }

  /** How far the parenthesis that closes the given depth is. */
  function CloseAt(s: string, depth: nat): (r: Option<nat>)
    requires depth > 0
    ensures r.Some? ==> r.value < |s| && s[r.value] == ')'
  {
    if s == "" then None
    else if s[0] == ')' && depth == 1 then Some(0)
    else Shift(1, CloseAt(s[1..], if s[0] == '(' then depth + 1 else if s[0] == ')' then depth - 1 else depth))
  }

  function Shift(n: nat, r: Option<nat>): Option<nat> {
    if r.None? then None else Some(r.value + n)
  }

  /** The length of the text before the first bar. */
  function BarAt(s: string): (n: nat)
    ensures n <= |s| && (n < |s| ==> s[n] == '|') && forall i :: 0 <= i < n ==> s[i] != '|'
  {
    if s == "" || s[0] == '|' then 0 else 1 + BarAt(s[1..])
  }

  /** What the front of a string is worth, and what is left after the bar that follows. */
  datatype Step = Step(value: u64, rest: string)

  function Signed(negate: bool, v: u64): u64 { if negate then Not64(v) else v }

  function AfterBar(tail: string): string { if tail == "" then "" else tail[1..] }

  function ParseName(u: string, leaf: Leaf): (r: Option<Step>) {
    var n := BarAt(u);
    var v := leaf(u[..n]);
    if v.None? then None else Some(Step(v.value, AfterBar(u[n..])))
  }

  function ParseGroup(u: string, leaf: Leaf): (r: Option<Step>)
    requires u != ""
    ensures r.Some? ==> |r.value.rest| < |u|
    decreases |u|, 0
  {
    if CloseAt(u[1..], 1).None? then None
    else
      var inner := ParseConstant(GroupBody(u), leaf);
      if inner.None? || !GroupMayEnd(GroupTail(u)) then None
      else Some(Step(inner.value, AfterBar(GroupTail(u))))
  }

  /** What is between the parenthesis at the front and the one that closes it. */
  function GroupBody(u: string): (body: string)
    requires u != "" && CloseAt(u[1..], 1).Some?
    ensures |body| == CloseAt(u[1..], 1).value && |body| + 1 < |u|
  {
    u[1..][..CloseAt(u[1..], 1).value]
  }

  function GroupTail(u: string): (tail: string)
    requires u != "" && CloseAt(u[1..], 1).Some?
    ensures |tail| == |u| - |GroupBody(u)| - 2
  {
    u[1..][CloseAt(u[1..], 1).value + 1..]
  }

  /** After a group comes the end, or a bar that is not the end. */
  predicate GroupMayEnd(tail: string) { tail == "" || (tail[0] == '|' && tail != "|") }

  function ParseOperand(u: string, leaf: Leaf): (r: Option<Step>)
    ensures r.Some? && u != "" ==> |r.value.rest| < |u|
    decreases |u|, 1
  {
    if u != "" && u[0] == '(' then ParseGroup(u, leaf) else ParseName(u, leaf)
  }

  function Unsigned(s: string): string { if s != "" && s[0] == '~' then s[1..] else s }

  function Resign(negate: bool, r: Option<Step>): Option<Step> {
    if r.None? then None else Some(Step(Signed(negate, r.value.value), r.value.rest))
  }

  function ParseTerm(s: string, leaf: Leaf): (r: Option<Step>)
    requires s != ""
    ensures r.Some? ==> |r.value.rest| < |s|
    decreases |s|, 2
  {
    Resign(s[0] == '~', ParseOperand(Unsigned(s), leaf))
  }

  /** The loop: terms until the string is used up. */
  function ParseTerms(s: string, leaf: Leaf): Option<u64>
    decreases |s|, 3
  {
    if s == "" then Some(0)
    else
      var step := ParseTerm(s, leaf);
      if step.None? then None
      else
        Combine(step.value.value, ParseTerms(step.value.rest, leaf))
  }

  function Combine(v: u64, r: Option<u64>): Option<u64> {
    if r.None? then None else Some(Or64(v, r.value))
  }

  /** parse_constant; None stands for an end pointer that did not move. */
  function ParseConstant(s: string, leaf: Leaf): Option<u64>
    decreases |s|, 4
  {
    if s == "" then None else ParseTerms(s, leaf)
  }

  // ----- The grammar -----

  datatype Operand = Name(text: string) | Group(inner: Expr)

  datatype Term = Term(negate: bool, operand: Operand)

  /** Terms joined by bars. A name, unlike a group, may have a bar after it and then nothing. */
  datatype Expr = Last(term: Term) | Dangling(term: Term) | Bar(term: Term, more: Expr)

  predicate OperandOk(o: Operand, leaf: Leaf) {
    match o
    case Name(text) => leaf(text).Some?
    case Group(inner) => ExprOk(inner, leaf)
  }

  predicate ExprOk(e: Expr, leaf: Leaf) {
    && OperandOk(e.term.operand, leaf)
    && (e.Dangling? ==> e.term.operand.Name?)
    && (e.Bar? ==> ExprOk(e.more, leaf))
  }

  function Sign(negate: bool): string { if negate then "~" else "" }

  function PrintOperand(o: Operand): string {
    match o
    case Name(text) => text
    case Group(inner) => "(" + Print(inner) + ")"
  }

  function PrintTerm(t: Term): string { Sign(t.negate) + PrintOperand(t.operand) }

  function Print(e: Expr): string
    decreases e, 1
  {
    PrintTerm(e.term) + PrintTail(e)
  }

  function PrintTail(e: Expr): string
    decreases e, 0
  {
    match e
    case Last(_) => ""
    case Dangling(_) => "|"
    case Bar(_, more) => "|" + Print(more)
  }

  function OperandValue(o: Operand, leaf: Leaf): u64
    requires OperandOk(o, leaf)
  {
    match o
    case Name(text) => leaf(text).value
    case Group(inner) => Value(inner, leaf)
  }

  function TermValue(t: Term, leaf: Leaf): u64
    requires OperandOk(t.operand, leaf)
  {
    Signed(t.negate, OperandValue(t.operand, leaf))
  }

  function Value(e: Expr, leaf: Leaf): u64
    requires ExprOk(e, leaf)
  {
    if e.Bar? then Or64(TermValue(e.term, leaf), Value(e.more, leaf)) else TermValue(e.term, leaf)
  }

  // ----- Parentheses are balanced: a search for an outer one passes over an expression -----

  lemma {:induction false} PlainSkipped(p: string, q: string, d: nat)
    requires d > 0 && forall i :: 0 <= i < |p| ==> p[i] != '(' && p[i] != ')'
    ensures CloseAt(p + q, d) == Shift(|p|, CloseAt(q, d))
  {
    if p == "" {
      assert p + q == q;
    } else {
      PlainSkipped(p[1..], q, d);
      assert (p + q)[1..] == p[1..] + q;
    }
  }

  lemma SkippedBoth(a: string, b: string, q: string, d: nat)
    requires d > 0
    requires CloseAt(a + (b + q), d) == Shift(|a|, CloseAt(b + q, d))
    requires CloseAt(b + q, d) == Shift(|b|, CloseAt(q, d))
    ensures CloseAt((a + b) + q, d) == Shift(|a + b|, CloseAt(q, d))
  {
    Assoc(a, b, q);
  }

  lemma Assoc(a: string, b: string, c: string)
    ensures (a + b) + c == a + (b + c)
  {
  }

  lemma {:induction false} OperandSkipped(o: Operand, q: string, d: nat, leaf: Leaf)
    requires Sane(leaf) && OperandOk(o, leaf) && d > 0
    ensures CloseAt(PrintOperand(o) + q, d) == Shift(|PrintOperand(o)|, CloseAt(q, d))
    decreases o
  {
    match o
    case Name(text) =>
      assert Plain(text);
      PlainSkipped(text, q, d);
    case Group(inner) =>
      var p := Print(inner);
      assert ("(" + p + ")" + q)[1..] == p + (")" + q);
      ExprSkipped(inner, ")" + q, d + 1, leaf);
      assert (")" + q)[1..] == q;
  }

  lemma {:induction false} TermSkipped(t: Term, q: string, d: nat, leaf: Leaf)
    requires Sane(leaf) && OperandOk(t.operand, leaf) && d > 0
    ensures CloseAt(PrintTerm(t) + q, d) == Shift(|PrintTerm(t)|, CloseAt(q, d))
    decreases t
  {
    OperandSkipped(t.operand, q, d, leaf);
    PlainSkipped(Sign(t.negate), PrintOperand(t.operand) + q, d);
    SkippedBoth(Sign(t.negate), PrintOperand(t.operand), q, d);
  }

  lemma {:induction false} ExprSkipped(e: Expr, q: string, d: nat, leaf: Leaf)
    requires Sane(leaf) && ExprOk(e, leaf) && d > 0
    ensures CloseAt(Print(e) + q, d) == Shift(|Print(e)|, CloseAt(q, d))
    decreases e, 1
  {
    TermSkipped(e.term, PrintTail(e) + q, d, leaf);
    TailSkipped(e, q, d, leaf);
    SkippedBoth(PrintTerm(e.term), PrintTail(e), q, d);
  }

  lemma {:induction false} TailSkipped(e: Expr, q: string, d: nat, leaf: Leaf)
    requires Sane(leaf) && ExprOk(e, leaf) && d > 0
    ensures CloseAt(PrintTail(e) + q, d) == Shift(|PrintTail(e)|, CloseAt(q, d))
    decreases e, 0
  {
    if e.Bar? {
      ExprSkipped(e.more, q, d, leaf);
      PlainSkipped("|", Print(e.more) + q, d);
      SkippedBoth("|", Print(e.more), q, d);
    } else {
      PlainSkipped(PrintTail(e), q, d);
    }
  }

  // ----- The parser reads what the grammar writes -----

  /** What may follow an operand: nothing, or a bar and, after a group, something more. */
  predicate Follows(o: Operand, tail: string) {
    tail == "" || (tail[0] == '|' && (tail != "|" || o.Name?))
  }

  lemma {:induction false} BarAfterPlain(p: string, tail: string)
    requires forall i :: 0 <= i < |p| ==> p[i] != '|'
    requires tail == "" || tail[0] == '|'
    ensures BarAt(p + tail) == |p|
  {
    if p != "" {
      BarAfterPlain(p[1..], tail);
      assert (p + tail)[1..] == p[1..] + tail;
    } else {
      assert p + tail == tail;
    }
  }

  lemma NameParses(text: string, tail: string, leaf: Leaf)
    requires Plain(text) && leaf(text).Some? && (tail == "" || tail[0] == '|')
    ensures ParseName(text + tail, leaf) == Some(Step(leaf(text).value, AfterBar(tail)))
  {
    BarAfterPlain(text, tail);
    assert (text + tail)[..|text|] == text && (text + tail)[|text|..] == tail;
  }

  lemma GroupParts(p: string, tail: string)
    ensures var u := "(" + p + ")" + tail;
      u[1..] == p + (")" + tail) && u[1..][..|p|] == p && u[1..][|p| + 1..] == tail
  {
  }

  lemma GroupParses(inner: Expr, tail: string, leaf: Leaf)
    requires Sane(leaf) && ExprOk(inner, leaf) && Follows(Group(inner), tail)
    requires ParseConstant(Print(inner), leaf).Some?
    ensures ParseGroup("(" + Print(inner) + ")" + tail, leaf)
         == Some(Step(ParseConstant(Print(inner), leaf).value, AfterBar(tail)))
  {
    var p, q := Print(inner), ")" + tail;
    ExprSkipped(inner, q, 1, leaf);
    GroupParts(p, tail);
  }

  lemma {:induction false} OperandParses(o: Operand, tail: string, leaf: Leaf)
    requires Sane(leaf) && OperandOk(o, leaf) && Follows(o, tail)
    ensures PrintOperand(o) != "" && PrintOperand(o)[0] != '~'
    ensures ParseOperand(PrintOperand(o) + tail, leaf) == Some(Step(OperandValue(o, leaf), AfterBar(tail)))
    decreases o, 0
  {
    match o
    case Name(text) =>
      assert Plain(text);
      NameParses(text, tail, leaf);
    case Group(inner) =>
      ExprParses(inner, leaf);
      GroupParses(inner, tail, leaf);
  }

  lemma UnsignedIs(negate: bool, u: string)
    requires u != "" && u[0] != '~'
    ensures Unsigned(Sign(negate) + u) == u
    ensures (Sign(negate) + u)[0] == '~' <==> negate
  {
  }

  lemma {:induction false} TermParses(t: Term, tail: string, leaf: Leaf)
    requires Sane(leaf) && OperandOk(t.operand, leaf) && Follows(t.operand, tail)
    ensures PrintTerm(t) != ""
    ensures ParseTerm(PrintTerm(t) + tail, leaf) == Some(Step(TermValue(t, leaf), AfterBar(tail)))
    decreases t, 0
  {
    var u := PrintOperand(t.operand) + tail;
    OperandParses(t.operand, tail, leaf);
    Assoc(Sign(t.negate), PrintOperand(t.operand), tail);
    UnsignedIs(t.negate, u);
  }

  lemma {:induction false} ExprParses(e: Expr, leaf: Leaf)
    requires Sane(leaf) && ExprOk(e, leaf)
    ensures ParseConstant(Print(e), leaf) == Some(Value(e, leaf))
    decreases e, 1
  {
    if e.Bar? {
      ExprParses(e.more, leaf);
      assert AfterBar("|" + Print(e.more)) == Print(e.more);
    }
    TermParses(e.term, PrintTail(e), leaf);
    TermFirst(Print(e), leaf);
    OrZero(TermValue(e.term, leaf));
  }

  lemma TermFirst(s: string, leaf: Leaf)
    requires s != "" && ParseTerm(s, leaf).Some?
    ensures var step := ParseTerm(s, leaf).value;
      ParseConstant(s, leaf)
      == if step.rest == "" then Some(Or64(step.value, 0)) else Combine(step.value, ParseConstant(step.rest, leaf))
  {
    assert ParseTerms("", leaf) == Some(0);
    assert ParseTerms(s, leaf) == Combine(ParseTerm(s, leaf).value.value, ParseTerms(ParseTerm(s, leaf).value.rest, leaf));
  }

  // ----- The grammar writes all that the parser reads -----

  lemma GroupSplit(u: string, n: nat)
    requires n + 1 < |u| && u[0] == '(' && u[n + 1] == ')'
    ensures u == "(" + u[1..][..n] + ")" + u[1..][n + 1..]
  {
  }

  lemma {:induction false} OperandFound(u: string, leaf: Leaf) returns (o: Operand, tail: string)
    requires Sane(leaf) && ParseOperand(u, leaf).Some?
    ensures OperandOk(o, leaf) && Follows(o, tail) && u == PrintOperand(o) + tail
    ensures ParseOperand(u, leaf) == Some(Step(OperandValue(o, leaf), AfterBar(tail)))
    decreases |u|, 0
  {
    if u != "" && u[0] == '(' {
      var n := CloseAt(u[1..], 1).value;
      var inner := ExprFound(u[1..][..n], leaf);
      o, tail := Group(inner), u[1..][n + 1..];
      GroupSplit(u, n);
    } else {
      var n := BarAt(u);
      o, tail := Name(u[..n]), u[n..];
    }
  }

  lemma SignFirst(s: string)
    requires s != ""
    ensures s == Sign(s[0] == '~') + Unsigned(s)
  {
  }

  lemma {:induction false} TermFound(s: string, leaf: Leaf) returns (t: Term, tail: string)
    requires Sane(leaf) && s != "" && ParseTerm(s, leaf).Some?
    ensures OperandOk(t.operand, leaf) && Follows(t.operand, tail) && s == PrintTerm(t) + tail
    ensures ParseTerm(s, leaf) == Some(Step(TermValue(t, leaf), AfterBar(tail)))
    decreases |s|, 1
  {
    var o;
    o, tail := OperandFound(Unsigned(s), leaf);
    t := Term(s[0] == '~', o);
    SignFirst(s);
    Assoc(Sign(t.negate), PrintOperand(o), tail);
  }

  lemma {:induction false} ExprFound(s: string, leaf: Leaf) returns (e: Expr)
    requires Sane(leaf) && ParseConstant(s, leaf).Some?
    ensures ExprOk(e, leaf) && Print(e) == s && ParseConstant(s, leaf) == Some(Value(e, leaf))
    decreases |s|, 2
  {
    var t, tail := TermFound(s, leaf);
    TermFirst(s, leaf);
    OrZero(TermValue(t, leaf));
    if tail == "" {
      e := Last(t);
    } else if tail == "|" {
      e := Dangling(t);
    } else {
      var more := ExprFound(AfterBar(tail), leaf);
      e := Bar(t, more);
      BarKept(tail);
    }
    assert PrintTail(e) == tail;
  }

  lemma BarKept(tail: string)
    requires tail != "" && tail[0] == '|'
    ensures "|" + AfterBar(tail) == tail
  {
  }

  /** parse_constant accepts exactly the sentences of the grammar, and yields their values. */
  lemma ParserIsGrammar(s: string, v: u64, leaf: Leaf)
    requires Sane(leaf)
    ensures ParseConstant(s, leaf) == Some(v)
            <==> exists e :: ExprOk(e, leaf) && Print(e) == s && Value(e, leaf) == v
  {
    if ParseConstant(s, leaf) == Some(v) {
      var e := ExprFound(s, leaf);
      assert ExprOk(e, leaf) && Print(e) == s && Value(e, leaf) == v;
    }
    if e :| ExprOk(e, leaf) && Print(e) == s && Value(e, leaf) == v {
      ExprParses(e, leaf);
    }
  }

  // ----- The value, bit by bit -----

  predicate OperandBit(o: Operand, leaf: Leaf, i: nat)
    requires OperandOk(o, leaf)
  {
    match o
    case Name(text) => Bit(leaf(text).value, i)
    case Group(inner) => ExprBit(inner, leaf, i)
  }

  /** A bar joins bits, and a tilde turns the bit of its own term around. */
  predicate ExprBit(e: Expr, leaf: Leaf, i: nat)
    requires ExprOk(e, leaf)
  {
    || (OperandBit(e.term.operand, leaf, i) <==> !e.term.negate)
    || (e.Bar? && ExprBit(e.more, leaf, i))
  }

  lemma {:induction false} ValueBits(e: Expr, leaf: Leaf, i: nat)
    requires ExprOk(e, leaf) && i < 64
    ensures Bit(Value(e, leaf), i) <==> ExprBit(e, leaf, i)
  {
    var v := OperandValue(e.term.operand, leaf);
    if e.term.operand.Group? {
      ValueBits(e.term.operand.inner, leaf, i);
    }
    Not64Bits(v, i);
    if e.Bar? {
      ValueBits(e.more, leaf, i);
      Or64Bits(TermValue(e.term, leaf), Value(e.more, leaf), i);
    }
  }

  /** So each bit of what is parsed is that of the sentence. */
  lemma ParsedBits(s: string, leaf: Leaf) returns (e: Expr)
    requires Sane(leaf) && ParseConstant(s, leaf).Some?
    ensures ExprOk(e, leaf) && Print(e) == s
    ensures forall i: nat :: i < 64 ==> (Bit(ParseConstant(s, leaf).value, i) <==> ExprBit(e, leaf, i))
  {
    e := ExprFound(s, leaf);
    forall i: nat | i < 64
      ensures Bit(Value(e, leaf), i) <==> ExprBit(e, leaf, i)
    {
      ValueBits(e, leaf, i);
    }
  }

  // ----- Laws of the bitwise or -----

  lemma {:induction false} OrBitsZero(x: nat, n: nat)
    requires x < Pow2(n)
    ensures OrBits(x, 0, n) == x && OrBits(0, x, n) == x
    decreases n
  {
    if n > 0 {
      OrBitsZero(x / 2, n - 1);
    }
  }

  lemma OrZero(x: u64)
    ensures Or64(x, 0) == x && Or64(0, x) == x
  {
    Pow2At32();
    OrBitsZero(x, 64);
  }

  lemma {:induction false} OrBitsAssoc(x: nat, y: nat, z: nat, n: nat)
    ensures OrBits(OrBits(x, y, n), z, n) == OrBits(x, OrBits(y, z, n), n)
    decreases n
  {
    if n > 0 {
      OrBitsAssoc(x / 2, y / 2, z / 2, n - 1);
      OrBitsParts(x, y, n);
      OrBitsParts(y, z, n);
    }
  }

  lemma OrBitsParts(x: nat, y: nat, n: nat)
    requires n > 0
    ensures OrBits(x, y, n) % 2 == (if x % 2 == 1 || y % 2 == 1 then 1 else 0)
    ensures OrBits(x, y, n) / 2 == OrBits(x / 2, y / 2, n - 1)
  {
  }

  // ----- The parser as it runs, on the characters in place -----

  /** The NUL-terminated string at position p is s. */
  ghost predicate StringAt(a: seq<char>, p: nat, s: string) {
    && p + |s| < |a|
    && a[p..p + |s|] == s
    && a[p + |s|] == '\0'
    && NoNul(s)
  }

  predicate NoNul(s: string) { forall i :: 0 <= i < |s| ==> s[i] != '\0' }

  lemma StringFrom(a: seq<char>, p: nat, s: string, k: nat)
    requires StringAt(a, p, s) && k <= |s|
    ensures StringAt(a, p + k, s[k..])
    ensures a[p + k] == if k < |s| then s[k] else '\0'
  {
    assert k < |s| ==> a[p + k] == a[p..p + |s|][k];
    assert a[p + k..p + |s|] == s[k..] by {
      assert a[p..p + |s|][k..] == s[k..];
    }
  }

  lemma StringKept(a: seq<char>, b: seq<char>, p: nat, s: string)
    requires StringAt(a, p, s) && |a| == |b|
    requires forall i :: p <= i <= p + |s| ==> a[i] == b[i]
    ensures StringAt(b, p, s)
  {
  }

  /** A NUL written into a string leaves two strings. */
  lemma CutString(a: seq<char>, p: nat, s: string, k: nat)
    requires StringAt(a, p, s) && k < |s|
    ensures StringAt(a[p + k := '\0'], p, s[..k])
    ensures StringAt(a[p + k := '\0'], p + k + 1, s[k + 1..])
  {
    var b := a[p + k := '\0'];
    assert b[p..p + k] == s[..k] by {
      assert a[p..p + |s|][..k] == s[..k];
    }
    StringFrom(a, p, s, k + 1);
    StringKept(a, b, p + k + 1, s[k + 1..]);
  }

  function CloseFrom(s: string, j: nat, depth: nat): Option<nat>
    requires j <= |s| && depth > 0
  {
    Shift(j, CloseAt(s[j..], depth))
  }

  function Deeper(c: char, depth: nat): nat {
    if c == '(' then depth + 1 else if c == ')' && depth > 0 then depth - 1 else depth
  }

  lemma CloseStep(s: string, j: nat, depth: nat)
    requires j <= |s| && depth > 0
    ensures CloseFrom(s, j, depth)
         == if j == |s| then None
            else if Deeper(s[j], depth) == 0 then Some(j)
            else CloseFrom(s, j + 1, Deeper(s[j], depth))
  {
    if j < |s| {
      assert s[j..][1..] == s[j + 1..];
    }
  }

  /** The search for the closing parenthesis, which counts the ones in between. */
  method FindClose(a: array<char>, p: nat, ghost s: string) returns (found: Option<nat>)
    requires StringAt(a[..], p, s) && s != ""
    ensures found == Shift(p, CloseFrom(s, 1, 1))
  {
    var count := 1;
    var k := p + 1;
    StringFrom(a[..], p, s, 1);
    while a[k] != '\0'
      invariant p < k <= p + |s| && count > 0
      invariant a[k] == if k < p + |s| then s[k - p] else '\0'
      invariant CloseFrom(s, 1, 1) == CloseFrom(s, k - p, count)
      decreases p + |s| - k
    {
      CloseStep(s, k - p, count);
      StringFrom(a[..], p, s, k - p + 1);
      count := Deeper(a[k], count);
      if count == 0 {
        return Some(k);
      }
      k := k + 1;
    }
    CloseStep(s, k - p, count);
    return None;
  }

  /** tokenize_parenthesized_expression, on a string that starts with a parenthesis. */
  method TokenizeParenthesized(a: array<char>, p: nat, ghost s: string) returns (found: Option<nat>)
    requires StringAt(a[..], p, s) && s != "" && s[0] == '('
    modifies a
    ensures found == Shift(p, CloseFrom(s, 1, 1))
    ensures a[..] == if found.None? then old(a[..]) else old(a[..])[found.value := '\0']
  {
    found := FindClose(a, p, s);
    if found.Some? {
      CloseInside(s);
      a[found.value] := '\0';
    }
  }

  lemma CloseInside(s: string)
    requires s != "" && CloseFrom(s, 1, 1).Some?
    ensures CloseFrom(s, 1, 1).value < |s|
  {
  }

  function BarFrom(s: string, j: nat): nat
    requires j <= |s|
  {
    j + BarAt(s[j..])
  }

  lemma BarStep(s: string, j: nat)
    requires j <= |s|
    ensures BarFrom(s, j) == if j == |s| || s[j] == '|' then j else BarFrom(s, j + 1)
    ensures BarFrom(s, 0) == BarAt(s)
  {
    assert s[0..] == s;
    if j < |s| {
      assert s[j..][1..] == s[j + 1..];
    }
  }

  /** strstr(s, "|"), or the end of the string when there is no bar. */
  method FindBar(a: array<char>, p: nat, ghost s: string) returns (end: nat)
    requires StringAt(a[..], p, s)
    ensures end == p + BarAt(s) && end < a.Length
    ensures a[end] == if BarAt(s) < |s| then '|' else '\0'
  {
    hide BarAt, BarFrom;
    end := p;
    StringFrom(a[..], p, s, 0);
    BarStep(s, 0);
    while a[end] != '\0' && a[end] != '|'
      invariant p <= end <= p + |s|
      invariant a[end] == if end < p + |s| then s[end - p] else '\0'
      invariant BarAt(s) == BarFrom(s, end - p)
      decreases p + |s| - end
    {
      BarStep(s, end - p);
      StringFrom(a[..], p, s, end - p + 1);
      end := end + 1;
    }
    BarStep(s, end - p);
  }

  /** constant_str after a term: null, or the string r that ends at limit. */
  ghost predicate Remains(a: seq<char>, next: Option<nat>, r: string, limit: nat) {
    match next
    case None => r == ""
    case Some(k) => StringAt(a, k, r) && k + |r| == limit && (a[k] == '\0' <==> r == "")
  }

  ghost predicate Outside(a: seq<char>, b: seq<char>, p: nat, limit: nat) {
    |a| == |b| && forall i :: 0 <= i < |a| && (i < p || limit <= i) ==> a[i] == b[i]
  }

  lemma OutsideBoth(a: seq<char>, b: seq<char>, c: seq<char>, q: nat, p: nat, limit: nat)
    requires Outside(b, a, p, limit) && Outside(c, b, q, limit) && p <= q
    ensures Outside(c, a, p, limit)
  {
  }

  lemma RemainsAt(a: seq<char>, k: nat, r: string)
    requires StringAt(a, k, r)
    ensures Remains(a, Some(k), r, k + |r|)
  {
    StringFrom(a, k, r, 0);
  }

  lemma TokenSplits(a: seq<char>, p: nat, s: string, n: nat)
    requires StringAt(a, p, s) && n <= |s|
    ensures var b := a[p + n := '\0'];
      && b[p..p + n] == s[..n]
      && Remains(b, if n < |s| then Some(p + n + 1) else None, AfterBar(s[n..]), p + |s|)
      && Outside(b, a, p, p + |s|)
  {
    assert a[p..p + |s|][..n] == s[..n];
    if n < |s| {
      CutString(a, p, s, n);
      assert AfterBar(s[n..]) == s[n + 1..];
      RemainsAt(a[p + n := '\0'], p + n + 1, s[n + 1..]);
    }
  }

  /** tokenize with the delimiter "|": where the token ends, and the string after it, if any. */
  method TokenizeAtBar(a: array<char>, p: nat, ghost s: string) returns (end: nat, next: Option<nat>)
    requires StringAt(a[..], p, s)
    modifies a
    ensures p <= end < a.Length && a[..][p..end] == s[..BarAt(s)]
    ensures Remains(a[..], next, AfterBar(s[BarAt(s)..]), p + |s|)
    ensures Outside(a[..], old(a[..]), p, p + |s|)
  {
    TokenSplits(a[..], p, s, BarAt(s));
    end := FindBar(a, p, s);
    if a[end] == '\0' {
      next := None;
    } else {
      a[end] := '\0';
      next := Some(end + 1);
    }
    assert a[..] == old(a[..])[end := '\0'];
  }

  method NameInPlace(a: array<char>, p: nat, ghost s: string, leaf: Leaf)
    returns (ok: bool, v: u64, last: nat, next: Option<nat>)
    requires StringAt(a[..], p, s) && Sane(leaf)
    modifies a
    ensures ok == ParseName(s, leaf).Some?
    ensures ok ==> v == ParseName(s, leaf).value.value && last > p
    ensures ok ==> Remains(a[..], next, ParseName(s, leaf).value.rest, p + |s|)
    ensures Outside(a[..], old(a[..]), p, p + |s|)
  {
    var end;
    end, next := TokenizeAtBar(a, p, s);
    var token := a[..][p..end];
    assert leaf(token).Some? ==> Plain(token);
    var r := leaf(token);
    ok, last := r.Some?, end;
    v := if ok then r.value else 0;
  }

  lemma GroupCut(a: seq<char>, p: nat, s: string)
    requires StringAt(a, p, s) && s != "" && CloseAt(s[1..], 1).Some?
    ensures var n := |GroupBody(s)|;
      var b := a[p + n + 1 := '\0'];
      && StringAt(b, p + 1, GroupBody(s))
      && StringAt(b, p + n + 2, GroupTail(s))
      && Outside(b, a, p, p + |s|)
  {
    StringFrom(a, p, s, 1);
    CutString(a, p + 1, s[1..], |GroupBody(s)|);
  }

  /** The group is parsed by a recursive call, which does not touch what comes after it. */
  method GroupInPlace(a: array<char>, p: nat, ghost s: string, leaf: Leaf)
    returns (ok: bool, v: u64, last: nat, next: nat)
    requires StringAt(a[..], p, s) && Sane(leaf) && s != "" && s[0] == '('
    modifies a
    ensures ok == ParseGroup(s, leaf).Some?
    ensures ok ==> v == ParseGroup(s, leaf).value.value && last > p
    ensures ok ==> Remains(a[..], Some(next), ParseGroup(s, leaf).value.rest, p + |s|)
    ensures Outside(a[..], old(a[..]), p, p + |s|)
    decreases |s|, 0
  {
    var found := OpenGroup(a, p, s);
    if found.None? {
      return false, 0, p, p;
    }
    ghost var cut := a[..];
    ok, v, last, next := GroupInside(a, p + 1, found.value, GroupBody(s), GroupTail(s), leaf);
    OutsideInner(old(a[..]), cut, a[..], p, p + |s|, p + 1, found.value);
  }

  method GroupInside(a: array<char>, p: nat, close: nat, ghost body: string, ghost tail: string, leaf: Leaf)
    returns (ok: bool, v: u64, last: nat, next: nat)
    requires close == p + |body| && StringAt(a[..], p, body) && StringAt(a[..], close + 1, tail) && Sane(leaf)
    modifies a
    ensures ok <==> ParseConstant(body, leaf).Some? && GroupMayEnd(tail)
    ensures ok ==> v == ParseConstant(body, leaf).value && last > p
    ensures ok ==> Remains(a[..], Some(next), AfterBar(tail), close + 1 + |tail|)
    ensures Outside(a[..], old(a[..]), p, close)
    decreases |body|, 3
  {
    hide ParseConstant, StringAt, GroupMayEnd, AfterBar;
    v, last := ParseInPlace(a, p, body, leaf);
    KeptAfter(old(a[..]), a[..], p, close, close + 1, tail);
    if last == p {
      return false, 0, p, p;
    }
    ok, next := AfterGroup(a, close + 1, tail);
  }

  method OpenGroup(a: array<char>, p: nat, ghost s: string) returns (found: Option<nat>)
    requires StringAt(a[..], p, s) && s != "" && s[0] == '('
    modifies a
    ensures found.Some? <==> CloseAt(s[1..], 1).Some?
    ensures found.Some? ==> found.value == p + |GroupBody(s)| + 1
    ensures found.Some? ==> StringAt(a[..], p + 1, GroupBody(s)) && StringAt(a[..], found.value + 1, GroupTail(s))
    ensures Outside(a[..], old(a[..]), p, p + |s|)
  {
    hide GroupBody, GroupTail, CloseAt;
    found := TokenizeParenthesized(a, p, s);
    if found.Some? {
      GroupCut(old(a[..]), p, s);
    }
  }

  lemma OutsideInner(a: seq<char>, b: seq<char>, c: seq<char>, p: nat, limit: nat, q: nat, inner: nat)
    requires Outside(b, a, p, limit) && Outside(c, b, q, inner) && p <= q && inner <= limit
    ensures Outside(c, a, p, limit)
  {
  }

  lemma KeptAfter(a: seq<char>, b: seq<char>, p: nat, limit: nat, q: nat, s: string)
    requires Outside(b, a, p, limit) && limit <= q && StringAt(a, q, s)
    ensures StringAt(b, q, s)
  {
    StringKept(a, b, q, s);
  }

  method AfterGroup(a: array<char>, p: nat, ghost tail: string) returns (ok: bool, next: nat)
    requires StringAt(a[..], p, tail)
    ensures ok == GroupMayEnd(tail)
    ensures ok ==> Remains(a[..], Some(next), AfterBar(tail), p + |tail|)
  {
    StringFrom(a[..], p, tail, 0);
    if a[p] == '\0' {
      return true, p;
    }
    StringFrom(a[..], p, tail, 1);
    RemainsAt(a[..], p + 1, tail[1..]);
    ok, next := a[p] == '|' && a[p + 1] != '\0', p + 1;
  }

  method TermInPlace(a: array<char>, p: nat, ghost s: string, leaf: Leaf)
    returns (ok: bool, v: u64, last: nat, next: Option<nat>)
    requires StringAt(a[..], p, s) && Sane(leaf) && s != ""
    modifies a
    ensures ok == ParseTerm(s, leaf).Some?
    ensures ok ==> v == ParseTerm(s, leaf).value.value && last > p
    ensures ok ==> Remains(a[..], next, ParseTerm(s, leaf).value.rest, p + |s|)
    ensures Outside(a[..], old(a[..]), p, p + |s|)
    decreases |s|, 1
  {
    StringFrom(a[..], p, s, 0);
    StringFrom(a[..], p, s, 1);
    var negate := a[p] == '~';
    var q := if negate then p + 1 else p;
    ghost var u := Unsigned(s);
    StringFrom(a[..], q, u, 0);
    if a[q] == '(' {
      var k;
      ok, v, last, k := GroupInPlace(a, q, u, leaf);
      next := Some(k);
    } else {
      ok, v, last, next := NameInPlace(a, q, u, leaf);
    }
    if negate {
      v := Not64(v);
    }
  }

  /** The terms read so far are worth value, and r is still to be read. */
  predicate Progress(s: string, value: u64, r: string, leaf: Leaf) {
    ParseTerms(s, leaf) == Combine(value, ParseTerms(r, leaf))
  }

  lemma ProgressStarts(s: string, leaf: Leaf)
    ensures Progress(s, 0, s, leaf)
  {
    if ParseTerms(s, leaf).Some? {
      OrZero(ParseTerms(s, leaf).value);
    }
  }

  lemma ProgressGoesOn(s: string, value: u64, r: string, leaf: Leaf)
    requires r != "" && Progress(s, value, r, leaf)
    ensures s != "" && ParseTerm(r, leaf).None? ==> ParseConstant(s, leaf).None?
    ensures ParseTerm(r, leaf).Some? ==>
      var step := ParseTerm(r, leaf).value;
      Progress(s, Or64(value, step.value), step.rest, leaf)
  {
    if ParseTerm(r, leaf).Some? {
      var step := ParseTerm(r, leaf).value;
      if ParseTerms(step.rest, leaf).Some? {
        OrBitsAssoc(value, step.value, ParseTerms(step.rest, leaf).value, 64);
      }
    }
  }

  lemma ProgressEnds(s: string, value: u64, leaf: Leaf)
    requires s != "" && Progress(s, value, "", leaf)
    ensures ParseConstant(s, leaf) == Some(value)
  {
    OrZero(value);
  }

  /** parse_constant. An end pointer that stays at the start reports an error. */
  method ParseInPlace(a: array<char>, p: nat, ghost s: string, leaf: Leaf) returns (value: u64, end: nat)
    requires StringAt(a[..], p, s) && Sane(leaf)
    modifies a
    ensures end >= p
    ensures end == p <==> ParseConstant(s, leaf).None?
    ensures value == if ParseConstant(s, leaf).Some? then ParseConstant(s, leaf).value else 0
    ensures Outside(a[..], old(a[..]), p, p + |s|)
    decreases |s|, 2
  {
    value, end := 0, p;
    var cur: Option<nat> := Some(p);
    ghost var r := s;
    ProgressStarts(s, leaf);
    RemainsAt(a[..], p, s);
    while cur.Some? && a[cur.value] != '\0'
      invariant Remains(a[..], cur, r, p + |s|) && |r| <= |s|
      invariant Progress(s, value, r, leaf)
      invariant (end > p && s != "") || (end == p && r == s && value == 0)
      invariant Outside(a[..], old(a[..]), p, p + |s|)
      decreases |r|
    {
      ProgressGoesOn(s, value, r, leaf);
      ghost var before := a[..];
      var ok, v, last, next := TermInPlace(a, cur.value, r, leaf);
      OutsideBoth(old(a[..]), before, a[..], cur.value, p, p + |s|);
      if !ok {
        return 0, p;
      }
      r := ParseTerm(r, leaf).value.rest;
      value, end, cur := Or64(value, v), last, next;
    }
    if s != "" {
      ProgressEnds(s, value, leaf);
    }
  }
}
