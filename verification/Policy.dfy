/**
 Seccomp policies as logical lines, and what they mean: the verdict a system call
 should get. Nothing here mentions instructions or labels.
 */
module Policy {
  import opened Words
  import opened Bpf
  import opened Compare

  /** enum block_action. */
  datatype Action = KILL | TRAP | LOG | KILL_PROCESS

  /** "argN op constant"; an atom that does not parse is BadAtom. */
  datatype Atom = Atom(argidx: int, op: Op, c: u64) | BadAtom

  /** "return", with or without an errno value, or a clause that does not parse. */
  datatype Clause = Errno(value: u64) | NoErrno | BadClause

  /** The right-hand side of a policy line. */
  datatype Body =
    | Allow
    | Return(clause: Clause)
    | Args(groups: seq<seq<Atom>>, otherwise: Option<Clause>)

  datatype Line =
    | Blank
    | Frequency
    | BadStatement
    | Include(path: string)
    | MissingColon
    | EmptyRule
    | Rule(name: string, body: Body)

  /** A system call number; a negative one ends the table. */
  type CallNr = x: int | 0 <= x < 0x8000_0000

  /** One entry of syscall_table. */
  datatype Syscall = Syscall(name: string, nr: CallNr)

  datatype Options = Options(
    action: Action,
    allowLogging: bool,
    allowSyscallsForLogging: bool,
    allowDuplicates: bool,
    files: map<string, seq<Line>>,
    syscalls: seq<Syscall>)

  const LOG_SYSCALLS: seq<string> := ["socket", "connect", "sendto", "writev"]

  /** lookup_syscall: the index of the first entry with a name. */
  function Lookup(syscalls: seq<Syscall>, name: string): (r: Option<nat>)
    ensures r.Some? ==> r.value < |syscalls| && syscalls[r.value].name == name
    ensures r.Some? ==> forall i :: 0 <= i < r.value ==> syscalls[i].name != name
    ensures r.None? ==> forall i :: 0 <= i < |syscalls| ==> syscalls[i].name != name
  {
    if syscalls == [] then None
    else if syscalls[0].name == name then Some(0)
    else var r := Lookup(syscalls[1..], name);
         if r.None? then None else Some(r.value + 1)
  }

  /** The number given to a logging system call; -1 as a 32-bit word if unknown. */
  function LogNr(syscalls: seq<Syscall>, name: string): u32 {
    var r := Lookup(syscalls, name);
    if r.None? then 0xffff_ffff else syscalls[r.value].nr
  }

  predicate IsImplicitRelativePath(path: string) {
    !("/" <= path) && !("./" <= path)
  }

  // ----- Meaning -----

  function ActionValue(action: Action): u32 {
    match action
    case KILL => RET_KILL
    case TRAP => RET_TRAP
    case LOG => RET_LOG
    case KILL_PROCESS => RET_KILL_PROCESS
  }

  /** The errno is cut to the 16 bits of SECCOMP_RET_DATA. */
  function ClauseValue(clause: Clause, action: Action): u32 {
    match clause
    case Errno(v) => RET_ERRNO + v % 0x1_0000
    case NoErrno => ActionValue(action)
    case BadClause => ActionValue(action)
  }

  /** The kernel only takes loads from inside seccomp_data. */
  predicate SlotOk(a: Atom) { a.Atom? ==> ArgSlot(a.argidx) < 8 }

  predicate AtomSlotsOk(atoms: seq<Atom>) {
    atoms == [] || (SlotOk(atoms[0]) && AtomSlotsOk(atoms[1..]))
  }

  predicate GroupSlotsOk(groups: seq<seq<Atom>>) {
    groups == [] || (AtomSlotsOk(groups[0]) && GroupSlotsOk(groups[1..]))
  }

  predicate SlotsOk(body: Body) { body.Args? ==> GroupSlotsOk(body.groups) }

  predicate AtomHolds(a: Atom, d: Data)
    requires d.Valid()
  {
    a.Atom? && SlotOk(a) && Holds(a.op, d.Slot(ArgSlot(a.argidx)), a.c)
  }

  /** A conjunction. */
  predicate GroupHolds(atoms: seq<Atom>, d: Data)
    requires d.Valid()
  {
    atoms == [] || (AtomHolds(atoms[0], d) && GroupHolds(atoms[1..], d))
  }

  /** A disjunction of conjunctions over the arguments. */
  predicate Dnf(groups: seq<seq<Atom>>, d: Data)
    requires d.Valid()
  {
    groups != [] && (GroupHolds(groups[0], d) || Dnf(groups[1..], d))
  }

  function BodyVerdict(body: Body, action: Action, d: Data): u32
    requires d.Valid()
  {
    match body
    case Allow => RET_ALLOW
    case Return(clause) => ClauseValue(clause, action)
    case Args(groups, otherwise) =>
      if Dnf(groups, d) then RET_ALLOW
      else if otherwise.Some? then ClauseValue(otherwise.value, action)
      else ActionValue(action)
  }

  datatype NumberedRule = NumberedRule(nr: u32, body: Body)

  /** The rules in force, in order: includes spliced in, unknown system calls dropped. */
  function Rules(lines: seq<Line>, opts: Options, level: nat): seq<NumberedRule>
    decreases if level == 0 then 1 else 0, |lines|
  {
    if lines == [] then []
    else
      var rest := Rules(lines[1..], opts, level);
      match lines[0]
      case Rule(name, body) =>
        var r := Lookup(opts.syscalls, name);
        if r.Some? then [NumberedRule(opts.syscalls[r.value].nr, body)] + rest else rest
      case Include(path) =>
        if level == 0 && path in opts.files then Rules(opts.files[path], opts, 1) + rest else rest
      case _ => rest
  }

  function RulesVerdict(rules: seq<NumberedRule>, action: Action, d: Data): u32
    requires d.Valid()
  {
    if rules == [] then ActionValue(action)
    else if rules[0].nr == d.nr then BodyVerdict(rules[0].body, action, d)
    else RulesVerdict(rules[1..], action, d)
  }

  predicate IsLogged(opts: Options, nr: u32) {
    opts.allowSyscallsForLogging && exists i :: 0 <= i < |LOG_SYSCALLS| && LogNr(opts.syscalls, LOG_SYSCALLS[i]) == nr
  }

  predicate RuleSlotsOk(rules: seq<NumberedRule>) {
    rules == [] || (SlotsOk(rules[0].body) && RuleSlotsOk(rules[1..]))
  }

  /** What the policy promises for a system call. */
  function Verdict(lines: seq<Line>, opts: Options, d: Data): u32
    requires d.Valid()
  {
    if d.arch != MINIJAIL_ARCH_NR then RET_KILL
    else if IsLogged(opts, d.nr) then RET_ALLOW
    else RulesVerdict(Rules(lines, opts, 0), opts.action, d)
  }
}
