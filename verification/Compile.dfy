/**
 What the policy compiler of syscall_filter.c emits, as functions of the policy:
 the block of each line, the state carried from line to line, and the finished
 program. The methods that build these blocks step by step are in Compiler.
 */
module Compile {
  import opened Words
  import opened Bpf
  import opened Compare
  import opened Emit
  import opened Labels
  import opened Blocks
  import opened Policy
  import opened Decimals

  /** Died stands for die(); Failed for a -1 or NULL return. */
  datatype Result<+T> = Ok(value: T) | Failed | Died

  /** The label table reached so far, and the buffers appended so far. */
  datatype Code = Code(table: Table, blocks: seq<seq<Instr>>)

  type Table = t: seq<string> | |t| <= BPF_LABELS_MAX

  /** The C int with this bit pattern, printed by %d. */
  function Decimal(x: u32): string {
    if x < 0x8000_0000 then Digits(x) else "-" + Digits(TWO32 - x)
  }

  /** group_end_lbl and success_lbl print into a buffer of MAX_BPF_LABEL_LEN bytes. */
  function GroupEndLabel(nr: u32, group: nat): string {
    Truncate(Decimal(nr) + "_" + Digits(group) + "_end", MAX_BPF_LABEL_LEN - 1)
  }

  function SuccessLabel(nr: u32): string {
    Truncate(Decimal(nr) + "_success", MAX_BPF_LABEL_LEN - 1)
  }

  function Prepend(blocks: seq<seq<Instr>>, rest: Result<Code>): Result<Code> {
    match rest
    case Ok(code) => Ok(code.(blocks := blocks + code.blocks))
    case Failed => Failed
    case Died => Died
  }

  /** compile_atom. */
  function CompileAtom(table: Table, nr: u32, group: nat, a: Atom): Result<Code> {
    if a.BadAtom? then Failed
    else
      var (table, id) := Intern(table, GroupEndLabel(nr, group));
      if id < 0 then Died else Ok(Code(table, [ArgComp(a.op, a.argidx, a.c, id)]))
  }

  function CompileAtoms(table: Table, nr: u32, group: nat, atoms: seq<Atom>): Result<Code>
    decreases |atoms|
  {
    if atoms == [] then Ok(Code(table, []))
    else match CompileAtom(table, nr, group, atoms[0])
      case Failed => Failed
      case Died => Died
      case Ok(code) => Prepend(code.blocks, CompileAtoms(code.table, nr, group, atoms[1..]))
  }

  /** The jump to success and the label that end a group. */
  function CompileGroupEnd(table: Table, nr: u32, group: nat): Result<Code> {
    var (table1, success) := Intern(table, SuccessLabel(nr));
    if success < 0 then Died else
    var (table2, end) := Intern(table1, GroupEndLabel(nr, group));
    if end < 0 then Died else Ok(Code(table2, [[JumpLbl(success), Lbl(end)]]))
  }

  function CompileGroup(table: Table, nr: u32, group: nat, atoms: seq<Atom>): Result<Code> {
    match CompileAtoms(table, nr, group, atoms)
    case Failed => Failed
    case Died => Died
    case Ok(code) => Prepend(code.blocks, CompileGroupEnd(code.table, nr, group))
  }

  function CompileGroups(table: Table, nr: u32, group: nat, groups: seq<seq<Atom>>): Result<Code>
    decreases |groups|
  {
    if groups == [] then Ok(Code(table, []))
    else match CompileGroup(table, nr, group, groups[0])
      case Failed => Failed
      case Died => Died
      case Ok(code) => Prepend(code.blocks, CompileGroups(code.table, nr, group + 1, groups[1..]))
  }

  /** compile_errno: an errno of -1, a bad clause, or "return" alone under LOG is refused. */
  function CompileClause(clause: Clause, action: Action): Result<seq<Instr>> {
    match clause
    case BadClause => Failed
    case NoErrno => if action == LOG then Failed else Ok([Stmt(RET_K, ActionValue(action))])
    case Errno(v) => if v % TWO32 == 0xffff_ffff then Failed else Ok([Stmt(RET_K, RET_ERRNO + v % 0x1_0000)])
  }

  function CompileOtherwise(otherwise: Option<Clause>, action: Action): Result<seq<Instr>> {
    match otherwise
    case None => Ok([Stmt(RET_K, ActionValue(action))])
    case Some(clause) => CompileClause(clause, action)
  }

  /** What follows the groups: the fallback, then the success label with RET ALLOW. */
  function CompileTail(table: Table, nr: u32, otherwise: Option<Clause>, action: Action): Result<Code> {
    match CompileOtherwise(otherwise, action)
    case Failed => Failed
    case Died => Died
    case Ok(ret) =>
      var (table', success) := Intern(table, SuccessLabel(nr));
      if success < 0 then Died
      else Ok(Code(table', [ret, [Lbl(success), Stmt(RET_K, RET_ALLOW)]]))
  }

  /** compile_policy_line. */
  function CompileBody(table: Table, nr: u32, body: Body, entry: u32, action: Action): Result<Code>
    requires !body.Allow?
  {
    match body
    case Return(clause) =>
      (match CompileClause(clause, action)
       case Failed => Failed
       case Died => Died
       case Ok(ret) => Ok(Code(table, [[Lbl(entry)], ret])))
    case Args(groups, otherwise) =>
      match CompileGroups(table, nr, 0, groups)
      case Failed => Failed
      case Died => Died
      case Ok(code) =>
        Prepend([[Lbl(entry)]], Prepend(code.blocks, CompileTail(code.table, nr, otherwise, action)))
  }

  // ----- Files -----

  /** What one rule adds: a pair in the jump table and possibly an argument section. */
  datatype Entry = AllowEntry(nr: u32) | ArgEntry(nr: u32, id: u32, blocks: seq<seq<Instr>>)

  datatype State = State(table: Table, seen: set<nat>, entries: seq<Entry>)

  /** An id of -1, from a full table, becomes an unsigned int. */
  function AsId(id: int): u32
    requires -1 <= id < TWO32
  {
    if id < 0 then 0xffff_ffff else id
  }

  /** One policy line with a known system call. */
  function CompileRule(name: string, body: Body, ind: nat, opts: Options, st: State): Result<State>
    requires ind < |opts.syscalls|
  {
    var nr, seen := opts.syscalls[ind].nr, st.seen + {ind};
    if body.Allow? then Ok(State(st.table, seen, st.entries + [AllowEntry(nr)]))
    else
      var (table, id) := Intern(st.table, name);
      match CompileBody(table, nr, body, AsId(id), opts.action)
      case Failed => Failed
      case Died => Died
      case Ok(code) => Ok(State(code.table, seen, st.entries + [ArgEntry(nr, AsId(id), code.blocks)]))
  }

  /** The loop of compile_file from some line on; bad records a refused duplicate,
      which makes the whole file fail once it has been read. */
  function CompileLines(lines: seq<Line>, opts: Options, level: nat, st: State, bad: bool): Result<State>
    decreases if level == 0 then 1 else 0, |lines|
  {
    if lines == [] then if bad then Failed else Ok(st)
    else match lines[0]
      case Blank => CompileLines(lines[1..], opts, level, st, bad)
      case Frequency => CompileLines(lines[1..], opts, level, st, bad)
      case BadStatement => Failed
      case MissingColon => Failed
      case EmptyRule => Failed
      case Include(path) =>
        if level > 0 || IsImplicitRelativePath(path) || path !in opts.files then Failed
        else
          (match CompileLines(opts.files[path], opts, level + 1, st, false)
           case Failed => Failed
           case Died => Died
           case Ok(st') => CompileLines(lines[1..], opts, level, st', bad))
      case Rule(name, body) =>
        var r := Lookup(opts.syscalls, name);
        if r.None? then
          if opts.allowLogging then CompileLines(lines[1..], opts, level, st, bad) else Failed
        else
          match CompileRule(name, body, r.value, opts, st)
          case Failed => Failed
          case Died => Died
          case Ok(st') =>
            CompileLines(lines[1..], opts, level, st', bad || (r.value in st.seen && !opts.allowDuplicates))
  }

  function EntryHead(e: Entry): seq<Instr> {
    match e
    case AllowEntry(nr) => AllowCode(nr)
    case ArgEntry(nr, id, _) => AllowArgsCode(nr, id)
  }

  function EntryArgs(e: Entry): seq<seq<Instr>> { if e.ArgEntry? then e.blocks else [] }

  function HeadBlocks(entries: seq<Entry>): seq<seq<Instr>> {
    if entries == [] then [] else [EntryHead(entries[0])] + HeadBlocks(entries[1..])
  }

  function ArgBlocks(entries: seq<Entry>): seq<seq<Instr>> {
    if entries == [] then [] else EntryArgs(entries[0]) + ArgBlocks(entries[1..])
  }

  /** allow_logging_syscalls, as entries of the jump table. */
  function LogAllows(opts: Options, n: nat): (es: seq<Entry>)
    requires n <= |LOG_SYSCALLS|
    ensures |es| == n
    ensures forall i :: 0 <= i < n ==> es[i] == AllowEntry(LogNr(opts.syscalls, LOG_SYSCALLS[i]))
  {
    seq(n, i requires 0 <= i < n => AllowEntry(LogNr(opts.syscalls, LOG_SYSCALLS[i])))
  }

  function LogEntries(opts: Options): seq<Entry> {
    if opts.allowSyscallsForLogging then LogAllows(opts, |LOG_SYSCALLS|) else []
  }

  /** The filter before the default action is appended. */
  function Prologue(opts: Options, entries: seq<Entry>): seq<seq<Instr>> {
    [ValidateArchCode(), LoadNrCode()] + HeadBlocks(LogEntries(opts) + entries)
  }

  function Default(opts: Options): seq<Instr> { [Stmt(RET_K, ActionValue(opts.action))] }

  function MainCode(opts: Options, entries: seq<Entry>): seq<Instr> {
    Flat(Prologue(opts, entries) + [Default(opts)])
  }

  /** The labelled program: the jump table, then the argument sections. */
  function Labelled(opts: Options, entries: seq<Entry>): seq<Instr> {
    MainCode(opts, entries) + Flat(ArgBlocks(entries))
  }

  /** Undefined: the resolver reads an entry that the label table does not have. */
  datatype Compiled = Program(code: seq<Instr>) | Rejected | Aborted | Undefined

  const START: State := State([], {}, [])

  /** The end of compile_filter, once the file has been read. */
  function Finish(opts: Options, st: State): Compiled {
    var p := Labelled(opts, st.entries);
    if |p| > BPF_MAXINSNS then Rejected
    else match WalkDownTo(p, 0, |st.table|)
      case Refused => Rejected
      case OutOfTable => Undefined
      case Done => Program(Resolved(p))
  }

  /** compile_filter. */
  function CompileFilter(lines: seq<Line>, opts: Options): Compiled {
    match CompileLines(lines, opts, 0, START, false)
    case Failed => Rejected
    case Died => Aborted
    case Ok(st) => if opts.action == LOG && !opts.allowLogging then Rejected else Finish(opts, st)
  }
}
