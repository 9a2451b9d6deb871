/**
 compile_file and compile_filter: the loop over policy lines with its includes, and
 the assembly of the final program.
 */
module CompileFile {
  import opened Words
  import opened Bpf
  import opened Emit
  import opened Labels
  import opened Blocks
  import opened Policy
  import opened Compile
  import opened Compiler

  lemma {:induction false} HeadBlocksConcat(a: seq<Entry>, b: seq<Entry>)
    ensures HeadBlocks(a + b) == HeadBlocks(a) + HeadBlocks(b)
  {
    if a == [] {
      assert a + b == b;
    } else {
      assert (a + b)[1..] == a[1..] + b;
      HeadBlocksConcat(a[1..], b);
    }
  }

  lemma HeadBlocksSnoc(base: seq<seq<Instr>>, a: seq<Entry>, e: Entry)
    ensures base + HeadBlocks(a + [e]) == base + HeadBlocks(a) + [EntryHead(e)]
  {
    HeadBlocksConcat(a, [e]);
    assert HeadBlocks([e]) == [EntryHead(e)] + HeadBlocks([]) == [EntryHead(e)];
  }

  lemma {:induction false} ArgBlocksSnoc(a: seq<Entry>, e: Entry)
    ensures ArgBlocks(a + [e]) == ArgBlocks(a) + EntryArgs(e)
  {
    if a == [] {
      assert a + [e] == [e] && ArgBlocks([e]) == EntryArgs(e) + ArgBlocks([]) == EntryArgs(e);
    } else {
      assert (a + [e])[1..] == a[1..] + [e];
      ArgBlocksSnoc(a[1..], e);
    }
  }

  /** What compile_filter hands to compile_file: the jump table under construction,
      the argument sections, the labels and the system calls already defined. */
  class FilterBuilder {
    const head: FilterList
    const args: FilterList
    const labels: BpfLabels
    var seen: set<nat>
    ghost var base: seq<seq<Instr>>
    ghost var entries: seq<Entry>

    ghost predicate Valid()
      reads this, labels, head, head.Repr, args, args.Repr
    {
      && labels.Valid() && head != args && head.Valid() && args.Valid()
      && head.Repr !! args.Repr
      && head.codes == base + HeadBlocks(entries)
      && args.codes == ArgBlocks(entries)
    }

    ghost function Current(): State
      requires labels.Valid()
      reads this, labels
    {
      State(labels.Names(), seen, entries)
    }

    constructor ()
      ensures Valid() && Current() == START && base == []
      ensures fresh(head) && fresh(args) && fresh(labels) && fresh(head.Repr) && fresh(args.Repr)
    {
      head := new FilterList();
      args := new FilterList();
      labels := new BpfLabels();
      seen, base, entries := {}, [], [];
      new;
    }

    /** A block of the filter's start, before any rule. */
    method AddToBase(code: seq<Instr>)
      requires Valid() && entries == []
      modifies this, head, head.Repr
      ensures Valid() && labels.Names() == old(labels.Names()) && seen == old(seen)
      ensures entries == [] && base == old(base) + [code]
      ensures fresh(head.Repr - old(head.Repr)) && args.Repr == old(args.Repr)
    {
      assert base + HeadBlocks([]) == base && base + [code] + HeadBlocks([]) == base + [code];
      base := base + [code];
      head.Add(code);
    }

    /** The pair of a rule in the jump table; a section comes later, if there is one. */
    method AddPair(code: seq<Instr>, ghost e: Entry)
      requires Valid() && code == EntryHead(e) && EntryArgs(e) == []
      modifies this, head, head.Repr
      ensures Valid() && labels.Names() == old(labels.Names()) && seen == old(seen)
      ensures entries == old(entries) + [e] && base == old(base)
      ensures fresh(head.Repr - old(head.Repr)) && args.Repr == old(args.Repr)
    {
      hide ListOrEmpty, HeadBlocks, ArgBlocks;
      HeadBlocksSnoc(base, entries, e);
      ArgBlocksSnoc(entries, e);
      assert ArgBlocks(entries) + [] == ArgBlocks(entries);
      head.Add(code);
      entries := entries + [e];
    }

    /** The section of the rule just added, behind the other sections. */
    method AddSection(list: FilterList, ghost before: seq<Entry>, ghost e: Entry)
      requires Valid() && list.Valid() && |list.codes| >= 2
      requires e.ArgEntry? && entries == before + [e] && e.blocks == []
      requires list != head && list != args && list.Repr !! head.Repr && list.Repr !! args.Repr
      modifies this, args, args.Repr
      ensures Valid() && labels.Names() == old(labels.Names()) && seen == old(seen)
      ensures entries == before + [e.(blocks := list.codes)] && base == old(base)
      ensures head.Repr == old(head.Repr) && args.Repr == old(args.Repr) + list.Repr
    {
      hide ListOrEmpty, HeadBlocks, ArgBlocks;
      ghost var e' := e.(blocks := list.codes);
      HeadBlocksSnoc(base, before, e);
      HeadBlocksSnoc(base, before, e');
      ArgBlocksSnoc(before, e);
      ArgBlocksSnoc(before, e');
      assert ArgBlocks(before) + [] == ArgBlocks(before);
      entries := before + [e'];
      args.AddAll(list);
    }
  }

  /** What compile_file may change, and what it may add. */
  ghost function Footprint(b: FilterBuilder): set<object>
    reads b, b.head, b.args
  {
    {b, b.head, b.args, b.labels} + b.head.Repr + b.args.Repr
  }

  /** Both lists consist of their old nodes and fresh ones. */
  twostate predicate OnlyGrew(b: FilterBuilder, head: set<FilterBlock>, args: set<FilterBlock>)
    reads b, b.head, b.args
  {
    fresh(b.head.Repr - head) && fresh(b.args.Repr - args)
  }

  /** A policy line with a known system call: the part of compile_file's loop after
      the lookup. */
  method CompileKnownRule(b: FilterBuilder, name: string, body: Body, ind: nat, opts: Options) returns (r: Result<()>)
    requires b.Valid() && ind < |opts.syscalls|
    modifies Footprint(b)
    ensures r.Ok? ==> b.Valid() && b.base == old(b.base) && OnlyGrew(b, old(b.head.Repr), old(b.args.Repr))
    ensures var spec := CompileRule(name, body, ind, opts, old(b.Current()));
            && r.Ok? == spec.Ok? && r.Failed? == spec.Failed?
            && (r.Ok? ==> b.Current() == spec.value)
  {
    hide ListOrEmpty, CompileBody, HeadBlocks, ArgBlocks;
    b.seen := b.seen + {ind};
    if body.Allow? {
      b.AddPair(AllowCode(opts.syscalls[ind].nr), AllowEntry(opts.syscalls[ind].nr));
      r := Ok(());
    } else {
      r := CompileArgRule(b, name, body, opts.syscalls[ind].nr, opts.action);
    }
  }

  /** The jump to a section, then the section itself. A full label table does not stop
      the first part: its -1 is used as an id. */
  method CompileArgRule(b: FilterBuilder, name: string, body: Body, nr: u32, action: Action) returns (r: Result<()>)
    requires b.Valid() && !body.Allow?
    modifies Footprint(b)
    ensures r.Ok? ==> b.Valid() && b.base == old(b.base) && OnlyGrew(b, old(b.head.Repr), old(b.args.Repr))
    ensures var (table, id) := Intern(old(b.labels.Names()), name);
            var spec := CompileBody(table, nr, body, AsId(id), action);
            && r.Ok? == spec.Ok? && r.Failed? == spec.Failed?
            && (r.Ok? ==> b.Current() == State(spec.value.table, old(b.seen),
                                               old(b.entries) + [ArgEntry(nr, AsId(id), spec.value.blocks)]))
  {
    hide ListOrEmpty, CompileBody, Intern, HeadBlocks, ArgBlocks;
    ghost var before := b.entries;
    var found := b.labels.LabelId(name);
    ghost var e := ArgEntry(nr, AsId(found), []);
    b.AddPair(AllowArgsCode(nr, AsId(found)), e);
    var list;
    r, list := CompilePolicyLine(b.labels, nr, body, AsId(found), action);
    if r.Ok? {
      b.AddSection(list, before, e);
    }
  }

  /** One turn of the loop: the new state, and whether the line is a refused duplicate. */
  ghost function CompileLine(line: Line, opts: Options, level: nat, st: State): Result<(State, bool)> {
    match line
    case Blank => Ok((st, false))
    case Frequency => Ok((st, false))
    case BadStatement => Failed
    case MissingColon => Failed
    case EmptyRule => Failed
    case Include(path) =>
      if level > 0 || IsImplicitRelativePath(path) || path !in opts.files then Failed
      else WithFlag(CompileLines(opts.files[path], opts, level + 1, st, false), false)
    case Rule(name, body) =>
      var r := Lookup(opts.syscalls, name);
      if r.None? then if opts.allowLogging then Ok((st, false)) else Failed
      else WithFlag(CompileRule(name, body, r.value, opts, st), r.value in st.seen && !opts.allowDuplicates)
  }

  ghost function WithFlag(r: Result<State>, flag: bool): Result<(State, bool)> {
    match r
    case Failed => Failed
    case Died => Died
    case Ok(st) => Ok((st, flag))
  }

  lemma LinesStep(lines: seq<Line>, opts: Options, level: nat, st: State, bad: bool)
    requires lines != []
    ensures CompileLines(lines, opts, level, st, bad)
         == match CompileLine(lines[0], opts, level, st)
            case Failed => Failed
            case Died => Died
            case Ok(next) => CompileLines(lines[1..], opts, level, next.0, bad || next.1)
  {
  }

  method CompilePolicyStep(b: FilterBuilder, line: Line, opts: Options, level: nat) returns (r: Result<bool>)
    requires b.Valid()
    modifies Footprint(b)
    ensures r.Ok? ==> b.Valid() && b.base == old(b.base) && OnlyGrew(b, old(b.head.Repr), old(b.args.Repr))
    ensures var spec := CompileLine(line, opts, level, old(b.Current()));
            && r.Ok? == spec.Ok? && r.Failed? == spec.Failed?
            && (r.Ok? ==> (b.Current(), r.value) == spec.value)
    decreases if level == 0 then 1 else 0, 0
  {
    hide ListOrEmpty, CompileLines, CompileRule;
    match line
    case Blank => return Ok(false);
    case Frequency => return Ok(false);
    case BadStatement => return Failed;
    case MissingColon => return Failed;
    case EmptyRule => return Failed;
    case Include(path) =>
      if level > 0 || IsImplicitRelativePath(path) || path !in opts.files {
        return Failed;
      }
      var included := CompilePolicyFile(b, opts.files[path], opts, level + 1);
      r := Flagged(included, false);
    case Rule(name, body) =>
      var found := Lookup(opts.syscalls, name);
      if found.None? {
        return if opts.allowLogging then Ok(false) else Failed;
      }
      var duplicate := found.value in b.seen && !opts.allowDuplicates;
      var compiled := CompileKnownRule(b, name, body, found.value, opts);
      r := Flagged(compiled, duplicate);
  }

  function Flagged(r: Result<()>, flag: bool): Result<bool> {
    match r
    case Failed => Failed
    case Died => Died
    case Ok(_) => Ok(flag)
  }

  /** compile_file. */
  method CompilePolicyFile(b: FilterBuilder, lines: seq<Line>, opts: Options, level: nat) returns (r: Result<()>)
    requires b.Valid()
    modifies Footprint(b)
    ensures r.Ok? ==> b.Valid() && b.base == old(b.base) && OnlyGrew(b, old(b.head.Repr), old(b.args.Repr))
    ensures var spec := CompileLines(lines, opts, level, old(b.Current()), false);
            && r.Ok? == spec.Ok? && r.Failed? == spec.Failed?
            && (r.Ok? ==> b.Current() == spec.value)
    decreases if level == 0 then 1 else 0, 1
  {
    hide ListOrEmpty, CompileLine;
    var bad := false;
    ghost var spec := CompileLines(lines, opts, level, b.Current(), false);
    assert lines[0..] == lines;
    for i := 0 to |lines|
      invariant b.Valid() && b.base == old(b.base) && OnlyGrew(b, old(b.head.Repr), old(b.args.Repr))
      invariant spec == CompileLines(lines[i..], opts, level, b.Current(), bad)
    {
      LinesStep(lines[i..], opts, level, b.Current(), bad);
      assert lines[i..][1..] == lines[i + 1..];
      var step := CompilePolicyStep(b, lines[i], opts, level);
      if !step.Ok? {
        return if step.Failed? then Failed else Died;
      }
      bad := bad || step.value;
    }
    r := if bad then Failed else Ok(());
  }

  /** allow_logging_syscalls. */
  method AllowLogging(b: FilterBuilder, opts: Options)
    requires b.Valid() && b.entries == []
    modifies b, b.head, b.head.Repr
    ensures b.Valid() && b.labels.Names() == old(b.labels.Names()) && b.seen == old(b.seen)
    ensures b.entries == [] && b.base == old(b.base) + HeadBlocks(LogAllows(opts, |LOG_SYSCALLS|))
    ensures fresh(b.head.Repr - old(b.head.Repr)) && b.args.Repr == old(b.args.Repr)
  {
    assert b.base + HeadBlocks([]) == b.base;
    for i := 0 to |LOG_SYSCALLS|
      invariant b.Valid() && b.labels.Names() == old(b.labels.Names()) && b.seen == old(b.seen)
      invariant b.entries == [] && b.base == old(b.base) + HeadBlocks(LogAllows(opts, i))
      invariant fresh(b.head.Repr - old(b.head.Repr)) && b.args.Repr == old(b.args.Repr)
    {
      var nr := LogNr(opts.syscalls, LOG_SYSCALLS[i]);
      assert LogAllows(opts, i + 1) == LogAllows(opts, i) + [AllowEntry(nr)];
      HeadBlocksSnoc(old(b.base), LogAllows(opts, i), AllowEntry(nr));
      b.AddToBase(AllowCode(nr));
    }
  }

  /** Allocate the final buffer and flatten both lists into it; neither call can fail. */
  method FlattenBoth(head: FilterList, args: FilterList) returns (filter: array<Instr>, total: nat)
    requires head.Valid() && args.Valid() && head.codes != []
    ensures total == |Flat(head.codes) + Flat(args.codes)|
    ensures total <= BPF_MAXINSNS ==> fresh(filter) && filter[..] == Flat(head.codes) + Flat(args.codes)
  {
    ghost var main, sections := Flat(head.codes), Flat(args.codes);
    total := head.head.totalLen + if args.head.instrs == None then 0 else args.head.totalLen;
    filter := NewBuffer(if total <= BPF_MAXINSNS then total else 0);
    if total > BPF_MAXINSNS {
      return;
    }
    ghost var empty := filter[..];
    var ok := Flatten(head.head, filter, 0, total, head.nodes, head.codes);
    assert ok;
    if args.head.instrs != None {
      ok := Flatten(args.head, filter, head.head.totalLen, total, args.nodes, args.codes);
      assert ok;
    }
    WrittenTwice(empty, 0, main, sections);
  }

  /** The end of compile_filter: size check, flattening, label resolution. */
  method Assemble(b: FilterBuilder, opts: Options) returns (r: Compiled)
    requires b.labels.Valid() && b.head.Valid() && b.args.Valid() && b.head.codes != []
    requires Flat(b.head.codes) + Flat(b.args.codes) == Labelled(opts, b.entries)
    modifies b.labels
    ensures r == Finish(opts, old(b.Current()))
  {
    ghost var p, count := Labelled(opts, b.entries), |b.labels.labels|;
    assert |b.Current().table| == count;
    var filter, total := FlattenBoth(b.head, b.args);
    if total > BPF_MAXINSNS {
      return Rejected;
    }
    var walk := ResolveJumps(b.labels, filter);
    match walk
    case Done => r := Program(filter[..]);
    case Refused => r := Rejected;
    case OutOfTable => r := Undefined;
  }

  method StartWith(first: seq<Instr>, second: seq<Instr>) returns (b: FilterBuilder)
    ensures b.Valid() && b.Current() == START && fresh(Footprint(b)) && b.base == [first, second]
  {
    hide ListOrEmpty, HeadBlocks, ArgBlocks;
    b := new FilterBuilder();
    b.AddToBase(first);
    b.AddToBase(second);
  }

  /** The filter's start: architecture check, load of the number, logging calls. */
  method StartFilter(opts: Options) returns (b: FilterBuilder)
    ensures b.Valid() && b.Current() == START && fresh(Footprint(b))
    ensures b.base == [ValidateArchCode(), LoadNrCode()] + HeadBlocks(LogEntries(opts))
  {
    b := StartWith(ValidateArchCode(), LoadNrCode());
    assert b.base + HeadBlocks([]) == b.base;
    if opts.allowSyscallsForLogging {
      AllowLogging(b, opts);
    }
  }

  lemma MainCodeIs(opts: Options, base: seq<seq<Instr>>, entries: seq<Entry>)
    requires base == [ValidateArchCode(), LoadNrCode()] + HeadBlocks(LogEntries(opts))
    ensures Flat(base + HeadBlocks(entries) + [Default(opts)]) == MainCode(opts, entries)
  {
    HeadBlocksConcat(LogEntries(opts), entries);
    assert base + HeadBlocks(entries) == Prologue(opts, entries);
  }

  /** compile_filter. */
  method CompileWholeFilter(lines: seq<Line>, opts: Options) returns (r: Compiled)
    ensures r == CompileFilter(lines, opts)
  {
    hide ListOrEmpty, CompileLines, HeadBlocks, ArgBlocks, Finish;
    var b := StartFilter(opts);
    var read := CompilePolicyFile(b, lines, opts, 0);
    if read.Failed? {
      return Rejected;
    }
    if read.Died? {
      return Aborted;
    }
    if opts.action == LOG && !opts.allowLogging {
      return Rejected;
    }
    MainCodeIs(opts, b.base, b.entries);
    b.head.Add(Default(opts));
    r := Assemble(b, opts);
  }
}
