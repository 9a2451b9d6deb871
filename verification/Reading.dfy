/**
 Which policies are read to their end. Reading a policy makes a series of requests of the
 compiler: look a label up that may be missing, look one up that may not, or give up. The
 first request that cannot be met decides how reading ends.
 */
module Reading {
  import opened Words
  import opened Labels
  import opened Policy
  import opened Compile

  /** Ask: the label of a section, whose id is not checked. Demand: a generated label,
      without which the compiler dies. Refuse: something that is not a policy. */
  datatype Request = Ask(name: string) | Demand(name: string) | Refuse

  datatype Reading = Fine(labels: seq<string>) | Unreadable | Overrun

  /** The table is full and does not have the label. */
  predicate NoRoom(labels: seq<string>, name: string) { name !in labels && |labels| >= BPF_LABELS_MAX }

  function AddLabel(labels: seq<string>, name: string): seq<string> {
    if name in labels || |labels| >= BPF_LABELS_MAX then labels else labels + [Truncate(name, MAX_BPF_LABEL_LEN)]
  }

  /** Meet the requests in order; labels are those in the table so far. */
  function Process(labels: seq<string>, requests: seq<Request>): Reading
    decreases requests
  {
    if requests == [] then Fine(labels)
    else
      var r := Meet(labels, requests[0]);
      if r.Fine? then Process(r.labels, requests[1..]) else r
  }

  function Meet(labels: seq<string>, q: Request): Reading {
    match q
    case Refuse => Unreadable
    case Ask(name) => Fine(AddLabel(labels, name))
    case Demand(name) => if NoRoom(labels, name) then Overrun else Fine(AddLabel(labels, name))
  }

  // ----- The requests of a policy -----

  function AtomsRequests(nr: u32, group: nat, atoms: seq<Atom>): seq<Request> {
    if atoms == [] then []
    else [if atoms[0].BadAtom? then Refuse else Demand(GroupEndLabel(nr, group))] + AtomsRequests(nr, group, atoms[1..])
  }

  function GroupRequests(nr: u32, group: nat, atoms: seq<Atom>): seq<Request> {
    AtomsRequests(nr, group, atoms) + [Demand(SuccessLabel(nr)), Demand(GroupEndLabel(nr, group))]
  }

  function GroupsRequests(nr: u32, group: nat, groups: seq<seq<Atom>>): seq<Request>
    decreases |groups|
  {
    if groups == [] then [] else GroupRequests(nr, group, groups[0]) + GroupsRequests(nr, group + 1, groups[1..])
  }

  /** A clause that does not parse, an errno of -1, or a bare return under LOG. */
  predicate ClauseRefused(clause: Clause, action: Action) {
    match clause
    case BadClause => true
    case NoErrno => action == LOG
    case Errno(v) => v % TWO32 == 0xffff_ffff
  }

  function ClauseRequests(clause: Clause, action: Action): seq<Request> {
    if ClauseRefused(clause, action) then [Refuse] else []
  }

  function BodyRequests(nr: u32, body: Body, action: Action): seq<Request> {
    match body
    case Allow => []
    case Return(clause) => ClauseRequests(clause, action)
    case Args(groups, otherwise) =>
      GroupsRequests(nr, 0, groups)
      + ((if otherwise.None? then [] else ClauseRequests(otherwise.value, action)) + [Demand(SuccessLabel(nr))])
  }

  function RuleRequests(name: string, nr: u32, body: Body, action: Action): seq<Request> {
    if body.Allow? then [] else [Ask(name)] + BodyRequests(nr, body, action)
  }

  /** The indices of the system calls that have had a rule. */
  function SeenAfter(lines: seq<Line>, opts: Options, level: nat, seen: set<nat>): set<nat>
    decreases if level == 0 then 1 else 0, |lines|
  {
    if lines == [] then seen
    else
      match lines[0]
      case Rule(name, _) =>
        var r := Lookup(opts.syscalls, name);
        SeenAfter(lines[1..], opts, level, if r.Some? then seen + {r.value} else seen)
      case Include(path) =>
        if level == 0 && path in opts.files
        then SeenAfter(lines[1..], opts, level, SeenAfter(opts.files[path], opts, 1, seen))
        else SeenAfter(lines[1..], opts, level, seen)
      case _ => SeenAfter(lines[1..], opts, level, seen)
  }

  /** A refused duplicate makes its file fail once it has been read. */
  function LinesRequests(lines: seq<Line>, opts: Options, level: nat, seen: set<nat>, bad: bool): seq<Request>
    decreases if level == 0 then 1 else 0, |lines|
  {
    if lines == [] then if bad then [Refuse] else []
    else
      match lines[0]
      case Blank => LinesRequests(lines[1..], opts, level, seen, bad)
      case Frequency => LinesRequests(lines[1..], opts, level, seen, bad)
      case Include(path) =>
        if level > 0 || IsImplicitRelativePath(path) || path !in opts.files then [Refuse]
        else
          LinesRequests(opts.files[path], opts, 1, seen, false)
          + LinesRequests(lines[1..], opts, level, SeenAfter(opts.files[path], opts, 1, seen), bad)
      case Rule(name, body) =>
        var r := Lookup(opts.syscalls, name);
        if r.None? then if opts.allowLogging then LinesRequests(lines[1..], opts, level, seen, bad) else [Refuse]
        else
          RuleRequests(name, opts.syscalls[r.value].nr, body, opts.action)
          + LinesRequests(lines[1..], opts, level, seen + {r.value},
                          bad || (r.value in seen && !opts.allowDuplicates))
      case _ => [Refuse]
  }

  /** How reading a whole policy ends. */
  function Read(lines: seq<Line>, opts: Options): Reading {
    Process([], LinesRequests(lines, opts, 0, {}, false))
  }

  // ----- The compiler meets the requests in this order -----

  function Onward(r: Reading, requests: seq<Request>): Reading {
    if r.Fine? then Process(r.labels, requests) else r
  }

  lemma {:induction false} ProcessConcat(labels: seq<string>, a: seq<Request>, b: seq<Request>)
    ensures Process(labels, a + b) == Onward(Process(labels, a), b)
    decreases a
  {
    if a == [] {
      assert a + b == b;
    } else {
      assert (a + b)[0] == a[0] && (a + b)[1..] == a[1..] + b;
      var r := Meet(labels, a[0]);
      if r.Fine? {
        ProcessConcat(r.labels, a[1..], b);
      }
    }
  }

  lemma ProcessOne(labels: seq<string>, q: Request)
    ensures Process(labels, [q]) == Meet(labels, q)
  {
    assert [q][1..] == [];
  }

  lemma {:induction false} IndexOfMember(table: seq<string>, name: string)
    ensures IndexOf(table, name) < |table| <==> name in table
  {
    if table != [] {
      IndexOfMember(table[1..], name);
    }
  }

  lemma InternIs(table: Table, name: string)
    ensures Intern(table, name).0 == AddLabel(table, name)
    ensures Intern(table, name).1 < 0 <==> NoRoom(table, name)
  {
    IndexOfMember(table, name);
  }

  /** A result of the compiler agrees with how reading ends. */
  ghost predicate Agree(ok: bool, failed: bool, table: seq<string>, r: Reading) {
    match r
    case Fine(labels) => ok && table == labels
    case Unreadable => !ok && failed
    case Overrun => !ok && !failed
  }

  ghost predicate CodeAgrees(c: Result<Code>, r: Reading) {
    Agree(c.Ok?, c.Failed?, if c.Ok? then c.value.table else [], r)
  }

  lemma {:induction false} AtomsRead(table: Table, nr: u32, group: nat, atoms: seq<Atom>)
    ensures CodeAgrees(CompileAtoms(table, nr, group, atoms), Process(table, AtomsRequests(nr, group, atoms)))
    decreases |atoms|
  {
    if atoms != [] {
      var qs := AtomsRequests(nr, group, atoms);
      assert qs[1..] == AtomsRequests(nr, group, atoms[1..]);
      InternIs(table, GroupEndLabel(nr, group));
      if CompileAtom(table, nr, group, atoms[0]).Ok? {
        AtomsRead(CompileAtom(table, nr, group, atoms[0]).value.table, nr, group, atoms[1..]);
      }
    }
  }

  lemma GroupEndRead(table: Table, nr: u32, group: nat)
    ensures CodeAgrees(CompileGroupEnd(table, nr, group),
                       Process(table, [Demand(SuccessLabel(nr)), Demand(GroupEndLabel(nr, group))]))
  {
    var a, b := Demand(SuccessLabel(nr)), Demand(GroupEndLabel(nr, group));
    InternIs(table, a.name);
    InternIs(Intern(table, a.name).0, b.name);
    ProcessConcat(table, [a], [b]);
    ProcessOne(table, a);
    ProcessOne(AddLabel(table, a.name), b);
    assert [a] + [b] == [a, b];
  }

  lemma GroupRead(table: Table, nr: u32, group: nat, atoms: seq<Atom>)
    ensures CodeAgrees(CompileGroup(table, nr, group, atoms), Process(table, GroupRequests(nr, group, atoms)))
  {
    AtomsRead(table, nr, group, atoms);
    ProcessConcat(table, AtomsRequests(nr, group, atoms), [Demand(SuccessLabel(nr)), Demand(GroupEndLabel(nr, group))]);
    var atomsCode := CompileAtoms(table, nr, group, atoms);
    if atomsCode.Ok? {
      GroupEndRead(atomsCode.value.table, nr, group);
    }
  }

  lemma {:induction false} GroupsRead(table: Table, nr: u32, group: nat, groups: seq<seq<Atom>>)
    ensures CodeAgrees(CompileGroups(table, nr, group, groups), Process(table, GroupsRequests(nr, group, groups)))
    decreases |groups|
  {
    if groups != [] {
      GroupRead(table, nr, group, groups[0]);
      ProcessConcat(table, GroupRequests(nr, group, groups[0]), GroupsRequests(nr, group + 1, groups[1..]));
      var first := CompileGroup(table, nr, group, groups[0]);
      if first.Ok? {
        GroupsRead(first.value.table, nr, group + 1, groups[1..]);
      }
    }
  }

  lemma TailRead(table: Table, nr: u32, otherwise: Option<Clause>, action: Action)
    ensures CodeAgrees(CompileTail(table, nr, otherwise, action),
                       Process(table, (if otherwise.None? then [] else ClauseRequests(otherwise.value, action))
                                      + [Demand(SuccessLabel(nr))]))
  {
    var clause := if otherwise.None? then [] else ClauseRequests(otherwise.value, action);
    ProcessConcat(table, clause, [Demand(SuccessLabel(nr))]);
    ProcessOne(table, Demand(SuccessLabel(nr)));
    ProcessOne(table, Refuse);
    InternIs(table, SuccessLabel(nr));
  }

  lemma BodyRead(table: Table, nr: u32, body: Body, entry: u32, action: Action)
    requires !body.Allow?
    ensures CodeAgrees(CompileBody(table, nr, body, entry, action), Process(table, BodyRequests(nr, body, action)))
  {
    match body
    case Return(clause) => ProcessOne(table, Refuse);
    case Args(groups, otherwise) =>
      GroupsRead(table, nr, 0, groups);
      ProcessConcat(table, GroupsRequests(nr, 0, groups),
                    (if otherwise.None? then [] else ClauseRequests(otherwise.value, action)) + [Demand(SuccessLabel(nr))]);
      var code := CompileGroups(table, nr, 0, groups);
      if code.Ok? {
        TailRead(code.value.table, nr, otherwise, action);
      }
  }

  ghost predicate StateAgrees(c: Result<State>, r: Reading) {
    Agree(c.Ok?, c.Failed?, if c.Ok? then c.value.table else [], r)
  }

  lemma RuleRead(name: string, body: Body, ind: nat, opts: Options, st: State)
    requires ind < |opts.syscalls|
    ensures StateAgrees(CompileRule(name, body, ind, opts, st),
                        Process(st.table, RuleRequests(name, opts.syscalls[ind].nr, body, opts.action)))
  {
    if !body.Allow? {
      var nr := opts.syscalls[ind].nr;
      var (table, id) := Intern(st.table, name);
      InternIs(st.table, name);
      ProcessConcat(st.table, [Ask(name)], BodyRequests(nr, body, opts.action));
      ProcessOne(st.table, Ask(name));
      BodyRead(table, nr, body, AsId(id), opts.action);
    }
  }

  ghost predicate ReadAgrees(lines: seq<Line>, opts: Options, level: nat, st: State, bad: bool) {
    var c := CompileLines(lines, opts, level, st, bad);
    && StateAgrees(c, Process(st.table, LinesRequests(lines, opts, level, st.seen, bad)))
    && (c.Ok? ==> c.value.seen == SeenAfter(lines, opts, level, st.seen))
  }

  /** Reading ends exactly as the requests say: at the end, with -1, or dead. */
  lemma {:induction false} LinesRead(lines: seq<Line>, opts: Options, level: nat, st: State, bad: bool)
    ensures ReadAgrees(lines, opts, level, st, bad)
    decreases if level == 0 then 1 else 0, |lines|, 1
  {
    ProcessOne(st.table, Refuse);
    if lines != [] {
      match lines[0]
      case Blank => LinesRead(lines[1..], opts, level, st, bad);
      case Frequency => LinesRead(lines[1..], opts, level, st, bad);
      case Include(path) =>
        if level == 0 && !IsImplicitRelativePath(path) && path in opts.files {
          IncludeRead(lines, path, opts, st, bad);
        }
      case Rule(name, body) =>
        if Lookup(opts.syscalls, name).Some? {
          RuleLineRead(lines, name, body, opts, level, st, bad);
        } else {
          LinesRead(lines[1..], opts, level, st, bad);
        }
      case _ =>
    }
  }

  lemma {:induction false} RuleLineRead(lines: seq<Line>, name: string, body: Body, opts: Options, level: nat, st: State,
                                        bad: bool)
    requires lines != [] && lines[0] == Rule(name, body) && Lookup(opts.syscalls, name).Some?
    ensures ReadAgrees(lines, opts, level, st, bad)
    decreases if level == 0 then 1 else 0, |lines|, 0
  {
    hide CompileBody, RuleRequests, Process;
    var ind := Lookup(opts.syscalls, name).value;
    var worse := bad || (ind in st.seen && !opts.allowDuplicates);
    RuleRead(name, body, ind, opts, st);
    ProcessConcat(st.table, RuleRequests(name, opts.syscalls[ind].nr, body, opts.action),
                  LinesRequests(lines[1..], opts, level, st.seen + {ind}, worse));
    var rule := CompileRule(name, body, ind, opts, st);
    if rule.Ok? {
      LinesRead(lines[1..], opts, level, rule.value, worse);
    }
  }

  lemma {:induction false} IncludeRead(lines: seq<Line>, path: string, opts: Options, st: State, bad: bool)
    requires lines != [] && lines[0] == Include(path) && !IsImplicitRelativePath(path) && path in opts.files
    ensures ReadAgrees(lines, opts, 0, st, bad)
    decreases 1, |lines|, 0
  {
    var file := opts.files[path];
    LinesRead(file, opts, 1, st, false);
    ProcessConcat(st.table, LinesRequests(file, opts, 1, st.seen, false),
                  LinesRequests(lines[1..], opts, 0, SeenAfter(file, opts, 1, st.seen), bad));
    var inner := CompileLines(file, opts, 1, st, false);
    if inner.Ok? {
      LinesRead(lines[1..], opts, 0, inner.value, bad);
    }
  }

  /** How reading ends, for the whole policy. */
  lemma ReadExactly(lines: seq<Line>, opts: Options)
    ensures CompileLines(lines, opts, 0, START, false).Ok? <==> Read(lines, opts).Fine?
    ensures CompileLines(lines, opts, 0, START, false).Failed? <==> Read(lines, opts).Unreadable?
    ensures CompileLines(lines, opts, 0, START, false).Died? <==> Read(lines, opts).Overrun?
    ensures Read(lines, opts).Fine? ==>
              CompileLines(lines, opts, 0, START, false).value.table == Read(lines, opts).labels
  {
    LinesRead(lines, opts, 0, START, false);
  }
}
