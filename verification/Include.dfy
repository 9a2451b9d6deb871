/**
 @include is splicing: compiling a policy that includes files agrees with compiling
 the policy whose include lines are replaced by the included lines.
 */
module Include {
  import opened Policy
  import opened Compile

  predicate NoIncludes(lines: seq<Line>) {
    lines == [] || (!lines[0].Include? && NoIncludes(lines[1..]))
  }

  /** Replace every include of a readable file that includes nothing itself. */
  function Splice(lines: seq<Line>, files: map<string, seq<Line>>): seq<Line> {
    if lines == [] then []
    else
      var rest := Splice(lines[1..], files);
      match lines[0]
      case Include(path) =>
        if !IsImplicitRelativePath(path) && path in files && NoIncludes(files[path])
        then files[path] + rest
        else [lines[0]] + rest
      case _ => [lines[0]] + rest
  }

  /** Once a duplicate has been refused, the file cannot succeed any more. */
  lemma {:induction false} BadNeverOk(lines: seq<Line>, opts: Options, level: nat, st: State)
    ensures !CompileLines(lines, opts, level, st, true).Ok?
    decreases if level == 0 then 1 else 0, |lines|
  {
    if lines != [] {
      match lines[0]
      case Blank => BadNeverOk(lines[1..], opts, level, st);
      case Frequency => BadNeverOk(lines[1..], opts, level, st);
      case BadStatement =>
      case MissingColon =>
      case EmptyRule =>
      case Include(path) =>
        if level == 0 && path in opts.files {
          var inner := CompileLines(opts.files[path], opts, level + 1, st, false);
          if inner.Ok? {
            BadNeverOk(lines[1..], opts, level, inner.value);
          }
        }
      case Rule(name, body) =>
        var r := Lookup(opts.syscalls, name);
        if r.None? {
          BadNeverOk(lines[1..], opts, level, st);
        } else {
          var compiled := CompileRule(name, body, r.value, opts, st);
          if compiled.Ok? {
            BadNeverOk(lines[1..], opts, level, compiled.value);
          }
        }
    }
  }

  /** Lines read as an included file, or in place in front of others. */
  lemma {:induction false} InPlace(a: seq<Line>, b: seq<Line>, opts: Options, st: State, inner: bool, bad: bool)
    requires NoIncludes(a)
    ensures var included := CompileLines(a, opts, 1, st, inner);
            if included.Ok?
            then CompileLines(a + b, opts, 0, st, bad) == CompileLines(b, opts, 0, included.value, bad)
            else !CompileLines(a + b, opts, 0, st, bad || inner).Ok?
    decreases |a|
  {
    if a == [] {
      assert a + b == b;
      if inner {
        BadNeverOk(b, opts, 0, st);
      }
    } else {
      assert (a + b)[0] == a[0] && (a + b)[1..] == a[1..] + b;
      match a[0]
      case Blank => InPlace(a[1..], b, opts, st, inner, bad);
      case Frequency => InPlace(a[1..], b, opts, st, inner, bad);
      case BadStatement =>
      case MissingColon =>
      case EmptyRule =>
      case Rule(name, body) =>
        var r := Lookup(opts.syscalls, name);
        if r.None? {
          InPlace(a[1..], b, opts, st, inner, bad);
        } else {
          var compiled := CompileRule(name, body, r.value, opts, st);
          if compiled.Ok? {
            var dup := r.value in st.seen && !opts.allowDuplicates;
            InPlace(a[1..], b, opts, compiled.value, inner || dup, bad);
            if dup {
              BadNeverOk(a[1..], opts, 1, compiled.value);
            }
          }
        }
    }
  }

  lemma {:induction false} SpliceLines(lines: seq<Line>, opts: Options, st: State, bad: bool)
    ensures var r, s := CompileLines(lines, opts, 0, st, bad), CompileLines(Splice(lines, opts.files), opts, 0, st, bad);
            r.Ok? == s.Ok? && (r.Ok? ==> r == s)
    decreases |lines|
  {
    if lines != [] {
      var spliced := Splice(lines, opts.files);
      var rest := Splice(lines[1..], opts.files);
      match lines[0]
      case Blank => SpliceLines(lines[1..], opts, st, bad);
      case Frequency => SpliceLines(lines[1..], opts, st, bad);
      case BadStatement =>
      case MissingColon =>
      case EmptyRule =>
      case Include(path) =>
        if !IsImplicitRelativePath(path) && path in opts.files {
          var inner := CompileLines(opts.files[path], opts, 1, st, false);
          if NoIncludes(opts.files[path]) {
            InPlace(opts.files[path], rest, opts, st, false, bad);
          }
          if inner.Ok? {
            SpliceLines(lines[1..], opts, inner.value, bad);
          }
        }
      case Rule(name, body) =>
        var r := Lookup(opts.syscalls, name);
        if r.None? {
          SpliceLines(lines[1..], opts, st, bad);
        } else {
          var compiled := CompileRule(name, body, r.value, opts, st);
          if compiled.Ok? {
            SpliceLines(lines[1..], opts, compiled.value, bad || (r.value in st.seen && !opts.allowDuplicates));
          }
        }
    }
  }

  /** The two policies are accepted together, with the same program: same label ids,
      same duplicate detection, same code. */
  lemma IncludeIsSplicing(lines: seq<Line>, opts: Options)
    ensures var r, s := CompileFilter(lines, opts), CompileFilter(Splice(lines, opts.files), opts);
            r == s || (r in {Rejected, Aborted} && s in {Rejected, Aborted})
  {
    SpliceLines(lines, opts, START, false);
  }

  /** An included file that includes anything is refused, so Splice leaves nothing out. */
  lemma {:induction false} NestedIncludeFails(lines: seq<Line>, opts: Options, level: nat, st: State, bad: bool)
    requires level > 0 && !NoIncludes(lines)
    ensures !CompileLines(lines, opts, level, st, bad).Ok?
    decreases |lines|
  {
    match lines[0]
    case Blank => NestedIncludeFails(lines[1..], opts, level, st, bad);
    case Frequency => NestedIncludeFails(lines[1..], opts, level, st, bad);
    case BadStatement =>
    case MissingColon =>
    case EmptyRule =>
    case Include(path) =>
    case Rule(name, body) =>
      var r := Lookup(opts.syscalls, name);
      if r.None? {
        NestedIncludeFails(lines[1..], opts, level, st, bad);
      } else {
        var compiled := CompileRule(name, body, r.value, opts, st);
        if compiled.Ok? {
          NestedIncludeFails(lines[1..], opts, level, compiled.value,
                             bad || (r.value in st.seen && !opts.allowDuplicates));
        }
      }
  }
}
