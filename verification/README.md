# A model of the minijail policy compiler and its neighbours

cifuzz ships a copy of minijail to run fuzz tests in a sandbox, a C++ header that fuzz
tests use to split their input, and a bundler that collects seed corpora. This project
models the parts of them whose correctness is not obvious from reading the code, and
proves what they promise. Everything is stated for all inputs, all runs or all reachable
states of the model.

## What is modelled

**The seccomp policy compiler** (`third-party/minijail/syscall_filter.c`, `bpf.c`). The
target machine is an interpreter for classic BPF over `seccomp_data` (`Bpf`). The source
language is a policy in logical lines with its meaning as a verdict for every system call
(`Policy`). `Compile` says what code the compiler emits for a policy; `Emit`, `Blocks`,
`Compiler`, `CompileFile` and `Labels` contain the code that emits it, with arrays, linked
blocks, the growing label table and the backward resolver, and prove that it emits exactly
that. `Compare`, `Sections`, `BodyCorrect` and `Correct` prove that the emitted program
means what the policy says, and `Answers` says in numbers what that is; `Scratch` and
`Loadable` that the kernel takes it;
`Reading` exactly which policies are read to their end, `Acceptance`, `Overflow` and
`LabelNames` exactly which of those the resolver turns down and on which it leaves its
table, with concrete policies in `PolicyExamples`; `Include` that including a file is
splicing its lines.

**Starting a jailed process** (`third-party/minijail/libminijail.c`). `FdRemap` is the
parallel assignment of file descriptors, `Handshake` the two-process protocol that holds
the child back until the parent has set it up, `Caps` the sequence that drops
capabilities. `Jails` and `Settings` are the jail configuration and what each call does to
it; `Marshal`, `Transfer` and `Truncated` its byte format, the code that writes and reads
it, and what happens to bytes that are cut off. `EnterJail` is the code that enters a jail,
`Order` says which actions it takes and in which order, and `Preload` compares a start in
two passes around `execve` with a start in one.

**Parsing and arithmetic.** `Constants` is the constant-expression parser of `util.c`,
working in place on a character array, proved to accept exactly a grammar. `FuzzedData` is
`include/fuzzer/FuzzedDataProvider.h`. `Seeds` chooses seed directories as
`internal/bundler/bundler.go` does. `Words`, `Decimals` and `Finite` hold shared facts.

The build that is modelled is the 64-bit little-endian one. Words are integers with an
explicit range, and wrap-around is written out where the code relies on it.

## Main results

- `Correct.CompilerCorrect`: whatever policy the compiler accepts, its program answers every
  system call with the policy's verdict. The only condition is that every argument
  index in a condition lies inside `seccomp_data`; `compile_atom` does not check it, and
  `Loadable.AcceptedIsLoadable` shows that the kernel's own check fails exactly when it is
  violated, as it is by `arg6 == 0` (`PolicyExamples.SeventhArgument`). That check includes
  the kernel's pass over scratch memory, which every accepted program passes
  (`Loadable.AcceptedIsGuarded`) and which, with the rest of the check, rules out every
  fault for any program at all (`Loadable.AcceptedNeverFaults`).
- `Answers.EveryAnswer`, `Answers.OnlyPassedCallsRun`: in the words of seccomp, ALLOW is the
  answer exactly for a logging call and for a call whose first line allows it or has a
  conjunction that holds, `return v` gives 0x50000 plus the low 16 bits of `v`, and a call that
  is not named gets the word of the default action. `Answers.AcceptedPolicies` says what no
  accepted policy can have.
- `Overflow.OutcomeExactly`: for every policy, how compiling it ends. The compiler dies
  exactly when a generated label does not fit into the table, which the requests of the
  lines decide (`Reading.ReadExactly`). A policy that reaches the resolver is accepted
  exactly when all its label ids are in the table and none is placed twice. The resolver
  uses an id outside its table exactly when there is one and no label is placed twice
  behind the last such id, since it walks backwards and stops at the first repetition.
  `PolicyExamples.LeavesTheTable` is such a policy, with 173 rules and 2737 instructions;
  the same policy with two more lines is refused (`PolicyExamples.RefusedBefore`).
- `LabelNames.OutcomeByNames`: the same in terms of the policy alone. When names are at most
  32 characters long and do not start like a number, a policy that reaches the resolver is
  accepted exactly when every section finds room for its name in the table, no two rules
  with a section have the same name and no two rules that test arguments have the same
  number. So a repeated rule that tests arguments is refused even where repeated rules are
  allowed. The resolver leaves its table exactly when some section finds no room and,
  from the last such section on, no name and no tested number is repeated.
- `Blocks.Extend`: the list concatenation of the compiler is right if and only if the second
  list has at least two blocks, which every list it is used on has.
- `FdRemap.RemapFds`, `FdRemap.PipeHolders`: cycles, chains and shared sources included, each
  child descriptor ends up with the file its parent descriptor had, all others involved are
  closed, and each pipe end has one holder. It dies exactly when a target is named twice or
  some conflict finds no unused descriptor (`FdRemap.AfterPairs` follows them); with distinct
  targets that cannot happen while open descriptors and twice the mappings fit below
  `FD_SETSIZE` (`FdRemap.RoomForPairs`).
- `Handshake.HandshakeSafe`, `Handshake.SetUpChildGoesOn`: no interleaving lets the child
  pass before set-up is complete, and a released child whose descriptors have been set up
  holds the write end once and so can go on. Behind a child that passed, exactly the steps
  that the jail asks for have been done, each once and in its turn
  (`Handshake.PassedChildIsSetUp`).
- `EnterJail.Run`, `Order.EnterEnacts`: entering a jail takes exactly the actions that it asks
  for, in the order of a fixed table, lists of mounts, remounts and hooks included; all mounts
  come before the root changes, and the filter comes behind dropping privileges exactly with
  no_new_privs (`Order.OrderMeans`).
- `Settings.FlagAtTheEnd`: after any series of configuration calls, a flag is on exactly if
  some call has turned it on and no later one has turned it off; the laws of the single calls
  say what else each of them changes and what it leaves alone.
- `Marshal.RoundTrip`, `Preload.PreloadEqualsDirect`: a jail survives being sent, member by
  member (`Marshal.Carried`), up to those that are reset, and no proper prefix of its bytes is
  taken for a jail (`Truncated.TruncatedIsBroken`). Of all byte strings, exactly those with
  an eleventh cgroup make the reader write behind its structure (`Marshal.OutsideExactly`).
  Where LD_PRELOAD can be used, the run without it dies exactly when the run with it does or
  the jail keeps capabilities that are not ambient (`Preload.CapabilitiesNeedPreload`). Where neither dies, two passes do exactly what one
  does, unless the jail asks both to enter a network namespace and to create one, which
  leads to two namespaces instead of one, or carries an empty filter program, in which case
  only the argument of the call differs, since the kernel refuses an empty program as well
  as a missing one.
- `Constants.ParserIsGrammar`, `Constants.ParsedBits`: the parser accepts exactly the
  sentences of a grammar, with their values, bit by bit.
- `FuzzedData.Provider.ConsumeIntegralInRange`, `FuzzedData.RangeIsOnto`,
  `FuzzedData.EscapeRoundTrip`, `FuzzedData.UnescapeMeans`, `Seeds.PrepareSeeds`.

## Where code and documentation disagree

The model follows the code.

- `util.c:275-288` lists the forms of a constant expression. The code also accepts a bar
  with nothing after it when the last term is a name or number (`A|`), but not after a
  parenthesized term; `Constants.Dangling` is that form.
- `libminijail.c:835-840` says that empty mount data asks for the kernel's defaults. The
  condition in line 834 treats empty data for tmpfs like missing data, so it gets minijail's.
- `libminijail.c:1976-1980` means to refuse a jail that sets more than one of three group
  flags. The flags are one-bit fields of type `int`, which GCC and Clang make signed, so each
  counts as 0 or -1 and the sum is never above 1 (`Preload.GroupCheckIsIdle`).
- `syscall_filter.c:759` does not test the label id for -1 as `get_label_id` does. When the
  label table is full, the id becomes a large number that later indexes the table; the
  model's outcome for that is `Undefined`. It is reached only if the backward walk has not
  met a repeated label before (`Overflow.OutcomeExactly`).
- `libminijail.c:2623-2624` asserts that a temporary is always found because there are few
  mappings. Other open descriptors count as well: `FdRemap.ExchangeNeedsRoom` is an exchange
  of two descriptors that finds none.
- `libminijail.c:1435-1445` reads as many cgroups as the bytes announce into an array of ten
  (`Marshal.OutsideExactly`, `Marshal.ElevenCgroups`). No jail that was built has more.

## Model

| member | source | states |
|---|---|---|
| `Correct.CompilerCorrect` | third-party/minijail/syscall_filter.c:803-925 | For every accepted policy and every `seccomp_data`, the final program returns KILL on a foreign architecture, else ALLOW for a logging call, else the verdict of the first rule for that number, else the default action |
| `Correct.LinesImplement` | third-party/minijail/syscall_filter.c:614-801 | An accepted file contributes one entry per rule in force, in order, each of them the compilation of its rule |
| `Correct.TableRuns` | third-party/minijail/syscall_filter.c:747-786 | The jump table dispatches to the first entry with the call's number, or falls through to the default |
| `Correct.PrologueRuns` | third-party/minijail/bpf.c:15-23 | A foreign architecture is killed; otherwise the run goes on behind the prologue with the call's number loaded |
| `Correct.LabelledRuns` | third-party/minijail/syscall_filter.c:853-908 | The program with symbolic labels already gives the policy's verdict |
| `Answers.EveryAnswer` | third-party/minijail/syscall_filter.c:803-925 | The answer to every call, in literal words: 0 on a foreign architecture; ALLOW for a logging call; else what the first line for the call says, ALLOW, 0x50000 plus an errno of 16 bits or the default; else one of 0, 0x30000, 0x7ffc0000 and 0x80000000 by the action |
| `Answers.OnlyPassedCallsRun` | third-party/minijail/syscall_filter.c:803-925 | ALLOW is the answer if and only if the call is a logging call or its first line is an allow line or has a conjunction that holds; LOG is an answer only where it is the default |
| `Answers.OneCondition` | third-party/minijail/syscall_filter.c:235-318 | A call whose first line has one condition runs exactly if the argument compares with the constant as the operator says |
| `Answers.LoggedMeans` | third-party/minijail/util.c:38-44 | The logging calls are the first entries for socket, connect, sendto and writev |
| `Answers.AcceptedPolicies` | third-party/minijail/syscall_filter.c:521-801 | An accepted policy includes only files with an explicit path that include nothing; none of its lines is malformed, has an errno of -1 or, under LOG, a bare return; unknown names need the permission to log, and repeated ones that to repeat |
| `Answers.IncludeIsReplaced` | third-party/minijail/syscall_filter.c:521-570 | An include with a path that starts with a slash or a dot and a slash is replaced by the file |
| `BodyCorrect.BodyRuns` | third-party/minijail/syscall_filter.c:362-519 | A section gives its line's verdict (errno, or disjunction of conjunctions with its fallback) wherever it lies and whatever the machine holds on entry |
| `Sections.SectionRuns` | third-party/minijail/syscall_filter.c:414-519 | Groups of tests with shared success and group-end labels return ALLOW if some group holds entirely, and the fallback if none does |
| `Sections.TestsRun` | third-party/minijail/syscall_filter.c:450-475 | A group falls through if all its tests hold and reaches its end label if one fails |
| `Compare.ArgCompRuns` | third-party/minijail/bpf.c:228-297 | For all eight operators, all constants and all arguments, the block falls past its jump if and only if the comparison holds |
| `Compare.CompRuns` | third-party/minijail/bpf.c:228-297 | The comparison part alone takes its true or false exit as the operator says |
| `Compare.OrderRuns` | third-party/minijail/bpf.c:115-161 | Short and long form of the 64-bit greater tests decide the unsigned order from two 32-bit halves |
| `Compare.JeqRuns` | third-party/minijail/bpf.c:76-90 | The 64-bit equality test decides equality |
| `Compare.JsetRuns` | third-party/minijail/bpf.c:178-192 | The mask test decides whether the 64-bit AND is non-zero |
| `Compare.InclusionIsMaskedOut` | third-party/minijail/bpf.c:195-205 | Argument bits within the mask is the same as no bit outside it |
| `Compare.LoadArgRuns` | third-party/minijail/bpf.c:51-59 | Loading leaves the high half in A and the low half in M[0], for every index inside the data |
| `Compare.ArgCompLenExact` | third-party/minijail/bpf.c:207-226 | The announced length is the emitted length |
| `Emit.EmitArgComp` | third-party/minijail/bpf.c:228-297 | The emitter fills a buffer of exactly the announced length with exactly the specified block |
| `Emit.EmitOrder` | third-party/minijail/bpf.c:115-161 | The in-place writes of the greater tests, in both forms |
| `Emit.EmitJeq` | third-party/minijail/bpf.c:76-90 | The in-place writes of the equality test, and how many |
| `Emit.EmitJset` | third-party/minijail/bpf.c:178-192 | The in-place writes of the mask test, and how many |
| `Emit.EmitLoadArg` | third-party/minijail/bpf.c:51-59 | The in-place writes of the argument load, and how many |
| `Labels.ResolveJumps` | third-party/minijail/bpf.c:299-347 | For every program and table, the backward pass ends as the walk does: with the resolved program, with -1 at the first jump or label that is not in order, or at a label without an entry |
| `Labels.ResolvableMeans` | third-party/minijail/bpf.c:299-347 | Resolvable means: not oversized, no unknown jump id, every jump has its label later, every label has an entry, no label twice |
| `Labels.OutOfTableMeans` | third-party/minijail/bpf.c:333-338 | The walk leaves the table if and only if some label has no entry and everything behind it is in order |
| `Labels.ResolutionPreservesRuns` | third-party/minijail/bpf.c:299-347 | The resolved program behaves on every input, from every point, like the one with labels |
| `Labels.BpfLabels.LabelId` | third-party/minijail/bpf.c:350-381 | Looks a label up or adds it, with its copy cut to 32 characters; -1 if the table is full |
| `Labels.InternStable` | third-party/minijail/bpf.c:350-381 | Once handed out, an id is found again in every table that grows from this one |
| `Bpf.Steps` | third-party/minijail/bpf.h:60-65 | A run reaches its end in at most as many steps as there are instructions left |
| `Bpf.JumpReaches` | third-party/minijail/bpf.h:126-168 | With unique labels, a label jump reaches the label wherever it is placed later |
| `Blocks.Append` | third-party/minijail/syscall_filter.c:79-104 | The chain gains one block at its end; total length and tail pointer stay right |
| `Blocks.Extend` | third-party/minijail/syscall_filter.c:106-117 | Total length is always the sum, and the list stays well formed if and only if the other list has at least two blocks |
| `Blocks.Flatten` | third-party/minijail/syscall_filter.c:927-943 | Copies the concatenation of the blocks to its place and nothing else; fails exactly when it does not fit |
| `Blocks.FilterList.AddAll` | third-party/minijail/syscall_filter.c:780-785 | Appends a section to the others, or takes it over when it is the first |
| `Compiler.CompileOneAtom` | third-party/minijail/syscall_filter.c:235-318 | Appends the comparison with its jump to the group's end, or fails as the specification says |
| `Compiler.CompileReturn` | third-party/minijail/syscall_filter.c:320-360 | Appends the return for an errno or the default action, or fails |
| `Compiler.CompileGroup` | third-party/minijail/syscall_filter.c:450-476 | One conjunction with the jump to success and its end label |
| `Compiler.CompilePolicyLine` | third-party/minijail/syscall_filter.c:362-519 | The list for a line holds exactly the specified blocks, at least two of them, and the label table is the specified one |
| `CompileFile.CompilePolicyFile` | third-party/minijail/syscall_filter.c:614-801 | The loop over the lines, with includes and duplicates, leaves the specified state or fails as specified |
| `CompileFile.CompileArgRule` | third-party/minijail/syscall_filter.c:754-786 | A rule with a section adds its pair to the jump table and its section behind the others |
| `CompileFile.AllowLogging` | third-party/minijail/syscall_filter.c:197-206 | Adds one allow pair for each system call that logging needs |
| `CompileFile.FlattenBoth` | third-party/minijail/syscall_filter.c:884-908 | The two flatten calls fill the buffer exactly and never fail |
| `CompileFile.CompileWholeFilter` | third-party/minijail/syscall_filter.c:803-925 | The compiler as it runs yields the program, or the failure, or leaves its label table, as its specification says |
| `Loadable.AcceptedIsLoadable` | third-party/minijail/syscall_filter.c:271-281 | An accepted program passes the kernel's check (length, known instructions, forward jumps inside, aligned loads inside the data, final RET, scratch memory written on every path before it is read) if and only if all argument indices are inside the data |
| `Loadable.AcceptedIsGuarded` | third-party/minijail/bpf.c:51-297 | Every accepted program passes the kernel's pass over scratch memory: each comparison block stores M[0] before its only load, and no jump enters it in between |
| `Loadable.AcceptedNeverFaults` | third-party/minijail/bpf.h:60-65 | No run of a program that passes the check faults, on any data |
| `Scratch.SweepIsSound` | third-party/minijail/bpf.h:60-65 | The kernel's sweep, which meets the written cells at jump targets, covers every run: no cell is read before it is written |
| `Loadable.ResolvedIsCertified` | third-party/minijail/bpf.c:299-347 | Resolving labels keeps the certificate for scratch memory |
| `Acceptance.ProgramPlaces` | third-party/minijail/syscall_filter.c:853-908 | The labels of the whole program are those of its sections in order, and every jump has its label later |
| `Acceptance.OutcomeByIds` | third-party/minijail/bpf.c:299-347 | After the lines were read, the outcome is decided by the length and by the walk over the label ids alone: every emitted jump has its label later |
| `Acceptance.WalkIsWalkIds` | third-party/minijail/bpf.c:299-347 | Where every jump has its label later, the walk over the program is the walk over its label ids |
| `Reading.ReadExactly` | third-party/minijail/syscall_filter.c:614-801 | Reading a policy ends well, with -1 or dead exactly as the series of requests of its lines does, and leaves the labels of that series in the table |
| `Reading.LinesRead` | third-party/minijail/syscall_filter.c:614-801 | The same from any line on, in any file, with the system calls seen so far |
| `Acceptance.LinesPlaced` | third-party/minijail/syscall_filter.c:614-801 | Each section places its name's label, its groups' labels and its success label, with the ids of the final table |
| `Overflow.LinesOverflow` | third-party/minijail/syscall_filter.c:754-786 | A section gets the id of a missing label exactly when its name is not in the table and the table is full at that point of the policy |
| `Overflow.BehindMarked` | third-party/minijail/bpf.c:333-338 | What is placed behind the last id outside the table is what the rest of that section and the sections behind it place |
| `Overflow.ProgramLength` | third-party/minijail/syscall_filter.c:884-890 | The length of the program as a sum over the rules of the policy |
| `Overflow.OutcomeExactly` | third-party/minijail/syscall_filter.c:803-925 | For every policy: it aborts if and only if reading it does; if it reaches the resolver, it is accepted if and only if all label ids are in the table and none repeats, and leaves the table if and only if some id is outside and none repeats behind the last such id |
| `Overflow.SectionsDecide` | third-party/minijail/syscall_filter.c:754-786 | The label ids of a policy that was read, and those behind the last section without room, in terms of its sections |
| `LabelNames.OutcomeByNames` | third-party/minijail/syscall_filter.c:803-925 | With ordinary names: accepted if and only if it reaches the resolver, no section is without room and no section name and no tested number repeats; outside the table if and only if some section is without room and none repeats from the last such section on |
| `PolicyExamples.LeavesTheTable` | third-party/minijail/syscall_filter.c:759-759 | 170 rules with one comparison and three that return an errno take 2737 instructions; the last finds no room and the resolver leaves its table |
| `PolicyExamples.RefusedBefore` | third-party/minijail/bpf.c:333-338 | With a name repeated behind it, the same policy is refused |
| `PolicyExamples.SeventhArgument` | third-party/minijail/syscall_filter.c:271-281 | A rule `arg6 == 0` is accepted and its program does not pass the kernel's check |
| `LabelNames.SpellInjective` | third-party/minijail/syscall_filter.c:216-228 | Generated labels are different for different numbers and groups, and from ordinary names |
| `Include.IncludeIsSplicing` | third-party/minijail/syscall_filter.c:614-801 | A policy with includes compiles to the same result, failure or program with its label ids, as the policy with the lines in place |
| `Include.NestedIncludeFails` | third-party/minijail/syscall_filter.c:536-545 | An include inside an included file makes the file fail |
| `Include.BadNeverOk` | third-party/minijail/syscall_filter.c:737-746 | A refused duplicate makes the file fail whatever follows |
| `FdRemap.EnsureNoFdConflict` | third-party/minijail/libminijail.c:2627-2663 | Moves a descriptor only if it is about to be replaced, to its own target if that is unused and else to the highest unused descriptor, with the same file; dies exactly if none is unused |
| `FdRemap.GetChildFds` | third-party/minijail/libminijail.c:2672-2692 | Collects the targets and moves conflicting sources aside; dies exactly if a target is named twice or some conflict finds no temporary |
| `FdRemap.AvoidPipeConflicts` | third-party/minijail/libminijail.c:2707-2727 | Pipe ends that would be overwritten are moved aside, with the same files; dies exactly if one of them finds no temporary |
| `FdRemap.DupAll` | third-party/minijail/libminijail.c:2736-2763 | After the dup2 loop each target holds the file of its source |
| `FdRemap.CloseSources` | third-party/minijail/libminijail.c:2765-2773 | Exactly the sources that are not targets are closed |
| `FdRemap.RemapFds` | third-party/minijail/libminijail.c:2672-2775 | The resulting table is the parallel assignment: targets hold what their sources held at the start, other sources and temporaries are closed, the rest is untouched; it dies exactly if a target is named twice or some conflict finds no temporary |
| `FdRemap.SetUpChildFds` | third-party/minijail/libminijail.c:3330-3342 | The same with pipes, which keep their files under the recorded descriptors |
| `FdRemap.PipeHolders` | third-party/minijail/libminijail.c:2707-2775 | Each pipe end is held by exactly one descriptor, the recorded one |
| `FdRemap.SearchFailsOnlyWhenFull` | third-party/minijail/libminijail.c:2639-2647 | The downward search finds a descriptor unless all below the limit are open or targets |
| `FdRemap.RoomForPairs` | third-party/minijail/libminijail.c:2623-2624 | With distinct targets, every conflict finds a temporary if open descriptors and twice the mappings fit below FD_SETSIZE |
| `FdRemap.RoomFits` | third-party/minijail/libminijail.c:2623-2624 | The same for pairs and pipe ends together |
| `FdRemap.ExchangeNeedsRoom` | third-party/minijail/libminijail.c:2623-2624 | Two mappings that exchange descriptors find no temporary when all descriptors below FD_SETSIZE are open |
| `Handshake.RunKeepsInv` | third-party/minijail/libminijail.c:1952-1972 | Every reachable state of parent and child satisfies the invariant of the protocol |
| `Handshake.HandshakeSafe` | third-party/minijail/libminijail.c:3178-3205 | A child that passed was set up completely; a parent that failed has killed the child |
| `Handshake.PassedChildIsSetUp` | third-party/minijail/libminijail.c:1887-1937 | Behind a child that passed: the pid file, each cgroup, each limit, the uid map, the denial of setgroups and the gid map have been dealt with exactly if asked for, once and in this order |
| `Handshake.NoPipeNoSteps` | third-party/minijail/libminijail.c:3108-3113 | Where no pipe is made, the parent has nothing to do that the child would have to wait for |
| `Handshake.ReleasedChildGoesOn` | third-party/minijail/libminijail.c:1962-1972 | A released child that waits can go on if and only if it held one copy of the write end |
| `Handshake.SetUpChildGoesOn` | third-party/minijail/libminijail.c:3330-3345 | After the descriptors have been set up, the write end has one holder in the child, and a released child that waits can go on |
| `Caps.DropCapbset` | third-party/minijail/libminijail.c:2006-2016 | Removes exactly the valid capabilities outside the mask; gets through exactly when CAP_SETPCAP is effective or nothing is to be removed |
| `Caps.Collect` | third-party/minijail/libminijail.c:2033-2044 | The first set is the valid part of the request with CAP_SETPCAP |
| `Caps.RaiseAmbient` | third-party/minijail/libminijail.c:2090-2110 | The ambient set becomes exactly the requested one; every raise meets the rule |
| `Caps.DropCaps` | third-party/minijail/libminijail.c:2018-2113 | Exactly when the sequence gets through, and then all five sets, capability by capability |
| `Caps.GetsThroughMeans` | third-party/minijail/libminijail.c:2018-2113 | The condition for getting through, capability by capability |
| `Jails.StoredIsStable` | third-party/minijail/libminijail.c:813-883 | Storing a mount point fills in defaults once: a stored mount point is stored unchanged |
| `Jails.CallKeepsConsistent` | third-party/minijail/libminijail.c:331-1079 | Every configuration call keeps counts, lists and the mount namespace flag consistent |
| `Jails.BuiltIsConsistent` | third-party/minijail/libminijail.c:322-1079 | Every jail built by any sequence of calls is consistent |
| `Settings.RaiseFlagLaw` | third-party/minijail/libminijail.c:406-419 | One flag goes on and nothing else changes |
| `Settings.StorePlainLaw` | third-party/minijail/libminijail.c:548-562 | One number is stored and nothing else changes |
| `Settings.OverrideBoundingSetLaw` | third-party/minijail/libminijail.c:476-493 | The bounding set is reset and its flag goes off |
| `Settings.ClearSeccompLaw` | third-party/minijail/libminijail.c:977-986 | The five flags of the filter go off and the program goes |
| `Settings.ForbidSpeculationLaw` | third-party/minijail/libminijail.c:1032-1042 | One flag goes off and nothing else changes |
| `Settings.ChangeUserLaw` | third-party/minijail/libminijail.c:381-394 | The user is stored and its flag goes on |
| `Settings.SetSupplementaryGidsLaw` | third-party/minijail/libminijail.c:347-375 | The list and its length are stored, an empty list as a null pointer; refused exactly if groups are inherited or kept |
| `Settings.UseAltSyscallLaw` | third-party/minijail/libminijail.c:1197-1205 | The table is stored and its flag goes on |
| `Settings.SetFilterLaw` | third-party/minijail/libminijail.c:1046-1079 | The program and its length are stored |
| `Settings.WritePidFileLaw` | third-party/minijail/libminijail.c:762-769 | The path is stored and its flag goes on |
| `Settings.MapsLaw` | third-party/minijail/libminijail.c:642-666 | Each map is stored and nothing else changes |
| `Settings.EnterChrootLaw` | third-party/minijail/libminijail.c:682-691 | The first root stays; otherwise it is stored with its flag |
| `Settings.EnterPivotRootLaw` | third-party/minijail/libminijail.c:693-702 | The first root stays; otherwise it is stored with its flag |
| `Settings.SetHostnameLaw` | third-party/minijail/libminijail.c:589-598 | The first host name stays; otherwise it is stored and a UTS namespace asked for |
| `Settings.SetPreloadPathLaw` | third-party/minijail/libminijail.c:967-975 | The first path stays |
| `Settings.AddMountLaw` | third-party/minijail/libminijail.c:813-883 | One entry more at the end, with the secure defaults where nothing is given, and a mount namespace unless one is entered; refused exactly without a leading slash |
| `Settings.AddToCgroupLaw` | third-party/minijail/libminijail.c:771-781 | One entry more at the end, unless there are ten |
| `Settings.AddRemountLaw` | third-party/minijail/libminijail.c:902-927 | One entry more at the end; refused exactly without a leading slash |
| `Settings.AddHookLaw` | third-party/minijail/libminijail.c:929-953 | One entry more at the end |
| `Settings.FlagAtTheEnd` | third-party/minijail/libminijail.c:331-975 | After any calls, a flag is on exactly if it was on or some call has turned it on, and no later one has turned it off |
| `Settings.RequestedFlags` | third-party/minijail/libminijail.c:406-811 | On a new jail, a flag that no other call turns on, and none turns off, is on exactly if it was asked for |
| `Marshal.RoundTrip` | third-party/minijail/libminijail.c:1252-1447 | Unmarshalling what was marshalled uses every byte and gives a jail with the same flags, numbers, user, groups, root, host name, table, filter length, mounts and cgroups; with the same program if that is used and not empty; with the other pointers reset; if and only if it lists at most 65536 groups |
| `Marshal.BuiltJailArrives` | third-party/minijail/libminijail.c:1252-1447 | The same for every jail that can be built |
| `Truncated.TruncatedIsBroken` | third-party/minijail/libminijail.c:1301-1447 | No proper prefix of a marshalled jail is read as a jail |
| `Truncated.UnmarshalMore` | third-party/minijail/libminijail.c:1301-1447 | What can be read is read from more bytes just the same, and the additional bytes are left |
| `Marshal.MountsRead` | third-party/minijail/libminijail.c:1402-1433 | Stored mount points are read back as they were and turn no flag on |
| `Marshal.FilterRead` | third-party/minijail/libminijail.c:1379-1400 | The program arrives if it is used and not empty, and otherwise no program arrives |
| `Marshal.PipeRoundTrip` | third-party/minijail/libminijail.c:2472-2519 | A jail gets through the pipe, with the same members, if and only if the 2128 bytes of its structure and everything after them are at most 65535 bytes |
| `Marshal.OutsideExactly` | third-party/minijail/libminijail.c:1435-1445 | Reading leaves the structure if and only if everything before the cgroups is in order and more than ten of the announced names are there |
| `Marshal.ElevenCgroups` | third-party/minijail/libminijail.c:1435-1445 | The image of a new jail that announces eleven cgroups, with eleven empty names behind it, is such a string |
| `Transfer.MarshalState.Append` | third-party/minijail/libminijail.c:1220-1233 | As much as fits is copied, all of it is counted |
| `Transfer.MarshalTo` | third-party/minijail/libminijail.c:1293-1299 | The buffer holds the serialized jail as far as it goes; the result says whether it was too small |
| `Transfer.Size` | third-party/minijail/libminijail.c:1285-1291 | The announced size is the length of the serialized jail |
| `Transfer.Cursor.ConsumeBytes` | third-party/minijail/util.c:455-463 | Takes bytes from the front, or fails without moving when there are too few |
| `Transfer.Cursor.ConsumeStr` | third-party/minijail/util.c:465-472 | Takes a NUL-terminated string from the front, or fails without moving when there is no NUL |
| `Transfer.UnmarshalFrom` | third-party/minijail/libminijail.c:1301-1447 | The reader as it runs yields what the format says, on any bytes: a jail, an error, or a write behind the array of cgroups |
| `Transfer.UnmarshalCgroups` | third-party/minijail/libminijail.c:1435-1445 | The loop over the announced cgroups stores them, misses one or stores one behind the array, as the format says |
| `Transfer.CopyJail` | third-party/minijail/libminijail.c:2521-2539 | A copied jail has the same members, program included if it is used and not empty, and is made if and only if there are at most 65536 groups |
| `Preload.PreloadEqualsDirect` | third-party/minijail/libminijail.c:3040-3373 | Where LD_PRELOAD can be used (no hooks, the child executes, at most 65535 bytes), the run without it dies if and only if the run with it does or there are capabilities to keep that are not ambient; where neither dies, both do the same multiset of actions if and only if not both network flags are set and the filter in use is not empty |
| `Preload.CapabilitiesNeedPreload` | third-party/minijail/libminijail.c:3079-3085 | A jail that keeps a capability: the run without LD_PRELOAD dies, the run with it enters the jail |
| `Preload.BothDo` | third-party/minijail/libminijail.c:3352-3373 | The pass after preexec and the pass after preenter together against the single pass: same multiset of actions exactly under those conditions |
| `Preload.TwoNetworksDiffer` | third-party/minijail/libminijail.c:2339-2348 | For a jail with both network flags, the run with LD_PRELOAD and the run without it both enter the jail and do different multisets of actions |
| `Preload.EmptyProgramsDiffer` | third-party/minijail/libminijail.c:1379-1400 | The same for a jail with an empty program in use, where the arguments of a call differ, which the kernel refuses either way |
| `Preload.SameRefusals` | third-party/minijail/libminijail.c:2274-2281 | The direct run is refused if and only if one of the two passes is |
| `Preload.PassesSee` | third-party/minijail/libminijail.c:266-318 | The first pass finds only flags that survive execve, the second all that the later actions read |
| `Preload.NetworkSplits` | third-party/minijail/libminijail.c:2339-2348 | The network namespace is handled once, unless both flags are set, which adds two actions |
| `Preload.GroupCheckIsIdle` | third-party/minijail/libminijail.c:1976-1980 | The check for conflicting group flags never fires |
| `EnterJail.MakeVfs` | third-party/minijail/libminijail.c:2293-2325 | The walk over the remounts does the specified actions and dies exactly at one that is stricter than the root's |
| `EnterJail.DoHooks` | third-party/minijail/libminijail.c:2245-2262 | Exactly the hooks of the event run, in order |
| `EnterJail.MountOne` | third-party/minijail/libminijail.c:1643-1716 | The recursion over the mount list takes one action per mount point, in order |
| `EnterJail.Run` | third-party/minijail/libminijail.c:2264-2442 | The whole of minijail_enter, with its early exits and loops: it dies exactly for a process namespace, for inherited groups without a user or for a remount stricter than the root; otherwise it takes exactly the actions that the jail asks for, in the order of the source |
| `Order.EnterEnacts` | third-party/minijail/libminijail.c:2264-2442 | An action is taken if and only if the jail asks for it; places are kept; what is no list is done once; and the lists of remounts, mounts, root changes and hooks are as they are |
| `Order.OrderMeans` | third-party/minijail/libminijail.c:2357-2442 | Mounts before root changes; bounding set and securebits before ids and capabilities; groups, gid, uid, capabilities; the filter behind the capabilities exactly with no_new_privs; strict seccomp last |
| `Order.PassesAsk` | third-party/minijail/libminijail.c:266-318 | What survives execve is done before it and the rest behind it; a new network namespace is made even if one is entered, and an empty program is lost |
| `Order.DirectAsks` | third-party/minijail/libminijail.c:3352-3354 | Without LD_PRELOAD the child does what the jail asks for, except /proc in a new process namespace without an init of minijail's own |
| `Order.DirectDies` | third-party/minijail/libminijail.c:3056-3085 | The run without LD_PRELOAD dies exactly for two names of the program, for capabilities that are kept but not ambient, for inherited groups without a user and for a remount stricter than the root |
| `Constants.ParserIsGrammar` | third-party/minijail/util.c:264-341 | A string parses to a value if and only if it is a sentence of the grammar with that value |
| `Constants.ParsedBits` | third-party/minijail/util.c:264-341 | Each bit of the value is that of the sentence: a bar joins bits, a tilde turns the bit of its own term around |
| `Constants.ValueBits` | third-party/minijail/util.c:300-336 | The same for every expression |
| `Constants.ExprParses` | third-party/minijail/util.c:264-341 | Printing any expression and parsing it gives its bitwise value |
| `Constants.ExprFound` | third-party/minijail/util.c:264-341 | Whatever parses is the printed form of an expression |
| `Constants.ExprSkipped` | third-party/minijail/util.c:228-262 | Expressions are balanced: the search for an outer parenthesis passes over them |
| `Constants.ParseInPlace` | third-party/minijail/util.c:264-341 | The loop with recursion on the character array computes the specified value, reports errors by an end pointer that stays, and writes only inside its string |
| `Constants.TokenizeParenthesized` | third-party/minijail/util.c:228-262 | Finds the closing parenthesis by counting and cuts the string there |
| `Constants.TokenizeAtBar` | third-party/minijail/util.c:405-439 | Cuts the string at the first bar |
| `Constants.Or64Bits` | third-party/minijail/util.c:336-336 | The accumulated value has a bit if one of the terms has it |
| `FuzzedData.Provider.ConsumeIntegralInRange` | include/fuzzer/FuzzedDataProvider.h:215-246 | For every width and sign: takes as many bytes off the end as the range needs, or all, and returns min plus the little-endian number that stood there, modulo the size of the range; aborts exactly if min > max |
| `FuzzedData.InRange` | include/fuzzer/FuzzedDataProvider.h:240-246 | The result lies in [min, max] |
| `FuzzedData.NeededIsLeast` | include/fuzzer/FuzzedDataProvider.h:228-241 | The loop needs the least k with range < 256^k bytes |
| `FuzzedData.RangeIsOnto` | include/fuzzer/FuzzedDataProvider.h:215-246 | Every value in [min, max] comes from some k bytes |
| `FuzzedData.RangeIsDifference` | include/fuzzer/FuzzedDataProvider.h:222-224 | The difference in 64-bit arithmetic is the true range for every type |
| `FuzzedData.CastBack` | include/fuzzer/FuzzedDataProvider.h:246-246 | The conversion through 64 bits and back loses nothing |
| `FuzzedData.Provider.Conserved` | include/fuzzer/FuzzedDataProvider.h:341-361 | After any calls, bytes from the front, the window and the reversed bytes from the back make up the input |
| `FuzzedData.Provider.ConsumeBytes` | include/fuzzer/FuzzedDataProvider.h:119-123 | Hands out the next bytes, as many as there are |
| `FuzzedData.Provider.ConsumeBytesWithTerminator` | include/fuzzer/FuzzedDataProvider.h:129-136 | Hands out min(n, remaining) bytes with one terminator behind them |
| `FuzzedData.Provider.ConsumeRandomLengthString` | include/fuzzer/FuzzedDataProvider.h:163-189 | Decodes the window as the escape rule says and uses exactly those bytes |
| `FuzzedData.EscapeRoundTrip` | include/fuzzer/FuzzedDataProvider.h:163-189 | Doubled backslashes and a backslash with another byte decode to the original string |
| `FuzzedData.UnescapeMeans` | include/fuzzer/FuzzedDataProvider.h:163-189 | Whatever is decoded: the bytes used are its encoding, of full length or up to the end of the data, or with an end mark, or up to a last single backslash |
| `Seeds.PrepareSeeds` | internal/bundler/bundler.go:283-307 | Target directories are pairwise different, each the first free candidate; the result tells whether all were written |
| `Seeds.ChooseDir` | internal/bundler/bundler.go:292-298 | The retry loop ends with the first free candidate, which comes within one try more than there are directories |
| `Seeds.AllTaken` | internal/bundler/bundler.go:292-298 | As many different candidates as were tried cannot all be among fewer directories |
| `Seeds.CandidatesDiffer` | internal/bundler/bundler.go:295-297 | Different counters give different names |
| `Seeds.CandidateMeans` | internal/bundler/bundler.go:290-297 | The base, then the base with a dash and the decimal notation of 1, 2 and so on |
| `Decimals.DigitsMean` | internal/bundler/bundler.go:295-297 | Printing a number gives digits that stand for it, without a needless zero |

## Left out

- Text of policy files: `getmultiline`, `strtok_r`, `strip` and the conversion of tokens; policies are sequences of logical lines whose tokens are already classified, and malformed ones are kept as such.
- `parse_single_constant`: names and numbers are an abstract token parser that rejects the empty string and operator characters, as the constant table and `strtol` do.
- Allocation failures and the clean-up after errors.
- The 32-bit build and other architectures.
- Emit, Blocks, Compiler: a block's instructions are a sequence stored in its node instead of a separate heap buffer, and a null list of argument blocks is an empty list.
- FdRemap: `warn` may open a descriptor of its own, `FD_CLOEXEC` is not tracked, `dup2` fails only on closed sources, all descriptors lie below `FD_SETSIZE`, and `elf_fd` is one more entry of the list of pipe ends.
- Handshake: signals from outside, and the kernel's scheduling beyond interleaving; a missing `setgroups` file counts as a done step, as in the source.
- Caps: libcap's own failures, and capabilities above 63.
- Jails: the setters are functions on values instead of updates of a structure; a call that only turns on a flag or stores a number is one of two generic calls.
- Marshal: the image has the size and the members of the structure on a 64-bit machine, but not their order; reading the pipe in pieces is not modelled.
- Preload.PreloadEqualsDirect: compares what is done, not the order across the two passes, and assumes that the kernel refuses nothing.
- Policy: a conjunction without comparisons is admitted, which the text of a policy cannot express; the compiler is modelled on it as it would treat it.
- Mounting, chroot, pivot_root and the other effects of single system calls; an action only records the call and its arguments.
- Floating-point and enum methods of `FuzzedDataProvider`.
- `getUniqueArtifactName` and `OutputFilter`: no property of interest holds of them at this level.
- The rest of the repository (API client, command line, configuration, containers, logging): input, output and calls into other libraries.
