/**
 Repeated labels in terms of the policy: with names of an ordinary form, the compiler
 turns a policy down for a repeated label exactly when two rules with a section have the
 same name, or two rules that test arguments have the same number.
 */
module LabelNames {
  import opened Words
  import opened Bpf
  import opened Labels
  import opened Policy
  import opened Compile
  import opened BodyCorrect
  import opened Decimals
  import opened Acceptance
  import opened Reading
  import opened Overflow

  // ----- The labels that a policy places -----

  /** What a label stands for. */
  datatype Tag = Section(name: string) | GroupEnd(nr: u32, group: nat) | Success(nr: u32)

  function Spell(t: Tag): string {
    match t
    case Section(name) => name
    case GroupEnd(nr, group) => GroupEndLabel(nr, group)
    case Success(nr) => SuccessLabel(nr)
  }

  function EndTags(nr: u32, group: nat, groups: seq<seq<Atom>>): seq<Tag>
    decreases |groups|
  {
    if groups == [] then [] else [GroupEnd(nr, group)] + EndTags(nr, group + 1, groups[1..])
  }

  function InnerTags(nr: u32, body: Body): seq<Tag> {
    if body.Args? then EndTags(nr, 0, body.groups) + [Success(nr)] else []
  }

  function RuleTags(r: NamedRule): seq<Tag> {
    if r.body.Allow? then [] else [Section(r.name)] + InnerTags(r.nr, r.body)
  }

  function Tags(rs: seq<NamedRule>): seq<Tag> {
    if rs == [] then [] else RuleTags(rs[0]) + Tags(rs[1..])
  }

  function TagIds(table: Table, tags: seq<Tag>): (ids: seq<u32>)
    ensures |ids| == |tags|
  {
    if tags == [] then [] else [IdOf(table, Spell(tags[0]))] + TagIds(table, tags[1..])
  }

  lemma {:induction false} TagIdsConcat(table: Table, a: seq<Tag>, b: seq<Tag>)
    ensures TagIds(table, a + b) == TagIds(table, a) + TagIds(table, b)
  {
    if a == [] {
      assert a + b == b;
    } else {
      assert (a + b)[1..] == a[1..] + b;
      TagIdsConcat(table, a[1..], b);
      Assoc([IdOf(table, Spell(a[0]))], TagIds(table, a[1..]), TagIds(table, b));
    }
  }

  lemma {:induction false} EndIdsAreTagIds(table: Table, nr: u32, group: nat, groups: seq<seq<Atom>>)
    ensures TagIds(table, EndTags(nr, group, groups)) == EndIds(table, nr, group, groups)
    decreases |groups|
  {
    if groups != [] {
      EndIdsAreTagIds(table, nr, group + 1, groups[1..]);
    }
  }

  lemma InnerIdsAreTagIds(table: Table, nr: u32, body: Body)
    ensures TagIds(table, InnerTags(nr, body)) == InnerIds(table, nr, body)
  {
    if body.Args? {
      EndIdsAreTagIds(table, nr, 0, body.groups);
      TagIdsConcat(table, EndTags(nr, 0, body.groups), [Success(nr)]);
      assert TagIds(table, [Success(nr)]) == [IdOf(table, SuccessLabel(nr))];
    }
  }

  /** The names that label sections fit into a table entry. */
  predicate ShortNames(rs: seq<NamedRule>) {
    rs == [] || ((!rs[0].body.Allow? ==> |rs[0].name| <= MAX_BPF_LABEL_LEN) && ShortNames(rs[1..]))
  }

  lemma {:induction false} AllIdsAreTagIds(es: seq<Entry>, rs: seq<NamedRule>, table: Table)
    requires AllPlaced(es, rs, table) && ShortNames(rs)
    requires forall x :: x in AllIds(es, rs, table) ==> x < |table|
    ensures AllIds(es, rs, table) == TagIds(table, Tags(rs))
  {
    if es != [] {
      var first, rest := EntryIds(es[0], rs[0], table), AllIds(es[1..], rs[1..], table);
      assert AllIds(es, rs, table) == first + rest;
      forall x | x in rest
        ensures x < |table|
      {
        assert x in first + rest;
      }
      AllIdsAreTagIds(es[1..], rs[1..], table);
      TagIdsConcat(table, RuleTags(rs[0]), Tags(rs[1..]));
      if es[0].ArgEntry? {
        assert es[0].id in first && es[0].id in first + rest;
        InnerIdsAreTagIds(table, rs[0].nr, rs[0].body);
        TagIdsConcat(table, [Section(rs[0].name)], InnerTags(rs[0].nr, rs[0].body));
        assert TagIds(table, [Section(rs[0].name)]) == [es[0].id];
      }
    }
  }

  // ----- Ids repeat exactly when labels do -----

  function Spelled(tags: seq<Tag>): (names: seq<string>)
    ensures |names| == |tags|
  {
    if tags == [] then [] else [Spell(tags[0])] + Spelled(tags[1..])
  }

  lemma {:induction false} IdInTagIds(table: Table, name: string, tags: seq<Tag>)
    requires IdOf(table, name) < |table|
    ensures IdOf(table, name) in TagIds(table, tags) <==> name in Spelled(tags)
  {
    if tags != [] {
      IdInTagIds(table, name, tags[1..]);
      assert IdOf(table, name) == IdOf(table, Spell(tags[0])) <==> name == Spell(tags[0]);
    }
  }

  lemma {:induction false} IdsRepeatAsLabels(table: Table, tags: seq<Tag>)
    requires forall x :: x in TagIds(table, tags) ==> x < |table|
    ensures NoRepeats(TagIds(table, tags)) <==> NoRepeats(Spelled(tags))
  {
    if tags != [] {
      var id, more := IdOf(table, Spell(tags[0])), TagIds(table, tags[1..]);
      assert TagIds(table, tags) == [id] + more && ([id] + more)[1..] == more && id in [id] + more;
      forall x | x in more
        ensures x < |table|
      {
        assert x in [id] + more;
      }
      IdsRepeatAsLabels(table, tags[1..]);
      IdInTagIds(table, Spell(tags[0]), tags[1..]);
      assert Spelled(tags)[1..] == Spelled(tags[1..]);
    }
  }

  // ----- Labels repeat exactly when what they stand for does -----

  /** A name that cannot be taken for a generated label, which starts with a number. */
  predicate OrdinaryName(name: string) { name != "" && name[0] != '-' && !('0' <= name[0] <= '9') }

  predicate Ordinary(t: Tag) {
    match t
    case Section(name) => OrdinaryName(name)
    case GroupEnd(_, group) => group < 10000
    case Success(_) => true
  }

  lemma DecimalForm(x: u32)
    ensures 0 < |Decimal(x)| <= 11 && '_' !in Decimal(x)
    ensures Decimal(x)[0] == '-' || '0' <= Decimal(x)[0] <= '9'
  {
    var n := if x < 0x8000_0000 then x else TWO32 - x;
    assert Pow10(5) == 100000;
    assert Pow10(10) == 100000 * 100000;
    DigitsShort(n, 10);
    NoBarInDigits(n);
    DigitsAreDigits(n, 0);
  }

  lemma NoBarInDigits(n: nat)
    ensures '_' !in Digits(n)
  {
    if '_' in Digits(n) {
      var i :| 0 <= i < |Digits(n)| && Digits(n)[i] == '_';
      DigitsAreDigits(n, i);
    }
  }

  lemma DecimalInjective(x: u32, y: u32)
    requires Decimal(x) == Decimal(y)
    ensures x == y
  {
    var m, n := if x < 0x8000_0000 then x else TWO32 - x, if y < 0x8000_0000 then y else TWO32 - y;
    DigitsAreDigits(m, 0);
    DigitsAreDigits(n, 0);
    assert x < 0x8000_0000 <==> Decimal(x)[0] != '-';
    assert y < 0x8000_0000 <==> Decimal(y)[0] != '-';
    assert Digits(m) == (if x < 0x8000_0000 then Decimal(x) else Decimal(x)[1..]);
    assert Digits(n) == (if y < 0x8000_0000 then Decimal(y) else Decimal(y)[1..]);
    DigitsInjective(m, n);
  }

  /** Where the first underscore is. */
  function BarIndex(s: string): nat {
    if s == "" || s[0] == '_' then 0 else 1 + BarIndex(s[1..])
  }

  lemma {:induction false} BarIndexIs(a: string, x: string)
    requires '_' !in a
    ensures BarIndex(a + "_" + x) == |a|
  {
    if a != "" {
      assert (a + "_" + x)[1..] == a[1..] + "_" + x;
      BarIndexIs(a[1..], x);
    }
  }

  /** A string is split at its first underscore in one way. */
  lemma SplitAtBar(a: string, x: string, b: string, y: string)
    requires '_' !in a && '_' !in b && a + "_" + x == b + "_" + y
    ensures a == b && x == y
  {
    BarIndexIs(a, x);
    BarIndexIs(b, y);
    var s, n := a + "_" + x, |a|;
    assert a == s[..n] && b == (b + "_" + y)[..n];
    assert x == s[n + 1..] && y == (b + "_" + y)[n + 1..];
  }

  /** The text after the number in a generated label. */
  function Rest(t: Tag): string {
    match t
    case Section(name) => ""
    case GroupEnd(_, group) => Digits(group) + "_end"
    case Success(_) => "success"
  }

  lemma GeneratedForm(t: Tag)
    requires !t.Section? && Ordinary(t)
    ensures Spell(t) == Decimal(t.nr) + "_" + Rest(t)
  {
    DecimalForm(t.nr);
    if t.GroupEnd? {
      assert Pow10(4) == 10000;
      DigitsShort(t.group, 4);
      var s := Decimal(t.nr) + "_" + Digits(t.group) + "_end";
      assert s == Decimal(t.nr) + "_" + Rest(t) && |s| <= MAX_BPF_LABEL_LEN - 1;
    } else {
      assert Decimal(t.nr) + "_success" == Decimal(t.nr) + "_" + Rest(t);
    }
  }

  lemma RestInjective(t: Tag, u: Tag)
    requires !t.Section? && !u.Section? && Rest(t) == Rest(u) && t.nr == u.nr
    ensures t == u
  {
    if t.GroupEnd? {
      DigitsAreDigits(t.group, 0);
      assert '0' <= Rest(t)[0] <= '9';
    }
    if u.GroupEnd? {
      DigitsAreDigits(u.group, 0);
      assert '0' <= Rest(u)[0] <= '9';
    }
    if t.GroupEnd? && u.GroupEnd? {
      var n := |Rest(t)| - 4;
      assert Digits(t.group) == Rest(t)[..n] && Digits(u.group) == Rest(u)[..n];
      DigitsInjective(t.group, u.group);
    }
  }

  lemma SpellInjective(t: Tag, u: Tag)
    requires Ordinary(t) && Ordinary(u) && Spell(t) == Spell(u)
    ensures t == u
  {
    if !t.Section? {
      GeneratedForm(t);
      DecimalForm(t.nr);
      assert Spell(t)[0] == Decimal(t.nr)[0];
    }
    if !u.Section? {
      GeneratedForm(u);
      DecimalForm(u.nr);
      assert Spell(u)[0] == Decimal(u.nr)[0];
    }
    if !t.Section? && !u.Section? {
      SplitAtBar(Decimal(t.nr), Rest(t), Decimal(u.nr), Rest(u));
      DecimalInjective(t.nr, u.nr);
      RestInjective(t, u);
    }
  }

  predicate AllOrdinary(tags: seq<Tag>) { forall t :: t in tags ==> Ordinary(t) }

  lemma {:induction false} SpelledMember(t: Tag, tags: seq<Tag>)
    requires Ordinary(t) && AllOrdinary(tags)
    ensures Spell(t) in Spelled(tags) <==> t in tags
  {
    if tags != [] {
      assert tags == [tags[0]] + tags[1..];
      SpelledMember(t, tags[1..]);
      if Spell(t) == Spell(tags[0]) {
        SpellInjective(t, tags[0]);
      }
    }
  }

  lemma {:induction false} LabelsRepeatAsTags(tags: seq<Tag>)
    requires AllOrdinary(tags)
    ensures NoRepeats(Spelled(tags)) <==> NoRepeats(tags)
  {
    if tags != [] {
      assert Spelled(tags)[1..] == Spelled(tags[1..]);
      SpelledMember(tags[0], tags[1..]);
      LabelsRepeatAsTags(tags[1..]);
    }
  }

  lemma IdsRepeatAsTags(table: Table, tags: seq<Tag>)
    requires AllBelow(TagIds(table, tags), |table|) && AllOrdinary(tags)
    ensures NoRepeats(TagIds(table, tags)) <==> NoRepeats(tags)
  {
    IdsRepeatAsLabels(table, tags);
    LabelsRepeatAsTags(tags);
  }

  // ----- Tags repeat exactly when names or numbers do -----

  /** The names of the rules that have a section. */
  function SectionNames(rs: seq<NamedRule>): seq<string> {
    if rs == [] then [] else (if rs[0].body.Allow? then [] else [rs[0].name]) + SectionNames(rs[1..])
  }

  /** The numbers of the rules that test arguments. */
  function TestedNumbers(rs: seq<NamedRule>): seq<u32> {
    if rs == [] then [] else (if rs[0].body.Args? then [rs[0].nr] else []) + TestedNumbers(rs[1..])
  }

  lemma {:induction false} NoRepeatsConcat<T>(a: seq<T>, b: seq<T>)
    ensures NoRepeats(a + b) <==> NoRepeats(a) && NoRepeats(b) && forall x :: x in a ==> x !in b
  {
    if a == [] {
      assert a + b == b;
    } else {
      assert (a + b)[1..] == a[1..] + b;
      NoRepeatsConcat(a[1..], b);
      assert a == [a[0]] + a[1..];
    }
  }

  lemma {:induction false} EndTagsAre(nr: u32, group: nat, groups: seq<seq<Atom>>)
    ensures forall t :: t in EndTags(nr, group, groups) <==> t.GroupEnd? && t.nr == nr && group <= t.group < group + |groups|
    ensures NoRepeats(EndTags(nr, group, groups))
    decreases |groups|
  {
    if groups != [] {
      EndTagsAre(nr, group + 1, groups[1..]);
      assert EndTags(nr, group, groups)[1..] == EndTags(nr, group + 1, groups[1..]);
    }
  }

  lemma InnerTagsAre(nr: u32, body: Body)
    ensures forall t :: t in InnerTags(nr, body) ==> !t.Section? && t.nr == nr && body.Args?
    ensures body.Args? ==> Success(nr) in InnerTags(nr, body)
    ensures NoRepeats(InnerTags(nr, body))
  {
    if body.Args? {
      EndTagsAre(nr, 0, body.groups);
      NoRepeatsConcat(EndTags(nr, 0, body.groups), [Success(nr)]);
      assert [Success(nr)][1..] == [];
    }
  }

  lemma RuleTagsAre(r: NamedRule)
    ensures NoRepeats(RuleTags(r))
    ensures forall t :: t in RuleTags(r) ==>
      if t.Section? then !r.body.Allow? && t.name == r.name else r.body.Args? && t.nr == r.nr
    ensures !r.body.Allow? ==> Section(r.name) in RuleTags(r)
    ensures r.body.Args? ==> Success(r.nr) in RuleTags(r)
  {
    if !r.body.Allow? {
      InnerTagsAre(r.nr, r.body);
      assert RuleTags(r)[1..] == InnerTags(r.nr, r.body);
    }
  }

  lemma {:induction false} TagsAre(rs: seq<NamedRule>, t: Tag)
    ensures t in Tags(rs) ==> if t.Section? then t.name in SectionNames(rs) else t.nr in TestedNumbers(rs)
    ensures t.Section? && t.name in SectionNames(rs) ==> t in Tags(rs)
    ensures t.Success? && t.nr in TestedNumbers(rs) ==> t in Tags(rs)
  {
    if rs != [] {
      RuleTagsAre(rs[0]);
      TagsAre(rs[1..], t);
    }
  }

  lemma {:induction false} TagsRepeat(rs: seq<NamedRule>)
    ensures NoRepeats(Tags(rs)) <==> NoRepeats(SectionNames(rs)) && NoRepeats(TestedNumbers(rs))
  {
    if rs != [] {
      var r, more := rs[0], rs[1..];
      TagsRepeat(more);
      RuleTagsAre(r);
      NoRepeatsConcat(RuleTags(r), Tags(more));
      NoRepeatsConcat(if r.body.Allow? then [] else [r.name], SectionNames(more));
      NoRepeatsConcat(if r.body.Args? then [r.nr] else [], TestedNumbers(more));
      TagsMeet(r, more);
    }
  }

  lemma TagsMeet(r: NamedRule, more: seq<NamedRule>)
    ensures (forall t :: t in RuleTags(r) ==> t !in Tags(more)) <==>
            && (!r.body.Allow? ==> r.name !in SectionNames(more))
            && (r.body.Args? ==> r.nr !in TestedNumbers(more))
  {
    RuleTagsAre(r);
    TagsAre(more, Section(r.name));
    TagsAre(more, Success(r.nr));
    forall t | t in RuleTags(r)
      ensures t in Tags(more) ==> if t.Section? then t.name in SectionNames(more) else t.nr in TestedNumbers(more)
    {
      TagsAre(more, t);
    }
  }

  // ----- Acceptance -----

  /** Names of system calls: not too long for the label table, and not like a number. */
  predicate OrdinaryNames(rs: seq<NamedRule>) {
    rs == [] ||
    ((!rs[0].body.Allow? ==> OrdinaryName(rs[0].name) && |rs[0].name| <= MAX_BPF_LABEL_LEN) && OrdinaryNames(rs[1..]))
  }

  lemma {:induction false} OrdinaryIsShort(rs: seq<NamedRule>)
    requires OrdinaryNames(rs)
    ensures ShortNames(rs)
  {
    if rs != [] {
      OrdinaryIsShort(rs[1..]);
    }
  }

  lemma {:induction false} EndTagsLength(nr: u32, group: nat, groups: seq<seq<Atom>>)
    ensures |EndTags(nr, group, groups)| == |groups|
    decreases |groups|
  {
    if groups != [] {
      EndTagsLength(nr, group + 1, groups[1..]);
    }
  }

  /** Tags of ordinary rules are ordinary, unless there are very many of them. */
  lemma {:induction false} TagsOrdinary(rs: seq<NamedRule>, t: Tag)
    requires OrdinaryNames(rs) && |Tags(rs)| < 10000 && t in Tags(rs)
    ensures Ordinary(t)
  {
    var r := rs[0];
    if t in RuleTags(r) {
      if r.body.Args? {
        EndTagsLength(r.nr, 0, r.body.groups);
        EndTagsAre(r.nr, 0, r.body.groups);
      }
    } else {
      TagsOrdinary(rs[1..], t);
    }
  }

  lemma {:induction false} LabelIdsLength(code: seq<Instr>)
    ensures |LabelIds(code)| <= |code|
  {
    if code != [] {
      LabelIdsLength(code[1..]);
    }
  }

  lemma LabelsRepeat(es: seq<Entry>, rs: seq<NamedRule>, table: Table)
    requires AllPlaced(es, rs, table) && OrdinaryNames(rs) && |AllIds(es, rs, table)| < 10000
    requires forall x :: x in AllIds(es, rs, table) ==> x < |table|
    ensures NoRepeats(AllIds(es, rs, table)) <==> NoRepeats(SectionNames(rs)) && NoRepeats(TestedNumbers(rs))
  {
    OrdinaryIsShort(rs);
    AllIdsAreTagIds(es, rs, table);
    forall t | t in Tags(rs)
      ensures Ordinary(t)
    {
      TagsOrdinary(rs, t);
    }
    IdsRepeatAsTags(table, Tags(rs));
    TagsRepeat(rs);
  }

  // ----- The labels behind a section without room -----

  lemma InnerTagsMeet(r: NamedRule, rest: seq<NamedRule>)
    ensures NoRepeats(InnerTags(r.nr, r.body) + Tags(rest))
            <==> NoRepeats(SectionNames(rest)) && NoRepeats(TestedNumbers([r] + rest))
  {
    var inner := InnerTags(r.nr, r.body);
    InnerTagsAre(r.nr, r.body);
    NoRepeatsConcat(inner, Tags(rest));
    TagsRepeat(rest);
    assert ([r] + rest)[1..] == rest;
    NoRepeatsConcat(if r.body.Args? then [r.nr] else [], TestedNumbers(rest));
    assert r.body.Args? ==> [r.nr][1..] == [];
    TagsAre(rest, Success(r.nr));
    forall t | t in inner
      ensures t in Tags(rest) ==> t.nr in TestedNumbers(rest)
    {
      TagsAre(rest, t);
    }
  }

  lemma InnerOrdinary(r: NamedRule, t: Tag)
    requires |InnerTags(r.nr, r.body)| < 10000 && t in InnerTags(r.nr, r.body)
    ensures Ordinary(t)
  {
    EndTagsLength(r.nr, 0, r.body.groups);
    EndTagsAre(r.nr, 0, r.body.groups);
  }

  lemma {:induction false} OrdinaryFrom(rs: seq<NamedRule>, k: nat)
    requires OrdinaryNames(rs) && k <= |rs|
    ensures OrdinaryNames(rs[k..])
    decreases k
  {
    if k > 0 {
      OrdinaryFrom(rs[1..], k - 1);
      assert rs[1..][k - 1..] == rs[k..];
    } else {
      assert rs[0..] == rs;
    }
  }

  lemma BehindIsTags(es: seq<Entry>, rs: seq<NamedRule>, table: Table, k: nat)
    requires AllPlaced(es, rs, table) && OrdinaryNames(rs) && k < |rs|
    requires AllBelow(Behind(es, rs, table, k), |table|)
    ensures Behind(es, rs, table, k) == TagIds(table, InnerTags(rs[k].nr, rs[k].body) + Tags(rs[k + 1..]))
  {
    var r, rest, later := rs[k], rs[k + 1..], es[k + 1..];
    AllPlacedFrom(es, rs, table, k + 1);
    OrdinaryFrom(rs, k + 1);
    OrdinaryIsShort(rest);
    AllOfBoth(InnerIds(table, r.nr, r.body), AllIds(later, rest, table), |table|);
    AllIdsAreTagIds(later, rest, table);
    InnerIdsAreTagIds(table, r.nr, r.body);
    TagIdsConcat(table, InnerTags(r.nr, r.body), Tags(rest));
  }

  lemma BehindOrdinary(r: NamedRule, rest: seq<NamedRule>)
    requires OrdinaryNames(rest) && |InnerTags(r.nr, r.body) + Tags(rest)| < 10000
    ensures AllOrdinary(InnerTags(r.nr, r.body) + Tags(rest))
  {
    forall t | t in InnerTags(r.nr, r.body) + Tags(rest)
      ensures Ordinary(t)
    {
      if t in InnerTags(r.nr, r.body) {
        InnerOrdinary(r, t);
      } else {
        TagsOrdinary(rest, t);
      }
    }
  }

  /** Ids are repeated behind a section exactly when a name or a tested number is. */
  lemma IdsBehind(es: seq<Entry>, rs: seq<NamedRule>, table: Table, k: nat)
    requires AllPlaced(es, rs, table) && OrdinaryNames(rs) && k < |rs|
    requires AllBelow(Behind(es, rs, table, k), |table|) && |Behind(es, rs, table, k)| < 10000
    ensures NoRepeats(Behind(es, rs, table, k))
            <==> NoRepeats(SectionNames(rs[k + 1..])) && NoRepeats(TestedNumbers(rs[k..]))
  {
    hide NoRepeats, AllPlaced, Behind, InnerTags, Tags, SectionNames, TestedNumbers;
    var r, rest := rs[k], rs[k + 1..];
    BehindIsTags(es, rs, table, k);
    OrdinaryFrom(rs, k + 1);
    BehindOrdinary(r, rest);
    IdsRepeatAsTags(table, InnerTags(r.nr, r.body) + Tags(rest));
    InnerTagsMeet(r, rest);
    assert [r] + rest == rs[k..];
  }

  // ----- The outcome, in terms of the policy alone -----

  /**
   Which policies are accepted, and on which the resolver leaves its table: those that
   reach it with a section without room, and no name and no tested number repeated
   behind the last such section.
   */
  lemma OutcomeByNames(lines: seq<Line>, opts: Options)
    requires OrdinaryNames(NamedRules(lines, opts, 0))
    ensures var rs := NamedRules(lines, opts, 0);
      var k := LastOverflow([], rs, opts.action);
      && (CompileFilter(lines, opts).Program?
          <==> && ReachesResolver(lines, opts) && k == |rs|
               && NoRepeats(SectionNames(rs)) && NoRepeats(TestedNumbers(rs)))
      && (CompileFilter(lines, opts).Undefined?
          <==> && ReachesResolver(lines, opts) && k < |rs|
               && NoRepeats(SectionNames(rs[k + 1..])) && NoRepeats(TestedNumbers(rs[k..])))
      && (CompileFilter(lines, opts).Aborted? <==> Read(lines, opts).Overrun?)
  {
    OutcomeExactly(lines, opts);
    if ReachesResolver(lines, opts) {
      ResolverByNames(lines, opts);
    }
  }

  lemma ResolverByNames(lines: seq<Line>, opts: Options)
    requires OrdinaryNames(NamedRules(lines, opts, 0)) && ReachesResolver(lines, opts)
    ensures CompileLines(lines, opts, 0, START, false).Ok?
    ensures var rs, count, ids := NamedRules(lines, opts, 0), |Read(lines, opts).labels|, FinalIds(lines, opts);
      var k := LastOverflow([], rs, opts.action);
      && (AllBelow(ids, count) && NoRepeats(ids)
          <==> k == |rs| && NoRepeats(SectionNames(rs)) && NoRepeats(TestedNumbers(rs)))
      && (BehindLast(ids, count).Some? && NoRepeats(BehindLast(ids, count).value)
          <==> k < |rs| && NoRepeats(SectionNames(rs[k + 1..])) && NoRepeats(TestedNumbers(rs[k..])))
  {
    var es := SectionsDecide(lines, opts);
    var rs, table, ids := NamedRules(lines, opts, 0), Read(lines, opts).labels, FinalIds(lines, opts);
    var k := LastOverflow([], rs, opts.action);
    ProgramLength(lines, opts);
    LabelIdsLength(Labelled(opts, CompileLines(lines, opts, 0, START, false).value.entries));
    BehindLastNone(ids, |table|);
    if k < |rs| {
      BehindLastBelow(ids, |table|);
      IdsBehind(es, rs, table, k);
    } else {
      LabelsRepeat(es, rs, table);
    }
  }
}
