/** Comparing many runs: the comparability groups of a batch, and the N-run table. */
module CompareRuns {
  import opened Wrappers
  import opened Json
  import opened Compare
  import opened Grouping
  import PairTable

  const MIN_TABLE_RUNS := 2
  const MAX_TABLE_RUNS := 10

  /** The pairwise verdict of two records. */
  const RULE: Rule<Record> := Rule(
    (l: Record, r: Record) => Compatible(FactsOf(l), FactsOf(r)),
    (l: Record, r: Record) => Unchanged(FactsOf(l), FactsOf(r)))

  lemma RuleIsLawful()
    ensures Lawful(RULE)
  {
    forall a, b | RULE.compatible(a, b) ensures RULE.compatible(b, a) && RULE.compatible(a, a) {
      CompatibleIsLawful(FactsOf(a), FactsOf(b));
    }
  }

  // ---------------------------------------------------------------- a batch

  /** A run of a batch; its record is missing when it could not be read. */
  datatype Run = Run(id: string, record: Option<Record>)

  predicate InGroups(run: Run) {
    run.record.Some? && CompleteScore(run.record.value)
  }

  /** The runs that take part in a group, in request order. */
  function Scored(runs: seq<Run>): seq<Member<Record>> {
    if runs == [] then []
    else
      var last := runs[|runs| - 1];
      Scored(runs[..|runs| - 1]) + if InGroups(last) then [Member(last.id, last.record.value)] else []
  }

  /** The runs that do not, in request order. */
  function Unavailable(runs: seq<Run>): seq<string> {
    if runs == [] then []
    else
      var last := runs[|runs| - 1];
      Unavailable(runs[..|runs| - 1]) + if InGroups(last) then [] else [last.id]
  }

  predicate Distinct(runs: seq<Run>) {
    forall i, j | 0 <= i < j < |runs| :: runs[i].id != runs[j].id
  }

  datatype Batch = Batch(groups: seq<Group<Record>>, unavailable: seq<string>)

  function GroupsOf(runs: seq<Run>): seq<Group<Record>> {
    Grouped(RULE, Scored(runs))
  }

  /** Set the runs without a complete score aside. */
  method SplitRuns(runs: seq<Run>) returns (scored: seq<Member<Record>>, unavailable: seq<string>)
    ensures scored == Scored(runs) && unavailable == Unavailable(runs)
  {
    scored, unavailable := [], [];
    for i := 0 to |runs|
      invariant scored == Scored(runs[..i]) && unavailable == Unavailable(runs[..i])
    {
      assert runs[..i + 1][..i] == runs[..i];
      if !InGroups(runs[i]) {
        unavailable := unavailable + [runs[i].id];
      } else {
        scored := scored + [Member(runs[i].id, runs[i].record.value)];
      }
    }
    assert runs[..|runs|] == runs;
  }

  /** Partition a batch into comparability groups; a repeated run is refused. */
  method ComparabilityGroups(runs: seq<Run>) returns (r: Option<Batch>)
    ensures r == if Distinct(runs) then Some(Batch(GroupsOf(runs), Unavailable(runs))) else None
    ensures r.None? <==> exists i, j | 0 <= i < j < |runs| :: runs[i].id == runs[j].id
  {
    if !Distinct(runs) {
      return None;
    }
    var scored, unavailable := SplitRuns(runs);
    var groups := Partition(RULE, scored);
    return Some(Batch(groups, unavailable));
  }

  /** Every run of a batch is either unavailable or a member, in request order. */
  lemma {:induction false} RunsAreAccountedFor(runs: seq<Run>)
    ensures |Scored(runs)| + |Unavailable(runs)| == |runs|
    ensures forall r | r in runs :: if InGroups(r) then Member(r.id, r.record.value) in Scored(runs)
                                    else r.id in Unavailable(runs)
    ensures forall m | m in Scored(runs) :: Run(m.id, Some(m.record)) in runs && CompleteScore(m.record)
  {
    if runs != [] {
      var front, last := runs[..|runs| - 1], runs[|runs| - 1];
      RunsAreAccountedFor(front);
      assert forall r :: r in runs <==> r in front || r == last by {
        assert runs == front + [last];
      }
    }
  }

  lemma {:induction false} ScoredDistinct(runs: seq<Run>)
    requires Distinct(runs)
    ensures DistinctIds(Scored(runs))
  {
    if runs != [] {
      var front := runs[..|runs| - 1];
      ScoredDistinct(front);
      RunsAreAccountedFor(front);
      forall m | m in Scored(front) ensures m.id != runs[|runs| - 1].id {
        assert Run(m.id, Some(m.record)) in front;
      }
    }
  }

  // ---------------------------------------------------------------- when the groups are classes

  /** Among the members no clash is bridged: no two of them clash while a third of the same setting is of
      another model or records no settings hash. */
  ghost predicate NoBridgedClash(members: seq<Member<Record>>) {
    forall a, b, c | a in members && b in members && c in members ::
      !BridgesClash(FactsOf(a.record), FactsOf(b.record), FactsOf(c.record))
  }

  lemma BridgedClashBreaksChain(a: Member<Record>, b: Member<Record>, c: Member<Record>)
    ensures BridgesClash(FactsOf(a.record), FactsOf(b.record), FactsOf(c.record)) <==>
            Chained(RULE, a, b, c) && !RULE.compatible(a.record, c.record)
  {
    BridgesClashIff(FactsOf(a.record), FactsOf(b.record), FactsOf(c.record));
  }

  lemma NoBridgedClashIffTransitive(members: seq<Member<Record>>)
    ensures NoBridgedClash(members) <==> TransitiveOn(RULE, members)
  {
    if !TransitiveOn(RULE, members) {
      var a, b, c :| a in members && b in members && c in members
                     && Chained(RULE, a, b, c) && !RULE.compatible(a.record, c.record);
      BridgedClashBreaksChain(a, b, c);
    }
    if !NoBridgedClash(members) {
      var a, b, c :| a in members && b in members && c in members
                     && BridgesClash(FactsOf(a.record), FactsOf(b.record), FactsOf(c.record));
      BridgedClashBreaksChain(a, b, c);
    }
  }

  /** The exact condition: the groups of a batch are the classes of the pairwise rule if and only if no
      clash between two scored runs is bridged by a third. */
  lemma GroupsAreClassesIff(runs: seq<Run>)
    ensures AreClasses(RULE, GroupsOf(runs)) <==> NoBridgedClash(Scored(runs))
  {
    RuleIsLawful();
    ClassesIffTransitive(RULE, Scored(runs));
    NoBridgedClashIffTransitive(Scored(runs));
  }

  /** In particular when no two scored runs clash at all. */
  lemma GroupsAreClasses(runs: seq<Run>)
    requires forall a, c | a in Scored(runs) && c in Scored(runs) :: !Clash(FactsOf(a.record), FactsOf(c.record))
    ensures AreClasses(RULE, GroupsOf(runs))
  {
    GroupsAreClassesIff(runs);
  }

  /** Three runs in request order, all of them scored. */
  function ThreeRuns(a: Record, b: Record, c: Record): seq<Run> {
    [Run("1", Some(a)), Run("2", Some(b)), Run("3", Some(c))]
  }

  lemma ThreeScored(a: Record, b: Record, c: Record)
    requires CompleteScore(a) && CompleteScore(b) && CompleteScore(c)
    ensures Distinct(ThreeRuns(a, b, c))
    ensures Scored(ThreeRuns(a, b, c)) == [Member("1", a), Member("2", b), Member("3", c)]
  {
    var x, y, z := Run("1", Some(a)), Run("2", Some(b)), Run("3", Some(c));
    assert ["1"[0], "2"[0], "3"[0]] == ['1', '2', '3'];
    assert [x, y, z][..2] == [x, y] && [x, y][..1] == [x] && [x][..0] == [];
    assert Scored([x]) == [Member("1", a)];
    assert Scored([x, y]) == [Member("1", a), Member("2", b)];
  }

  /** A batch of three scored runs with a bridged clash: two runs of one model that disagree on their
      settings hash, and between them one that records none. Its groups are not classes. */
  lemma BridgedClashBreaksGroups() returns (runs: seq<Run>)
    ensures Distinct(runs) && Unavailable(runs) == [] && !AreClasses(RULE, GroupsOf(runs))
  {
    var left, bridge, right := ClashingRecords();
    runs := ThreeRuns(left, bridge, right);
    ThreeScored(left, bridge, right);
    RunsAreAccountedFor(runs);
    var members := Scored(runs);
    assert members[0] in members && members[1] in members && members[2] in members;
    GroupsAreClassesIff(runs);
  }

  lemma ClashingRecords() returns (left: Record, bridge: Record, right: Record)
    ensures CompleteScore(left) && CompleteScore(bridge) && CompleteScore(right)
    ensures BridgesClash(FactsOf(left), FactsOf(bridge), FactsOf(right))
  {
    left := PlainRecord(map[], "1", Str("x"));
    bridge := PlainRecord(map[], "1", Null);
    right := PlainRecord(map[], "1", Str("y"));
    assert "x"[0] != "y"[0];
  }

  // ---------------------------------------------------------------- what a group reports as shared

  /** The group's first member is this record. */
  ghost predicate Starts(f: Record, runs: seq<Run>, g: nat) {
    Distinct(runs) && g < |GroupsOf(runs)| && GroupsOf(runs)[g].members != []
    && GroupsOf(runs)[g].members[0].record == f
  }

  /** Whether the groups a record starts can report a variable not all of their pairs share. */
  predicate Misleads(f: Record) {
    CompleteScore(f) && Truthy(SampleHash(f)) && Ambiguous(FactsOf(f))
  }

  lemma UnambiguousCloses(f: Record)
    requires !Ambiguous(FactsOf(f))
    ensures StarsClose(RULE, f)
  {
    forall x, y, name ensures StarCloses(RULE, f, x, y, name) {
      if && RULE.compatible(f, x) && RULE.compatible(f, y)
         && name in RULE.common(f, x) && name in RULE.common(f, y)
      {
        SharedThroughFirst(FactsOf(f), FactsOf(x), FactsOf(y), name);
      }
    }
  }

  /** A group whose first member does not mislead reports exactly what all its pairs share. */
  lemma ReportsWhatPairsShare(f: Record, runs: seq<Run>, g: nat)
    requires Starts(f, runs, g) && !Misleads(f)
    ensures ReportsPairs(RULE, GroupsOf(runs)[g])
  {
    var group := GroupsOf(runs)[g];
    if Ambiguous(FactsOf(f)) {
      AloneWithoutSample(f, runs, g);
    } else {
      UnambiguousCloses(f);
      StarIsAllPairs(RULE, Scored(runs), g);
    }
  }

  /** A record that starts a group is scored, and stays alone when it records no sample. */
  lemma AloneWithoutSample(f: Record, runs: seq<Run>, g: nat)
    requires Starts(f, runs, g)
    ensures CompleteScore(f)
    ensures !Truthy(SampleHash(f)) ==> GroupsOf(runs)[g].shared.None?
  {
    var group := GroupsOf(runs)[g];
    RunsAreAccountedFor(runs);
    MemberOfGroupIsMember(RULE, Scored(runs), g, 0);
    GroupedStarShaped(RULE, Scored(runs));
    GroupedReportStars(RULE, Scored(runs));
    assert group in GroupsOf(runs);
    if |group.members| > 1 {
      assert RULE.compatible(f, group.members[1].record);
      CompatibleIff(FactsOf(f), FactsOf(group.members[1].record));
    }
  }

  /** For every record that misleads: a batch of three mutually compatible scored runs, one group, which
      reports a variable that two of them do not share. */
  lemma MisleadingReport(f: Record) returns (runs: seq<Run>)
    requires Misleads(f)
    ensures Starts(f, runs, 0) && |GroupsOf(runs)| == 1 && |GroupsOf(runs)[0].members| == 3
    ensures AreClasses(RULE, GroupsOf(runs)) && !ReportsPairs(RULE, GroupsOf(runs)[0])
  {
    var x, y, name := MisleadingStar(f);
    runs := ThreeRuns(f, x, y);
    ThreeScored(f, x, y);
    ThreeReport(RULE, Member("1", f), Member("2", x), Member("3", y), name);
  }

  lemma MisleadingStar(f: Record) returns (x: Record, y: Record, name: string)
    requires Misleads(f)
    ensures CompleteScore(x) && CompleteScore(y)
    ensures RULE.compatible(f, x) && RULE.compatible(f, y) && RULE.compatible(x, y)
    ensures name in RULE.common(f, x) && name in RULE.common(f, y) && name !in RULE.common(x, y)
  {
    name := AmbiguousName(FactsOf(f));
    x := OtherModel(f);
    y := WithoutField(f, name);
    AmbiguousBreaksStar(FactsOf(f), FactsOf(x), FactsOf(y), name);
  }

  /** The exact condition: every group a record starts, in any batch, reports exactly the variables that
      all its pairs share, if and only if the record does not mislead. */
  lemma ReportsPairsIff(f: Record)
    ensures (forall runs, g: nat | Starts(f, runs, g) :: ReportsPairs(RULE, GroupsOf(runs)[g])) <==> !Misleads(f)
  {
    if Misleads(f) {
      var runs := MisleadingReport(f);
      assert Starts(f, runs, 0);
    } else {
      forall runs, g: nat | Starts(f, runs, g) ensures ReportsPairs(RULE, GroupsOf(runs)[g]) {
        ReportsWhatPairsShare(f, runs, g);
      }
    }
  }

  /** A concrete record that misleads: a scored record of a model, with a null field of that name. */
  lemma NullModelFieldMisleads() returns (f: Record, runs: seq<Run>)
    ensures Misleads(f) && Starts(f, runs, 0) && !ReportsPairs(RULE, GroupsOf(runs)[0])
  {
    f := NullModelField();
    runs := MisleadingReport(f);
  }

  lemma NullModelField() returns (f: Record)
    ensures Misleads(f)
  {
    f := PlainRecord(map[MODEL_VARIABLE := Null], "1", Null);
    assert FactsOf(f).sample == Str("s");
  }

  // ---------------------------------------------------------------- the N-run table

  datatype TableError =
    | BadCount
    | RepeatedRun
    | Incompatible(reasons: set<string>, pairs: seq<PairTable.Mismatch>)
    | ScoreUnavailable(ids: seq<string>)

  datatype Table = Table(ids: seq<string>, shared: set<string>)

  predicate AllComplete(members: seq<Member<Record>>) {
    forall i | 0 <= i < |members| :: CompleteScore(members[i].record)
  }

  function Ids(members: seq<Member<Record>>): seq<string> {
    seq(|members|, i requires 0 <= i < |members| => members[i].id)
  }

  function IncompleteIds(members: seq<Member<Record>>): seq<string> {
    if members == [] then []
    else
      var last := members[|members| - 1];
      IncompleteIds(members[..|members| - 1]) + if CompleteScore(last.record) then [] else [last.id]
  }

  function Differences(members: seq<Member<Record>>): PairTable.PairSets {
    (a: nat, b: nat) =>
      if a < |members| && b < |members| then Mismatched(FactsOf(members[a].record), FactsOf(members[b].record)) else {}
  }

  function Similarities(members: seq<Member<Record>>): PairTable.PairSets {
    (a: nat, b: nat) =>
      if a < |members| && b < |members| then RULE.common(members[a].record, members[b].record) else {}
  }

  /** The comparison table: every pair compatible and every score complete, or the reason why not. */
  method ComparisonTable(members: seq<Member<Record>>) returns (r: Result<Table, TableError>)
    ensures r.Success? <==> 2 <= |members| <= 10 && DistinctIds(members)
                            && AllCompatible(RULE, members) && AllComplete(members)
    ensures r.Success? ==>
              r.value.ids == Ids(members) && SharesOfPairs(RULE, members, r.value.shared)
    ensures r == Failure(BadCount) <==> !(2 <= |members| <= 10)
    ensures r == Failure(RepeatedRun) <==>
            2 <= |members| <= 10 && exists i, j | 0 <= i < j < |members| :: members[i].id == members[j].id
    ensures r.Failure? && r.error.Incompatible? ==>
              var n := |members|;
              && !AllCompatible(RULE, members)
              && PairTable.Reasons(r.error.reasons, Differences(members), n)
              && PairTable.DescribesPairs(r.error.pairs, Differences(members), n, n - 1, n)
    ensures r.Failure? && r.error.ScoreUnavailable? ==>
              AllCompatible(RULE, members) && r.error.ids == IncompleteIds(members) != []
  {
    if |members| < MIN_TABLE_RUNS || |members| > MAX_TABLE_RUNS {
      return Failure(BadCount);
    }
    if !DistinctIds(members) {
      return Failure(RepeatedRun);
    }
    var findings := PairTable.Compare(Differences(members), Similarities(members), |members|);
    TableFindings(members);
    if findings.pairs != [] {
      return Failure(Incompatible(findings.reasons, findings.pairs));
    }
    var missing := FindIncomplete(members);
    NoneIncomplete(members);
    if missing != [] {
      return Failure(ScoreUnavailable(missing));
    }
    return Success(Table(Ids(members), findings.shared.value));
  }

  /** The findings of the loop, in terms of the runs. */
  lemma TableFindings(members: seq<Member<Record>>)
    requires |members| >= 2
    ensures var f, n := PairTable.CompareAll(Differences(members), Similarities(members), |members|), |members|;
            && f.shared.Some? && SharesOfPairs(RULE, members, f.shared.value)
            && PairTable.Reasons(f.reasons, Differences(members), n)
            && PairTable.DescribesPairs(f.pairs, Differences(members), n, n - 1, n)
            && (f.pairs == [] <==> AllCompatible(RULE, members))
  {
    forall i: nat, j: nat | i < j < |members|
      ensures PairLinked(RULE, members, Differences(members), Similarities(members), i, j)
    {
      PairAt(members, i, j);
    }
    FindingsForRule(RULE, members, Differences(members), Similarities(members));
  }

  lemma PairAt(members: seq<Member<Record>>, i: nat, j: nat)
    requires i < j < |members|
    ensures PairLinked(RULE, members, Differences(members), Similarities(members), i, j)
  {
  }

  method FindIncomplete(members: seq<Member<Record>>) returns (ids: seq<string>)
    ensures ids == IncompleteIds(members)
  {
    ids := [];
    for i := 0 to |members|
      invariant ids == IncompleteIds(members[..i])
    {
      assert members[..i + 1][..i] == members[..i];
      if !CompleteScore(members[i].record) {
        ids := ids + [members[i].id];
      }
    }
    assert members[..|members|] == members;
  }

  lemma {:induction false} NoneIncomplete(members: seq<Member<Record>>)
    ensures IncompleteIds(members) == [] <==> AllComplete(members)
  {
    if members != [] {
      NoneIncomplete(members[..|members| - 1]);
      assert members == members[..|members| - 1] + [members[|members| - 1]];
    }
  }

  /** Without a bridged clash, `ComparisonTable` accepts every group of 2 to 10 runs; and unless its first
      member misleads, the group reports the very variables the table would. */
  lemma GroupsMakeTables(runs: seq<Run>, g: nat)
    requires Distinct(runs) && NoBridgedClash(Scored(runs)) && g < |GroupsOf(runs)|
    ensures var group := GroupsOf(runs)[g];
            && DistinctIds(group.members) && AllCompatible(RULE, group.members) && AllComplete(group.members)
            && group.members != []
            && (|group.members| >= 2 && !Misleads(group.members[0].record) ==>
                  group.shared.Some?
                  && SharesOfPairs(RULE, group.members, group.shared.value))
  {
    var group := GroupsOf(runs)[g];
    GroupsAreClassesIff(runs);
    GroupedStarShaped(RULE, Scored(runs));
    GroupedReportStars(RULE, Scored(runs));
    assert group in GroupsOf(runs);
    GroupIsDistinct(runs, g);
    GroupIsComplete(runs, g);
    if !Misleads(group.members[0].record) {
      ReportsWhatPairsShare(group.members[0].record, runs, g);
    }
  }

  lemma GroupIsDistinct(runs: seq<Run>, g: nat)
    requires Distinct(runs) && g < |GroupsOf(runs)|
    ensures DistinctIds(GroupsOf(runs)[g].members)
  {
    var owner := GroupedPartitions(RULE, Scored(runs));
    ScoredDistinct(runs);
    OwnedDistinct(Scored(runs), owner, g);
  }

  lemma GroupIsComplete(runs: seq<Run>, g: nat)
    requires g < |GroupsOf(runs)|
    ensures AllComplete(GroupsOf(runs)[g].members)
  {
    RunsAreAccountedFor(runs);
    forall i | 0 <= i < |GroupsOf(runs)[g].members| ensures CompleteScore(GroupsOf(runs)[g].members[i].record) {
      MemberOfGroupIsMember(RULE, Scored(runs), g, i);
    }
  }
}
