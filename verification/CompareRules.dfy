/** When campaign records are compatible, told on the records' own "config", "provenance" and "score"
    mappings instead of on what the comparison makes of them. */
module CompareRules {
  import opened Wrappers
  import opened Json
  import opened Compare
  import opened Grouping
  import opened CompareRuns

  // ---------------------------------------------------------------- what is read under a name

  /** `record[part][name]`, or null where the part is no mapping or has no such entry. */
  function Field(record: Record, part: string, name: string): Json {
    if part in record && record[part].Obj? && name in record[part].fields then record[part].fields[name] else Null
  }

  /** Config keys that take no part in the comparison. */
  predicate LeftOut(key: string) {
    || key == "target_id" || key == "llm_narrative" || key == "auto_recommend"
    || key == "target_snapshot" || key == "attacks" || key == "defense"
  }

  /** The name is "scoring." and a key of the config's scoring mapping. */
  predicate NamesScoring(record: Record, name: string) {
    var scoring := Field(record, "config", "scoring");
    scoring.Obj? && |name| >= 8 && name[..8] == "scoring." && name[8..] in scoring.fields
  }

  /** The name is a top-level config key that is compared; a scoring mapping is not compared as a whole. */
  predicate NamesField(record: Record, name: string) {
    && !LeftOut(name)
    && "config" in record && record["config"].Obj? && name in record["config"].fields
    && !(name == "scoring" && record["config"].fields[name].Obj?)
  }

  /** What the comparison reads under a name, null where there is nothing. */
  function Reading(record: Record, name: string): Json {
    if NamesScoring(record, name) then Field(record, "config", "scoring").fields[name[8..]]
    else if NamesField(record, name) then Field(record, "config", name)
    else Null
  }

  lemma MappingTold(record: Record, part: string, name: string)
    ensures Get(Mapping(record, part), name) == Field(record, part, name)
  {
  }

  lemma IgnoredIff(key: string)
    ensures Ignored(key) <==> LeftOut(key)
  {
  }

  lemma DottedIff(name: string, sub: string)
    ensures name == Dotted(sub) <==> |name| >= 8 && name[..8] == "scoring." && name[8..] == sub
  {
    assert |"scoring."| == 8;
    if |name| >= 8 && name[..8] == "scoring." {
      assert name == name[..8] + name[8..];
    }
    assert Dotted(sub)[..8] == "scoring." && Dotted(sub)[8..] == sub;
  }

  lemma ScoringTold(record: Record, name: string)
    ensures name in ScoringFields(Mapping(record, "config")) <==> NamesScoring(record, name)
    ensures NamesScoring(record, name) ==>
              ScoringFields(Mapping(record, "config"))[name] == Field(record, "config", "scoring").fields[name[8..]]
  {
    var scoring := Mapping(Mapping(record, "config"), "scoring");
    if name in ScoringFields(Mapping(record, "config")) {
      var sub :| sub in scoring && name == Dotted(sub);
      DottedIff(name, sub);
    }
    if NamesScoring(record, name) {
      DottedIff(name, name[8..]);
      assert name[8..] in scoring;
    }
  }

  lemma PlainTold(record: Record, name: string)
    ensures name in PlainFields(Mapping(record, "config")) <==> NamesField(record, name)
    ensures NamesField(record, name) ==>
              PlainFields(Mapping(record, "config"))[name] == Field(record, "config", name)
  {
    IgnoredIff(name);
  }

  /** The compared config of a record has the names and the readings told above. */
  lemma ComparedTold(record: Record, name: string)
    ensures name in ComparedConfig(record) <==> NamesScoring(record, name) || NamesField(record, name)
    ensures Get(ComparedConfig(record), name) == Reading(record, name)
  {
    ScoringTold(record, name);
    PlainTold(record, name);
  }

  // ---------------------------------------------------------------- hashes and scores

  function SampleOf(record: Record): Json {
    Field(record, "provenance", "sample_indices_sha256")
  }

  function ModelOf(record: Record): Json {
    Field(record, "provenance", "model_sha256")
  }

  /** The hash is the first true value among the record's own, its score's and its provenance's, or the last
      of them when none is true. */
  predicate HashIs(record: Record, hash: Json) {
    var own := if "settings_hash" in record then record["settings_hash"] else Null;
    var scored, origin := Field(record, "score", "settings_hash"), Field(record, "provenance", "settings_hash");
    || (Truthy(own) && hash == own)
    || (!Truthy(own) && Truthy(scored) && hash == scored)
    || (!Truthy(own) && !Truthy(scored) && hash == origin)
  }

  lemma HashesTold(record: Record)
    ensures SampleHash(record) == SampleOf(record) && ModelHash(record) == ModelOf(record)
    ensures HashIs(record, SettingsHash(record))
    ensures CompleteScore(record) <==>
            "score" in record && record["score"].Obj? && "mri" in record["score"].fields
            && record["score"].fields["mri"] != Null
  {
    MappingTold(record, "provenance", "sample_indices_sha256");
    MappingTold(record, "provenance", "model_sha256");
    MappingTold(record, "provenance", "settings_hash");
    MappingTold(record, "score", "settings_hash");
  }

  // ---------------------------------------------------------------- the pairwise rule

  /** Everything compared reads the same. */
  ghost predicate SameReadings(l: Record, r: Record) {
    forall name :: Reading(l, name) == Reading(r, name)
  }

  /** Both record the same sample. */
  predicate SameSample(l: Record, r: Record) {
    Truthy(SampleOf(l)) && SampleOf(l) == SampleOf(r)
  }

  /** Two records of one model with different settings hashes. */
  ghost predicate Contradict(l: Record, r: Record) {
    && ModelOf(l) != Null && ModelOf(l) == ModelOf(r)
    && exists x, y :: HashIs(l, x) && HashIs(r, y) && Truthy(x) && Truthy(y) && x != y
  }

  lemma SameReadingsIff(l: Record, r: Record)
    ensures SameFields(FactsOf(l), FactsOf(r)) <==> SameReadings(l, r)
  {
    forall name
      ensures Get(FactsOf(l).config, name) == Get(FactsOf(r).config, name) <==> Reading(l, name) == Reading(r, name)
    {
      ComparedTold(l, name);
      ComparedTold(r, name);
    }
    if SameReadings(l, r) {
      forall name ensures Get(FactsOf(l).config, name) == Get(FactsOf(r).config, name) {
        assert Reading(l, name) == Reading(r, name);
      }
    }
  }

  lemma ContradictIff(l: Record, r: Record)
    ensures Contradict(l, r) <==>
            && SameModel(FactsOf(l), FactsOf(r))
            && Truthy(SettingsHash(l)) && Truthy(SettingsHash(r)) && SettingsHash(l) != SettingsHash(r)
  {
    HashesTold(l);
    HashesTold(r);
  }

  /** Two records are compatible if and only if everything compared reads the same, both record the same
      sample, and they do not contradict each other about one model. */
  lemma CompatibleRecordsIff(l: Record, r: Record)
    ensures RULE.compatible(l, r) <==> SameReadings(l, r) && SameSample(l, r) && !Contradict(l, r)
  {
    CompatibleIff(FactsOf(l), FactsOf(r));
    SameReadingsIff(l, r);
    ContradictIff(l, r);
    HashesTold(l);
    HashesTold(r);
  }

  /** A reason for which two records are not compatible: a name that reads differently; the sample, when one
      is missing or they differ; and the settings hash, when it is all that differs. */
  ghost predicate Reason(l: Record, r: Record, name: string) {
    || Reading(l, name) != Reading(r, name)
    || (name == "sample_indices_sha256 (not recorded on both runs)"
        && !(Truthy(SampleOf(l)) && Truthy(SampleOf(r))))
    || (name == "sample_indices_sha256"
        && Truthy(SampleOf(l)) && Truthy(SampleOf(r)) && SampleOf(l) != SampleOf(r))
    || (name == "settings_hash" && SameReadings(l, r) && SameSample(l, r) && Contradict(l, r))
  }

  lemma MismatchedIff(l: Facts, r: Facts, name: string)
    ensures name in Mismatched(l, r) <==>
            || Get(l.config, name) != Get(r.config, name)
            || (name == "sample_indices_sha256 (not recorded on both runs)" && !(Truthy(l.sample) && Truthy(r.sample)))
            || (name == "sample_indices_sha256" && Truthy(l.sample) && Truthy(r.sample) && l.sample != r.sample)
            || (name == "settings_hash" && Clash(l, r))
  {
    NoFieldDiffers(l, r);
    assert name in DifferingFields(l, r) <==> Get(l.config, name) != Get(r.config, name);
    SettingsAlone(l, r);
  }

  lemma SettingsAlone(l: Facts, r: Facts)
    ensures Clash(l, r) <==>
            && SameModel(l, r) && DifferingFields(l, r) == {}
            && Truthy(l.sample) && Truthy(r.sample) && l.sample == r.sample
            && Truthy(l.settings) && Truthy(r.settings) && l.settings != r.settings
  {
    NoFieldDiffers(l, r);
  }

  lemma ReasonsTold(l: Record, r: Record, name: string)
    ensures name in Mismatched(FactsOf(l), FactsOf(r)) <==> Reason(l, r, name)
  {
    MismatchedIff(FactsOf(l), FactsOf(r), name);
    ComparedTold(l, name);
    ComparedTold(r, name);
    ClashIff(l, r);
    HashesTold(l);
    HashesTold(r);
  }

  lemma ClashIff(l: Record, r: Record)
    ensures Clash(FactsOf(l), FactsOf(r)) <==> SameReadings(l, r) && SameSample(l, r) && Contradict(l, r)
  {
    SameReadingsIff(l, r);
    ContradictIff(l, r);
    HashesTold(l);
    HashesTold(r);
  }

  /** A difference under one scoring key is named by that key. */
  lemma ScoringDifferenceIsNamed(l: Record, r: Record, sub: string)
    requires Field(l, "config", "scoring").Obj? && Field(r, "config", "scoring").Obj?
    requires Get(Field(l, "config", "scoring").fields, sub) != Get(Field(r, "config", "scoring").fields, sub)
    requires !NamesField(l, "scoring." + sub) && !NamesField(r, "scoring." + sub)
    ensures "scoring." + sub in Mismatched(FactsOf(l), FactsOf(r))
    ensures !RULE.compatible(l, r)
  {
    DottedIff("scoring." + sub, sub);
    ReasonsTold(l, r, "scoring." + sub);
  }

  /** The keys left out never matter: a record whose config differs under such keys only compares alike. */
  lemma LeftOutNeverMatters(record: Record, config: Record, other: Record)
    requires "config" in record && record["config"].Obj?
    requires forall key | !LeftOut(key) :: Get(config, key) == Get(record["config"].fields, key)
    requires forall key | !LeftOut(key) :: key in config <==> key in record["config"].fields
    ensures FactsOf(record["config" := Obj(config)]) == FactsOf(record)
    ensures RULE.compatible(record["config" := Obj(config)], other) <==> RULE.compatible(record, other)
    ensures RULE.common(record["config" := Obj(config)], other) == RULE.common(record, other)
  {
    var changed := record["config" := Obj(config)];
    SameBeside(record, "config", Obj(config));
    SameHashes(record, changed);
    SameCompared(record, config);
  }

  lemma SameCompared(record: Record, config: Record)
    requires "config" in record && record["config"].Obj?
    requires forall key | !LeftOut(key) :: Get(config, key) == Get(record["config"].fields, key)
    requires forall key | !LeftOut(key) :: key in config <==> key in record["config"].fields
    ensures ComparedConfig(record["config" := Obj(config)]) == ComparedConfig(record)
  {
    var changed := record["config" := Obj(config)];
    forall name
      ensures name in ComparedConfig(changed) <==> name in ComparedConfig(record)
      ensures Get(ComparedConfig(changed), name) == Get(ComparedConfig(record), name)
    {
      ComparedTold(changed, name);
      ComparedTold(record, name);
      SameNames(record, config, name);
    }
  }

  lemma SameNames(record: Record, config: Record, name: string)
    requires "config" in record && record["config"].Obj?
    requires forall key | !LeftOut(key) :: Get(config, key) == Get(record["config"].fields, key)
    requires forall key | !LeftOut(key) :: key in config <==> key in record["config"].fields
    ensures var changed := record["config" := Obj(config)];
            && (NamesScoring(changed, name) <==> NamesScoring(record, name))
            && (NamesField(changed, name) <==> NamesField(record, name))
            && Reading(changed, name) == Reading(record, name)
  {
    assert !LeftOut("scoring") by {
      assert "scoring"[1] == 'c' && "scoring"[0] == 's';
    }
  }

  /** The variables two records share: the names both have and read alike, the sample, and for one model
      its hash and the settings hash. */
  lemma CommonTold(l: Record, r: Record, name: string)
    ensures name in RULE.common(l, r) <==>
            || (&& (NamesScoring(l, name) || NamesField(l, name)) && (NamesScoring(r, name) || NamesField(r, name))
                && Reading(l, name) == Reading(r, name))
            || (name == "sample_indices_sha256" && SameSample(l, r))
            || (name == "model_sha256" && ModelOf(l) != Null && ModelOf(l) == ModelOf(r))
            || (name == "settings_hash" && ModelOf(l) != Null && ModelOf(l) == ModelOf(r)
                && exists x :: HashIs(l, x) && HashIs(r, x) && Truthy(x))
  {
    UnchangedIff(FactsOf(l), FactsOf(r), name);
    ComparedTold(l, name);
    ComparedTold(r, name);
    HashesTold(l);
    HashesTold(r);
    assert HashIs(l, SettingsHash(l)) && HashIs(r, SettingsHash(r));
  }

  // ---------------------------------------------------------------- batches and tables

  /** All runs of one comparability group read the same, recorded the same sample and have a complete score. */
  lemma GroupReadsAlike(runs: seq<Run>, g: nat, i: nat, j: nat)
    requires Distinct(runs) && g < |GroupsOf(runs)|
    requires i < |GroupsOf(runs)[g].members| && j < |GroupsOf(runs)[g].members| && i != j
    ensures var l, r := GroupsOf(runs)[g].members[i].record, GroupsOf(runs)[g].members[j].record;
            SameReadings(l, r) && SameSample(l, r)
  {
    var members := GroupsOf(runs)[g].members;
    GroupedStarShaped(RULE, Scored(runs));
    assert i > 0 ==> RULE.compatible(members[0].record, members[i].record);
    assert j > 0 ==> RULE.compatible(members[0].record, members[j].record);
    CompatibleRecordsIff(members[0].record, members[i].record);
    CompatibleRecordsIff(members[0].record, members[j].record);
  }

  /** Runs that read the same and recorded the same sample are parted for one reason only: the later one
      contradicts the first member of the group that holds the earlier one. */
  lemma AlikeStandTogether(runs: seq<Run>, g: nat, i: nat, k: nat, j: nat)
    requires Distinct(runs) && g < k < |GroupsOf(runs)|
    requires i < |GroupsOf(runs)[g].members| && j < |GroupsOf(runs)[k].members|
    requires var l, r := GroupsOf(runs)[g].members[i].record, GroupsOf(runs)[k].members[j].record;
             SameReadings(l, r) && SameSample(l, r)
    ensures Contradict(GroupsOf(runs)[g].members[0].record, GroupsOf(runs)[k].members[j].record)
  {
    var first, l, r := GroupsOf(runs)[g].members[0].record, GroupsOf(runs)[g].members[i].record,
                       GroupsOf(runs)[k].members[j].record;
    GroupedStarShaped(RULE, Scored(runs));
    assert !RULE.compatible(first, r);
    CompatibleRecordsIff(first, r);
    if i > 0 {
      assert RULE.compatible(first, l);
      CompatibleRecordsIff(first, l);
    }
  }

  /** Positions in ascending order. */
  ghost predicate Ascending(positions: seq<nat>, n: nat) {
    && (forall k | 0 <= k < |positions| :: positions[k] < n)
    && (forall k, l | 0 <= k < l < |positions| :: positions[k] < positions[l])
  }

  ghost predicate Selects<T>(positions: seq<nat>, list: seq<T>, keep: T -> bool) {
    forall i | 0 <= i < |list| :: i in positions <==> keep(list[i])
  }

  ghost predicate Reads<T, U>(positions: seq<nat>, picked: seq<U>, list: seq<T>, value: T -> U) {
    |picked| == |positions| && forall k | 0 <= k < |positions| :: positions[k] < |list| && picked[k] == value(list[positions[k]])
  }

  /** What is picked off a list: a value for each element to keep, in order, from those positions. */
  ghost predicate Picks<T, U>(positions: seq<nat>, picked: seq<U>, list: seq<T>, keep: T -> bool, value: T -> U) {
    Ascending(positions, |list|) && Selects(positions, list, keep) && Reads(positions, picked, list, value)
  }

  lemma SelectsNext<T>(positions: seq<nat>, list: seq<T>, last: T, keep: T -> bool)
    requires Selects(positions, list, keep) && Ascending(positions, |list|)
    ensures Selects(if keep(last) then positions + [|list|] else positions, list + [last], keep)
  {
    assert |list| !in positions;
    forall i | 0 <= i < |list + [last]|
      ensures i in (if keep(last) then positions + [|list|] else positions) <==> keep((list + [last])[i])
    {
      if i < |list| {
        assert (list + [last])[i] == list[i];
        assert i in positions <==> keep(list[i]);
      }
    }
  }

  lemma ReadsNext<T, U>(positions: seq<nat>, picked: seq<U>, list: seq<T>, last: T, keep: T -> bool, value: T -> U)
    requires Reads(positions, picked, list, value)
    ensures Reads(if keep(last) then positions + [|list|] else positions,
                  picked + if keep(last) then [value(last)] else [], list + [last], value)
  {
  }

  lemma AscendingNext(positions: seq<nat>, n: nat, more: bool)
    requires Ascending(positions, n)
    ensures Ascending(if more then positions + [n] else positions, n + 1)
  {
  }

  lemma PicksNext<T, U>(positions: seq<nat>, picked: seq<U>, list: seq<T>, last: T, keep: T -> bool, value: T -> U)
    returns (more: seq<nat>)
    requires Picks(positions, picked, list, keep, value)
    ensures Picks(more, picked + if keep(last) then [value(last)] else [], list + [last], keep, value)
  {
    more := if keep(last) then positions + [|list|] else positions;
    AscendingNext(positions, |list|, keep(last));
    SelectsNext(positions, list, last, keep);
    ReadsNext(positions, picked, list, last, keep, value);
  }

  /** A run as a member; without a record, with an empty one. */
  function AsMember(run: Run): Member<Record> {
    Member(run.id, if run.record.Some? then run.record.value else map[])
  }

  /** The scored runs are those with a complete score, each once and in request order. */
  lemma {:induction false} ScoredInOrder(runs: seq<Run>) returns (positions: seq<nat>)
    ensures Picks(positions, Scored(runs), runs, run => InGroups(run), run => AsMember(run))
  {
    positions := [];
    if runs != [] {
      var front, last := runs[..|runs| - 1], runs[|runs| - 1];
      assert runs == front + [last];
      positions := ScoredInOrder(front);
      positions := PicksNext(positions, Scored(front), front, last, run => InGroups(run), run => AsMember(run));
    }
  }

  /** The others are unavailable, each once and in request order. */
  lemma {:induction false} UnavailableInOrder(runs: seq<Run>) returns (positions: seq<nat>)
    ensures Picks(positions, Unavailable(runs), runs, run => !InGroups(run), (run: Run) => run.id)
  {
    positions := [];
    if runs != [] {
      var front, last := runs[..|runs| - 1], runs[|runs| - 1];
      assert runs == front + [last];
      positions := UnavailableInOrder(front);
      positions := PicksNext(positions, Unavailable(front), front, last, run => !InGroups(run), (run: Run) => run.id);
    }
  }

  /** The incomplete runs a table names, each once and in row order. */
  lemma {:induction false} IncompleteInOrder(members: seq<Member<Record>>) returns (positions: seq<nat>)
    ensures Picks(positions, IncompleteIds(members), members, (m: Member<Record>) => !CompleteScore(m.record),
                  (m: Member<Record>) => m.id)
  {
    positions := [];
    if members != [] {
      var front, last := members[..|members| - 1], members[|members| - 1];
      assert members == front + [last];
      positions := IncompleteInOrder(front);
      positions := PicksNext(positions, IncompleteIds(front), front, last,
                             (m: Member<Record>) => !CompleteScore(m.record), (m: Member<Record>) => m.id);
    }
  }

  /** What the table compares for two of its rows. */
  lemma RowsTold(members: seq<Member<Record>>, a: nat, b: nat, name: string)
    requires a < |members| && b < |members|
    ensures name in Differences(members)(a, b) <==> Reason(members[a].record, members[b].record, name)
    ensures name in Similarities(members)(a, b) <==> name in RULE.common(members[a].record, members[b].record)
    ensures Ids(members)[a] == members[a].id
  {
    ReasonsTold(members[a].record, members[b].record, name);
  }
}
