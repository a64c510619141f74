/** Comparability of two campaign records: what is read off a record, the pairwise rule, and which
    variables two records share. */
module Compare {
  import opened Wrappers
  import opened Json

  const SAMPLE_VARIABLE := "sample_indices_sha256"
  const MODEL_VARIABLE := "model_sha256"
  const SETTINGS_VARIABLE := "settings_hash"
  const NO_SAMPLE := "sample_indices_sha256 (not recorded on both runs)"

  // ---------------------------------------------------------------- record readers

  /** A field that should be a mapping, empty when it is not. */
  function Mapping(record: Record, key: string): Record {
    match Get(record, key)
    case Obj(fields) => fields
    case _ => map[]
  }

  function SampleHash(record: Record): Json {
    Get(Mapping(record, "provenance"), SAMPLE_VARIABLE)
  }

  function ModelHash(record: Record): Json {
    Get(Mapping(record, "provenance"), MODEL_VARIABLE)
  }

  /** The settings hash, with the score and provenance fallbacks of older records. */
  function SettingsHash(record: Record): Json {
    var own := Get(record, SETTINGS_VARIABLE);
    var scored := Get(Mapping(record, "score"), SETTINGS_VARIABLE);
    if Truthy(own) then own
    else if Truthy(scored) then scored
    else Get(Mapping(record, "provenance"), SETTINGS_VARIABLE)
  }

  /** The score is there and its MRI was computed. */
  predicate CompleteScore(record: Record) {
    Get(record, "score").Obj? && Get(Mapping(record, "score"), "mri") != Null
  }

  predicate Ignored(key: string) {
    key in {"target_id", "llm_narrative", "auto_recommend", "target_snapshot", "attacks", "defense"}
  }

  function Dotted(sub: string): string {
    "scoring." + sub
  }

  function PlainFields(config: Record): Record {
    var nested := Get(config, "scoring").Obj?;
    map k | k in config && !Ignored(k) && !(nested && k == "scoring") :: config[k]
  }

  function ScoringFields(config: Record): Record {
    var scoring := Mapping(config, "scoring");
    map k | k in (set sub | sub in scoring :: Dotted(sub)) :: scoring[k[8..]]
  }

  /** The compared config fields, the scoring block flattened to one field per key. */
  function ComparedConfig(record: Record): Record {
    var config := Mapping(record, "config");
    PlainFields(config) + ScoringFields(config)
  }

  // ---------------------------------------------------------------- the pairwise rule

  /** What the comparison reads off a record. */
  datatype Facts = Facts(config: Record, sample: Json, model: Json, settings: Json)

  function FactsOf(record: Record): Facts {
    Facts(ComparedConfig(record), SampleHash(record), ModelHash(record), SettingsHash(record))
  }

  predicate SameModel(l: Facts, r: Facts) {
    l.model != Null && l.model == r.model
  }

  /** Config fields on which two records differ; a missing field reads as null. */
  function DifferingFields(l: Facts, r: Facts): set<string> {
    set k | k in l.config.Keys + r.config.Keys && Get(l.config, k) != Get(r.config, k)
  }

  function Mismatched(l: Facts, r: Facts): set<string> {
    var fields := DifferingFields(l, r);
    var sample := if !Truthy(l.sample) || !Truthy(r.sample) then {NO_SAMPLE}
                  else if l.sample != r.sample then {SAMPLE_VARIABLE} else {};
    var settings := if SameModel(l, r) && fields + sample == {}
                       && Truthy(l.settings) && Truthy(r.settings) && l.settings != r.settings
                    then {SETTINGS_VARIABLE} else {};
    fields + sample + settings
  }

  function Unchanged(l: Facts, r: Facts): set<string> {
    (set k | k in l.config && k in r.config && l.config[k] == r.config[k])
    + (if Truthy(l.sample) && Truthy(r.sample) && l.sample == r.sample then {SAMPLE_VARIABLE} else {})
    + (if SameModel(l, r) then {MODEL_VARIABLE} else {})
    + (if SameModel(l, r) && Truthy(l.settings) && l.settings == r.settings then {SETTINGS_VARIABLE} else {})
  }

  predicate Compatible(l: Facts, r: Facts) {
    Mismatched(l, r) == {}
  }

  ghost predicate SameFields(l: Facts, r: Facts) {
    forall k :: Get(l.config, k) == Get(r.config, k)
  }

  /** The same frozen settings and the same recorded sample. */
  ghost predicate SameSetting(l: Facts, r: Facts) {
    SameFields(l, r) && Truthy(l.sample) && l.sample == r.sample
  }

  /** Two records of one model and one setting that disagree on their settings hash: at least one
      of them contradicts itself. */
  ghost predicate Clash(l: Facts, r: Facts) {
    && SameSetting(l, r) && SameModel(l, r)
    && Truthy(l.settings) && Truthy(r.settings) && l.settings != r.settings
  }

  /** No field differs exactly when all fields read the same. */
  lemma NoFieldDiffers(l: Facts, r: Facts)
    ensures DifferingFields(l, r) == {} <==> SameFields(l, r)
  {
    if DifferingFields(l, r) == {} {
      forall k ensures Get(l.config, k) == Get(r.config, k) {
        assert k !in DifferingFields(l, r);
      }
    }
  }

  /** Compatible means the same setting without a clash. */
  lemma CompatibleIff(l: Facts, r: Facts)
    ensures Compatible(l, r) <==> SameSetting(l, r) && !Clash(l, r)
  {
    NoFieldDiffers(l, r);
    var fields, all := DifferingFields(l, r), Mismatched(l, r);
    assert fields <= all;
    assert !Truthy(l.sample) || !Truthy(r.sample) ==> NO_SAMPLE in all;
    assert Truthy(l.sample) && Truthy(r.sample) && l.sample != r.sample ==> SAMPLE_VARIABLE in all;
    assert Clash(l, r) ==> SETTINGS_VARIABLE in all;
  }

  /** The rule does not depend on the order of a pair, and relates to itself whatever it relates. */
  lemma CompatibleIsLawful(l: Facts, r: Facts)
    requires Compatible(l, r)
    ensures Compatible(r, l) && Compatible(l, l)
  {
    CompatibleIff(l, r);
    CompatibleIff(r, l);
    CompatibleIff(l, l);
  }

  /** Two clashing records and a third of the same setting that clashes with neither: it is of another
      model, or it records no settings hash. */
  ghost predicate BridgesClash(a: Facts, b: Facts, c: Facts) {
    Clash(a, c) && SameSetting(a, b) && (!SameModel(a, b) || !Truthy(b.settings))
  }

  /** This is the only way in which compatibility fails to be transitive. */
  lemma BridgesClashIff(a: Facts, b: Facts, c: Facts)
    ensures BridgesClash(a, b, c) <==> Compatible(a, b) && Compatible(b, c) && !Compatible(a, c)
  {
    CompatibleIff(a, b);
    CompatibleIff(b, c);
    CompatibleIff(a, c);
    SettingsChain(a, b, c);
  }

  lemma SettingsChain(a: Facts, b: Facts, c: Facts)
    ensures SameSetting(a, b) && SameSetting(b, c) ==> SameSetting(a, c)
    ensures SameSetting(a, b) && SameSetting(a, c) ==> SameSetting(b, c)
  {
  }

  // ---------------------------------------------------------------- shared variables

  /** A compared config field that is present but null, named like one of the two hashes that stand
      beside the config while the record also has that hash. */
  predicate Ambiguous(f: Facts) {
    && f.model != Null
    && (|| (MODEL_VARIABLE in f.config && f.config[MODEL_VARIABLE] == Null)
        || (SETTINGS_VARIABLE in f.config && f.config[SETTINGS_VARIABLE] == Null && Truthy(f.settings)))
  }

  predicate SameField(l: Facts, r: Facts, k: string) {
    k in l.config && k in r.config && l.config[k] == r.config[k]
  }

  /** The ways in which two records share a name. */
  lemma UnchangedIff(l: Facts, r: Facts, name: string)
    ensures name in Unchanged(l, r) <==>
            || SameField(l, r, name)
            || (name == SAMPLE_VARIABLE && Truthy(l.sample) && Truthy(r.sample) && l.sample == r.sample)
            || (name == MODEL_VARIABLE && SameModel(l, r))
            || (name == SETTINGS_VARIABLE && SameModel(l, r) && Truthy(l.settings) && l.settings == r.settings)
  {
  }

  lemma NamesDiffer()
    ensures MODEL_VARIABLE != SETTINGS_VARIABLE && SETTINGS_VARIABLE != SAMPLE_VARIABLE
    ensures SAMPLE_VARIABLE != MODEL_VARIABLE
  {
    assert MODEL_VARIABLE[1] != SETTINGS_VARIABLE[1] && SETTINGS_VARIABLE[1] != SAMPLE_VARIABLE[1];
    assert SAMPLE_VARIABLE[1] != MODEL_VARIABLE[1];
  }

  /** What an unambiguous record shares with two it is compatible with, those two share. */
  lemma SharedThroughFirst(f: Facts, x: Facts, y: Facts, name: string)
    requires !Ambiguous(f)
    requires Compatible(f, x) && Compatible(f, y)
    requires name in Unchanged(f, x) && name in Unchanged(f, y)
    ensures name in Unchanged(x, y)
  {
    CompatibleIff(f, x);
    CompatibleIff(f, y);
    UnchangedIff(f, x, name);
    UnchangedIff(f, y, name);
    UnchangedIff(x, y, name);
    NamesDiffer();
    assert Get(f.config, name) == Get(x.config, name) == Get(y.config, name);
  }

  /** An ambiguous record, one like it of another model, and one like it without the field: all are
      compatible; the first shares the name with the second as a field and with the third as a hash, and
      those two do not share it. */
  lemma AmbiguousBreaksStar(f: Facts, x: Facts, y: Facts, name: string)
    requires Truthy(f.sample) && AmbiguousIn(f, name)
    requires x == f.(model := x.model) && x.model != Null && x.model != f.model
    requires y == f.(config := f.config - {name})
    ensures Compatible(f, x) && Compatible(f, y) && Compatible(x, y)
    ensures name in Unchanged(f, x) && name in Unchanged(f, y) && name !in Unchanged(x, y)
  {
    assert SameFields(f, x) && SameFields(f, y) && SameFields(x, y);
    CompatibleIff(f, x);
    CompatibleIff(f, y);
    CompatibleIff(x, y);
    UnchangedIff(f, x, name);
    UnchangedIff(f, y, name);
    UnchangedIff(x, y, name);
    NamesDiffer();
  }

  lemma AmbiguousName(f: Facts) returns (name: string)
    requires Ambiguous(f)
    ensures AmbiguousIn(f, name)
  {
    name := if AmbiguousIn(f, MODEL_VARIABLE) then MODEL_VARIABLE else SETTINGS_VARIABLE;
  }

  predicate AmbiguousIn(f: Facts, name: string) {
    && f.model != Null && name in f.config && f.config[name] == Null
    && (name == MODEL_VARIABLE || (name == SETTINGS_VARIABLE && Truthy(f.settings)))
  }

  // ---------------------------------------------------------------- records with given facts

  /** The same record of another model. */
  lemma OtherModel(f: Record) returns (x: Record)
    requires ModelHash(f) != Null
    ensures FactsOf(x) == FactsOf(f).(model := ModelHash(x)) && ModelHash(x) != Null && ModelHash(x) != ModelHash(f)
    ensures CompleteScore(x) <==> CompleteScore(f)
  {
    var other := if ModelHash(f) == Str("a") then Str("b") else Str("a");
    var provenance := Mapping(f, "provenance")[MODEL_VARIABLE := other];
    x := f["provenance" := Obj(provenance)];
    NamesDiffer();
    SameBeside(f, "provenance", Obj(provenance));
  }

  /** The same record without one compared field. */
  lemma WithoutField(f: Record, name: string) returns (y: Record)
    requires name == MODEL_VARIABLE || name == SETTINGS_VARIABLE
    requires name in ComparedConfig(f)
    ensures FactsOf(y) == FactsOf(f).(config := ComparedConfig(f) - {name})
    ensures CompleteScore(y) <==> CompleteScore(f)
  {
    var config := Mapping(f, "config");
    y := f["config" := Obj(config - {name})];
    FieldsWithout(config, name);
    SameBeside(f, "config", Obj(config - {name}));
    SameHashes(f, y);
  }

  lemma SameHashes(f: Record, y: Record)
    requires Mapping(y, "provenance") == Mapping(f, "provenance") && Get(y, "score") == Get(f, "score")
    requires Get(y, SETTINGS_VARIABLE) == Get(f, SETTINGS_VARIABLE)
    ensures SampleHash(y) == SampleHash(f) && ModelHash(y) == ModelHash(f) && SettingsHash(y) == SettingsHash(f)
    ensures CompleteScore(y) <==> CompleteScore(f)
  {
  }

  /** Replacing one part of a record leaves the rest as it is. */
  lemma SameBeside(f: Record, key: string, value: Json)
    requires key == "config" || key == "provenance"
    ensures Get(f[key := value], key) == value
    ensures key == "config" ==> Mapping(f[key := value], "provenance") == Mapping(f, "provenance")
    ensures key == "provenance" ==> Mapping(f[key := value], "config") == Mapping(f, "config")
    ensures Get(f[key := value], "score") == Get(f, "score")
    ensures Get(f[key := value], SETTINGS_VARIABLE) == Get(f, SETTINGS_VARIABLE)
  {
    assert "config"[0] == 'c' && "provenance"[0] == 'p' && "score"[0] == SETTINGS_VARIABLE[0] == 's';
  }

  lemma FieldsWithout(config: Record, name: string)
    requires name == MODEL_VARIABLE || name == SETTINGS_VARIABLE
    ensures PlainFields(config - {name}) == PlainFields(config) - {name}
    ensures ScoringFields(config - {name}) == ScoringFields(config)
    ensures name !in ScoringFields(config)
    ensures PlainFields(config) - {name} + ScoringFields(config) == PlainFields(config) + ScoringFields(config) - {name}
  {
    assert name[1] != 'c' && "scoring"[1] == 'c';
    assert Get(config - {name}, "scoring") == Get(config, "scoring");
    forall sub ensures Dotted(sub) != name {
      assert Dotted(sub)[1] == 'c';
    }
  }

  /** A scored record of a given model and settings hash, with no config field, or one null field. */
  lemma PlainRecord(config: Record, model: string, settings: Json) returns (r: Record)
    requires config == map[] || config == map[MODEL_VARIABLE := Null]
    ensures FactsOf(r) == Facts(config, Str("s"), Str(model), settings) && CompleteScore(r)
  {
    var provenance: Record := map[SAMPLE_VARIABLE := Str("s"), MODEL_VARIABLE := Str(model),
                                  SETTINGS_VARIABLE := settings];
    NamesDiffer();
    r := ThreePartRecord(config, provenance, map["mri" := Int(1)]);
    ConfigWithoutScoring(config);
    ScoreOnly(map["mri" := Int(1)]);
  }

  lemma ScoreOnly(score: Record)
    requires score == map["mri" := Int(1)]
    ensures Get(score, "mri") != Null && Get(score, SETTINGS_VARIABLE) == Null
  {
    assert SETTINGS_VARIABLE[0] == 's' && "mri"[0] == 'm';
  }

  lemma ThreePartRecord(config: Record, provenance: Record, score: Record) returns (r: Record)
    ensures Mapping(r, "config") == config && Mapping(r, "provenance") == provenance
    ensures Get(r, "score") == Obj(score) && Get(r, SETTINGS_VARIABLE) == Null
  {
    assert SETTINGS_VARIABLE[1] == 'e' && "provenance"[1] == 'r' && "config"[1] == 'o' && "score"[1] == 'c';
    r := map["provenance" := Obj(provenance), "config" := Obj(config), "score" := Obj(score)];
  }

  lemma ConfigWithoutScoring(config: Record)
    requires config == map[] || config == map[MODEL_VARIABLE := Null]
    ensures PlainFields(config) + ScoringFields(config) == config
  {
    assert "scoring" !in config by {
      assert "scoring"[0] != MODEL_VARIABLE[0];
    }
    assert Mapping(config, "scoring") == map[];
    assert !Ignored(MODEL_VARIABLE);
  }
}
