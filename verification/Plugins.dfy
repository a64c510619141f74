/** The id-keyed registry and the idempotent loader of attack plugins. */
module Plugins {
  import opened Wrappers

  /** An adapter instance: every call of a factory makes a new one, told apart by its serial number. */
  datatype Adapter = Adapter(id: string, serial: nat)

  type Items = map<string, Adapter>

  datatype RegistryError = MissingId | DuplicateRegistration

  class Registry {
    var items: Items

    constructor ()
      ensures items == map[]
    {
      items := map[];
    }

    /** Add an item under its id; an id is never taken over. */
    method Register(item: Adapter) returns (r: Result<Adapter, RegistryError>)
      modifies this
      ensures item.id == "" ==> r == Failure(MissingId) && items == old(items)
      ensures item.id != "" && item.id in old(items) ==> r == Failure(DuplicateRegistration) && items == old(items)
      ensures item.id != "" && item.id !in old(items) ==> r == Success(item) && items == old(items)[item.id := item]
    {
      if item.id == "" {
        return Failure(MissingId);
      }
      if item.id in items {
        return Failure(DuplicateRegistration);
      }
      items := items[item.id := item];
      return Success(item);
    }

    function MaybeGet(id: string): Option<Adapter>
      reads this
    {
      if id in items then Some(items[id]) else None
    }
  }

  // ---------------------------------------------------------------- entry points

  /** What loading and calling an entry point's factory gives, the same every time. */
  datatype Made =
    | FactoryFails
    | NotAnAdapter
    | NoId
    | Item(id: string, capabilitiesOk: bool)

  /** The verifier's finding on an entry point, the same every time. */
  datatype Finding = Verified(keyId: string) | Unverified(reason: string)

  datatype EntryPoint = EntryPoint(
    name: string, distribution: Option<string>, version: Option<string>, made: Made, finding: Finding)

  datatype Key = Key(name: string, distribution: Option<string>, version: Option<string>)

  function KeyOf(ep: EntryPoint): Key {
    Key(ep.name, ep.distribution, ep.version)
  }

  datatype Status = Loaded | Rejected | Skipped

  datatype Detail =
    | NoDetail
    | NotAllowlisted
    | FactoryFailed
    | ProtocolUnmet
    | IdMissing
    | CapabilityCheckFailed
    | SignatureRejected(reason: string)
    | AlreadyRegistered
    | RegistrationFailed

  datatype Row = Row(name: string, distribution: Option<string>, version: Option<string>, status: Status,
                     detail: Detail, signature: Option<string>)

  type Memory = map<Key, (Row, Adapter)>

  /** The environment of a scan: the distribution allowlist and whether signatures are enforced. */
  datatype Settings = Settings(allow: Option<set<string>>, enforceSignatures: bool)

  predicate Allowed(settings: Settings, ep: EntryPoint) {
    settings.allow.None? || (ep.distribution.Some? && ep.distribution.value in settings.allow.value)
  }

  function Info(ep: EntryPoint, name: string, status: Status, detail: Detail, signature: Option<string>): Row {
    Row(name, ep.distribution, ep.version, status, detail, signature)
  }

  /** The checks on a made item, in order, against the ids registered so far. */
  function Judge(settings: Settings, items: Items, ep: EntryPoint): Row {
    match ep.made
    case FactoryFails => Info(ep, ep.name, Rejected, FactoryFailed, None)
    case NotAnAdapter => Info(ep, ep.name, Rejected, ProtocolUnmet, None)
    case NoId => Info(ep, ep.name, Rejected, IdMissing, None)
    case Item(id, capabilitiesOk) =>
      if id == "" then Info(ep, ep.name, Rejected, IdMissing, None)
      else if !capabilitiesOk then Info(ep, ep.name, Rejected, CapabilityCheckFailed, None)
      else if settings.enforceSignatures && ep.finding.Unverified? then
        Info(ep, ep.name, Rejected, SignatureRejected(ep.finding.reason), None)
      else if id in items then Info(ep, id, Rejected, AlreadyRegistered, None)
      else Info(ep, id, Loaded, NoDetail, if settings.enforceSignatures then Some(ep.finding.keyId) else None)
  }

  // ---------------------------------------------------------------- specification of a scan

  /** The registry, the loader's memory, and how many adapters have been made. */
  datatype State = State(items: Items, memory: Memory, made: nat)

  /** The entry point is remembered and its adapter is still the registered one. */
  predicate Remembered(s: State, key: Key) {
    && key in s.memory
    && s.memory[key].0.name in s.items
    && s.items[s.memory[key].0.name] == s.memory[key].1
  }

  /** One entry point: the row it yields and the state after it. */
  function ScanOne(settings: Settings, register: bool, s: State, ep: EntryPoint): (State, Row) {
    var key := KeyOf(ep);
    if !Allowed(settings, ep) then (s, Info(ep, ep.name, Skipped, NotAllowlisted, None))
    else if Remembered(s, key) then (s, s.memory[key].0)
    else
      var forgotten := s.memory - {key};
      var row := Judge(settings, s.items, ep);
      var made := s.made + if ep.made.FactoryFails? then 0 else 1;
      if row.status.Loaded? && register then
        var adapter := Adapter(row.name, s.made);
        (State(s.items[row.name := adapter], forgotten[key := (row, adapter)], made), row)
      else (State(s.items, forgotten, made), row)
  }

  function Scan(settings: Settings, register: bool, s: State, eps: seq<EntryPoint>): (State, seq<Row>)
    decreases |eps|
  {
    if eps == [] then (s, [])
    else
      var (s', row) := ScanOne(settings, register, s, eps[0]);
      var (s'', rows) := Scan(settings, register, s', eps[1..]);
      (s'', [row] + rows)
  }

  /** The distribution of the entry point is not on the allowlist, if there is one. */
  predicate ShutOut(settings: Settings, ep: EntryPoint) {
    settings.allow.Some? && (ep.distribution.None? || ep.distribution.value !in settings.allow.value)
  }

  /** The entry point makes an adapter with an id and sound capabilities, verified where that is enforced. */
  predicate Conforms(settings: Settings, ep: EntryPoint) {
    ep.made.Item? && ep.made.id != "" && ep.made.capabilitiesOk && (settings.enforceSignatures ==> ep.finding.Verified?)
  }

  /** The row of an entry point that is scanned afresh: loaded under its id when it conforms and the id is
      free; otherwise rejected for the first of the reasons that applies. */
  predicate FreshRow(settings: Settings, items: Items, ep: EntryPoint, row: Row) {
    && row.distribution == ep.distribution && row.version == ep.version
    && (row.status == Loaded <==> Conforms(settings, ep) && ep.made.id !in items)
    && (row.status == Rejected <==> !(Conforms(settings, ep) && ep.made.id !in items))
    && (row.detail == NoDetail <==> row.status == Loaded)
    && (row.detail == AlreadyRegistered <==> Conforms(settings, ep) && ep.made.id in items)
    && (row.detail == FactoryFailed <==> ep.made == FactoryFails)
    && (row.detail == ProtocolUnmet <==> ep.made == NotAnAdapter)
    && (row.detail == IdMissing <==> ep.made == NoId || (ep.made.Item? && ep.made.id == ""))
    && (row.detail == CapabilityCheckFailed <==> ep.made.Item? && ep.made.id != "" && !ep.made.capabilitiesOk)
    && (row.detail.SignatureRejected? <==>
          && ep.made.Item? && ep.made.id != "" && ep.made.capabilitiesOk
          && settings.enforceSignatures && ep.finding.Unverified?)
    && (row.detail.SignatureRejected? ==> row.detail.reason == ep.finding.reason)
    && row.name == (if Conforms(settings, ep) then ep.made.id else ep.name)
    && row.signature == (if row.status == Loaded && settings.enforceSignatures then Some(ep.finding.keyId) else None)
  }

  /** What one entry point does, branch by branch: shut out, it is skipped; remembered under its name,
      distribution and version with its adapter still registered, it repeats its row; otherwise it is
      scanned afresh, and its adapter registered and remembered when it is loaded to be registered. */
  lemma ScanOneTold(settings: Settings, register: bool, s: State, ep: EntryPoint)
    ensures var (s', row) := ScanOne(settings, register, s, ep);
            var key := Key(ep.name, ep.distribution, ep.version);
            if ShutOut(settings, ep) then
              s' == s && row == Row(ep.name, ep.distribution, ep.version, Skipped, NotAllowlisted, None)
            else if && key in s.memory && s.memory[key].0.name in s.items
                    && s.items[s.memory[key].0.name] == s.memory[key].1 then
              s' == s && row == s.memory[key].0
            else
              && FreshRow(settings, s.items, ep, row)
              && s'.made == s.made + (if ep.made == FactoryFails then 0 else 1)
              && (if row.status == Loaded && register then
                    var adapter := Adapter(ep.made.id, s.made);
                    && s'.items == s.items[ep.made.id := adapter]
                    && s'.memory == s.memory[key := (row, adapter)]
                  else s'.items == s.items && s'.memory == s.memory - {key})
  {
  }

  // ---------------------------------------------------------------- the loader

  class Loader {
    const attacks: Registry
    var memory: Memory
    var made: nat

    ghost function View(): State
      reads this, attacks
    {
      State(attacks.items, memory, made)
    }

    constructor (attacks: Registry)
      ensures this.attacks == attacks && memory == map[] && made == 0
    {
      this.attacks := attacks;
      memory, made := map[], 0;
    }

    method ScanEntryPoint(settings: Settings, register: bool, ep: EntryPoint) returns (row: Row)
      modifies this, attacks
      ensures (View(), row) == ScanOne(settings, register, old(View()), ep)
    {
      if !Allowed(settings, ep) {
        return Info(ep, ep.name, Skipped, NotAllowlisted, None);
      }
      var key := KeyOf(ep);
      if key in memory {
        var registered := attacks.MaybeGet(memory[key].0.name);
        if registered == Some(memory[key].1) {
          return memory[key].0;
        }
        memory := memory - {key};
      }
      assert memory == old(memory) - {key};
      if ep.made.FactoryFails? {
        return Info(ep, ep.name, Rejected, FactoryFailed, None);
      }
      var serial := made;
      made := made + 1;
      if ep.made.NotAnAdapter? {
        return Info(ep, ep.name, Rejected, ProtocolUnmet, None);
      }
      if ep.made.NoId? || ep.made.id == "" {
        return Info(ep, ep.name, Rejected, IdMissing, None);
      }
      if !ep.made.capabilitiesOk {
        return Info(ep, ep.name, Rejected, CapabilityCheckFailed, None);
      }
      var signature: Option<string> := None;
      if settings.enforceSignatures {
        if ep.finding.Unverified? {
          return Info(ep, ep.name, Rejected, SignatureRejected(ep.finding.reason), None);
        }
        signature := Some(ep.finding.keyId);
      }
      var item := Adapter(ep.made.id, serial);
      var registered := attacks.MaybeGet(item.id);
      if registered.Some? {
        return Info(ep, item.id, Rejected, AlreadyRegistered, None);
      }
      row := Info(ep, item.id, Loaded, NoDetail, signature);
      if register {
        var r := attacks.Register(item);
        if r.Failure? {
          return Info(ep, item.id, Rejected, RegistrationFailed, None);
        }
        memory := memory[key := (row, item)];
      }
    }

    /** Walk the entry points once; the rows they yield. */
    method ScanEntryPoints(settings: Settings, register: bool, eps: seq<EntryPoint>) returns (rows: seq<Row>)
      modifies this, attacks
      ensures (View(), rows) == Scan(settings, register, old(View()), eps)
    {
      rows := [];
      ghost var start := View();
      assert eps[0..] == eps;
      assert forall rest: seq<Row> :: [] + rest == rest;
      for i := 0 to |eps|
        invariant var (s, rest) := Scan(settings, register, View(), eps[i..]);
                  Scan(settings, register, start, eps) == (s, rows + rest)
      {
        assert eps[i..][1..] == eps[i + 1..];
        ghost var s := View();
        var row := ScanEntryPoint(settings, register, eps[i]);
        assert forall rest: seq<Row> :: rows + ([row] + rest) == (rows + [row]) + rest;
        rows := rows + [row];
      }
      assert eps[|eps|..] == [] && rows + [] == rows;
    }
  }

  // ---------------------------------------------------------------- idempotence

  /** A scan's outcome for one entry point that a further scan would only repeat. */
  ghost predicate Settled(settings: Settings, s: State, ep: EntryPoint, row: Row) {
    if !Allowed(settings, ep) then row == Info(ep, ep.name, Skipped, NotAllowlisted, None)
    else if Remembered(s, KeyOf(ep)) then row == s.memory[KeyOf(ep)].0
    else KeyOf(ep) !in s.memory && row == Judge(settings, s.items, ep) && row.status.Rejected?
  }

  /** Rows the loader remembers are `loaded` rows of adapters made before now. */
  ghost predicate Sane(s: State) {
    forall key | key in s.memory :: SaneEntry(s, s.memory[key])
  }

  ghost predicate SaneEntry(s: State, entry: (Row, Adapter)) {
    entry.0.status.Loaded? && entry.1.id == entry.0.name && entry.1.serial < s.made
  }

  /** No later entry point that was loaded has the key of an earlier one that was rejected. */
  ghost predicate ShadowFree(eps: seq<EntryPoint>, rows: seq<Row>)
    requires |rows| == |eps|
  {
    forall i, j | 0 <= i < j < |eps| && KeyOf(eps[i]) == KeyOf(eps[j]) ::
      !(rows[i].status.Rejected? && rows[j].status.Loaded?)
  }

  lemma {:induction false} ScanLength(settings: Settings, register: bool, s: State, eps: seq<EntryPoint>)
    ensures |Scan(settings, register, s, eps).1| == |eps|
    decreases |eps|
  {
    if eps != [] {
      ScanLength(settings, register, ScanOne(settings, register, s, eps[0]).0, eps[1..]);
    }
  }

  /** No registered id is ever rebound, whatever is scanned. */
  lemma {:induction false} NothingRebound(settings: Settings, register: bool, s: State, eps: seq<EntryPoint>)
    ensures var s' := Scan(settings, register, s, eps).0;
            forall id | id in s.items :: id in s'.items && s'.items[id] == s.items[id]
    ensures !register ==> Scan(settings, register, s, eps).0.items == s.items
    decreases |eps|
  {
    if eps != [] {
      NothingRebound(settings, register, ScanOne(settings, register, s, eps[0]).0, eps[1..]);
    }
  }

  /** A registering scan of an entry point settles it. */
  lemma ScanSettles(settings: Settings, s: State, ep: EntryPoint)
    requires Sane(s)
    ensures var (s', row) := ScanOne(settings, true, s, ep); Settled(settings, s', ep, row) && Sane(s')
  {
  }

  /** Scanning another entry point leaves it settled, unless that one takes over its key. */
  lemma StaysSettled(settings: Settings, s: State, ep: EntryPoint, row: Row, other: EntryPoint)
    requires Sane(s) && Settled(settings, s, ep, row)
    requires KeyOf(ep) == KeyOf(other) ==>
               !(row.status.Rejected? && ScanOne(settings, true, s, other).1.status.Loaded?)
    ensures Settled(settings, ScanOne(settings, true, s, other).0, ep, row)
  {
  }

  lemma {:induction false} StaysSettledThroughout(settings: Settings, s: State, ep: EntryPoint, row: Row,
                                                  eps: seq<EntryPoint>)
    requires Sane(s) && Settled(settings, s, ep, row)
    requires var rows := Scan(settings, true, s, eps).1;
             |rows| == |eps| && forall j | 0 <= j < |eps| && KeyOf(eps[j]) == KeyOf(ep) ::
               !(row.status.Rejected? && rows[j].status.Loaded?)
    ensures Settled(settings, Scan(settings, true, s, eps).0, ep, row)
    ensures Sane(Scan(settings, true, s, eps).0)
    decreases |eps|
  {
    if eps != [] {
      var (s', first) := ScanOne(settings, true, s, eps[0]);
      var rows := Scan(settings, true, s, eps).1;
      assert rows[0] == first && rows[1..] == Scan(settings, true, s', eps[1..]).1;
      ScanSettles(settings, s, eps[0]);
      StaysSettled(settings, s, ep, row, eps[0]);
      forall j | 0 <= j < |eps[1..]| && KeyOf(eps[1..][j]) == KeyOf(ep)
        ensures !(row.status.Rejected? && rows[1..][j].status.Loaded?)
      {
        assert eps[1..][j] == eps[j + 1] && rows[1..][j] == rows[j + 1];
      }
      StaysSettledThroughout(settings, s', ep, row, eps[1..]);
    }
  }

  /** After a registering scan without shadowing, every entry point is settled. */
  lemma {:induction false} LoadSettles(settings: Settings, s: State, eps: seq<EntryPoint>)
    requires Sane(s)
    requires |Scan(settings, true, s, eps).1| == |eps| && ShadowFree(eps, Scan(settings, true, s, eps).1)
    ensures var (s', rows) := Scan(settings, true, s, eps);
            forall i | 0 <= i < |eps| :: Settled(settings, s', eps[i], rows[i])
    decreases |eps|
  {
    if eps != [] {
      var (s', first) := ScanOne(settings, true, s, eps[0]);
      var (final, rows) := Scan(settings, true, s, eps);
      assert rows[0] == first && rows[1..] == Scan(settings, true, s', eps[1..]).1;
      ScanSettles(settings, s, eps[0]);
      forall j | 0 <= j < |eps[1..]| && KeyOf(eps[1..][j]) == KeyOf(eps[0])
        ensures !(first.status.Rejected? && rows[1..][j].status.Loaded?)
      {
        assert eps[1..][j] == eps[j + 1] && rows[1..][j] == rows[j + 1];
      }
      StaysSettledThroughout(settings, s', eps[0], first, eps[1..]);
      assert ShadowFree(eps[1..], rows[1..]);
      LoadSettles(settings, s', eps[1..]);
      forall i | 0 <= i < |eps| ensures Settled(settings, final, eps[i], rows[i]) {
        if i > 0 {
          assert eps[1..][i - 1] == eps[i] && rows[1..][i - 1] == rows[i];
        }
      }
    }
  }

  /** Scanning settled entry points, registering or not, repeats their rows and changes nothing but
      the number of adapters made. */
  lemma {:induction false} SettledRepeats(settings: Settings, register: bool, s: State, eps: seq<EntryPoint>,
                                          rows: seq<Row>)
    requires |rows| == |eps| && forall i | 0 <= i < |eps| :: Settled(settings, s, eps[i], rows[i])
    ensures var (s', again) := Scan(settings, register, s, eps);
            again == rows && s'.items == s.items && s'.memory == s.memory
    decreases |eps|
  {
    if eps != [] {
      var s' := ScanOne(settings, register, s, eps[0]).0;
      assert Settled(settings, s, eps[0], rows[0]);
      assert s.memory - {KeyOf(eps[0])} == s.memory || KeyOf(eps[0]) in s.memory;
      assert s'.items == s.items && s'.memory == s.memory;
      forall i | 0 <= i < |eps[1..]| ensures Settled(settings, s', eps[1..][i], rows[1..][i]) {
        assert Settled(settings, s, eps[i + 1], rows[i + 1]);
      }
      SettledRepeats(settings, register, s', eps[1..], rows[1..]);
      assert rows == [rows[0]] + rows[1..];
    }
  }

  /** What a second scan of the same entry points gives. */
  ghost predicate Repeats(settings: Settings, register: bool, s: State, eps: seq<EntryPoint>) {
    var (s1, rows) := Scan(settings, true, s, eps);
    var (s2, again) := Scan(settings, register, s1, eps);
    again == rows && s2.items == s1.items && s2.memory == s1.memory
  }

  /** In terms of the load's rows: a second scan repeats the first exactly when no loaded entry point has
      the key of an earlier rejected one. */
  lemma RepeatsIffShadowFree(settings: Settings, register: bool, s: State, eps: seq<EntryPoint>)
    requires Sane(s)
    ensures |Scan(settings, true, s, eps).1| == |eps|
    ensures Repeats(settings, register, s, eps) <==> ShadowFree(eps, Scan(settings, true, s, eps).1)
  {
    ScanLength(settings, true, s, eps);
    var (s1, rows) := Scan(settings, true, s, eps);
    if ShadowFree(eps, rows) {
      LoadSettles(settings, s, eps);
      SettledRepeats(settings, register, s1, eps, rows);
    } else {
      var i, j :| 0 <= i < j < |eps| && KeyOf(eps[i]) == KeyOf(eps[j])
                  && rows[i].status.Rejected? && rows[j].status.Loaded?;
      LoadedIsRemembered(settings, s, eps, j);
      RejectedIsAllowed(settings, s, eps, i);
      RememberedIsReported(settings, register, s1, eps, i);
    }
  }

  // ---------------------------------------------------------------- the condition before the load

  /** The checks that depend on the entry point alone. */
  predicate Clean(settings: Settings, ep: EntryPoint) {
    && Allowed(settings, ep)
    && ep.made.Item? && ep.made.id != "" && ep.made.capabilitiesOk
    && !(settings.enforceSignatures && ep.finding.Unverified?)
  }

  /** An entry point that a load may register: clean, not remembered, its id not registered. */
  predicate Candidate(settings: Settings, s: State, ep: EntryPoint) {
    Clean(settings, ep) && !Remembered(s, KeyOf(ep)) && ep.made.id !in s.items
  }

  predicate FirstOfKey(eps: seq<EntryPoint>, j: nat)
    requires j < |eps|
  {
    forall i | 0 <= i < j :: KeyOf(eps[i]) != KeyOf(eps[j])
  }

  predicate FirstCandidate(settings: Settings, s: State, eps: seq<EntryPoint>, j: nat)
    requires j < |eps|
  {
    Candidate(settings, s, eps[j]) && FirstOfKey(eps, j)
  }

  /** Entry point `j` is the first of its key, and the first such candidate for its id. */
  predicate Claims(settings: Settings, s: State, eps: seq<EntryPoint>, j: nat)
    requires j < |eps|
  {
    && FirstCandidate(settings, s, eps, j)
    && forall i: nat | i < j && FirstCandidate(settings, s, eps, i) :: eps[i].made.id != eps[j].made.id
  }

  /** Two candidates of one key or one id get in each other's way. */
  predicate Rivals(a: EntryPoint, b: EntryPoint)
    requires a.made.Item? && b.made.Item?
  {
    KeyOf(a) == KeyOf(b) || a.made.id == b.made.id
  }

  /** Every candidate that repeats an earlier key has lost to an earlier claim on its key or its id. */
  predicate Unshadowed(settings: Settings, s: State, eps: seq<EntryPoint>) {
    forall j: nat | j < |eps| && Candidate(settings, s, eps[j]) && !FirstOfKey(eps, j) ::
      exists i: nat | i < j && Claims(settings, s, eps, i) :: Rivals(eps[i], eps[j])
  }

  /** What a load registers, one entry point after the other: a candidate without an earlier winning rival. */
  predicate Wins(settings: Settings, s: State, eps: seq<EntryPoint>, j: nat)
    requires j < |eps|
  {
    && Candidate(settings, s, eps[j])
    && forall i: nat | i < j && Wins(settings, s, eps, i) :: Beside(settings, s, eps, i, j)
  }

  predicate Beside(settings: Settings, s: State, eps: seq<EntryPoint>, i: nat, j: nat)
    requires i < |eps| && j < |eps|
  {
    KeyOf(eps[i]) != KeyOf(eps[j])
    && (eps[i].made.Item? && eps[j].made.Item? ==> eps[i].made.id != eps[j].made.id)
  }

  ghost predicate WinnersAreFirst(settings: Settings, s: State, eps: seq<EntryPoint>, n: nat)
    requires n <= |eps|
  {
    forall j: nat | j < n && Wins(settings, s, eps, j) :: FirstOfKey(eps, j)
  }

  /** As long as winners are first of their key, they are the claims. */
  lemma {:induction false} WinnersClaim(settings: Settings, s: State, eps: seq<EntryPoint>, j: nat)
    requires j < |eps| && WinnersAreFirst(settings, s, eps, j)
    ensures Claims(settings, s, eps, j) ==> Wins(settings, s, eps, j)
    ensures Wins(settings, s, eps, j) && FirstOfKey(eps, j) ==> Claims(settings, s, eps, j)
  {
    if Claims(settings, s, eps, j) {
      forall i: nat | i < j && Wins(settings, s, eps, i) ensures Beside(settings, s, eps, i, j) {
        assert FirstCandidate(settings, s, eps, i);
      }
    }
    if Wins(settings, s, eps, j) && FirstOfKey(eps, j) {
      forall i: nat | i < j && FirstCandidate(settings, s, eps, i) ensures eps[i].made.id != eps[j].made.id {
        var k := Claimant(settings, s, eps, i);
        WinnersClaim(settings, s, eps, k);
        assert Beside(settings, s, eps, k, j);
      }
    }
  }

  /** The first candidate for the id of a first candidate claims it. */
  lemma {:induction false} Claimant(settings: Settings, s: State, eps: seq<EntryPoint>, i: nat) returns (k: nat)
    requires i < |eps| && FirstCandidate(settings, s, eps, i)
    ensures k <= i && Claims(settings, s, eps, k) && eps[k].made.id == eps[i].made.id
  {
    k := i;
    if !Claims(settings, s, eps, i) {
      var h: nat :| h < i && FirstCandidate(settings, s, eps, h) && eps[h].made.id == eps[i].made.id;
      k := Claimant(settings, s, eps, h);
    }
  }

  /** Winners are the first of their key, all of them, exactly when nothing is shadowed. */
  lemma WinnersAreFirstIff(settings: Settings, s: State, eps: seq<EntryPoint>)
    ensures WinnersAreFirst(settings, s, eps, |eps|) <==> Unshadowed(settings, s, eps)
  {
    if Unshadowed(settings, s, eps) {
      UnshadowedWinners(settings, s, eps, |eps|);
    }
    if WinnersAreFirst(settings, s, eps, |eps|) {
      forall j: nat | j < |eps| && Candidate(settings, s, eps[j]) && !FirstOfKey(eps, j)
        ensures exists i: nat | i < j && Claims(settings, s, eps, i) :: Rivals(eps[i], eps[j])
      {
        var i: nat :| i < j && Wins(settings, s, eps, i) && !Beside(settings, s, eps, i, j);
        WinnersClaim(settings, s, eps, i);
        assert Rivals(eps[i], eps[j]);
      }
    }
  }

  lemma {:induction false} UnshadowedWinners(settings: Settings, s: State, eps: seq<EntryPoint>, n: nat)
    requires n <= |eps| && Unshadowed(settings, s, eps)
    ensures WinnersAreFirst(settings, s, eps, n)
  {
    if n > 0 {
      var j := n - 1;
      UnshadowedWinners(settings, s, eps, j);
      if Candidate(settings, s, eps[j]) && !FirstOfKey(eps, j) {
        var i: nat :| i < j && Claims(settings, s, eps, i) && Rivals(eps[i], eps[j]);
        WinnersClaim(settings, s, eps, i);
        assert !Beside(settings, s, eps, i, j);
      }
    }
  }

  // ---------------------------------------------------------------- what a load does, entry by entry

  /** The state before entry point `j` of a load. */
  function StateAt(settings: Settings, s: State, eps: seq<EntryPoint>, j: nat): State
    requires j <= |eps|
  {
    if j == 0 then s else ScanOne(settings, true, StateAt(settings, s, eps, j - 1), eps[j - 1]).0
  }

  function RowAt(settings: Settings, s: State, eps: seq<EntryPoint>, j: nat): Row
    requires j < |eps|
  {
    ScanOne(settings, true, StateAt(settings, s, eps, j), eps[j]).1
  }

  lemma {:induction false} StateFrom(settings: Settings, s: State, eps: seq<EntryPoint>, j: nat)
    requires 1 <= j <= |eps|
    ensures StateAt(settings, s, eps, j) == StateAt(settings, ScanOne(settings, true, s, eps[0]).0, eps[1..], j - 1)
  {
    if j > 1 {
      StateFrom(settings, s, eps, j - 1);
      assert eps[1..][j - 2] == eps[j - 1];
    } else {
      assert StateAt(settings, s, eps, 0) == s;
    }
  }

  /** The rows of a load, one by one. */
  lemma {:induction false} RowsOfLoad(settings: Settings, s: State, eps: seq<EntryPoint>)
    ensures |Scan(settings, true, s, eps).1| == |eps|
    ensures forall j: nat | j < |eps| :: Scan(settings, true, s, eps).1[j] == RowAt(settings, s, eps, j)
    decreases |eps|
  {
    if eps != [] {
      var s' := ScanOne(settings, true, s, eps[0]).0;
      RowsOfLoad(settings, s', eps[1..]);
      forall j: nat | j < |eps| ensures Scan(settings, true, s, eps).1[j] == RowAt(settings, s, eps, j) {
        if j > 0 {
          StateFrom(settings, s, eps, j);
          assert RowAt(settings, s', eps[1..], j - 1) == RowAt(settings, s, eps, j);
        }
      }
    }
  }

  ghost predicate WonId(settings: Settings, s: State, eps: seq<EntryPoint>, j: nat, id: string)
    requires j <= |eps|
  {
    exists i: nat | i < j && Wins(settings, s, eps, i) :: eps[i].made.id == id
  }

  ghost predicate WonKey(settings: Settings, s: State, eps: seq<EntryPoint>, j: nat, key: Key)
    requires j <= |eps|
  {
    exists i: nat | i < j && Wins(settings, s, eps, i) :: KeyOf(eps[i]) == key
  }

  /** The registry and the memory before entry point `j`, told from the winners before it. */
  ghost predicate ToldByWinners(settings: Settings, s: State, eps: seq<EntryPoint>, j: nat, t: State)
    requires j <= |eps|
  {
    && (forall id :: IdTold(settings, s, eps, j, t, id))
    && (forall key :: KeyTold(settings, s, eps, j, t, key))
  }

  ghost predicate IdTold(settings: Settings, s: State, eps: seq<EntryPoint>, j: nat, t: State, id: string)
    requires j <= |eps|
  {
    id in t.items <==> id in s.items || WonId(settings, s, eps, j, id)
  }

  ghost predicate KeyTold(settings: Settings, s: State, eps: seq<EntryPoint>, j: nat, t: State, key: Key)
    requires j <= |eps|
  {
    Remembered(t, key) <==> Remembered(s, key) || WonKey(settings, s, eps, j, key)
  }

  /** A load registers exactly the winners. */
  lemma WinsIffLoaded(settings: Settings, s: State, eps: seq<EntryPoint>, j: nat, t: State)
    requires j < |eps| && ToldByWinners(settings, s, eps, j, t)
    ensures Wins(settings, s, eps, j) <==>
            Clean(settings, eps[j]) && !Remembered(t, KeyOf(eps[j])) && eps[j].made.id !in t.items
  {
    assert KeyTold(settings, s, eps, j, t, KeyOf(eps[j]));
    assert eps[j].made.Item? ==> IdTold(settings, s, eps, j, t, eps[j].made.id);
    if !Wins(settings, s, eps, j) && Candidate(settings, s, eps[j]) {
      var i: nat :| i < j && Wins(settings, s, eps, i) && !Beside(settings, s, eps, i, j);
      assert WonKey(settings, s, eps, j, KeyOf(eps[j])) || WonId(settings, s, eps, j, eps[j].made.id);
    }
  }

  /** The row of an entry point, told from the state before it. */
  lemma RowTold(settings: Settings, t: State, ep: EntryPoint)
    requires Sane(t)
    ensures var row := ScanOne(settings, true, t, ep).1;
            && (row.status.Loaded? <==>
                  || (Allowed(settings, ep) && Remembered(t, KeyOf(ep)))
                  || (Clean(settings, ep) && ep.made.id !in t.items))
            && (row.status.Skipped? <==> !Allowed(settings, ep))
  {
    assert Remembered(t, KeyOf(ep)) ==> SaneEntry(t, t.memory[KeyOf(ep)]);
  }

  /** The state after one entry point: a winner is registered and remembered, nothing else changes what is
      registered or remembered. */
  lemma StateTold(settings: Settings, t: State, ep: EntryPoint)
    requires Sane(t)
    ensures var t', won := ScanOne(settings, true, t, ep).0,
                           Clean(settings, ep) && !Remembered(t, KeyOf(ep)) && ep.made.id !in t.items;
            && Sane(t')
            && (forall id :: id in t'.items <==> id in t.items || (won && id == ep.made.id))
            && (forall id | id in t.items :: t'.items[id] == t.items[id])
            && (forall key :: Remembered(t', key) <==> Remembered(t, key) || (won && key == KeyOf(ep)))
  {
    var t' := ScanOne(settings, true, t, ep).0;
    assert forall key | key in t.memory :: SaneEntry(t, t.memory[key]);
    forall key
      ensures var won := Clean(settings, ep) && !Remembered(t, KeyOf(ep)) && ep.made.id !in t.items;
              Remembered(t', key) <==> Remembered(t, key) || (won && key == KeyOf(ep))
    {
    }
  }

  lemma OneMoreWonId(settings: Settings, s: State, eps: seq<EntryPoint>, j: nat, id: string)
    requires j < |eps|
    ensures WonId(settings, s, eps, j + 1, id) <==>
            WonId(settings, s, eps, j, id) || (Wins(settings, s, eps, j) && eps[j].made.id == id)
  {
    if WonId(settings, s, eps, j, id) {
      var i: nat :| i < j && Wins(settings, s, eps, i) && eps[i].made.id == id;
    }
  }

  lemma OneMoreWonKey(settings: Settings, s: State, eps: seq<EntryPoint>, j: nat, key: Key)
    requires j < |eps|
    ensures WonKey(settings, s, eps, j + 1, key) <==>
            WonKey(settings, s, eps, j, key) || (Wins(settings, s, eps, j) && KeyOf(eps[j]) == key)
  {
    if WonKey(settings, s, eps, j, key) {
      var i: nat :| i < j && Wins(settings, s, eps, i) && KeyOf(eps[i]) == key;
    }
  }

  lemma {:induction false} LoadTold(settings: Settings, s: State, eps: seq<EntryPoint>, j: nat)
    requires Sane(s) && j <= |eps|
    ensures Sane(StateAt(settings, s, eps, j))
    ensures ToldByWinners(settings, s, eps, j, StateAt(settings, s, eps, j))
  {
    if j > 0 {
      LoadTold(settings, s, eps, j - 1);
      StepTold(settings, s, eps, j - 1, StateAt(settings, s, eps, j - 1));
    }
  }

  lemma StepTold(settings: Settings, s: State, eps: seq<EntryPoint>, j: nat, t: State)
    requires j < |eps| && Sane(t) && ToldByWinners(settings, s, eps, j, t)
    ensures Sane(ScanOne(settings, true, t, eps[j]).0)
    ensures ToldByWinners(settings, s, eps, j + 1, ScanOne(settings, true, t, eps[j]).0)
  {
    var n, t' := j + 1, ScanOne(settings, true, t, eps[j]).0;
    WinsIffLoaded(settings, s, eps, j, t);
    StateTold(settings, t, eps[j]);
    forall id ensures IdTold(settings, s, eps, n, t', id) {
      assert IdTold(settings, s, eps, j, t, id);
      OneMoreWonId(settings, s, eps, j, id);
    }
    forall key ensures KeyTold(settings, s, eps, n, t', key) {
      assert KeyTold(settings, s, eps, j, t, key);
      OneMoreWonKey(settings, s, eps, j, key);
    }
  }

  /** Whether entry point `j` is loaded and whether it is skipped, told from the inputs. */
  lemma StatusTold(settings: Settings, s: State, eps: seq<EntryPoint>, j: nat)
    requires Sane(s) && j < |eps|
    ensures RowAt(settings, s, eps, j).status.Loaded? <==>
            Allowed(settings, eps[j])
            && (Remembered(s, KeyOf(eps[j])) || WonKey(settings, s, eps, j, KeyOf(eps[j])) || Wins(settings, s, eps, j))
    ensures RowAt(settings, s, eps, j).status.Skipped? <==> !Allowed(settings, eps[j])
  {
    var t := StateAt(settings, s, eps, j);
    LoadTold(settings, s, eps, j);
    assert KeyTold(settings, s, eps, j, t, KeyOf(eps[j]));
    WinsIffLoaded(settings, s, eps, j, t);
    RowTold(settings, t, eps[j]);
  }

  lemma ShadowFreeIffWinnersFirst(settings: Settings, s: State, eps: seq<EntryPoint>)
    requires Sane(s)
    ensures |Scan(settings, true, s, eps).1| == |eps|
    ensures ShadowFree(eps, Scan(settings, true, s, eps).1) <==> WinnersAreFirst(settings, s, eps, |eps|)
  {
    var rows := Scan(settings, true, s, eps).1;
    RowsOfLoad(settings, s, eps);
    if !WinnersAreFirst(settings, s, eps, |eps|) {
      var j: nat :| j < |eps| && Wins(settings, s, eps, j) && !FirstOfKey(eps, j);
      var i :| 0 <= i < j && KeyOf(eps[i]) == KeyOf(eps[j]);
      LateWinnerShadows(settings, s, eps, i, j);
    }
    if !ShadowFree(eps, rows) {
      var i, j :| 0 <= i < j < |eps| && KeyOf(eps[i]) == KeyOf(eps[j])
                  && rows[i].status.Rejected? && rows[j].status.Loaded?;
      ShadowHasLateWinner(settings, s, eps, i, j);
    }
  }

  lemma LateWinnerShadows(settings: Settings, s: State, eps: seq<EntryPoint>, i: nat, j: nat)
    requires Sane(s) && i < j < |eps| && KeyOf(eps[i]) == KeyOf(eps[j]) && Wins(settings, s, eps, j)
    ensures RowAt(settings, s, eps, i).status.Rejected? && RowAt(settings, s, eps, j).status.Loaded?
  {
    StatusTold(settings, s, eps, i);
    StatusTold(settings, s, eps, j);
    assert Wins(settings, s, eps, i) ==> Beside(settings, s, eps, i, j);
  }

  lemma ShadowHasLateWinner(settings: Settings, s: State, eps: seq<EntryPoint>, i: nat, j: nat)
    requires Sane(s) && i < j < |eps| && KeyOf(eps[i]) == KeyOf(eps[j])
    requires RowAt(settings, s, eps, i).status.Rejected? && RowAt(settings, s, eps, j).status.Loaded?
    ensures !WinnersAreFirst(settings, s, eps, |eps|)
  {
    StatusTold(settings, s, eps, i);
    StatusTold(settings, s, eps, j);
    var k: nat :| k <= j && Wins(settings, s, eps, k) && KeyOf(eps[k]) == KeyOf(eps[j]);
    assert i < k;
    assert !FirstOfKey(eps, k);
  }

  /** The exact condition, on the entry points, the registry and the memory before the load: a re-load and
      a report both repeat the load's rows and leave registry and memory alone, if and only if every
      candidate that repeats an earlier key has lost to an earlier claim. */
  lemma LoadIsIdempotentIff(settings: Settings, register: bool, s: State, eps: seq<EntryPoint>)
    requires Sane(s)
    ensures Repeats(settings, register, s, eps) <==> Unshadowed(settings, s, eps)
  {
    RepeatsIffShadowFree(settings, register, s, eps);
    ShadowFreeIffWinnersFirst(settings, s, eps);
    WinnersAreFirstIff(settings, s, eps);
  }

  // ---------------------------------------------------------------- reachable states

  /** What can happen to registry and memory: a load or a report, any change of the registry by others,
      and the loader's memory being reset. */
  datatype Event =
    | Scanned(settings: Settings, register: bool, eps: seq<EntryPoint>)
    | RegistryChanged(items: Items)
    | MemoryReset

  function AfterEvent(s: State, e: Event): State {
    match e
    case Scanned(settings, register, eps) => Scan(settings, register, s, eps).0
    case RegistryChanged(items) => s.(items := items)
    case MemoryReset => s.(memory := map[])
  }

  /** The state of a process that starts with this registry. */
  function Reached(items: Items, events: seq<Event>): State {
    if events == [] then State(items, map[], 0)
    else AfterEvent(Reached(items, events[..|events| - 1]), events[|events| - 1])
  }

  /** What each event does to registry and memory, and where they start. */
  lemma EventsTold(items: Items, events: seq<Event>, e: Event)
    ensures Reached(items, []).items == items && Reached(items, []).memory == map[]
    ensures var s, s' := Reached(items, events), Reached(items, events + [e]);
            && (e.Scanned? ==> s' == Scan(e.settings, e.register, s, e.eps).0)
            && (e.RegistryChanged? ==> s'.items == e.items && s'.memory == s.memory && s'.made == s.made)
            && (e.MemoryReset? ==> s'.items == s.items && s'.memory == map[] && s'.made == s.made)
  {
    assert (events + [e])[..|events|] == events;
  }

  lemma ScanOneIsSane(settings: Settings, register: bool, s: State, ep: EntryPoint)
    requires Sane(s)
    ensures Sane(ScanOne(settings, register, s, ep).0)
  {
    var s' := ScanOne(settings, register, s, ep).0;
    forall key | key in s'.memory ensures SaneEntry(s', s'.memory[key]) {
      assert key in s.memory && s'.memory[key] == s.memory[key] ==> SaneEntry(s, s.memory[key]);
    }
  }

  lemma {:induction false} ScanIsSane(settings: Settings, register: bool, s: State, eps: seq<EntryPoint>)
    requires Sane(s)
    ensures Sane(Scan(settings, register, s, eps).0)
    decreases |eps|
  {
    if eps != [] {
      ScanOneIsSane(settings, register, s, eps[0]);
      ScanIsSane(settings, register, ScanOne(settings, register, s, eps[0]).0, eps[1..]);
    }
  }

  /** Every state a process reaches is one the theorems apply to. */
  lemma {:induction false} ReachedIsSane(items: Items, events: seq<Event>)
    ensures Sane(Reached(items, events))
  {
    if events != [] {
      ReachedIsSane(items, events[..|events| - 1]);
      var e := events[|events| - 1];
      if e.Scanned? {
        ScanIsSane(e.settings, e.register, Reached(items, events[..|events| - 1]), e.eps);
      }
    }
  }

  /** Two entry points under one key, the first rejected and the second loaded: the first one's
      rejection turns into the second one's `loaded` row on the next scan. */
  lemma ShadowedKeyChangesItsRow(register: bool)
    ensures var broken := EntryPoint("fgsm", None, None, FactoryFails, Unverified("unsigned"));
            var eps := [broken, broken.(made := Item("fgsm", true))];
            !Repeats(Settings(None, false), register, State(map[], map[], 0), eps)
  {
    var broken := EntryPoint("fgsm", None, None, FactoryFails, Unverified("unsigned"));
    var good := broken.(made := Item("fgsm", true));
    var settings := Settings(None, false);
    var s := State(map[], map[], 0);
    var (s1, first) := ScanOne(settings, true, s, broken);
    var (s2, second) := ScanOne(settings, true, s1, good);
    var eps := [broken, good];
    assert eps[1..] == [good] && [good][1..] == [];
    assert Scan(settings, true, s1, [good]) == (s2, [second] + []);
    var rows := Scan(settings, true, s, eps).1;
    assert rows == [first] + ([second] + []);
    assert rows[0].status.Rejected? && rows[1].status.Loaded?;
    RepeatsIffShadowFree(settings, register, s, eps);
  }

  /** In particular when the keys are distinct: names within one distribution and version. */
  lemma DistinctKeysAreIdempotent(settings: Settings, register: bool, s: State, eps: seq<EntryPoint>)
    requires Sane(s)
    requires forall i, j | 0 <= i < j < |eps| :: KeyOf(eps[i]) != KeyOf(eps[j])
    ensures Repeats(settings, register, s, eps)
  {
    LoadIsIdempotentIff(settings, register, s, eps);
  }

  /** What a loading scan loaded is remembered at its end. */
  lemma {:induction false} LoadedIsRemembered(settings: Settings, s: State, eps: seq<EntryPoint>, j: nat)
    requires Sane(s) && j < |eps| && |Scan(settings, true, s, eps).1| == |eps|
    requires Scan(settings, true, s, eps).1[j].status.Loaded?
    ensures Remembered(Scan(settings, true, s, eps).0, KeyOf(eps[j]))
    ensures Sane(Scan(settings, true, s, eps).0)
    decreases |eps|
  {
    var (s', first) := ScanOne(settings, true, s, eps[0]);
    var rows := Scan(settings, true, s, eps).1;
    assert rows[0] == first && rows[1..] == Scan(settings, true, s', eps[1..]).1;
    ScanSettles(settings, s, eps[0]);
    if j > 0 {
      assert rows[1..][j - 1] == rows[j];
      LoadedIsRemembered(settings, s', eps[1..], j - 1);
    } else {
      ScanLength(settings, true, s', eps[1..]);
      StaysSettledThroughout(settings, s', eps[0], first, eps[1..]);
    }
  }

  lemma {:induction false} RejectedIsAllowed(settings: Settings, s: State, eps: seq<EntryPoint>, i: nat)
    requires i < |eps| && |Scan(settings, true, s, eps).1| == |eps|
    requires Scan(settings, true, s, eps).1[i].status.Rejected?
    ensures Allowed(settings, eps[i])
    decreases |eps|
  {
    var s' := ScanOne(settings, true, s, eps[0]).0;
    if i > 0 {
      assert Scan(settings, true, s, eps).1[1..] == Scan(settings, true, s', eps[1..]).1;
      RejectedIsAllowed(settings, s', eps[1..], i - 1);
    }
  }

  /** A remembered entry point stays remembered and is reported as loaded. */
  lemma {:induction false} RememberedIsReported(settings: Settings, register: bool, s: State, eps: seq<EntryPoint>,
                                                i: nat)
    requires Sane(s) && i < |eps| && Allowed(settings, eps[i]) && Remembered(s, KeyOf(eps[i]))
    ensures |Scan(settings, register, s, eps).1| == |eps|
    ensures Scan(settings, register, s, eps).1[i].status.Loaded?
    decreases |eps|
  {
    ScanLength(settings, register, s, eps);
    if i > 0 {
      var s' := ScanOne(settings, register, s, eps[0]).0;
      RememberedIsReported(settings, register, s', eps[1..], i - 1);
    }
  }
}
