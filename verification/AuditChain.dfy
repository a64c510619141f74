/** The hash chain itself: how one event continues the previous one, what the
    verifier decides, and why a chain is determined by its last hash. */
module AuditChain {
  import opened Wrappers
  import opened Json
  import opened Octets

  const SCHEMA_VERSION := 1

  /** A sha256 hex digest: 64 lower-case hexadecimal digits. */
  type HexDigest = s: string | IsHexDigest(s) witness seq(64, _ => '0')

  predicate IsHexDigest(s: string) {
    |s| == 64 && AllHex(s)
  }

  /** sha256 over the previous digest followed by the canonical JSON of the payload. */
  type Hasher = (Option<string>, Record) -> HexDigest

  /** The hashed part of a record: every field except its own hash. */
  function Payload(record: Record): Record {
    record - {"this_hash"}
  }

  function ComputeHash(h: Hasher, prev: Option<string>, record: Record): HexDigest {
    h(prev, Payload(record))
  }

  /** The hash a successor of `record` must name. */
  function ThisHash(record: Record): Option<string> {
    match Get(record, "this_hash")
    case Str(s) => Some(s)
    case _ => None
  }

  /** Why the verifier stops at a record. */
  datatype Fault = SeqGap | PrevHashMismatch | UnknownSchemaVersion | HashMismatch

  /** The checks on one record, in the verifier's order. */
  function Check(h: Hasher, record: Record, expectedSeq: int, prev: Option<string>): Option<Fault> {
    if !EqualsInt(Get(record, "seq"), expectedSeq) then Some(SeqGap)
    else if Get(record, "prev_hash") != OptionalString(prev) then Some(PrevHashMismatch)
    else if !EqualsInt(Get(record, "schema_version"), SCHEMA_VERSION) then Some(UnknownSchemaVersion)
    else if Get(record, "this_hash") != Str(ComputeHash(h, prev, record)) then Some(HashMismatch)
    else None
  }

  /** The label of a fault: the first check, in this order, that fails. */
  lemma FaultTold(h: Hasher, record: Record, n: int, prev: Option<string>)
    ensures var fault := Check(h, record, n, prev);
            var numbered, linked := EqualsInt(Get(record, "seq"), n), Get(record, "prev_hash") == OptionalString(prev);
            var known := EqualsInt(Get(record, "schema_version"), 1);
            var hashed := Get(record, "this_hash") == Str(h(prev, record - {"this_hash"}));
            && (fault == Some(SeqGap) <==> !numbered)
            && (fault == Some(PrevHashMismatch) <==> numbered && !linked)
            && (fault == Some(UnknownSchemaVersion) <==> numbered && linked && !known)
            && (fault == Some(HashMismatch) <==> numbered && linked && known && !hashed)
            && (fault == None <==> numbered && linked && known && hashed)
  {
  }

  /** The hash that event `i` must name as its predecessor's. */
  ghost function Before(events: seq<Record>, i: nat): Option<string>
    requires i <= |events|
  {
    if i == 0 then None else ThisHash(events[i - 1])
  }

  /** Event `i` continues the events before it: its number is its position, it names the
      hash of its predecessor, and its own hash is the hash of its payload. */
  ghost predicate Continues(h: Hasher, events: seq<Record>, i: nat)
    requires i < |events|
  {
    && EqualsInt(Get(events[i], "seq"), i + 1)
    && EqualsInt(Get(events[i], "schema_version"), SCHEMA_VERSION)
    && Get(events[i], "prev_hash") == OptionalString(Before(events, i))
    && Get(events[i], "this_hash") == Str(ComputeHash(h, Before(events, i), events[i]))
  }

  /** A chain without gap, fork or altered record. */
  ghost predicate ValidChain(h: Hasher, events: seq<Record>) {
    forall i | 0 <= i < |events| :: Continues(h, events, i)
  }

  /** The first chain id that is not null, as the report names it. */
  function FirstChainId(events: seq<Record>): Json {
    if events == [] then Null
    else
      var earlier := FirstChainId(events[..|events| - 1]);
      if earlier != Null then earlier else Get(events[|events| - 1], "chain_id")
  }

  lemma {:induction false} FirstChainIdTold(events: seq<Record>)
    ensures FirstChainId(events) == Null <==> forall i | 0 <= i < |events| :: Get(events[i], "chain_id") == Null
    ensures FirstChainId(events) != Null ==>
              exists i | 0 <= i < |events| ::
                && FirstChainId(events) == Get(events[i], "chain_id")
                && forall j | 0 <= j < i :: Get(events[j], "chain_id") == Null
  {
    if events != [] {
      FirstChainIdTold(events[..|events| - 1]);
    }
  }

  datatype VerificationResult =
    VerificationResult(verified: bool, count: nat, brokenAt: Json, reason: Option<Fault>, chainId: Json)

  /** Walk an ordered chain and return a verdict. */
  method VerifyChain(h: Hasher, events: seq<Record>) returns (r: VerificationResult)
    ensures r.verified <==> ValidChain(h, events)
    ensures r.verified ==> r.count == |events| && r.brokenAt == Null && r.reason == None
    ensures !r.verified ==>
              && 1 <= r.count <= |events|
              && ValidChain(h, events[..r.count - 1])
              && !ValidChain(h, events[..r.count])
              && r.brokenAt == Get(events[r.count - 1], "seq")
              && r.reason == Check(h, events[r.count - 1], r.count, Before(events, r.count - 1))
              && r.reason.Some?
    ensures r.chainId == FirstChainId(events[..r.count])
  {
    var prevHash: Option<string> := None;
    var expectedSeq := 1;
    var count := 0;
    var chainId := Null;
    while count < |events|
      invariant count <= |events|
      invariant expectedSeq == count + 1
      invariant prevHash == Before(events, count)
      invariant ValidChain(h, events[..count])
      invariant chainId == FirstChainId(events[..count])
    {
      var record := events[count];
      ghost var checked := events[..count];
      count := count + 1;
      assert events[..count] == checked + [record];
      assert events[..count][..count - 1] == checked;
      if chainId == Null {
        chainId := Get(record, "chain_id");
      }
      var fault := Check(h, record, expectedSeq, prevHash);
      if fault.Some? {
        assert !Continues(h, events[..count], count - 1);
        if ValidChain(h, events) {
          PrefixOfValidChain(h, events, count);
        }
        return VerificationResult(false, count, Get(record, "seq"), fault, chainId);
      }
      assert Continues(h, events[..count], count - 1);
      assert forall i | 0 <= i < count - 1 :: Continues(h, checked, i) ==> Continues(h, events[..count], i);
      prevHash := Some(ComputeHash(h, prevHash, record));
      expectedSeq := expectedSeq + 1;
    }
    assert events[..count] == events;
    return VerificationResult(true, count, Null, None, chainId);
  }

  /** Adding one event keeps a chain valid exactly when that event continues it. */
  lemma ValidChainExtends(h: Hasher, events: seq<Record>, record: Record)
    ensures ValidChain(h, events + [record]) <==>
            ValidChain(h, events) && Check(h, record, |events| + 1, Before(events, |events|)) == None
  {
    var longer := events + [record];
    assert forall i | 0 <= i < |events| :: Continues(h, longer, i) <==> Continues(h, events, i);
    assert Before(longer, |events|) == Before(events, |events|);
    assert Continues(h, longer, |events|) <==> Check(h, record, |events| + 1, Before(events, |events|)) == None;
    if ValidChain(h, longer) {
      assert Continues(h, longer, |events|);
    }
  }

  /** Two different inputs with one hash. */
  ghost predicate Collides(h: Hasher, p: Option<string>, r: Record, q: Option<string>, s: Record) {
    (p != q || r != s) && h(p, r) == h(q, s)
  }

  /** The inputs hashed for two events of two chains collide. */
  ghost predicate CollidesAt(h: Hasher, a: seq<Record>, i: nat, b: seq<Record>, j: nat)
    requires i < |a| && j < |b|
  {
    Collides(h, Before(a, i), Payload(a[i]), Before(b, j), Payload(b[j]))
  }

  ghost predicate CollisionBetween(h: Hasher, a: seq<Record>, b: seq<Record>) {
    exists i, j | 0 <= i < |a| && 0 <= j < |b| :: CollidesAt(h, a, i, b, j)
  }

  /** One last hash admits one history: two valid chains that end in the same hash are equal
      record by record, or two of the inputs hashed for them are themselves a collision. So below a
      fixed head no edit, insertion, deletion or reordering verifies unless it exhibits one. */
  lemma HeadDeterminesHistory(h: Hasher, a: seq<Record>, b: seq<Record>)
    requires a != [] && b != []
    requires ValidChain(h, a) && ValidChain(h, b)
    requires ThisHash(a[|a| - 1]) == ThisHash(b[|b| - 1])
    ensures a == b || CollisionBetween(h, a, b)
  {
    RecordsAgree(h, a, |a| - 1, b, |b| - 1);
    if |a| == |b| {
      SameBelow(h, a, b, |a|);
    }
  }

  /** Equal hashes mean equal records, at the same position and after the same hash. */
  lemma RecordsAgree(h: Hasher, a: seq<Record>, m: nat, b: seq<Record>, n: nat)
    requires m < |a| && n < |b|
    requires ValidChain(h, a) && ValidChain(h, b)
    requires ThisHash(a[m]) == ThisHash(b[n])
    ensures CollisionBetween(h, a, b) || (m == n && a[m] == b[n] && Before(a, m) == Before(b, n))
  {
    assert Continues(h, a, m) && Continues(h, b, n);
    if Before(a, m) != Before(b, n) || Payload(a[m]) != Payload(b[n]) {
      assert CollidesAt(h, a, m, b, n);
    } else {
      SamePayloadSameRecord(a[m], b[n]);
    }
  }

  /** Chains that agree on the hash at a position agree on everything before it. */
  lemma {:induction false} SameBelow(h: Hasher, a: seq<Record>, b: seq<Record>, k: nat)
    requires k <= |a| && k <= |b| && Before(a, k) == Before(b, k)
    requires ValidChain(h, a) && ValidChain(h, b)
    ensures CollisionBetween(h, a, b) || a[..k] == b[..k]
  {
    if k > 0 {
      RecordsAgree(h, a, k - 1, b, k - 1);
      if Before(a, k - 1) == Before(b, k - 1) {
        SameBelow(h, a, b, k - 1);
        assert a[..k] == a[..k - 1] + [a[k - 1]] && b[..k] == b[..k - 1] + [b[k - 1]];
      }
    }
  }

  lemma SamePayloadSameRecord(x: Record, y: Record)
    requires Payload(x) == Payload(y)
    requires Get(x, "this_hash") == Get(y, "this_hash") != Null
    ensures x == y
    ensures Get(x, "seq") == Get(Payload(x), "seq")
    ensures Get(y, "seq") == Get(Payload(y), "seq")
  {
    assert x == Payload(x)["this_hash" := x["this_hash"]];
    assert y == Payload(y)["this_hash" := y["this_hash"]];
  }

  /** Validity is closed under prefixes: a truncated chain still verifies. */
  lemma PrefixOfValidChain(h: Hasher, events: seq<Record>, n: nat)
    requires n <= |events|
    requires ValidChain(h, events)
    ensures ValidChain(h, events[..n])
  {
    forall i | 0 <= i < n ensures Continues(h, events[..n], i) {
      assert Continues(h, events, i);
    }
  }
}
