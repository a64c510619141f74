/** The single-file chain writer: many logical chains interleaved in one list of lines. */
module AuditFile {
  import opened Wrappers
  import opened Json
  import opened AuditChain

  /** One call of `append`, with its detail already redacted. */
  datatype Request = Request(
    actor: string, action: string, target: Option<string>, allowlistCheck: string,
    overridden: bool, success: bool, detail: Record,
    runId: Option<string>, projectId: Option<string>)

  /** Per run, else per project, else install-wide; an empty id counts as absent. */
  function ChainId(projectId: Option<string>, runId: Option<string>): string {
    if runId.Some? && runId.value != "" then "run:" + runId.value
    else if projectId.Some? && projectId.value != "" then "project:" + projectId.value
    else "system"
  }

  function ChainOf(req: Request): string {
    ChainId(req.projectId, req.runId)
  }

  /** A run's events have their own chain, and so have a project's events without a run; the rest share one. */
  lemma ChainTold(req: Request)
    ensures req.runId.Some? && req.runId != Some("") ==> ChainOf(req) == "run:" + req.runId.value
    ensures (req.runId.None? || req.runId == Some("")) && req.projectId.Some? && req.projectId != Some("") ==>
              ChainOf(req) == "project:" + req.projectId.value
    ensures (req.runId.None? || req.runId == Some("")) && (req.projectId.None? || req.projectId == Some("")) ==>
              ChainOf(req) == "system"
  {
  }

  /** Events of different runs or projects never share a chain. */
  lemma ChainIdSeparates(p: Option<string>, r: Option<string>, q: Option<string>, s: Option<string>)
    requires ChainId(p, r) == ChainId(q, s)
    ensures r.Some? && r.value != "" ==> s == r
    ensures (r.None? || r.value == "") && p.Some? && p.value != "" ==> (s.None? || s.value == "") && q == p
    ensures (r.None? || r.value == "") && (p.None? || p.value == "") ==>
              (s.None? || s.value == "") && (q.None? || q.value == "")
  {
    var x, y := ChainId(p, r), ChainId(q, s);
    assert x[0] == y[0];
    if x[0] == 'r' {
      assert x[4..] == r.value && y[4..] == s.value;
    } else if x[0] == 'p' {
      assert x[8..] == p.value && y[8..] == q.value;
    }
  }

  predicate InChain(record: Record, chain: string) {
    Get(record, "chain_id") == Str(chain)
  }

  /** The lines of one chain, in file order. */
  function ChainLines(file: seq<Record>, chain: string): seq<Record> {
    if file == [] then []
    else
      var last := file[|file| - 1];
      ChainLines(file[..|file| - 1], chain) + if InChain(last, chain) then [last] else []
  }

  lemma ChainLinesAppend(file: seq<Record>, record: Record, chain: string)
    ensures ChainLines(file + [record], chain) ==
            ChainLines(file, chain) + if InChain(record, chain) then [record] else []
  {
    assert (file + [record])[..|file|] == file;
  }

  /** The tail of a chain as the writer sees it: (0, None) for a chain with no event. */
  datatype Head = Head(seq_: int, hash: Option<string>)

  /** A line has the two fields the writer's scan reads from it. */
  predicate Keyed(record: Record) {
    "seq" in record && "this_hash" in record
  }

  predicate AllKeyed(events: seq<Record>) {
    forall e | e in events :: Keyed(e)
  }

  /** The number and hash of the last event, or 0 and null. */
  function LastSeq(events: seq<Record>): Json {
    if events == [] then Int(0) else Get(events[|events| - 1], "seq")
  }

  function LastHash(events: seq<Record>): Json {
    if events == [] then Null else Get(events[|events| - 1], "this_hash")
  }

  /** The head an append can go on from: adding one to the number and hashing after the hash both work. */
  function HeadFrom(seq_: Json, hash: Json): Option<Head> {
    match (seq_, hash)
    case (Int(n), Str(s)) => Some(Head(n, Some(s)))
    case (Int(n), Null) => Some(Head(n, None))
    case (Bool(b), Str(s)) => Some(Head(if b then 1 else 0, Some(s)))
    case (Bool(b), Null) => Some(Head(if b then 1 else 0, None))
    case _ => None
  }

  /** The tail of a chain: its last event, unless some line of the chain lacks a field. */
  function Tail(events: seq<Record>): Option<Head> {
    if AllKeyed(events) then HeadFrom(LastSeq(events), LastHash(events)) else None
  }

  /** When a tail can be made out, and which: every line of the chain has both fields, the last number is an
      integer or a truth value, and the last hash is a text or null; no line at all is number 0 without a hash. */
  lemma TailTold(events: seq<Record>)
    ensures events == [] ==> Tail(events) == Some(Head(0, None))
    ensures events != [] ==>
              var last := events[|events| - 1];
              var number, hash := Get(last, "seq"), Get(last, "this_hash");
              && (Tail(events).Some? <==>
                    && (forall e | e in events :: "seq" in e && "this_hash" in e)
                    && (number.Int? || number.Bool?) && (hash.Str? || hash.Null?))
              && (Tail(events).Some? ==>
                    EqualsInt(number, Tail(events).value.seq_) && OptionalString(Tail(events).value.hash) == hash)
  {
  }

  /** A line as the writer writes it. */
  predicate Readable(record: Record) {
    Get(record, "seq").Int? && Get(record, "this_hash").Str?
  }

  function HeadOf(record: Record): Head
    requires Readable(record)
  {
    Head(Get(record, "seq").n, Some(Get(record, "this_hash").s))
  }

  /** The fields of an event, its own hash excepted. */
  function Unhashed(chain: string, req: Request, ts: string, head: Head): (r: Record)
    ensures "this_hash" !in r
    ensures Get(r, "chain_id") == Str(chain) && Get(r, "seq") == Int(head.seq_ + 1)
    ensures Get(r, "schema_version") == Int(SCHEMA_VERSION) && Get(r, "prev_hash") == OptionalString(head.hash)
  {
    map[
      "chain_id" := Str(chain),
      "seq" := Int(head.seq_ + 1),
      "ts" := Str(ts),
      "actor" := Str(req.actor),
      "action" := Str(req.action),
      "target" := OptionalString(req.target),
      "allowlist_check" := Str(req.allowlistCheck),
      "override" := Bool(req.overridden),
      "success" := Bool(req.success),
      "detail" := Obj(req.detail),
      "schema_version" := Int(SCHEMA_VERSION),
      "prev_hash" := OptionalString(head.hash),
      "run_id" := OptionalString(req.runId),
      "project_id" := OptionalString(req.projectId)]
  }

  /** Every argument of an append is among the hashed fields: different events have different fields. */
  lemma EveryFieldIsHashed(chain: string, req: Request, ts: string, head: Head,
                           chain': string, req': Request, ts': string, head': Head)
    requires Unhashed(chain, req, ts, head) == Unhashed(chain', req', ts', head')
    ensures chain == chain' && req == req' && ts == ts' && head == head'
  {
    SameCall(chain, req, ts, head, chain', req', ts', head');
    SameOutcome(chain, req, ts, head, chain', req', ts', head');
  }

  lemma SameCall(chain: string, req: Request, ts: string, head: Head,
                 chain': string, req': Request, ts': string, head': Head)
    requires Unhashed(chain, req, ts, head) == Unhashed(chain', req', ts', head')
    ensures chain == chain' && ts == ts' && head == head'
    ensures req.actor == req'.actor && req.action == req'.action && req.target == req'.target
    ensures req.allowlistCheck == req'.allowlistCheck
  {
    CallIsTold(chain, req, ts, head);
    CallIsTold(chain', req', ts', head');
  }

  lemma SameOutcome(chain: string, req: Request, ts: string, head: Head,
                    chain': string, req': Request, ts': string, head': Head)
    requires Unhashed(chain, req, ts, head) == Unhashed(chain', req', ts', head')
    ensures req.overridden == req'.overridden && req.success == req'.success && req.detail == req'.detail
    ensures req.runId == req'.runId && req.projectId == req'.projectId
  {
    OutcomeIsTold(chain, req, ts, head);
    OutcomeIsTold(chain', req', ts', head');
  }

  /** Each field holds the argument it is named after. */
  lemma CallIsTold(chain: string, req: Request, ts: string, head: Head)
    ensures var r := Unhashed(chain, req, ts, head);
            && Get(r, "ts") == Str(ts) && Get(r, "actor") == Str(req.actor) && Get(r, "action") == Str(req.action)
            && Get(r, "target") == OptionalString(req.target) && Get(r, "allowlist_check") == Str(req.allowlistCheck)
  {
  }

  lemma OutcomeIsTold(chain: string, req: Request, ts: string, head: Head)
    ensures var r := Unhashed(chain, req, ts, head);
            && Get(r, "override") == Bool(req.overridden) && Get(r, "success") == Bool(req.success)
            && Get(r, "detail") == Obj(req.detail) && Get(r, "run_id") == OptionalString(req.runId)
            && Get(r, "project_id") == OptionalString(req.projectId)
  {
  }

  /** The record an append writes after `head`. */
  function MakeRecord(h: Hasher, chain: string, req: Request, ts: string, head: Head): Record {
    var record := Unhashed(chain, req, ts, head);
    record["this_hash" := Str(ComputeHash(h, head.hash, record))]
  }

  /** A chain the writer produced: valid, numbered 1..n without gap or fork, every line readable. */
  ghost predicate WrittenChain(h: Hasher, events: seq<Record>) {
    && ValidChain(h, events)
    && (forall i | 0 <= i < |events| :: Get(events[i], "seq") == Int(i + 1) && Readable(events[i]))
  }

  ghost predicate WrittenFile(h: Hasher, file: seq<Record>) {
    forall chain: string :: WrittenChain(h, ChainLines(file, chain))
  }

  /** The tail of a written chain is its length and its last hash. */
  lemma WrittenTail(h: Hasher, events: seq<Record>)
    requires WrittenChain(h, events)
    ensures Tail(events) == Some(Head(|events|, Before(events, |events|)))
  {
    assert AllKeyed(events);
    if events != [] {
      assert Readable(events[|events| - 1]);
    }
  }

  /** The record made after the tail of a written chain continues that chain. */
  lemma MakeRecordContinues(h: Hasher, events: seq<Record>, chain: string, req: Request, ts: string)
    requires WrittenChain(h, events)
    ensures Tail(events) == Some(Head(|events|, Before(events, |events|)))
    ensures WrittenChain(h, events + [MakeRecord(h, chain, req, ts, Tail(events).value)])
  {
    WrittenTail(h, events);
    SealedRecord(h, chain, req, ts, Tail(events).value);
    ValidChainExtends(h, events, MakeRecord(h, chain, req, ts, Tail(events).value));
  }

  /** The stored hash is the hash a reader recomputes from the stored record. */
  lemma SealedRecord(h: Hasher, chain: string, req: Request, ts: string, head: Head)
    ensures var record := MakeRecord(h, chain, req, ts, head);
            && Payload(record) == Unhashed(chain, req, ts, head)
            && Check(h, record, head.seq_ + 1, head.hash) == None
            && InChain(record, chain)
            && HeadOf(record) == Head(head.seq_ + 1, Some(ComputeHash(h, head.hash, record)))
  {
    var unhashed := Unhashed(chain, req, ts, head);
    var record := MakeRecord(h, chain, req, ts, head);
    assert Payload(unhashed) == unhashed;
    assert Payload(record) == unhashed;
    forall key: string | key != "this_hash" ensures Get(record, key) == Get(unhashed, key) {
    }
  }

  /** The tail after one more line. */
  lemma TailStep(events: seq<Record>, record: Record)
    ensures AllKeyed(events + [record]) <==> AllKeyed(events) && Keyed(record)
    ensures LastSeq(events + [record]) == Get(record, "seq") && LastHash(events + [record]) == Get(record, "this_hash")
    ensures Tail(events).Some? && Readable(record) ==> Tail(events + [record]) == Some(HeadOf(record))
  {
    assert forall e :: e in events + [record] <==> e in events || e == record;
  }

  /** Appending at a chain's own tail keeps every chain in the file intact. */
  lemma AppendKeepsFile(h: Hasher, file: seq<Record>, req: Request, ts: string)
    requires WrittenFile(h, file)
    ensures Tail(ChainLines(file, ChainOf(req))).Some?
    ensures WrittenFile(h, file + [MakeRecord(h, ChainOf(req), req, ts, Tail(ChainLines(file, ChainOf(req))).value)])
  {
    var own := ChainOf(req);
    MakeRecordContinues(h, ChainLines(file, own), own, req, ts);
    var record := MakeRecord(h, own, req, ts, Tail(ChainLines(file, own)).value);
    forall chain: string ensures WrittenChain(h, ChainLines(file + [record], chain)) {
      ChainLinesAppend(file, record, chain);
      assert WrittenChain(h, ChainLines(file, chain));
      if chain != own {
        assert ChainLines(file + [record], chain) == ChainLines(file, chain);
      }
    }
  }

  /** The writer over one file. Its locks are modelled in AuditProtocol; here calls are serial. */
  class JsonlAuditWriter {
    var file: seq<Record>

    constructor ()
      ensures file == []
    {
      file := [];
    }

    /** Scan the file for the tail of one chain, skipping foreign lines. */
    method Last(chain: string) returns (tail: Option<Head>)
      ensures tail == Tail(ChainLines(file, chain))
    {
      var lastSeq, lastHash := Int(0), Null;
      var i := 0;
      while i < |file|
        invariant i <= |file|
        invariant AllKeyed(ChainLines(file[..i], chain))
        invariant lastSeq == LastSeq(ChainLines(file[..i], chain))
        invariant lastHash == LastHash(ChainLines(file[..i], chain))
      {
        var record := file[i];
        assert file[..i + 1] == file[..i] + [record];
        ChainLinesAppend(file[..i], record, chain);
        if InChain(record, chain) {
          TailStep(ChainLines(file[..i], chain), record);
          if !Keyed(record) {
            LineInChain(file, i, chain);
            return None;
          }
          lastSeq, lastHash := record["seq"], record["this_hash"];
        } else {
          assert ChainLines(file[..i + 1], chain) == ChainLines(file[..i], chain);
        }
        i := i + 1;
      }
      assert file[..i] == file;
      tail := HeadFrom(lastSeq, lastHash);
    }

    /** Append one event; a chain whose tail cannot be made out fails and writes nothing. */
    method Append(h: Hasher, req: Request, ts: string) returns (r: Option<Record>)
      modifies this
      ensures var tail := Tail(ChainLines(old(file), ChainOf(req)));
              match tail
              case None => r == None && file == old(file)
              case Some(head) =>
                && r == Some(MakeRecord(h, ChainOf(req), req, ts, head))
                && file == old(file) + [r.value]
      ensures WrittenFile(h, old(file)) ==> r.Some? && WrittenFile(h, file)
    {
      if WrittenFile(h, file) {
        AppendKeepsFile(h, file, req, ts);
      }
      var tail := Last(ChainOf(req));
      if tail.None? {
        return None;
      }
      var record := MakeRecord(h, ChainOf(req), req, ts, tail.value);
      file := file + [record];
      r := Some(record);
    }

    /** Yield the lines of one chain. */
    method ReadChain(chain: string) returns (events: seq<Record>)
      ensures events == ChainLines(file, chain)
    {
      events := [];
      for i := 0 to |file|
        invariant events == ChainLines(file[..i], chain)
      {
        assert file[..i + 1] == file[..i] + [file[i]];
        ChainLinesAppend(file[..i], file[i], chain);
        if InChain(file[i], chain) {
          events := events + [file[i]];
        }
      }
      assert file[..|file|] == file;
    }
  }

  lemma {:induction false} LineInChain(file: seq<Record>, i: nat, chain: string)
    requires i < |file| && InChain(file[i], chain)
    ensures file[i] in ChainLines(file, chain)
  {
    if i < |file| - 1 {
      LineInChain(file[..|file| - 1], i, chain);
    }
  }
}
