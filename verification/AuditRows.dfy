/** The table of event rows: what `read_chain` makes of them, and how they agree with the list of
    records that were hashed. */
module AuditRows {
  import opened Wrappers
  import opened Json
  import opened Octets
  import opened AuditChain
  import opened AuditFile

  // ---------------------------------------------------------------- timestamps

  /** A datetime: the wall clock in microseconds and the zone's offset, absent when naive. */
  datatype DateTime = DateTime(wall: int, offset: Option<int>)

  /** `isoformat()` of a UTC wall clock. */
  type IsoFormat = int -> string

  /** A naive value is taken as UTC, an aware one is converted to UTC. */
  function CanonicalTs(iso: IsoFormat, value: DateTime): string {
    match value.offset
    case None => iso(value.wall)
    case Some(offset) => iso(value.wall - offset)
  }

  /** How a backend hands a stored instant back: sqlite drops the zone, Postgres renders the
      instant in the session's zone. */
  datatype Backend = Sqlite | Postgres(sessionOffset: int)

  function Fetched(backend: Backend, instant: int): DateTime {
    match backend
    case Sqlite => DateTime(instant, None)
    case Postgres(offset) => DateTime(instant + offset, Some(offset))
  }

  /** The string read back is the string hashed: UTC now at the writer, any zone at the reader. */
  lemma OneStringPerInstant(iso: IsoFormat, backend: Backend, now: int)
    ensures CanonicalTs(iso, Fetched(backend, now)) == CanonicalTs(iso, DateTime(now, Some(0)))
  {
  }

  /** The instant a datetime stands for: a naive one is taken as UTC. */
  function Instant(value: DateTime): int {
    value.wall - if value.offset.Some? then value.offset.value else 0
  }

  /** Two datetimes have one text exactly when they stand for one instant, as far as `isoformat` itself tells
      instants apart. */
  lemma SameTextSameInstant(iso: IsoFormat, a: DateTime, b: DateTime)
    requires forall s, t | iso(s) == iso(t) :: s == t
    ensures CanonicalTs(iso, a) == CanonicalTs(iso, b) <==> Instant(a) == Instant(b)
  {
  }

  // ---------------------------------------------------------------- rows

  datatype Row = Row(
    chainId: string, seq_: int, projectId: Option<string>, runId: Option<string>,
    actor: string, action: string, target: Option<string>, allowlistCheck: string,
    overridden: bool, success: bool, detail: Record, schemaVersion: int,
    prevHash: Option<Bytes>, thisHash: Bytes, createdAt: int)

  datatype ChainHead = ChainHead(headSeq: int, headHash: Option<Bytes>)

  function HexOrNone(b: Option<Bytes>): Option<string> {
    if b.Some? && b.value != [] then Some(ToHex(b.value)) else None
  }

  /** No bytes and empty bytes both read as no hash. */
  lemma HexOrNoneTold(b: Option<Bytes>)
    ensures HexOrNone(b) == None <==> b == None || b == Some([])
    ensures b.Some? && b != Some([]) ==> HexOrNone(b) == Some(ToHex(b.value))
  {
  }

  /** A cached head in the file writer's terms. */
  function FileHead(head: ChainHead): Head {
    Head(head.headSeq, HexOrNone(head.headHash))
  }

  /** The row inserted for one event made after `head` at instant `now`. */
  function RowFor(h: Hasher, iso: IsoFormat, req: Request, head: ChainHead, now: int): Row {
    Row(ChainOf(req), head.headSeq + 1, req.projectId, req.runId,
        req.actor, req.action, req.target, req.allowlistCheck,
        req.overridden, req.success, req.detail, SCHEMA_VERSION,
        head.headHash, FromHex(DigestFor(h, iso, req, head, now)), now)
  }

  /** The fields hashed for it. */
  function FieldsFor(iso: IsoFormat, req: Request, head: ChainHead, now: int): Record {
    Unhashed(ChainOf(req), req, CanonicalTs(iso, DateTime(now, Some(0))), FileHead(head))
  }

  function DigestFor(h: Hasher, iso: IsoFormat, req: Request, head: ChainHead, now: int): HexDigest {
    ComputeHash(h, HexOrNone(head.headHash), FieldsFor(iso, req, head, now))
  }

  /** What was hashed, with its hash: the record the file writer would have written. */
  function RecordFor(h: Hasher, iso: IsoFormat, req: Request, head: ChainHead, now: int): Record {
    MakeRecord(h, ChainOf(req), req, CanonicalTs(iso, DateTime(now, Some(0))), FileHead(head))
  }

  /** The fields `read_chain` yields for one row, its hash excepted. */
  function RowFields(iso: IsoFormat, backend: Backend, row: Row): Record {
    map[
      "chain_id" := Str(row.chainId),
      "seq" := Int(row.seq_),
      "ts" := Str(CanonicalTs(iso, Fetched(backend, row.createdAt))),
      "actor" := Str(row.actor),
      "action" := Str(row.action),
      "target" := OptionalString(row.target),
      "allowlist_check" := Str(row.allowlistCheck),
      "override" := Bool(row.overridden),
      "success" := Bool(row.success),
      "detail" := Obj(row.detail),
      "schema_version" := Int(row.schemaVersion),
      "prev_hash" := OptionalString(HexOrNone(row.prevHash)),
      "run_id" := OptionalString(row.runId),
      "project_id" := OptionalString(row.projectId)]
  }

  /** The record `read_chain` yields for one row. */
  function ReadRow(iso: IsoFormat, backend: Backend, row: Row): Record {
    RowFields(iso, backend, row)["this_hash" := Str(ToHex(row.thisHash))]
  }

  lemma FieldsReadBack(h: Hasher, iso: IsoFormat, backend: Backend, req: Request, head: ChainHead, now: int)
    ensures RowFields(iso, backend, RowFor(h, iso, req, head, now)) == FieldsFor(iso, req, head, now)
  {
    OneStringPerInstant(iso, backend, now);
    SameFields(iso, backend, RowFor(h, iso, req, head, now), ChainOf(req), req,
               CanonicalTs(iso, DateTime(now, Some(0))), FileHead(head));
  }

  /** A row that holds the values of an event reads as its fields. */
  lemma SameFields(iso: IsoFormat, backend: Backend, row: Row, chain: string, req: Request, ts: string, head: Head)
    requires row.chainId == chain && row.seq_ == head.seq_ + 1 && HexOrNone(row.prevHash) == head.hash
    requires CanonicalTs(iso, Fetched(backend, row.createdAt)) == ts
    requires row.actor == req.actor && row.action == req.action && row.target == req.target
    requires row.allowlistCheck == req.allowlistCheck && row.overridden == req.overridden
    requires row.success == req.success && row.detail == req.detail && row.schemaVersion == SCHEMA_VERSION
    requires row.runId == req.runId && row.projectId == req.projectId
    ensures RowFields(iso, backend, row) == Unhashed(chain, req, ts, head)
  {
  }

  /** Reading the row back rebuilds exactly the record that was hashed. */
  lemma ReadRebuildsHashedRecord(h: Hasher, iso: IsoFormat, backend: Backend, req: Request, head: ChainHead, now: int)
    ensures ReadRow(iso, backend, RowFor(h, iso, req, head, now)) == RecordFor(h, iso, req, head, now)
  {
    FieldsReadBack(h, iso, backend, req, head, now);
    HexRoundTrip(DigestFor(h, iso, req, head, now));
  }

  /** The cached head after it is the head the file writer would scan. */
  lemma HeadAfter(h: Hasher, iso: IsoFormat, req: Request, head: ChainHead, now: int)
    ensures var row, record := RowFor(h, iso, req, head, now), RecordFor(h, iso, req, head, now);
            && Readable(record) && InChain(record, row.chainId)
            && FileHead(ChainHead(row.seq_, Some(row.thisHash))) == HeadOf(record)
  {
    SealedRecord(h, ChainOf(req), req, CanonicalTs(iso, DateTime(now, Some(0))), FileHead(head));
    HexRoundTrip(DigestFor(h, iso, req, head, now));
  }

  // ---------------------------------------------------------------- rows and events

  /** A row reads as the event of its number. */
  ghost predicate RowStands(iso: IsoFormat, row: Row, lines: seq<Record>) {
    1 <= row.seq_ <= |lines| && forall backend :: ReadRow(iso, backend, row) == lines[row.seq_ - 1]
  }

  ghost predicate HasRow(rows: set<Row>, chain: string, seq_: int) {
    exists r | r in rows :: r.chainId == chain && r.seq_ == seq_
  }

  /** The rows of a chain are its events, one row each. */
  ghost predicate RowsAgree(iso: IsoFormat, rows: set<Row>, chain: string, lines: seq<Record>) {
    && (forall r | r in rows && r.chainId == chain :: RowStands(iso, r, lines))
    && (forall i | 1 <= i <= |lines| :: HasRow(rows, chain, i))
    && (forall r, q | r in rows && q in rows && r.chainId == q.chainId == chain && r.seq_ == q.seq_ :: r == q)
  }

  lemma RowOfEvent(iso: IsoFormat, rows: set<Row>, chain: string, lines: seq<Record>, seq_: nat) returns (r: Row)
    requires RowsAgree(iso, rows, chain, lines) && 1 <= seq_ <= |lines|
    ensures r in rows && r.chainId == chain && r.seq_ == seq_ && RowStands(iso, r, lines)
  {
    assert HasRow(rows, chain, seq_);
    r :| r in rows && r.chainId == chain && r.seq_ == seq_;
  }

  lemma OtherRowsStand(iso: IsoFormat, rows: set<Row>, row: Row, chain: string, lines: seq<Record>)
    requires RowsAgree(iso, rows, chain, lines) && row.chainId != chain
    ensures RowsAgree(iso, rows + {row}, chain, lines)
  {
    forall i | 1 <= i <= |lines| ensures HasRow(rows + {row}, chain, i) {
      assert HasRow(rows, chain, i);
    }
  }

  /** A row with the next number joins with its record. */
  lemma RowJoins(iso: IsoFormat, rows: set<Row>, row: Row, lines: seq<Record>, record: Record)
    requires RowsAgree(iso, rows, row.chainId, lines)
    requires row.seq_ == |lines| + 1 && forall backend :: ReadRow(iso, backend, row) == record
    ensures RowsAgree(iso, rows + {row}, row.chainId, lines + [record])
  {
    forall r | r in rows && r.chainId == row.chainId ensures RowStands(iso, r, lines + [record]) {
      assert RowStands(iso, r, lines);
    }
    forall i | 1 <= i <= |lines + [record]| ensures HasRow(rows + {row}, row.chainId, i) {
      if i <= |lines| {
        assert HasRow(rows, row.chainId, i);
      } else {
        assert row in rows + {row};
      }
    }
  }

  /** The rows `SELECT ... WHERE chain_id = chain ORDER BY seq` may return. */
  ghost predicate QueryResult(rows: set<Row>, chain: string, out: seq<Row>) {
    && (forall r :: r in out <==> r in rows && r.chainId == chain)
    && (forall i, j | 0 <= i < j < |out| :: out[i].seq_ <= out[j].seq_ && out[i] != out[j])
  }

  function ReadRows(iso: IsoFormat, backend: Backend, out: seq<Row>): seq<Record> {
    seq(|out|, i requires 0 <= i < |out| => ReadRow(iso, backend, out[i]))
  }

  /** Reading a chain back gives exactly its events. */
  lemma QueryReadsBack(iso: IsoFormat, backend: Backend, rows: set<Row>, chain: string, lines: seq<Record>, out: seq<Row>)
    requires RowsAgree(iso, rows, chain, lines) && QueryResult(rows, chain, out)
    ensures ReadRows(iso, backend, out) == lines
  {
    QueryInOrder(iso, rows, chain, lines, out);
    forall k | 0 <= k < |out| ensures ReadRow(iso, backend, out[k]) == lines[k] {
      assert out[k] in out;
      assert RowStands(iso, out[k], lines);
    }
  }

  /** The k-th row of the query is the row numbered k + 1. */
  lemma QueryInOrder(iso: IsoFormat, rows: set<Row>, chain: string, lines: seq<Record>, out: seq<Row>)
    requires RowsAgree(iso, rows, chain, lines)
    requires QueryResult(rows, chain, out)
    ensures |out| == |lines|
    ensures forall k | 0 <= k < |out| :: out[k].seq_ == k + 1
  {
    var n := |lines|;
    forall i, j | 0 <= i < j < |out| ensures out[i].seq_ < out[j].seq_ {
      assert out[i] in out && out[j] in out;
    }
    forall k | 0 <= k < |out| ensures 1 <= out[k].seq_ <= n {
      assert out[k] in out;
    }
    forall v | 1 <= v <= n ensures Numbers(out, v) {
      assert HasRow(rows, chain, v);
      var r :| r in rows && r.chainId == chain && r.seq_ == v;
      assert r in out;
    }
    AscendingOntoIsIdentity(out, n);
  }

  ghost predicate Numbers(out: seq<Row>, v: int) {
    exists k | 0 <= k < |out| :: out[k].seq_ == v
  }

  lemma GreatestIsLast(out: seq<Row>, k: nat)
    requires forall i, j | 0 <= i < j < |out| :: out[i].seq_ < out[j].seq_
    requires k < |out| && forall i | 0 <= i < |out| :: out[i].seq_ <= out[k].seq_
    ensures k == |out| - 1
  {
    var last := out[|out| - 1];
    assert last.seq_ <= out[k].seq_;
  }

  lemma {:induction false} AscendingOntoIsIdentity(out: seq<Row>, n: nat)
    requires forall i, j | 0 <= i < j < |out| :: out[i].seq_ < out[j].seq_
    requires forall k | 0 <= k < |out| :: 1 <= out[k].seq_ <= n
    requires forall v | 1 <= v <= n :: Numbers(out, v)
    ensures |out| == n
    ensures forall k | 0 <= k < |out| :: out[k].seq_ == k + 1
  {
    assert out != [] ==> 1 <= out[0].seq_ <= n;
    if n > 0 {
      assert Numbers(out, n);
      var k :| 0 <= k < |out| && out[k].seq_ == n;
      GreatestIsLast(out, k);
      var rest := out[..k];
      forall v | 1 <= v <= n - 1 ensures Numbers(rest, v) {
        assert Numbers(out, v);
        var m :| 0 <= m < |out| && out[m].seq_ == v;
        assert rest[m].seq_ == v;
      }
      AscendingOntoIsIdentity(rest, n - 1);
      forall m | 0 <= m < |out| ensures out[m].seq_ == m + 1 {
        if m < k {
          assert out[m] == rest[m];
        }
      }
    }
  }
}
