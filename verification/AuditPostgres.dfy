/** The database chain writer: a table of event rows and one cached head row per chain.

    Transactions of any number of workers interleave. A transaction first reads its chain's head row
    for update. On Postgres that blocks while another open transaction holds the row; sqlite has no
    row locks, so there any number of transactions can read the same head. A transaction that finds no
    head inserts one, which the primary key refuses once another has committed one. It then commits
    atomically or rolls back; the UNIQUE constraints refuse a commit that would fork the chain. */
module AuditPostgres {
  import opened Wrappers
  import opened Json
  import opened Octets
  import opened AuditChain
  import opened AuditFile
  import opened AuditRows

  /** An open transaction: what it read of its chain's head, or None when it inserted a first head. */
  datatype Transaction = Transaction(req: Request, seen: Option<ChainHead>)

  /** `committed` is the list of hashed records in commit order: the file a file writer would hold. */
  datatype Db = Db(
    rows: set<Row>,
    heads: map<string, ChainHead>,
    open_: map<nat, Transaction>,
    committed: seq<Record>)

  const EMPTY := Db({}, map[], map[], [])
  const NO_HEAD := ChainHead(0, None)

  /** The head a transaction extends. */
  function HeadSeen(tx: Transaction): ChainHead {
    if tx.seen.Some? then tx.seen.value else NO_HEAD
  }

  function RowOf(h: Hasher, iso: IsoFormat, tx: Transaction, now: int): Row {
    RowFor(h, iso, tx.req, HeadSeen(tx), now)
  }

  function RecordOf(h: Hasher, iso: IsoFormat, tx: Transaction, now: int): Record {
    RecordFor(h, iso, tx.req, HeadSeen(tx), now)
  }

  // ---------------------------------------------------------------- transactions

  datatype Step =
    | Begin(w: nat, req: Request)
    | Commit(w: nat, now: int)
    | Rollback(w: nat)

  /** A constraint refuses the insert: the head's primary key, or UNIQUE on sequence or hash. */
  predicate Refused(db: Db, tx: Transaction, row: Row) {
    || (tx.seen.None? && row.chainId in db.heads)
    || exists r | r in db.rows :: r.chainId == row.chainId && (r.seq_ == row.seq_ || r.thisHash == row.thisHash)
  }

  /** Another open transaction holds the row lock on this chain's head. */
  predicate HeadLocked(db: Db, chain: string) {
    exists w | w in db.open_ :: db.open_[w].seen.Some? && ChainOf(db.open_[w].req) == chain
  }

  /** The tables after an accepted commit. */
  function Committed(h: Hasher, iso: IsoFormat, db: Db, w: nat, now: int): Db
    requires w in db.open_
  {
    var tx := db.open_[w];
    var row := RowOf(h, iso, tx, now);
    Db(db.rows + {row}, db.heads[row.chainId := ChainHead(row.seq_, Some(row.thisHash))], db.open_ - {w},
       db.committed + [RecordOf(h, iso, tx, now)])
  }

  function Closed(db: Db, w: nat): Db {
    db.(open_ := db.open_ - {w})
  }

  function Opened(db: Db, w: nat, req: Request): Db {
    var chain := ChainOf(req);
    db.(open_ := db.open_[w := Transaction(req, if chain in db.heads then Some(db.heads[chain]) else None)])
  }

  /** One step of one transaction, or None while it has to wait. A refused commit rolls back. */
  function Apply(h: Hasher, iso: IsoFormat, backend: Backend, db: Db, step: Step): Option<Db> {
    match step
    case Begin(w, req) =>
      if w in db.open_ || (backend.Postgres? && HeadLocked(db, ChainOf(req))) then None else Some(Opened(db, w, req))
    case Commit(w, now) =>
      if w !in db.open_ then None
      else if Refused(db, db.open_[w], RowOf(h, iso, db.open_[w], now)) then Some(Closed(db, w))
      else Some(Committed(h, iso, db, w, now))
    case Rollback(w) =>
      if w !in db.open_ then None else Some(Closed(db, w))
  }

  function Run(h: Hasher, iso: IsoFormat, backend: Backend, steps: seq<Step>): Option<Db> {
    if steps == [] then Some(EMPTY)
    else
      match Run(h, iso, backend, steps[..|steps| - 1])
      case None => None
      case Some(before) => Apply(h, iso, backend, before, steps[|steps| - 1])
  }

  // ---------------------------------------------------------------- the invariant

  /** The cached head of a chain is what a scan of its events would find, and it counts them. */
  ghost predicate HeadAgrees(heads: map<string, ChainHead>, chain: string, lines: seq<Record>) {
    && (chain in heads <==> lines != [])
    && (chain in heads ==> Tail(lines) == Some(FileHead(heads[chain])) && heads[chain].headSeq == |lines|)
  }

  ghost predicate ChainAgrees(iso: IsoFormat, db: Db, chain: string) {
    var lines := ChainLines(db.committed, chain);
    HeadAgrees(db.heads, chain, lines) && RowsAgree(iso, db.rows, chain, lines)
  }

  /** What a transaction has seen is the chain's head or an earlier one. */
  ghost predicate SeenOnce(heads: map<string, ChainHead>, tx: Transaction) {
    tx.seen.Some? ==>
      && ChainOf(tx.req) in heads
      && 1 <= tx.seen.value.headSeq <= heads[ChainOf(tx.req)].headSeq
      && (tx.seen.value.headSeq == heads[ChainOf(tx.req)].headSeq ==> tx.seen.value == heads[ChainOf(tx.req)])
  }

  ghost predicate AllSeen(db: Db) {
    forall w | w in db.open_ :: SeenOnce(db.heads, db.open_[w])
  }

  ghost predicate Inv(h: Hasher, iso: IsoFormat, db: Db) {
    && WrittenFile(h, db.committed)
    && (forall chain: string :: ChainAgrees(iso, db, chain))
    && AllSeen(db)
  }

  /** The chain's head has moved since the transaction read it. */
  predicate Stale(db: Db, tx: Transaction) {
    if ChainOf(tx.req) in db.heads then tx.seen != Some(db.heads[ChainOf(tx.req)]) else tx.seen.Some?
  }

  /** A stale transaction's number is taken, or its chain has a head by now. */
  lemma StaleIsRefused(h: Hasher, iso: IsoFormat, db: Db, tx: Transaction, now: int)
    requires ChainAgrees(iso, db, ChainOf(tx.req)) && SeenOnce(db.heads, tx) && Stale(db, tx)
    ensures Refused(db, tx, RowOf(h, iso, tx, now))
  {
    var chain, lines := ChainOf(tx.req), ChainLines(db.committed, ChainOf(tx.req));
    if tx.seen.Some? {
      assert HasRow(db.rows, chain, tx.seen.value.headSeq + 1);
    }
  }

  /** A transaction that is not stale goes on from the tail of its chain. */
  lemma CurrentHeadIsTail(h: Hasher, iso: IsoFormat, db: Db, tx: Transaction)
    requires ChainAgrees(iso, db, ChainOf(tx.req)) && !Stale(db, tx)
    ensures var lines := ChainLines(db.committed, ChainOf(tx.req));
            Tail(lines) == Some(FileHead(HeadSeen(tx))) && HeadSeen(tx).headSeq == |lines|
  {
    assert AllKeyed([]);
  }

  /** A commit that no constraint refuses does to the list of hashed records exactly what the file
      writer's append does to its file. */
  lemma CommitIsFileAppend(h: Hasher, iso: IsoFormat, db: Db, w: nat, now: int)
    requires Inv(h, iso, db) && w in db.open_
    requires !Refused(db, db.open_[w], RowOf(h, iso, db.open_[w], now))
    ensures var req := db.open_[w].req;
            var tail := Tail(ChainLines(db.committed, ChainOf(req)));
            && tail.Some?
            && Committed(h, iso, db, w, now).committed ==
               db.committed + [MakeRecord(h, ChainOf(req), req, CanonicalTs(iso, DateTime(now, Some(0))), tail.value)]
  {
    var tx := db.open_[w];
    assert ChainAgrees(iso, db, ChainOf(tx.req)) && SeenOnce(db.heads, tx);
    if Stale(db, tx) {
      StaleIsRefused(h, iso, db, tx, now);
    }
    CurrentHeadIsTail(h, iso, db, tx);
  }

  lemma CommitKeepsInv(h: Hasher, iso: IsoFormat, db: Db, w: nat, now: int)
    requires Inv(h, iso, db) && w in db.open_
    requires !Refused(db, db.open_[w], RowOf(h, iso, db.open_[w], now))
    ensures Inv(h, iso, Committed(h, iso, db, w, now))
  {
    var tx := db.open_[w];
    var own := ChainOf(tx.req);
    assert ChainAgrees(iso, db, own) && SeenOnce(db.heads, tx);
    if Stale(db, tx) {
      StaleIsRefused(h, iso, db, tx, now);
    }
    CurrentHeadIsTail(h, iso, db, tx);
    AppendKeepsFile(h, db.committed, tx.req, CanonicalTs(iso, DateTime(now, Some(0))));
    forall chain: string ensures ChainAgrees(iso, Committed(h, iso, db, w, now), chain) {
      assert ChainAgrees(iso, db, chain);
      if chain == own {
        OwnChainAgrees(h, iso, db, w, now);
      } else {
        OtherChainAgrees(h, iso, db, w, now, chain);
      }
    }
    OthersStillSeen(h, iso, db, w, now);
  }

  lemma OwnChainAgrees(h: Hasher, iso: IsoFormat, db: Db, w: nat, now: int)
    requires w in db.open_ && ChainAgrees(iso, db, ChainOf(db.open_[w].req)) && !Stale(db, db.open_[w])
    ensures ChainAgrees(iso, Committed(h, iso, db, w, now), ChainOf(db.open_[w].req))
  {
    var tx := db.open_[w];
    var own, row, record := ChainOf(tx.req), RowOf(h, iso, tx, now), RecordOf(h, iso, tx, now);
    var lines := ChainLines(db.committed, own);
    CurrentHeadIsTail(h, iso, db, tx);
    HeadAfter(h, iso, tx.req, HeadSeen(tx), now);
    ChainLinesAppend(db.committed, record, own);
    TailStep(lines, record);
    forall backend ensures ReadRow(iso, backend, row) == record {
      ReadRebuildsHashedRecord(h, iso, backend, tx.req, HeadSeen(tx), now);
    }
    RowJoins(iso, db.rows, row, lines, record);
  }

  lemma OtherChainAgrees(h: Hasher, iso: IsoFormat, db: Db, w: nat, now: int, chain: string)
    requires w in db.open_ && chain != ChainOf(db.open_[w].req) && ChainAgrees(iso, db, chain)
    ensures ChainAgrees(iso, Committed(h, iso, db, w, now), chain)
  {
    var tx := db.open_[w];
    var row, record := RowOf(h, iso, tx, now), RecordOf(h, iso, tx, now);
    HeadAfter(h, iso, tx.req, HeadSeen(tx), now);
    ChainLinesAppend(db.committed, record, chain);
    assert ChainLines(db.committed + [record], chain) == ChainLines(db.committed, chain);
    OtherRowsStand(iso, db.rows, row, chain, ChainLines(db.committed, chain));
  }

  /** A commit moves its chain's head on, so what the others have seen is an earlier head. */
  lemma OthersStillSeen(h: Hasher, iso: IsoFormat, db: Db, w: nat, now: int)
    requires w in db.open_ && AllSeen(db) && !Stale(db, db.open_[w])
    ensures AllSeen(Committed(h, iso, db, w, now))
  {
    var db' := Committed(h, iso, db, w, now);
    forall v | v in db'.open_ ensures SeenOnce(db'.heads, db'.open_[v]) {
      assert SeenOnce(db.heads, db.open_[v]);
    }
  }

  lemma BeginKeepsInv(h: Hasher, iso: IsoFormat, db: Db, w: nat, req: Request)
    requires Inv(h, iso, db) && w !in db.open_
    ensures Inv(h, iso, Opened(db, w, req))
  {
    var db' := Opened(db, w, req);
    forall chain: string ensures ChainAgrees(iso, db', chain) {
      assert ChainAgrees(iso, db, chain);
    }
    assert ChainAgrees(iso, db, ChainOf(req));
    forall v | v in db'.open_ ensures SeenOnce(db'.heads, db'.open_[v]) {
      assert v != w ==> SeenOnce(db.heads, db.open_[v]);
    }
  }

  lemma CloseKeepsInv(h: Hasher, iso: IsoFormat, db: Db, w: nat)
    requires Inv(h, iso, db)
    ensures Inv(h, iso, Closed(db, w))
  {
    forall chain: string ensures ChainAgrees(iso, Closed(db, w), chain) {
      assert ChainAgrees(iso, db, chain);
    }
    forall v | v in Closed(db, w).open_ ensures SeenOnce(db.heads, db.open_[v]) {
    }
  }

  lemma StepKeepsInv(h: Hasher, iso: IsoFormat, backend: Backend, db: Db, step: Step)
    requires Inv(h, iso, db) && Apply(h, iso, backend, db, step).Some?
    ensures Inv(h, iso, Apply(h, iso, backend, db, step).value)
  {
    match step
    case Begin(w, req) => BeginKeepsInv(h, iso, db, w, req);
    case Commit(w, now) =>
      if Refused(db, db.open_[w], RowOf(h, iso, db.open_[w], now)) {
        CloseKeepsInv(h, iso, db, w);
      } else {
        CommitKeepsInv(h, iso, db, w, now);
      }
    case Rollback(w) => CloseKeepsInv(h, iso, db, w);
  }

  /** Any run of transactions, with row locks or without, keeps the heads equal to full scans and the
      rows equal to the events: the constraints alone keep every chain valid. */
  lemma {:induction false} RunKeepsInv(h: Hasher, iso: IsoFormat, backend: Backend, steps: seq<Step>)
    requires Run(h, iso, backend, steps).Some?
    ensures Inv(h, iso, Run(h, iso, backend, steps).value)
  {
    if steps == [] {
      EmptyInv(h, iso);
    } else {
      var earlier := steps[..|steps| - 1];
      RunKeepsInv(h, iso, backend, earlier);
      StepKeepsInv(h, iso, backend, Run(h, iso, backend, earlier).value, steps[|steps| - 1]);
    }
  }

  lemma EmptyInv(h: Hasher, iso: IsoFormat)
    ensures Inv(h, iso, EMPTY)
  {
    forall chain: string ensures ChainAgrees(iso, EMPTY, chain) {
    }
  }

  /** After any interleaving of committed, refused and rolled-back transactions, on any backend:
      the cached head equals a full scan, reading the chain back gives exactly the records hashed,
      and they form a valid chain numbered 1..n. */
  lemma DatabaseRefinesFile(h: Hasher, iso: IsoFormat, backend: Backend, steps: seq<Step>, chain: string,
                            out: seq<Row>)
    requires Run(h, iso, backend, steps).Some?
    requires QueryResult(Run(h, iso, backend, steps).value.rows, chain, out)
    ensures var db := Run(h, iso, backend, steps).value;
            var events := ReadRows(iso, backend, out);
            && events == ChainLines(db.committed, chain)
            && WrittenChain(h, events)
            && (chain in db.heads <==> events != [])
            && (chain in db.heads ==> Tail(events) == Some(FileHead(db.heads[chain])))
  {
    RunKeepsInv(h, iso, backend, steps);
    var db := Run(h, iso, backend, steps).value;
    assert ChainAgrees(iso, db, chain) && WrittenChain(h, ChainLines(db.committed, chain));
    QueryReadsBack(iso, backend, db.rows, chain, ChainLines(db.committed, chain), out);
  }
}
