/** Which commits of the database writer the constraints refuse, and what row locks add. */
module AuditCommits {
  import opened Wrappers
  import opened Json
  import opened Octets
  import opened AuditChain
  import opened AuditFile
  import opened AuditRows
  import opened AuditPostgres

  // ---------------------------------------------------------------- what the constraints refuse

  /** What the transaction hashes collides with what was hashed for an event already in the chain. */
  ghost predicate HashTaken(h: Hasher, iso: IsoFormat, lines: seq<Record>, tx: Transaction, now: int) {
    exists i | 0 <= i < |lines| :: CollidesWith(h, iso, lines, i, tx, now)
  }

  ghost predicate CollidesWith(h: Hasher, iso: IsoFormat, lines: seq<Record>, i: nat, tx: Transaction, now: int)
    requires i < |lines|
  {
    Collides(h, Before(lines, i), Payload(lines[i]),
             HexOrNone(HeadSeen(tx).headHash), Payload(FieldsFor(iso, tx.req, HeadSeen(tx), now)))
  }

  /** In any reachable state a commit is refused exactly when the chain's head has moved since the
      transaction read it, or when its hash collides with an earlier one of the chain. */
  lemma RefusedIff(h: Hasher, iso: IsoFormat, db: Db, w: nat, now: int)
    requires Inv(h, iso, db) && w in db.open_
    ensures var tx := db.open_[w];
            Refused(db, tx, RowOf(h, iso, tx, now)) <==>
            Stale(db, tx) || HashTaken(h, iso, ChainLines(db.committed, ChainOf(tx.req)), tx, now)
  {
    var tx := db.open_[w];
    var lines := ChainLines(db.committed, ChainOf(tx.req));
    assert ChainAgrees(iso, db, ChainOf(tx.req)) && SeenOnce(db.heads, tx) && WrittenChain(h, lines);
    if Stale(db, tx) {
      StaleIsRefused(h, iso, db, tx, now);
    } else if Refused(db, tx, RowOf(h, iso, tx, now)) {
      CurrentIsRefusedForHash(h, iso, db, tx, now);
    }
    if HashTaken(h, iso, lines, tx, now) {
      TakenHashIsRefused(h, iso, db, tx, now);
    }
  }

  lemma CurrentIsRefusedForHash(h: Hasher, iso: IsoFormat, db: Db, tx: Transaction, now: int)
    requires ChainAgrees(iso, db, ChainOf(tx.req)) && WrittenChain(h, ChainLines(db.committed, ChainOf(tx.req)))
    requires !Stale(db, tx) && Refused(db, tx, RowOf(h, iso, tx, now))
    ensures HashTaken(h, iso, ChainLines(db.committed, ChainOf(tx.req)), tx, now)
  {
    var row, lines := RowOf(h, iso, tx, now), ChainLines(db.committed, ChainOf(tx.req));
    CurrentHeadIsTail(h, iso, db, tx);
    var r :| r in db.rows && r.chainId == row.chainId && (r.seq_ == row.seq_ || r.thisHash == row.thisHash);
    assert RowStands(iso, r, lines);
    SameHashCollides(h, iso, tx, now, lines, r);
  }

  lemma TakenHashIsRefused(h: Hasher, iso: IsoFormat, db: Db, tx: Transaction, now: int)
    requires ChainAgrees(iso, db, ChainOf(tx.req)) && WrittenChain(h, ChainLines(db.committed, ChainOf(tx.req)))
    requires HashTaken(h, iso, ChainLines(db.committed, ChainOf(tx.req)), tx, now)
    ensures Refused(db, tx, RowOf(h, iso, tx, now))
  {
    var chain, lines := ChainOf(tx.req), ChainLines(db.committed, ChainOf(tx.req));
    var i :| 0 <= i < |lines| && CollidesWith(h, iso, lines, i, tx, now);
    var r := RowOfEvent(iso, db.rows, chain, lines, i + 1);
    CollisionIsSameHash(h, iso, tx, now, lines, r);
    SameHashIsRefused(db, tx, RowOf(h, iso, tx, now), r);
  }

  lemma SameHashIsRefused(db: Db, tx: Transaction, row: Row, r: Row)
    requires r in db.rows && r.chainId == row.chainId && r.thisHash == row.thisHash
    ensures Refused(db, tx, row)
  {
  }

  /** The stored hash of a row is the hash of the event it reads as. */
  lemma StoredHash(h: Hasher, iso: IsoFormat, lines: seq<Record>, r: Row)
    requires WrittenChain(h, lines) && RowStands(iso, r, lines)
    ensures ToHex(r.thisHash) == ComputeHash(h, Before(lines, r.seq_ - 1), lines[r.seq_ - 1])
    ensures Get(Payload(lines[r.seq_ - 1]), "seq") == Int(r.seq_)
  {
    var i := r.seq_ - 1;
    assert Continues(h, lines, i);
    assert ReadRow(iso, Sqlite, r) == lines[i];
    assert Get(lines[i], "this_hash") == Str(ToHex(r.thisHash));
  }

  /** A row of the chain with the hash of a later one is a collision: the two hashed records differ
      in their sequence numbers. */
  lemma SameHashCollides(h: Hasher, iso: IsoFormat, tx: Transaction, now: int, lines: seq<Record>, r: Row)
    requires WrittenChain(h, lines) && RowStands(iso, r, lines)
    requires HeadSeen(tx).headSeq == |lines|
    requires r.thisHash == RowOf(h, iso, tx, now).thisHash
    ensures HashTaken(h, iso, lines, tx, now)
  {
    StoredHash(h, iso, lines, r);
    HexRoundTrip(DigestFor(h, iso, tx.req, HeadSeen(tx), now));
    var fields := FieldsFor(iso, tx.req, HeadSeen(tx), now);
    assert Get(Payload(fields), "seq") == Int(|lines| + 1);
    assert CollidesWith(h, iso, lines, r.seq_ - 1, tx, now);
  }

  lemma CollisionIsSameHash(h: Hasher, iso: IsoFormat, tx: Transaction, now: int, lines: seq<Record>, r: Row)
    requires WrittenChain(h, lines) && RowStands(iso, r, lines)
    requires CollidesWith(h, iso, lines, r.seq_ - 1, tx, now)
    ensures r.thisHash == RowOf(h, iso, tx, now).thisHash
  {
    StoredHash(h, iso, lines, r);
    BytesRoundTrip(r.thisHash);
  }

  // ---------------------------------------------------------------- what row locks add

  /** On Postgres, an open transaction that has read a head still holds it. */
  ghost predicate HeadsHeld(db: Db) {
    && (forall w | w in db.open_ && db.open_[w].seen.Some? ::
          ChainOf(db.open_[w].req) in db.heads && db.heads[ChainOf(db.open_[w].req)] == db.open_[w].seen.value)
    && (forall w, v | w in db.open_ && v in db.open_ && db.open_[w].seen.Some? && db.open_[v].seen.Some?
                      && ChainOf(db.open_[w].req) == ChainOf(db.open_[v].req) :: w == v)
  }

  lemma {:induction false} LocksHoldHeads(h: Hasher, iso: IsoFormat, backend: Backend, steps: seq<Step>)
    requires backend.Postgres? && Run(h, iso, backend, steps).Some?
    ensures HeadsHeld(Run(h, iso, backend, steps).value)
  {
    if steps != [] {
      var n := |steps| - 1;
      RunKeepsInv(h, iso, backend, steps[..n]);
      LocksHoldHeads(h, iso, backend, steps[..n]);
      StepHoldsHeads(h, iso, backend, Run(h, iso, backend, steps[..n]).value, steps[n]);
    }
  }

  lemma StepHoldsHeads(h: Hasher, iso: IsoFormat, backend: Backend, db: Db, step: Step)
    requires backend.Postgres? && Inv(h, iso, db) && HeadsHeld(db) && Apply(h, iso, backend, db, step).Some?
    ensures HeadsHeld(Apply(h, iso, backend, db, step).value)
  {
    if step.Commit? && !Refused(db, db.open_[step.w], RowOf(h, iso, db.open_[step.w], step.now)) {
      CommitHoldsHeads(h, iso, db, step.w, step.now);
    }
  }

  lemma CommitHoldsHeads(h: Hasher, iso: IsoFormat, db: Db, w: nat, now: int)
    requires HeadsHeld(db) && w in db.open_
    requires !Refused(db, db.open_[w], RowOf(h, iso, db.open_[w], now))
    ensures HeadsHeld(Committed(h, iso, db, w, now))
  {
    var db', own := Committed(h, iso, db, w, now), ChainOf(db.open_[w].req);
    forall v | v in db'.open_ && db'.open_[v].seen.Some?
      ensures var chain := ChainOf(db'.open_[v].req); chain in db'.heads && db'.heads[chain] == db'.open_[v].seen.value
    {
      assert ChainOf(db.open_[v].req) != own;
    }
  }

  /** With row locks a commit is stale only when another transaction created the chain's head first: the
      sequence constraint never has to fire. */
  lemma LockedIsCurrent(h: Hasher, iso: IsoFormat, backend: Backend, steps: seq<Step>, w: nat)
    requires backend.Postgres? && Run(h, iso, backend, steps).Some?
    requires w in Run(h, iso, backend, steps).value.open_
    ensures var db := Run(h, iso, backend, steps).value;
            Stale(db, db.open_[w]) <==> db.open_[w].seen.None? && ChainOf(db.open_[w].req) in db.heads
  {
    LocksHoldHeads(h, iso, backend, steps);
  }

  /** Without row locks two transactions of one chain can read the same head; whichever commits first, the
      constraints refuse the other: no fork is ever stored. */
  lemma ForkIsRefused(h: Hasher, iso: IsoFormat, db: Db, w: nat, v: nat, first: Request, second: Request,
                      now: int, later: int) returns (both: Db)
    requires Inv(h, iso, db) && w != v && w !in db.open_ && v !in db.open_
    requires ChainOf(first) == ChainOf(second)
    ensures Apply(h, iso, Sqlite, db, Begin(w, first)).Some?
    ensures Apply(h, iso, Sqlite, Apply(h, iso, Sqlite, db, Begin(w, first)).value, Begin(v, second)) == Some(both)
    ensures both.open_[w].seen == both.open_[v].seen
    ensures !Refused(both, both.open_[w], RowOf(h, iso, both.open_[w], now)) ==>
              var after := Committed(h, iso, both, w, now);
              && Stale(after, both.open_[v])
              && Refused(after, both.open_[v], RowOf(h, iso, both.open_[v], later))
  {
    both := BothBegin(h, iso, db, w, v, first, second);
    if !Refused(both, both.open_[w], RowOf(h, iso, both.open_[w], now)) {
      SecondIsRefused(h, iso, both, w, v, now, later);
    }
  }

  lemma BothBegin(h: Hasher, iso: IsoFormat, db: Db, w: nat, v: nat, first: Request, second: Request)
    returns (both: Db)
    requires Inv(h, iso, db) && w != v && w !in db.open_ && v !in db.open_
    requires ChainOf(first) == ChainOf(second)
    ensures Apply(h, iso, Sqlite, db, Begin(w, first)).Some?
    ensures Apply(h, iso, Sqlite, Apply(h, iso, Sqlite, db, Begin(w, first)).value, Begin(v, second)) == Some(both)
    ensures Inv(h, iso, both) && w in both.open_ && v in both.open_
    ensures both.open_[w].seen == both.open_[v].seen
    ensures ChainOf(both.open_[w].req) == ChainOf(both.open_[v].req)
  {
    both := Opened(Opened(db, w, first), v, second);
    BeginKeepsInv(h, iso, db, w, first);
    BeginKeepsInv(h, iso, Opened(db, w, first), v, second);
  }

  lemma SecondIsRefused(h: Hasher, iso: IsoFormat, db: Db, w: nat, v: nat, now: int, later: int)
    requires Inv(h, iso, db) && w != v && w in db.open_ && v in db.open_
    requires ChainOf(db.open_[w].req) == ChainOf(db.open_[v].req) && db.open_[w].seen == db.open_[v].seen
    requires !Refused(db, db.open_[w], RowOf(h, iso, db.open_[w], now))
    ensures var after := Committed(h, iso, db, w, now);
            Stale(after, db.open_[v]) && Refused(after, db.open_[v], RowOf(h, iso, db.open_[v], later))
  {
    var after, chain := Committed(h, iso, db, w, now), ChainOf(db.open_[v].req);
    CommitKeepsInv(h, iso, db, w, now);
    assert after.open_[v] == db.open_[v];
    assert ChainAgrees(iso, after, chain) && SeenOnce(after.heads, after.open_[v]);
    assert after.heads[chain].headSeq == HeadSeen(db.open_[v]).headSeq + 1;
    StaleIsRefused(h, iso, after, db.open_[v], later);
  }
}
