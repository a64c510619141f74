/** Appends of the database writer get through: begun and committed, they add what the file writer would. */
module AuditAppends {
  import opened Wrappers
  import opened Json
  import opened Octets
  import opened AuditChain
  import opened AuditFile
  import opened AuditRows
  import opened AuditPostgres
  import opened AuditCommits

  /** When a transaction can begin, and what it has then seen: its chain's head, if there is one. */
  lemma BeginSeesHead(h: Hasher, iso: IsoFormat, backend: Backend, db: Db, w: nat, req: Request)
    ensures Apply(h, iso, backend, db, Begin(w, req)).Some? <==>
            && w !in db.open_
            && (backend.Postgres? ==>
                  forall v | v in db.open_ :: db.open_[v].seen.Some? ==> ChainOf(db.open_[v].req) != ChainOf(req))
    ensures Apply(h, iso, backend, db, Begin(w, req)).Some? ==>
              var begun := Apply(h, iso, backend, db, Begin(w, req)).value;
              && begun.rows == db.rows && begun.heads == db.heads && begun.committed == db.committed
              && w in begun.open_ && begun.open_ - {w} == db.open_ && begun.open_[w].req == req
              && (ChainOf(req) in db.heads ==> begun.open_[w].seen == Some(db.heads[ChainOf(req)]))
              && (ChainOf(req) !in db.heads ==> begun.open_[w].seen == None)
  {
  }

  /** An open transaction can always commit or roll back; rolled back, it leaves nothing behind. */
  lemma EndsAreEnabled(h: Hasher, iso: IsoFormat, backend: Backend, db: Db, w: nat, now: int)
    ensures Apply(h, iso, backend, db, Commit(w, now)).Some? <==> w in db.open_
    ensures Apply(h, iso, backend, db, Rollback(w)).Some? <==> w in db.open_
    ensures w in db.open_ ==>
              var closed := Apply(h, iso, backend, db, Rollback(w)).value;
              && closed.rows == db.rows && closed.heads == db.heads && closed.committed == db.committed
              && closed.open_ == map v | v in db.open_ && v != w :: db.open_[v]
  {
  }

  /** Runs start on empty tables and go on by any step that is possible. */
  lemma RunsGoOn(h: Hasher, iso: IsoFormat, backend: Backend, steps: seq<Step>, step: Step)
    ensures var start := Run(h, iso, backend, []);
            && start.Some? && |start.value.rows| == 0 && start.value.heads == map[]
            && start.value.open_ == map[] && start.value.committed == []
    ensures Run(h, iso, backend, steps).Some? ==>
              Run(h, iso, backend, steps + [step]) ==
              Apply(h, iso, backend, Run(h, iso, backend, steps).value, step)
  {
    assert (steps + [step])[..|steps|] == steps;
  }

  /** The event the file writer would append to the committed records. */
  function FileEvent(h: Hasher, iso: IsoFormat, db: Db, req: Request, now: int): Record
    requires Tail(ChainLines(db.committed, ChainOf(req))).Some?
  {
    MakeRecord(h, ChainOf(req), req, iso(now), Tail(ChainLines(db.committed, ChainOf(req))).value)
  }

  /** Some event of the chain already has this event's hash. */
  ghost predicate SameHashIn(lines: seq<Record>, event: Record) {
    exists i | 0 <= i < |lines| :: Get(lines[i], "this_hash") == Get(event, "this_hash")
  }

  /** One append with nothing between its two steps: it adds exactly the event the file writer would add,
      as one row that reads as that event and becomes the head; only an equal hash keeps it out. */
  lemma AppendGetsThrough(h: Hasher, iso: IsoFormat, backend: Backend, db: Db, w: nat, req: Request, now: int)
    returns (done: Db, row: Row)
    requires Inv(h, iso, db) && w !in db.open_
    requires backend.Postgres? ==>
               forall v | v in db.open_ :: db.open_[v].seen.Some? ==> ChainOf(db.open_[v].req) != ChainOf(req)
    ensures Apply(h, iso, backend, db, Begin(w, req)).Some?
    ensures Apply(h, iso, backend, Apply(h, iso, backend, db, Begin(w, req)).value, Commit(w, now)) == Some(done)
    ensures Tail(ChainLines(db.committed, ChainOf(req))).Some?
    ensures var lines, event := ChainLines(db.committed, ChainOf(req)), FileEvent(h, iso, db, req, now);
            if SameHashIn(lines, event) then done == db
            else
              && done.committed == db.committed + [event] && done.open_ == db.open_
              && AddsRow(iso, db, done, row, ChainOf(req), |lines| + 1, event)
  {
    BeginSeesHead(h, iso, backend, db, w, req);
    var begun := Apply(h, iso, backend, db, Begin(w, req)).value;
    BegunIsCurrent(h, iso, backend, db, w, req);
    row := CurrentCommits(h, iso, backend, begun, w, now);
    done := Apply(h, iso, backend, begun, Commit(w, now)).value;
  }

  lemma BegunIsCurrent(h: Hasher, iso: IsoFormat, backend: Backend, db: Db, w: nat, req: Request)
    requires Inv(h, iso, db) && Apply(h, iso, backend, db, Begin(w, req)).Some?
    ensures var begun := Apply(h, iso, backend, db, Begin(w, req)).value;
            Inv(h, iso, begun) && w in begun.open_ && !Stale(begun, begun.open_[w])
  {
    BeginSeesHead(h, iso, backend, db, w, req);
    BeginKeepsInv(h, iso, db, w, req);
  }

  /** The commit of a transaction that is not stale. */
  lemma CurrentCommits(h: Hasher, iso: IsoFormat, backend: Backend, db: Db, w: nat, now: int) returns (row: Row)
    requires Inv(h, iso, db) && w in db.open_ && !Stale(db, db.open_[w])
    ensures Apply(h, iso, backend, db, Commit(w, now)).Some?
    ensures Tail(ChainLines(db.committed, ChainOf(db.open_[w].req))).Some?
    ensures var done, req := Apply(h, iso, backend, db, Commit(w, now)).value, db.open_[w].req;
            var lines, event := ChainLines(db.committed, ChainOf(req)), FileEvent(h, iso, db, req, now);
            && done.open_ == db.open_ - {w}
            && if SameHashIn(lines, event) then
                 done.rows == db.rows && done.heads == db.heads && done.committed == db.committed
               else
                 && done.committed == db.committed + [event]
                 && AddsRow(iso, db, done, row, ChainOf(req), |lines| + 1, event)
  {
    var tx := db.open_[w];
    row := RowOf(h, iso, tx, now);
    assert ChainAgrees(iso, db, ChainOf(tx.req));
    CurrentHeadIsTail(h, iso, db, tx);
    RefusedIff(h, iso, db, w, now);
    TakenIffSameHash(h, iso, db, tx, now);
    CommittedAddsRow(h, iso, db, w, now);
  }

  /** One row of a chain is added, reads as the event, and is the chain's new head. */
  ghost predicate AddsRow(iso: IsoFormat, db: Db, done: Db, row: Row, chain: string, seq_: int, event: Record) {
    && row.chainId == chain && row.seq_ == seq_
    && done.rows == db.rows + {row}
    && done.heads == db.heads[chain := ChainHead(seq_, Some(row.thisHash))]
    && forall backend :: ReadRow(iso, backend, row) == event
  }

  lemma CommittedAddsRow(h: Hasher, iso: IsoFormat, db: Db, w: nat, now: int)
    requires w in db.open_ && ChainAgrees(iso, db, ChainOf(db.open_[w].req)) && !Stale(db, db.open_[w])
    ensures var tx := db.open_[w];
            var lines := ChainLines(db.committed, ChainOf(tx.req));
            AddsRow(iso, db, Committed(h, iso, db, w, now), RowOf(h, iso, tx, now), ChainOf(tx.req), |lines| + 1,
                    RecordOf(h, iso, tx, now))
  {
    var tx := db.open_[w];
    CurrentHeadIsTail(h, iso, db, tx);
    forall backend ensures ReadRow(iso, backend, RowOf(h, iso, tx, now)) == RecordOf(h, iso, tx, now) {
      ReadRebuildsHashedRecord(h, iso, backend, tx.req, HeadSeen(tx), now);
    }
  }

  /** A hash is taken exactly when an event of the chain has it. */
  lemma TakenIffSameHash(h: Hasher, iso: IsoFormat, db: Db, tx: Transaction, now: int)
    requires ChainAgrees(iso, db, ChainOf(tx.req)) && WrittenChain(h, ChainLines(db.committed, ChainOf(tx.req)))
    requires !Stale(db, tx)
    ensures HashTaken(h, iso, ChainLines(db.committed, ChainOf(tx.req)), tx, now) <==>
            SameHashIn(ChainLines(db.committed, ChainOf(tx.req)), RecordOf(h, iso, tx, now))
  {
    var lines, record := ChainLines(db.committed, ChainOf(tx.req)), RecordOf(h, iso, tx, now);
    CurrentHeadIsTail(h, iso, db, tx);
    SealedRecord(h, ChainOf(tx.req), tx.req, CanonicalTs(iso, DateTime(now, Some(0))), FileHead(HeadSeen(tx)));
    forall i | 0 <= i < |lines|
      ensures CollidesWith(h, iso, lines, i, tx, now) <==> Get(lines[i], "this_hash") == Get(record, "this_hash")
    {
      CollidesIffSameHash(h, iso, lines, i, tx, now);
    }
  }

  lemma CollidesIffSameHash(h: Hasher, iso: IsoFormat, lines: seq<Record>, i: nat, tx: Transaction, now: int)
    requires WrittenChain(h, lines) && i < |lines| == HeadSeen(tx).headSeq
    ensures CollidesWith(h, iso, lines, i, tx, now) <==>
            Get(lines[i], "this_hash") == Get(RecordOf(h, iso, tx, now), "this_hash")
  {
    assert Continues(h, lines, i);
    var fields := FieldsFor(iso, tx.req, HeadSeen(tx), now);
    SealedRecord(h, ChainOf(tx.req), tx.req, CanonicalTs(iso, DateTime(now, Some(0))), FileHead(HeadSeen(tx)));
    assert Get(Payload(lines[i]), "seq") == Int(i + 1) && Get(Payload(fields), "seq") == Int(|lines| + 1);
  }

  /** The same at the end of any run. */
  lemma EveryAppendGetsThrough(h: Hasher, iso: IsoFormat, backend: Backend, steps: seq<Step>, w: nat, req: Request,
                               now: int)
    requires Run(h, iso, backend, steps).Some? && w !in Run(h, iso, backend, steps).value.open_
    requires backend.Postgres? ==>
               var open_ := Run(h, iso, backend, steps).value.open_;
               forall v | v in open_ :: open_[v].seen.Some? ==> ChainOf(open_[v].req) != ChainOf(req)
    ensures Tail(ChainLines(Run(h, iso, backend, steps).value.committed, ChainOf(req))).Some?
    ensures Run(h, iso, backend, steps + [Begin(w, req)] + [Commit(w, now)]).Some?
    ensures var before, after := Run(h, iso, backend, steps).value,
                                 Run(h, iso, backend, steps + [Begin(w, req)] + [Commit(w, now)]).value;
            var event := FileEvent(h, iso, before, req, now);
            after.committed == before.committed
                               + if SameHashIn(ChainLines(before.committed, ChainOf(req)), event) then [] else [event]
  {
    RunKeepsInv(h, iso, backend, steps);
    var before := Run(h, iso, backend, steps).value;
    var done, row := AppendGetsThrough(h, iso, backend, before, w, req, now);
    TwoMoreSteps(h, iso, backend, steps, Begin(w, req), Commit(w, now));
  }

  lemma TwoMoreSteps(h: Hasher, iso: IsoFormat, backend: Backend, steps: seq<Step>, first: Step, second: Step)
    requires Run(h, iso, backend, steps).Some?
    requires Apply(h, iso, backend, Run(h, iso, backend, steps).value, first).Some?
    ensures Run(h, iso, backend, steps + [first] + [second]) ==
            Apply(h, iso, backend, Apply(h, iso, backend, Run(h, iso, backend, steps).value, first).value, second)
  {
    assert (steps + [first])[..|steps|] == steps;
    assert (steps + [first] + [second])[..|steps| + 1] == steps + [first];
  }
}
