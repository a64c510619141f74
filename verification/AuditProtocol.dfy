/** Any number of threads interleaving the steps of `JsonlAuditWriter.append` on one file.

    A thread looks its chain's lock up, takes it, scans the file for the chain's tail, builds and
    hashes the record, writes one line and releases; an exception releases early. Writing one line
    is atomic, and all threads share one writer instance, hence one lock table. */
module AuditProtocol {
  import opened Wrappers
  import opened Json
  import opened AuditChain
  import opened AuditFile

  type ThreadId = nat
  type LockId = nat

  datatype Phase =
    | Idle
    | Looked(req: Request, lock: LockId)
    | Locked(req: Request, lock: LockId)
    | Scanned(req: Request, lock: LockId, head: Head)
    | Built(req: Request, lock: LockId, head: Head, ts: string)
    | Wrote(req: Request, lock: LockId, record: Record)
  {
    /** Inside the `with lock` block. */
    predicate Critical() {
      Locked? || Scanned? || Built? || Wrote?
    }
  }

  datatype State = State(
    file: seq<Record>,
    locks: map<string, LockId>,
    owner: map<LockId, ThreadId>,
    phases: map<ThreadId, Phase>)
  {
    function PhaseOf(t: ThreadId): Phase {
      if t in phases then phases[t] else Idle
    }

    function Move(t: ThreadId, phase: Phase): State {
      this.(phases := phases[t := phase])
    }
  }

  const INITIAL := State([], map[], map[], map[])

  datatype Step =
    | LookUp(t: ThreadId, req: Request)
    | Acquire(t: ThreadId)
    | Scan(t: ThreadId)
    | Build(t: ThreadId, ts: string)
    | Write(t: ThreadId)
    | Release(t: ThreadId)

  /** One step of one thread, or None where that thread cannot take it now. */
  function Apply(h: Hasher, s: State, step: Step): Option<State> {
    var phase := s.PhaseOf(step.t);
    match step
    case LookUp(t, req) =>
      if !phase.Idle? then None
      else
        var chain := ChainOf(req);
        var locks := if chain in s.locks then s.locks else s.locks[chain := |s.locks|];
        Some(s.(locks := locks).Move(t, Looked(req, locks[chain])))
    case Acquire(t) =>
      if !phase.Looked? || phase.lock in s.owner then None
      else Some(s.(owner := s.owner[phase.lock := t]).Move(t, Locked(phase.req, phase.lock)))
    case Scan(t) =>
      if !phase.Locked? then None
      else
        var tail := Tail(ChainLines(s.file, ChainOf(phase.req)));
        if tail.None? then None
        else Some(s.Move(t, Scanned(phase.req, phase.lock, tail.value)))
    case Build(t, ts) =>
      if !phase.Scanned? then None
      else Some(s.Move(t, Built(phase.req, phase.lock, phase.head, ts)))
    case Write(t) =>
      if !phase.Built? then None
      else
        var record := MakeRecord(h, ChainOf(phase.req), phase.req, phase.ts, phase.head);
        Some(s.(file := s.file + [record]).Move(t, Wrote(phase.req, phase.lock, record)))
    case Release(t) =>
      if !phase.Critical() then None
      else Some(s.(owner := s.owner - {phase.lock}).Move(t, Idle))
  }

  /** The state after a whole schedule, or None where a step of it was not possible. */
  function Run(h: Hasher, steps: seq<Step>): Option<State> {
    if steps == [] then Some(INITIAL)
    else
      var before := Run(h, steps[..|steps| - 1]);
      if before.None? then None else Apply(h, before.value, steps[|steps| - 1])
  }

  /** One lock per chain. */
  ghost predicate LocksDistinct(locks: map<string, LockId>) {
    && (forall c | c in locks :: locks[c] < |locks|)
    && (forall c, d | c in locks && d in locks && locks[c] == locks[d] :: c == d)
  }

  ghost predicate UsesLock(locks: map<string, LockId>, phase: Phase) {
    !phase.Idle? ==> ChainOf(phase.req) in locks && locks[ChainOf(phase.req)] == phase.lock
  }

  ghost predicate Owns(owner: map<LockId, ThreadId>, t: ThreadId, phase: Phase) {
    phase.Critical() ==> phase.lock in owner && owner[phase.lock] == t
  }

  /** Every thread uses its chain's lock, and the one inside the critical section owns it. */
  ghost predicate LockInv(s: State) {
    && LocksDistinct(s.locks)
    && (forall t | t in s.phases :: UsesLock(s.locks, s.phases[t]))
    && (forall t | t in s.phases :: Owns(s.owner, t, s.phases[t]))
  }

  /** What a thread has scanned is still the tail. */
  ghost predicate ScanCurrent(file: seq<Record>, phase: Phase) {
    phase.Scanned? || phase.Built? ==> Tail(ChainLines(file, ChainOf(phase.req))) == Some(phase.head)
  }

  ghost predicate ScansCurrent(s: State) {
    forall t | t in s.phases :: ScanCurrent(s.file, s.phases[t])
  }

  ghost predicate KeptWrite(file: seq<Record>, phase: Phase) {
    phase.Wrote? ==> phase.record in file
  }

  ghost predicate WritesKept(s: State) {
    forall t | t in s.phases :: KeptWrite(s.file, s.phases[t])
  }

  /** One lock per chain, one thread per lock, every scan still current, every chain valid. */
  ghost predicate Inv(h: Hasher, s: State) {
    WrittenFile(h, s.file) && LockInv(s) && ScansCurrent(s) && WritesKept(s)
  }

  lemma InitialInv(h: Hasher)
    ensures Inv(h, INITIAL)
  {
  }

  /** A step other than a write leaves the file alone. */
  lemma OnlyWritesAppend(h: Hasher, s: State, step: Step)
    requires Apply(h, s, step).Some?
    ensures !step.Write? ==> Apply(h, s, step).value.file == s.file
    ensures step.Write? ==>
              var phase := s.PhaseOf(step.t);
              && phase.Built?
              && Apply(h, s, step).value.file ==
                 s.file + [MakeRecord(h, ChainOf(phase.req), phase.req, phase.ts, phase.head)]
  {
  }

  lemma StepKeepsLocks(h: Hasher, s: State, step: Step)
    requires LockInv(s) && Apply(h, s, step).Some?
    ensures LockInv(Apply(h, s, step).value)
  {
    match step
    case LookUp(t, req) => LookUpKeepsLocks(h, s, t, req);
    case Acquire(t) => AcquireKeepsLocks(h, s, t);
    case Scan(t) => InsideKeepsLocks(h, s, step);
    case Build(t, ts) => InsideKeepsLocks(h, s, step);
    case Write(t) => InsideKeepsLocks(h, s, step);
    case Release(t) => ReleaseKeepsLocks(h, s, t);
  }

  lemma AcquireKeepsLocks(h: Hasher, s: State, t: ThreadId)
    requires LockInv(s) && Apply(h, s, Acquire(t)).Some?
    ensures LockInv(Apply(h, s, Acquire(t)).value)
  {
    var s' := Apply(h, s, Acquire(t)).value;
    assert UsesLock(s.locks, s.phases[t]);
    forall u | u in s'.phases ensures UsesLock(s'.locks, s'.phases[u]) && Owns(s'.owner, u, s'.phases[u]) {
      assert u != t ==> UsesLock(s.locks, s.phases[u]) && Owns(s.owner, u, s.phases[u]);
    }
  }

  /** The steps inside the critical section leave locks and owners alone. */
  lemma InsideKeepsLocks(h: Hasher, s: State, step: Step)
    requires LockInv(s) && Apply(h, s, step).Some? && (step.Scan? || step.Build? || step.Write?)
    ensures LockInv(Apply(h, s, step).value)
  {
    var s', t := Apply(h, s, step).value, step.t;
    assert UsesLock(s.locks, s.phases[t]) && Owns(s.owner, t, s.phases[t]);
    forall u | u in s'.phases ensures UsesLock(s'.locks, s'.phases[u]) && Owns(s'.owner, u, s'.phases[u]) {
      assert u != t ==> UsesLock(s.locks, s.phases[u]) && Owns(s.owner, u, s.phases[u]);
    }
  }

  lemma LookUpKeepsLocks(h: Hasher, s: State, t: ThreadId, req: Request)
    requires LockInv(s) && Apply(h, s, LookUp(t, req)).Some?
    ensures LockInv(Apply(h, s, LookUp(t, req)).value)
  {
    var s' := Apply(h, s, LookUp(t, req)).value;
    NewLockIsDistinct(s.locks, ChainOf(req));
    forall u | u in s'.phases ensures UsesLock(s'.locks, s'.phases[u]) && Owns(s'.owner, u, s'.phases[u]) {
      assert u != t ==> UsesLock(s.locks, s.phases[u]) && Owns(s.owner, u, s.phases[u]);
    }
  }

  /** The number of locks so far is an unused lock id. */
  lemma NewLockIsDistinct(locks: map<string, LockId>, chain: string)
    requires LocksDistinct(locks)
    ensures chain !in locks ==> LocksDistinct(locks[chain := |locks|])
  {
    if chain !in locks {
      assert locks[chain := |locks|].Keys == locks.Keys + {chain};
    }
  }

  lemma ReleaseKeepsLocks(h: Hasher, s: State, t: ThreadId)
    requires LockInv(s) && Apply(h, s, Release(t)).Some?
    ensures LockInv(Apply(h, s, Release(t)).value)
  {
    var s' := Apply(h, s, Release(t)).value;
    assert Owns(s.owner, t, s.phases[t]);
    forall u | u in s'.phases ensures UsesLock(s'.locks, s'.phases[u]) && Owns(s'.owner, u, s'.phases[u]) {
      assert u != t ==> UsesLock(s.locks, s.phases[u]) && Owns(s.owner, u, s.phases[u]);
    }
  }

  /** Two threads inside the critical sections of one chain are one thread. */
  lemma OneInside(s: State, t: ThreadId, u: ThreadId)
    requires LockInv(s)
    requires s.PhaseOf(t).Critical() && s.PhaseOf(u).Critical()
    requires ChainOf(s.PhaseOf(t).req) == ChainOf(s.PhaseOf(u).req)
    ensures t == u
  {
    assert UsesLock(s.locks, s.phases[t]) && UsesLock(s.locks, s.phases[u]);
    assert Owns(s.owner, t, s.phases[t]) && Owns(s.owner, u, s.phases[u]);
  }

  lemma StepKeepsScans(h: Hasher, s: State, step: Step)
    requires LockInv(s) && ScansCurrent(s) && Apply(h, s, step).Some?
    ensures ScansCurrent(Apply(h, s, step).value)
  {
    var s' := Apply(h, s, step).value;
    OnlyWritesAppend(h, s, step);
    OwnScanCurrent(h, s, step);
    forall u | u in s'.phases && u != step.t ensures ScanCurrent(s'.file, s'.phases[u]) {
      if step.Write? {
        OthersScanStays(h, s, step.t, u);
      } else {
        assert ScanCurrent(s.file, s.phases[u]);
      }
    }
  }

  /** What the stepping thread has scanned is current after its step. */
  lemma OwnScanCurrent(h: Hasher, s: State, step: Step)
    requires ScansCurrent(s) && Apply(h, s, step).Some?
    ensures step.t in Apply(h, s, step).value.phases
    ensures ScanCurrent(Apply(h, s, step).value.file, Apply(h, s, step).value.phases[step.t])
  {
    assert step.t in s.phases ==> ScanCurrent(s.file, s.phases[step.t]);
  }

  /** Only the lock's owner can move its chain's tail, so every other scan stays current. */
  lemma OthersScanStays(h: Hasher, s: State, t: ThreadId, u: ThreadId)
    requires LockInv(s) && ScansCurrent(s) && u in s.phases && u != t
    requires s.PhaseOf(t).Built?
    ensures var p := s.PhaseOf(t);
            ScanCurrent(s.file + [MakeRecord(h, ChainOf(p.req), p.req, p.ts, p.head)], s.phases[u])
  {
    var p, q := s.PhaseOf(t), s.phases[u];
    assert ScanCurrent(s.file, q);
    if q.Scanned? || q.Built? {
      if ChainOf(q.req) == ChainOf(p.req) {
        OneInside(s, t, u);
      }
      OtherChainUnmoved(h, s.file, p.req, p.ts, p.head, ChainOf(q.req));
    }
  }

  lemma OtherChainUnmoved(h: Hasher, file: seq<Record>, req: Request, ts: string, head: Head, other: string)
    requires other != ChainOf(req)
    ensures ChainLines(file + [MakeRecord(h, ChainOf(req), req, ts, head)], other) == ChainLines(file, other)
  {
    var record := MakeRecord(h, ChainOf(req), req, ts, head);
    SealedRecord(h, ChainOf(req), req, ts, head);
    ChainLinesAppend(file, record, other);
    assert ChainLines(file, other) + [] == ChainLines(file, other);
  }

  lemma StepKeepsWrites(h: Hasher, s: State, step: Step)
    requires WritesKept(s) && Apply(h, s, step).Some?
    ensures WritesKept(Apply(h, s, step).value)
  {
    var s' := Apply(h, s, step).value;
    OnlyWritesAppend(h, s, step);
    forall u | u in s'.phases ensures KeptWrite(s'.file, s'.phases[u]) {
      assert u in s.phases ==> KeptWrite(s.file, s.phases[u]);
    }
  }

  lemma StepKeepsFile(h: Hasher, s: State, step: Step)
    requires WrittenFile(h, s.file) && ScansCurrent(s) && Apply(h, s, step).Some?
    ensures WrittenFile(h, Apply(h, s, step).value.file)
  {
    OnlyWritesAppend(h, s, step);
    if step.Write? {
      assert ScanCurrent(s.file, s.phases[step.t]);
      AppendKeepsFile(h, s.file, s.PhaseOf(step.t).req, s.PhaseOf(step.t).ts);
    }
  }

  lemma StepKeepsInv(h: Hasher, s: State, step: Step)
    requires Inv(h, s) && Apply(h, s, step).Some?
    ensures Inv(h, Apply(h, s, step).value)
  {
    StepKeepsFile(h, s, step);
    StepKeepsLocks(h, s, step);
    StepKeepsScans(h, s, step);
    StepKeepsWrites(h, s, step);
  }

  lemma {:induction false} RunKeepsInv(h: Hasher, steps: seq<Step>)
    requires Run(h, steps).Some?
    ensures Inv(h, Run(h, steps).value)
  {
    if steps == [] {
      InitialInv(h);
    } else {
      var earlier := steps[..|steps| - 1];
      RunKeepsInv(h, earlier);
      StepKeepsInv(h, Run(h, earlier).value, steps[|steps| - 1]);
    }
  }

  /** Whatever the interleaving, every chain of the file is valid and numbered 1..n. */
  lemma EveryInterleavingVerifies(h: Hasher, steps: seq<Step>, chain: string)
    requires Run(h, steps).Some?
    ensures var events := ChainLines(Run(h, steps).value.file, chain);
            && ValidChain(h, events)
            && forall i | 0 <= i < |events| :: Get(events[i], "seq") == Int(i + 1) && InChain(events[i], chain)
  {
    RunKeepsInv(h, steps);
    var file := Run(h, steps).value.file;
    assert WrittenChain(h, ChainLines(file, chain));
    OnlyOwnLines(file, chain);
  }

  lemma {:induction false} OnlyOwnLines(file: seq<Record>, chain: string)
    ensures forall i | 0 <= i < |ChainLines(file, chain)| :: InChain(ChainLines(file, chain)[i], chain)
  {
    if file != [] {
      OnlyOwnLines(file[..|file| - 1], chain);
    }
  }

  /** No thread ever finds the file unreadable, so an append blocks only on its lock. */
  lemma ScanNeverFails(h: Hasher, steps: seq<Step>, t: ThreadId)
    requires Run(h, steps).Some?
    requires Run(h, steps).value.PhaseOf(t).Locked?
    ensures Apply(h, Run(h, steps).value, Scan(t)).Some?
  {
    RunKeepsInv(h, steps);
    var s := Run(h, steps).value;
    var chain := ChainOf(s.PhaseOf(t).req);
    assert WrittenChain(h, ChainLines(s.file, chain));
    WrittenTail(h, ChainLines(s.file, chain));
  }

  /** When a thread can take each step: the phases follow one another, and only taking a lock has to wait. */
  lemma StepsAreEnabled(h: Hasher, s: State, t: ThreadId, req: Request, ts: string)
    requires Inv(h, s)
    ensures Apply(h, s, LookUp(t, req)).Some? <==> s.PhaseOf(t).Idle?
    ensures Apply(h, s, Acquire(t)).Some? <==> s.PhaseOf(t).Looked? && s.PhaseOf(t).lock !in s.owner
    ensures Apply(h, s, Scan(t)).Some? <==> s.PhaseOf(t).Locked?
    ensures Apply(h, s, Build(t, ts)).Some? <==> s.PhaseOf(t).Scanned?
    ensures Apply(h, s, Write(t)).Some? <==> s.PhaseOf(t).Built?
    ensures Apply(h, s, Release(t)).Some? <==>
            s.PhaseOf(t).Locked? || s.PhaseOf(t).Scanned? || s.PhaseOf(t).Built? || s.PhaseOf(t).Wrote?
  {
    if s.PhaseOf(t).Locked? {
      var lines := ChainLines(s.file, ChainOf(s.PhaseOf(t).req));
      assert WrittenChain(h, lines);
      WrittenTail(h, lines);
    }
  }

  /** Runs start on an empty file and go on by any step that is possible. */
  lemma RunsGoOn(h: Hasher, steps: seq<Step>, step: Step)
    ensures Run(h, []) == Some(State([], map[], map[], map[]))
    ensures Run(h, steps).Some? ==> Run(h, steps + [step]) == Apply(h, Run(h, steps).value, step)
  {
    assert (steps + [step])[..|steps|] == steps;
  }

  /** A lock that is held is held by a thread inside the critical section of that lock's chain. */
  ghost predicate HeldInside(s: State) {
    forall lock | lock in s.owner :: Inside(s.PhaseOf(s.owner[lock]), lock)
  }

  ghost predicate Inside(phase: Phase, lock: LockId) {
    phase.Critical() && phase.lock == lock
  }

  lemma StepKeepsHolders(h: Hasher, s: State, step: Step)
    requires HeldInside(s) && Apply(h, s, step).Some?
    ensures HeldInside(Apply(h, s, step).value)
  {
    var s' := Apply(h, s, step).value;
    forall lock | lock in s'.owner ensures Inside(s'.PhaseOf(s'.owner[lock]), lock) {
      HolderStaysInside(h, s, step, lock);
    }
  }

  lemma HolderStaysInside(h: Hasher, s: State, step: Step, lock: LockId)
    requires Apply(h, s, step).Some? && lock in Apply(h, s, step).value.owner
    requires lock in s.owner ==> Inside(s.PhaseOf(s.owner[lock]), lock)
    ensures var s' := Apply(h, s, step).value; Inside(s'.PhaseOf(s'.owner[lock]), lock)
  {
  }

  lemma {:induction false} RunKeepsHolders(h: Hasher, steps: seq<Step>)
    requires Run(h, steps).Some?
    ensures HeldInside(Run(h, steps).value)
  {
    if steps != [] {
      var earlier := steps[..|steps| - 1];
      RunKeepsHolders(h, earlier);
      StepKeepsHolders(h, Run(h, earlier).value, steps[|steps| - 1]);
    }
  }

  /** No deadlock: in every reachable state a thread that waits for its chain's lock can either take it,
      or waits for one other thread of the same chain that can take its own next step. */
  lemma NoDeadlock(h: Hasher, steps: seq<Step>, t: ThreadId, ts: string)
    requires Run(h, steps).Some? && Run(h, steps).value.PhaseOf(t).Looked?
    ensures var s := Run(h, steps).value;
            var lock := s.PhaseOf(t).lock;
            if lock !in s.owner then Apply(h, s, Acquire(t)).Some?
            else
              var u := s.owner[lock];
              && u != t
              && s.PhaseOf(u).Critical() && ChainOf(s.PhaseOf(u).req) == ChainOf(s.PhaseOf(t).req)
              && (Apply(h, s, Scan(u)).Some? || Apply(h, s, Build(u, ts)).Some? || Apply(h, s, Write(u)).Some?
                  || (s.PhaseOf(u).Wrote? && Apply(h, s, Release(u)).Some?))
  {
    RunKeepsInv(h, steps);
    RunKeepsHolders(h, steps);
    var s := Run(h, steps).value;
    var lock := s.PhaseOf(t).lock;
    if lock in s.owner {
      var u := s.owner[lock];
      assert Inside(s.PhaseOf(u), lock);
      assert UsesLock(s.locks, s.phases[t]) && UsesLock(s.locks, s.phases[u]);
      StepsAreEnabled(h, s, u, s.PhaseOf(u).req, ts);
    }
  }

  /** Appends get through: whatever the other threads are doing, an idle thread whose chain's lock nobody
      holds can take the six steps of an append, one after the other. They add exactly the record made after
      the chain's tail and leave the lock free and every other thread where it was. */
  lemma AppendGetsThrough(h: Hasher, s: State, t: ThreadId, req: Request, ts: string)
    returns (looked: State, locked: State, scanned: State, built: State, wrote: State, done: State)
    requires Inv(h, s) && HeldInside(s) && s.PhaseOf(t).Idle?
    requires ChainOf(req) in s.locks ==> s.locks[ChainOf(req)] !in s.owner
    ensures Apply(h, s, LookUp(t, req)) == Some(looked)
    ensures Apply(h, looked, Acquire(t)) == Some(locked)
    ensures Apply(h, locked, Scan(t)) == Some(scanned)
    ensures Apply(h, scanned, Build(t, ts)) == Some(built)
    ensures Apply(h, built, Write(t)) == Some(wrote)
    ensures Apply(h, wrote, Release(t)) == Some(done)
    ensures AddsToTail(h, s.file, req, ts, done.file)
    ensures done.owner == s.owner
    ensures done.phases == s.phases[t := Idle]
  {
    looked, locked := FreeLockIsTaken(h, s, t, req);
    var lock := locked.PhaseOf(t).lock;
    scanned, built, wrote, done := HolderFinishes(h, locked, t, req, lock, ts);
    MovesUndone(s.owner, lock, t, s.phases, locked.PhaseOf(t));
  }

  lemma MovesUndone(owner: map<LockId, ThreadId>, lock: LockId, t: ThreadId, phases: map<ThreadId, Phase>, phase: Phase)
    requires lock !in owner
    ensures owner[lock := t] - {lock} == owner
    ensures phases[t := phase][t := Idle] == phases[t := Idle]
  {
  }

  /** The holder of a lock finishes its append without waiting. */
  lemma HolderFinishes(h: Hasher, locked: State, t: ThreadId, req: Request, lock: LockId, ts: string)
    returns (scanned: State, built: State, wrote: State, done: State)
    requires WrittenFile(h, locked.file) && locked.PhaseOf(t) == Locked(req, lock)
    ensures Apply(h, locked, Scan(t)) == Some(scanned)
    ensures Apply(h, scanned, Build(t, ts)) == Some(built)
    ensures Apply(h, built, Write(t)) == Some(wrote)
    ensures Apply(h, wrote, Release(t)) == Some(done)
    ensures AddsToTail(h, locked.file, req, ts, done.file)
    ensures done.owner == locked.owner - {lock}
    ensures done.phases == locked.phases[t := Idle]
  {
    assert WrittenChain(h, ChainLines(locked.file, ChainOf(req)));
    WrittenTail(h, ChainLines(locked.file, ChainOf(req)));
    var tail := Tail(ChainLines(locked.file, ChainOf(req))).value;
    scanned, built := TailIsBuiltOn(h, locked, t, req, lock, tail, ts);
    wrote, done := RecordIsWritten(h, built, t, req, lock, tail, ts);
  }

  /** One line is added to the file: the record made after the tail of the request's chain. */
  ghost predicate AddsToTail(h: Hasher, file: seq<Record>, req: Request, ts: string, after: seq<Record>) {
    var tail := Tail(ChainLines(file, ChainOf(req)));
    tail.Some? && after == file + [MakeRecord(h, ChainOf(req), req, ts, tail.value)]
  }

  lemma HeldLocksExist(h: Hasher, s: State)
    requires Inv(h, s) && HeldInside(s)
    ensures forall lock | lock in s.owner :: lock < |s.locks|
  {
    forall lock | lock in s.owner ensures lock < |s.locks| {
      var u := s.owner[lock];
      assert Inside(s.PhaseOf(u), lock);
      assert UsesLock(s.locks, s.phases[u]);
    }
  }

  lemma FreeLockIsTaken(h: Hasher, s: State, t: ThreadId, req: Request) returns (looked: State, locked: State)
    requires Inv(h, s) && HeldInside(s) && s.PhaseOf(t).Idle?
    requires ChainOf(req) in s.locks ==> s.locks[ChainOf(req)] !in s.owner
    ensures Apply(h, s, LookUp(t, req)) == Some(looked)
    ensures Apply(h, looked, Acquire(t)) == Some(locked)
    ensures locked.file == s.file && locked.PhaseOf(t).Locked? && locked.PhaseOf(t).req == req
    ensures locked.PhaseOf(t).lock !in s.owner && locked.owner == s.owner[locked.PhaseOf(t).lock := t]
    ensures locked.phases == s.phases[t := locked.PhaseOf(t)]
  {
    HeldLocksExist(h, s);
    looked := Apply(h, s, LookUp(t, req)).value;
    locked := Apply(h, looked, Acquire(t)).value;
  }

  lemma TailIsBuiltOn(h: Hasher, locked: State, t: ThreadId, req: Request, lock: LockId, tail: Head, ts: string)
    returns (scanned: State, built: State)
    requires locked.PhaseOf(t) == Locked(req, lock)
    requires Tail(ChainLines(locked.file, ChainOf(req))) == Some(tail)
    ensures Apply(h, locked, Scan(t)) == Some(scanned)
    ensures Apply(h, scanned, Build(t, ts)) == Some(built)
    ensures built.file == locked.file && built.owner == locked.owner
    ensures built.phases == locked.phases[t := Built(req, lock, tail, ts)]
  {
    scanned := locked.Move(t, Scanned(req, lock, tail));
    built := scanned.Move(t, Built(req, lock, tail, ts));
  }

  lemma RecordIsWritten(h: Hasher, built: State, t: ThreadId, req: Request, lock: LockId, tail: Head, ts: string)
    returns (wrote: State, done: State)
    requires built.PhaseOf(t) == Built(req, lock, tail, ts)
    ensures Apply(h, built, Write(t)) == Some(wrote)
    ensures Apply(h, wrote, Release(t)) == Some(done)
    ensures done.file == built.file + [MakeRecord(h, ChainOf(req), req, ts, tail)]
    ensures done.owner == built.owner - {lock} && done.phases == built.phases[t := Idle]
  {
    var record := MakeRecord(h, ChainOf(req), req, ts, tail);
    wrote := built.(file := built.file + [record]).Move(t, Wrote(req, lock, record));
    done := wrote.(owner := wrote.owner - {lock}).Move(t, Idle);
  }

  /** At most one thread is between taking and releasing the lock of a given chain. */
  lemma MutualExclusion(h: Hasher, steps: seq<Step>, t: ThreadId, u: ThreadId)
    requires Run(h, steps).Some?
    requires Run(h, steps).value.PhaseOf(t).Critical() && Run(h, steps).value.PhaseOf(u).Critical()
    requires ChainOf(Run(h, steps).value.PhaseOf(t).req) == ChainOf(Run(h, steps).value.PhaseOf(u).req)
    ensures t == u
  {
    RunKeepsInv(h, steps);
    OneInside(Run(h, steps).value, t, u);
  }

  /** Lines are never removed or rewritten: a chain read earlier is a prefix of the chain read later. */
  lemma {:induction false} HistoryOnlyGrows(h: Hasher, steps: seq<Step>, n: nat, chain: string)
    requires n <= |steps|
    requires Run(h, steps).Some?
    ensures Run(h, steps[..n]).Some?
    ensures ChainLines(Run(h, steps[..n]).value.file, chain) <= ChainLines(Run(h, steps).value.file, chain)
  {
    if n == |steps| {
      assert steps[..n] == steps;
    } else {
      var earlier := steps[..|steps| - 1];
      HistoryOnlyGrows(h, earlier, n, chain);
      assert earlier[..n] == steps[..n];
      FileGrows(h, Run(h, earlier).value, steps[|steps| - 1], chain);
    }
  }

  lemma FileGrows(h: Hasher, s: State, step: Step, chain: string)
    requires Apply(h, s, step).Some?
    ensures s.file <= Apply(h, s, step).value.file
    ensures ChainLines(s.file, chain) <= ChainLines(Apply(h, s, step).value.file, chain)
  {
    OnlyWritesAppend(h, s, step);
    if step.Write? {
      var p := s.PhaseOf(step.t);
      ChainLinesAppend(s.file, MakeRecord(h, ChainOf(p.req), p.req, p.ts, p.head), chain);
    }
  }

  /** An acknowledged append stays in the file for good. */
  lemma {:induction false} AcknowledgedEventsStay(h: Hasher, steps: seq<Step>, n: nat, t: ThreadId)
    requires n <= |steps|
    requires Run(h, steps).Some? && Run(h, steps[..n]).Some?
    requires Run(h, steps[..n]).value.PhaseOf(t).Wrote?
    ensures Run(h, steps[..n]).value.PhaseOf(t).record in Run(h, steps).value.file
  {
    if n == |steps| {
      assert steps[..n] == steps;
      RunKeepsInv(h, steps);
    } else {
      var earlier := steps[..|steps| - 1];
      assert earlier[..n] == steps[..n];
      AcknowledgedEventsStay(h, earlier, n, t);
      FileGrows(h, Run(h, earlier).value, steps[|steps| - 1], "");
    }
  }

  /** Why the lock is needed: two appends of one chain made after the same tail fork it. */
  lemma SameTailForks(h: Hasher, file: seq<Record>, first: Request, second: Request, ts: string, ts': string)
    requires WrittenFile(h, file)
    requires ChainOf(first) == ChainOf(second)
    ensures Tail(ChainLines(file, ChainOf(first))).Some?
    ensures var chain, head := ChainOf(first), Tail(ChainLines(file, ChainOf(first))).value;
            !ValidChain(h, ChainLines(file + [MakeRecord(h, chain, first, ts, head)]
                                           + [MakeRecord(h, chain, second, ts', head)], chain))
  {
    var chain := ChainOf(first);
    var events := ChainLines(file, chain);
    assert WrittenChain(h, events);
    MakeRecordContinues(h, events, chain, first, ts);
    var head := Tail(events).value;
    var x, y := MakeRecord(h, chain, first, ts, head), MakeRecord(h, chain, second, ts', head);
    SealedRecord(h, chain, first, ts, head);
    SealedRecord(h, chain, second, ts', head);
    ChainLinesAppend(file, x, chain);
    ChainLinesAppend(file + [x], y, chain);
    RepeatedNumberForks(h, events + [x], y);
  }

  lemma RepeatedNumberForks(h: Hasher, events: seq<Record>, r: Record)
    requires Get(r, "seq") == Int(|events|)
    ensures !ValidChain(h, events + [r])
  {
    ValidChainExtends(h, events, r);
  }
}
