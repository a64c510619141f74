/** The transactional push to Foundry: open a transaction, upload every file, commit, or abort. */
module Foundry {
  import opened Wrappers

  /** What one request meets: a transport error, or a status with the transaction rid its body named. */
  datatype Reply = TransportError | Answer(status: int, rid: Option<string>)

  datatype Request =
    | Create
    | Upload(path: string)
    | Commit
    | Abort

  datatype File = File(path: string, data: seq<nat>)

  datatype PushedFile = PushedFile(path: string, size: nat, httpStatus: int)

  datatype Receipt = Receipt(transactionRid: string, files: seq<PushedFile>, statuses: seq<int>)

  datatype Target = Missing | Malformed | Dataset(rid: string)

  datatype Step = TargetRef | Files | CreateTransaction | UploadFile | CommitTransaction

  /** Why a push fails: a malformed target is refused outright; any other failure names its step, the
      status it got, and whether the abort that followed was answered. */
  datatype PushError =
    | InvalidTarget
    | PushFailed(step: Step, httpStatus: Option<int>, aborted: Option<bool>)

  /** A request succeeds below status 400. */
  predicate Fine(reply: Reply) {
    reply.Answer? && reply.status < 400
  }

  function StatusOf(reply: Reply): Option<int> {
    if reply.Answer? then Some(reply.status) else None
  }

  /** A transaction was opened: the request succeeded and its body names the transaction. */
  predicate Opened(reply: Reply) {
    Fine(reply) && reply.rid.Some? && reply.rid.value != ""
  }

  /** The reply to the i-th request; a server with nothing left to say is a transport error. */
  function ReplyAt(replies: seq<Reply>, i: nat): Reply {
    if i < |replies| then replies[i] else TransportError
  }

  /** What is left to say after `n` requests answers the later ones as the whole does. */
  lemma RepliesGoOn(replies: seq<Reply>, n: nat, i: nat)
    ensures ReplyAt(RepliesFrom(replies, n), i) == if n + i < |replies| then replies[n + i] else TransportError
  {
  }

  /** What is left to say to the requests from the n-th on. */
  function RepliesFrom(replies: seq<Reply>, n: nat): seq<Reply> {
    if n <= |replies| then replies[n..] else []
  }

  // ---------------------------------------------------------------- the client

  class FoundryClient {
    const replies: seq<Reply>
    /** The requests sent, in order. */
    var log: seq<Request>

    constructor (replies: seq<Reply>)
      ensures this.replies == replies && log == []
    {
      this.replies := replies;
      log := [];
    }

    method Send(request: Request) returns (reply: Reply)
      modifies this
      ensures log == old(log) + [request]
      ensures reply == ReplyAt(replies, |old(log)|)
      ensures forall start: nat | start <= |old(log)| ::
                reply == ReplyAt(RepliesFrom(replies, start), |old(log)| - start)
    {
      reply := ReplyAt(replies, |log|);
      log := log + [request];
    }

    /** Open a transaction, upload every file, commit; a receipt or a failure. A client can push again: the
        next push meets the replies that are left. */
    method PushFiles(target: Target, files: seq<File>) returns (r: Result<Receipt, PushError>)
      modifies this
      ensures r == Outcome(RepliesFrom(replies, |old(log)|), target, files)
      ensures log == old(log) + Wire(RepliesFrom(replies, |old(log)|), target, files)
    {
      if target.Malformed? {
        return Failure(InvalidTarget);
      }
      if target.Missing? {
        return Failure(PushFailed(TargetRef, None, None));
      }
      if files == [] {
        return Failure(PushFailed(Files, None, None));
      }
      ghost var before := log;
      var created := Send(Create);
      if !Opened(created) {
        return Failure(PushFailed(CreateTransaction, StatusOf(created), None));
      }
      r := FillTransaction(files, created, |before|);
      assert log == before + ([Create] + FillWire(RepliesFrom(replies, |before|), files));
    }

    /** What follows once the transaction is open: upload and commit, or abort. */
    method FillTransaction(files: seq<File>, created: Reply, ghost start: nat) returns (r: Result<Receipt, PushError>)
      requires |log| == start + 1 && Opened(created) && created == ReplyAt(RepliesFrom(replies, start), 0)
      modifies this
      ensures r == FillOutcome(RepliesFrom(replies, start), files)
      ensures log == old(log) + FillWire(RepliesFrom(replies, start), files)
    {
      ghost var before, left, n := log, RepliesFrom(replies, start), |files|;
      ghost var k := FirstBadUpload(left, n);
      var bad, pushed, statuses := UploadAll(files, created, start);
      if bad.Some? {
        var answered := Send(Abort);
        assert log == before + (Uploads(files[..k + 1]) + [Abort]);
        return Failure(PushFailed(UploadFile, StatusOf(bad.value), Some(answered.Answer?)));
      }
      var committed := Send(Commit);
      assert log == before + (Uploads(files) + [Commit]);
      if !Fine(committed) {
        var answered := Send(Abort);
        assert log == before + (Uploads(files) + [Commit, Abort]);
        return Failure(PushFailed(CommitTransaction, StatusOf(committed), Some(answered.Answer?)));
      }
      return Success(Receipt(created.rid.value, pushed, statuses + [committed.status]));
    }

    /** Upload the files in order until one fails: the reply of that one, or what the receipt will list. */
    method UploadAll(files: seq<File>, created: Reply, ghost start: nat)
      returns (bad: Option<Reply>, pushed: seq<PushedFile>, statuses: seq<int>)
      requires |log| == start + 1 && Opened(created) && created == ReplyAt(RepliesFrom(replies, start), 0)
      modifies this
      ensures var left := RepliesFrom(replies, start);
              var k := FirstBadUpload(left, |files|);
              if k < |files| then
                bad == Some(ReplyAt(left, k + 1)) && log == old(log) + Uploads(files[..k + 1])
              else
                && bad == None && log == old(log) + Uploads(files)
                && pushed == Pushed(left, files, |files|) && statuses == Statuses(left, |files| + 1)
    {
      ghost var left := RepliesFrom(replies, start);
      statuses, pushed := [created.status], [];
      var i := 0;
      while i < |files|
        invariant i <= |files|
        invariant FirstBadUpload(left, i) == i
        invariant log == old(log) + Uploads(files[..i])
        invariant pushed == Pushed(left, files, i) && statuses == Statuses(left, i + 1)
      {
        UploadsGrow(files, i);
        var reply := Send(Upload(files[i].path));
        if !Fine(reply) {
          FirstBadStops(left, i, |files|);
          return Some(reply), pushed, statuses;
        }
        statuses := statuses + [reply.status];
        pushed := pushed + [PushedFile(files[i].path, |files[i].data|, reply.status)];
        i := i + 1;
      }
      assert files[..i] == files;
      bad := None;
    }
  }

  // ---------------------------------------------------------------- specification

  /** How many of the first `n` uploads succeed before one fails; upload `i` is request `i + 1`. */
  function FirstBadUpload(replies: seq<Reply>, n: nat): (k: nat)
    ensures k <= n
    ensures forall i | 1 <= i <= k :: Fine(ReplyAt(replies, i))
    ensures k < n ==> !Fine(ReplyAt(replies, k + 1))
  {
    if n == 0 then 0
    else
      var k := FirstBadUpload(replies, n - 1);
      if k < n - 1 || !Fine(ReplyAt(replies, n)) then k else n
  }

  function Uploads(files: seq<File>): seq<Request> {
    seq(|files|, i requires 0 <= i < |files| => Upload(files[i].path))
  }

  lemma UploadsGrow(files: seq<File>, i: nat)
    requires i < |files|
    ensures Uploads(files[..i + 1]) == Uploads(files[..i]) + [Upload(files[i].path)]
  {
  }

  function Pushed(replies: seq<Reply>, files: seq<File>, n: nat): seq<PushedFile>
    requires n <= |files| && FirstBadUpload(replies, n) == n
  {
    seq(n, i requires 0 <= i < n =>
      PushedFile(files[i].path, |files[i].data|, ReplyAt(replies, i + 1).status))
  }

  /** The statuses of the first `n` requests. */
  function Statuses(replies: seq<Reply>, n: nat): seq<int>
    requires forall i | 0 <= i < n :: ReplyAt(replies, i).Answer?
  {
    seq(n, i requires 0 <= i < n => ReplyAt(replies, i).status)
  }

  /** The requests a push sends once its transaction is open. */
  function FillWire(replies: seq<Reply>, files: seq<File>): seq<Request> {
    var k := FirstBadUpload(replies, |files|);
    if k < |files| then Uploads(files[..k + 1]) + [Abort]
    else if !Fine(ReplyAt(replies, |files| + 1)) then Uploads(files) + [Commit, Abort]
    else Uploads(files) + [Commit]
  }

  function FillOutcome(replies: seq<Reply>, files: seq<File>): Result<Receipt, PushError>
    requires Opened(ReplyAt(replies, 0))
  {
    var n, k := |files|, FirstBadUpload(replies, |files|);
    if k < n then
      Failure(PushFailed(UploadFile, StatusOf(ReplyAt(replies, k + 1)), Some(ReplyAt(replies, k + 2).Answer?)))
    else if !Fine(ReplyAt(replies, n + 1)) then
      Failure(PushFailed(CommitTransaction, StatusOf(ReplyAt(replies, n + 1)), Some(ReplyAt(replies, n + 2).Answer?)))
    else
      Success(Receipt(ReplyAt(replies, 0).rid.value, Pushed(replies, files, n),
                      Statuses(replies, n + 1) + [ReplyAt(replies, n + 1).status]))
  }

  /** The requests a push sends. */
  function Wire(replies: seq<Reply>, target: Target, files: seq<File>): seq<Request> {
    if !target.Dataset? || files == [] then []
    else if !Opened(ReplyAt(replies, 0)) then [Create]
    else [Create] + FillWire(replies, files)
  }

  function Outcome(replies: seq<Reply>, target: Target, files: seq<File>): Result<Receipt, PushError> {
    var created := ReplyAt(replies, 0);
    if target.Malformed? then Failure(InvalidTarget)
    else if target.Missing? then Failure(PushFailed(TargetRef, None, None))
    else if files == [] then Failure(PushFailed(Files, None, None))
    else if !Opened(created) then Failure(PushFailed(CreateTransaction, StatusOf(created), None))
    else FillOutcome(replies, files)
  }

  lemma FirstBadStops(replies: seq<Reply>, k: nat, n: nat)
    requires k < n && FirstBadUpload(replies, k) == k && !Fine(ReplyAt(replies, k + 1))
    ensures FirstBadUpload(replies, n) == k
  {
  }

  // ---------------------------------------------------------------- the protocol

  /** A request succeeds when it is answered below 400; the one that opens the transaction has to name it. */
  predicate Succeeds(replies: seq<Reply>, i: nat) {
    && i < |replies| && replies[i].Answer? && replies[i].status < 400
    && (i == 0 ==> replies[i].rid.Some? && replies[i].rid.value != "")
  }

  /** A receipt is returned exactly when every request of the whole sequence succeeds, and it lists
      every file in order with the status of its own upload. */
  lemma ReceiptIff(replies: seq<Reply>, target: Target, files: seq<File>)
    ensures Outcome(replies, target, files).Success? <==>
            && target.Dataset? && files != []
            && forall i | 0 <= i <= |files| + 1 :: Succeeds(replies, i)
    ensures Outcome(replies, target, files).Success? ==>
            var receipt := Outcome(replies, target, files).value;
            && |replies| >= |files| + 2 && Some(receipt.transactionRid) == replies[0].rid
            && |receipt.files| == |files| && |receipt.statuses| == |files| + 2
            && (forall i | 0 <= i < |files| ::
                  && receipt.files[i].path == files[i].path && receipt.files[i].size == |files[i].data|
                  && receipt.files[i].httpStatus == receipt.statuses[i + 1])
            && (forall i | 0 <= i < |files| + 2 :: replies[i].Answer? && receipt.statuses[i] == replies[i].status)
  {
    var k := FirstBadUpload(replies, |files|);
    SucceedsIff(replies);
    assert k < |files| ==> !Succeeds(replies, k + 1);
    if Outcome(replies, target, files).Success? {
      forall i | 0 <= i <= |files| + 1 ensures Succeeds(replies, i) && ReplyAt(replies, i) == replies[i] {
        assert 1 <= i ==> Fine(ReplyAt(replies, i));
      }
      var receipt := Outcome(replies, target, files).value;
      forall i | 0 <= i < |files| + 2 ensures receipt.statuses[i] == ReplyAt(replies, i).status {
      }
    }
  }

  lemma SucceedsIff(replies: seq<Reply>)
    ensures Succeeds(replies, 0) <==> Opened(ReplyAt(replies, 0))
    ensures forall i | i >= 1 :: Succeeds(replies, i) <==> Fine(ReplyAt(replies, i))
  {
  }

  /** The request at position `i` of a whole push. */
  function Planned(files: seq<File>, i: nat): Request
    requires i <= |files| + 1
  {
    if i == 0 then Create else if i <= |files| then Upload(files[i - 1].path) else Commit
  }

  /** What happens when request `k` is the first that does not succeed: the requests up to it were sent, and
      an abort unless it is the one that opens the transaction; the failure names its step and status, and
      whether the abort was answered. */
  lemma FailureTold(replies: seq<Reply>, target: Target, files: seq<File>, k: nat)
    requires target.Dataset? && files != [] && k <= |files| + 1
    requires (forall i | 0 <= i < k :: Succeeds(replies, i)) && !Succeeds(replies, k)
    ensures var status := if k < |replies| && replies[k].Answer? then Some(replies[k].status) else None;
            var answered := k + 1 < |replies| && replies[k + 1].Answer?;
            Outcome(replies, target, files) ==
            if k == 0 then Failure(PushFailed(CreateTransaction, status, None))
            else Failure(PushFailed(if k <= |files| then UploadFile else CommitTransaction, status,
                                    Some(answered)))
    ensures Wire(replies, target, files) ==
            seq(k + 1, i requires 0 <= i <= k => Planned(files, i)) + if k == 0 then [] else [Abort]
  {
    var n := |files|;
    var bad := FirstBadUpload(replies, n);
    SucceedsIff(replies);
    if k >= 1 {
      BadUploadIs(replies, n, k);
    }
  }

  lemma BadUploadIs(replies: seq<Reply>, n: nat, k: nat)
    requires 1 <= k <= n + 1 && (forall i | 1 <= i < k :: Fine(ReplyAt(replies, i)))
    requires k <= n ==> !Fine(ReplyAt(replies, k))
    ensures FirstBadUpload(replies, n) == k - 1
  {
    var bad := FirstBadUpload(replies, n);
    assert bad < n ==> !Fine(ReplyAt(replies, bad + 1));
  }

  /** Nothing is sent for a target that names no dataset, or without files. */
  lemma NothingToPush(replies: seq<Reply>, target: Target, files: seq<File>)
    ensures Wire(replies, target, files) == [] <==> target.Missing? || target.Malformed? || files == []
    ensures target.Malformed? ==> Outcome(replies, target, files) == Failure(InvalidTarget)
    ensures target.Missing? ==> Outcome(replies, target, files) == Failure(PushFailed(TargetRef, None, None))
    ensures target.Dataset? && files == [] ==> Outcome(replies, target, files) == Failure(PushFailed(Files, None, None))
  {
  }

  /** The i-th request of a push, told from its position. */
  lemma WireAt(replies: seq<Reply>, target: Target, files: seq<File>, i: nat)
    requires i < |Wire(replies, target, files)|
    ensures var wire, n := Wire(replies, target, files), |files|;
            && target.Dataset? && n > 0
            && (i == 0 <==> wire[i].Create?)
            && (wire[i].Upload? <==> 1 <= i <= n && i <= FirstBadUpload(replies, n) + 1)
            && (wire[i].Upload? ==> wire[i].path == files[i - 1].path)
            && (wire[i].Commit? <==> i == n + 1 && FirstBadUpload(replies, n) == n)
            && (wire[i].Abort? ==> i == |wire| - 1)
            && (i > 0 ==> Opened(ReplyAt(replies, 0)))
  {
    if i > 0 {
      FillWireAt(replies, files, i - 1);
    }
  }

  lemma FillWireAt(replies: seq<Reply>, files: seq<File>, i: nat)
    requires i < |FillWire(replies, files)|
    ensures var wire, n, k := FillWire(replies, files), |files|, FirstBadUpload(replies, |files|);
            && !wire[i].Create?
            && (wire[i].Upload? <==> i < n && i <= k)
            && (wire[i].Upload? ==> wire[i].path == files[i].path)
            && (wire[i].Commit? <==> i == n && k == n)
            && (wire[i].Abort? ==> i == |wire| - 1)
  {
    var k := FirstBadUpload(replies, |files|);
    var sent := if k < |files| then files[..k + 1] else files;
    assert |Uploads(sent)| == |sent|;
    assert i < |sent| ==> FillWire(replies, files)[i] == Uploads(sent)[i] == Upload(files[i].path);
  }

  /** An abort is sent, once and as the last request, exactly when a transaction was opened and the
      push then failed. */
  lemma AbortExactlyOnFailure(replies: seq<Reply>, target: Target, files: seq<File>)
    ensures var wire := Wire(replies, target, files);
            (exists i | 0 <= i < |wire| :: wire[i].Abort?) <==>
            target.Dataset? && files != [] && Opened(ReplyAt(replies, 0)) && Outcome(replies, target, files).Failure?
    ensures var wire := Wire(replies, target, files);
            forall i | 0 <= i < |wire| && wire[i].Abort? :: i == |wire| - 1
  {
    var wire := Wire(replies, target, files);
    forall i | 0 <= i < |wire| && wire[i].Abort? ensures i == |wire| - 1 {
      WireAt(replies, target, files, i);
    }
    if target.Dataset? && files != [] && Opened(ReplyAt(replies, 0)) && Outcome(replies, target, files).Failure? {
      assert wire[|wire| - 1] == Abort;
    }
    assert Outcome(replies, target, files).Success? ==> wire == [Create] + Uploads(files) + [Commit];
  }

  /** A commit is sent only after every file was uploaded successfully, in order. */
  lemma CommitAfterAllUploads(replies: seq<Reply>, target: Target, files: seq<File>, i: nat)
    requires i < |Wire(replies, target, files)| && Wire(replies, target, files)[i].Commit?
    ensures var wire := Wire(replies, target, files);
            && i == |files| + 1
            && forall j | 0 <= j < |files| :: wire[j + 1] == Upload(files[j].path) && Fine(ReplyAt(replies, j + 1))
  {
    WireAt(replies, target, files, i);
    forall j | 0 <= j < |files|
      ensures Wire(replies, target, files)[j + 1] == Upload(files[j].path) && Fine(ReplyAt(replies, j + 1))
    {
      WireAt(replies, target, files, j + 1);
    }
  }

  /** After the first request that does not succeed, nothing is sent but the one abort. */
  lemma NothingAfterFailure(replies: seq<Reply>, target: Target, files: seq<File>, i: nat)
    requires i < |Wire(replies, target, files)|
    requires !Fine(ReplyAt(replies, i))
    ensures |Wire(replies, target, files)| <= i + 2
    ensures i + 1 < |Wire(replies, target, files)| ==> Wire(replies, target, files)[i + 1].Abort?
  {
    var k := FirstBadUpload(replies, |files|);
    assert 1 <= i <= k ==> Fine(ReplyAt(replies, i));
  }
}
