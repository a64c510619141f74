/** The budgeted, retrying predict request of the endpoint broker, and its counters. */
module Broker {
  import opened Wrappers

  datatype Limits = Limits(batchRows: nat, maxRows: nat, maxRequests: nat)

  /** How many back-offs there are, hence how many retries. */
  const RETRIES := 2

  /** A response body: undecodable, or a table of so many rows, all of one width. */
  datatype Body = Garbage | Table(rows: nat, width: nat)

  /** What one attempt meets: the session pin refuses the dial before anything is sent, the
      transport fails, or the endpoint answers. */
  datatype Outcome =
    | PinRefused
    | TransportError
    | Answer(status: int, body: Body)

  datatype Verdict =
    | Closed
    | BadInputs
    | BudgetExceeded
    | EgressRefused
    | Unreachable
    | AuthFailed
    | SchemaMismatch
    | Served(width: nat)

  /** One entry of `by_purpose`, an insertion-ordered dictionary. */
  datatype Tally = Tally(purpose: string, requests: nat, rows: nat)

  datatype Stats = Stats(
    requests: nat, rows: nat, retries: nat, failures: nat,
    byPurpose: seq<Tally>, httpStatusLast: Option<int>)

  const NO_STATS := Stats(0, 0, 0, 0, [], None)

  /** One predict call: how many rows, whether the contract encodes them, for what, and what each
      of its attempts would meet. */
  datatype Call = Call(n: nat, encodable: bool, purpose: string, attempts: seq<Outcome>)

  type WireCall = c: Call | |c.attempts| == RETRIES + 1 witness Call(0, true, "", [PinRefused, PinRefused, PinRefused])

  // ---------------------------------------------------------------- specification

  predicate Retryable(o: Outcome) {
    o.TransportError? || (o.Answer? && o.status >= 500)
  }

  /** The attempt a call ends on: the first that is not retryable, or the last there is. */
  ghost predicate EndsAt(attempts: seq<Outcome>, k: nat)
    requires |attempts| == RETRIES + 1
  {
    && k <= RETRIES
    && (forall i | 0 <= i < k :: Retryable(attempts[i]))
    && (k == RETRIES || !Retryable(attempts[k]))
  }

  /** A decoded body has the rows asked for and the width already adopted, if one was. */
  function Decode(body: Body, n: nat, nClasses: Option<nat>): Option<nat> {
    match body
    case Garbage => None
    case Table(rows, width) =>
      if rows == n && width >= 1 && (nClasses.None? || nClasses.value == width) then Some(width) else None
  }

  function Judge(last: Outcome, n: nat, nClasses: Option<nat>): Verdict {
    match last
    case PinRefused => EgressRefused
    case TransportError => Unreachable
    case Answer(status, body) =>
      if status == 401 || status == 403 then AuthFailed
      else if status >= 500 then Unreachable
      else if status != 200 then SchemaMismatch
      else
        match Decode(body, n, nClasses)
        case None => SchemaMismatch
        case Some(width) => Served(width)
  }

  /** Add one served request to its purpose. */
  function Counted(tallies: seq<Tally>, purpose: string, rows: nat): seq<Tally> {
    if tallies == [] then [Tally(purpose, 1, rows)]
    else if tallies[0].purpose == purpose then
      [Tally(purpose, tallies[0].requests + 1, tallies[0].rows + rows)] + tallies[1..]
    else [tallies[0]] + Counted(tallies[1..], purpose, rows)
  }

  /** A broker's state between calls. */
  datatype State = State(limits: Limits, stats: Stats, nClasses: Option<nat>)

  predicate OverBudget(s: State, n: nat) {
    s.stats.rows + n > s.limits.maxRows || s.stats.requests + 1 > s.limits.maxRequests
  }

  /** The call is refused before it is allowed to reach the network. */
  predicate Rejected(s: State, call: WireCall) {
    call.n == 0 || call.n > s.limits.batchRows || !call.encodable || OverBudget(s, call.n)
  }

  // ---------------------------------------------------------------- the transport

  class HttpPredictTransport {
    const limits: Limits
    var stats: Stats
    var nClasses: Option<nat>
    var closed: bool
    /** Requests handed to the HTTP client since the transport was built. */
    var sends: nat

    ghost function View(): State
      reads this
    {
      State(limits, stats, nClasses)
    }

    constructor (limits: Limits, nClasses: Option<nat>)
      ensures View() == State(limits, NO_STATS, nClasses) && !closed && sends == 0
    {
      this.limits, this.nClasses := limits, nClasses;
      stats, closed, sends := NO_STATS, false, 0;
    }

    method Close()
      modifies this`closed
      ensures closed
    {
      closed := true;
    }

    method Fail(status: Option<int>)
      modifies this`stats
      ensures stats == old(stats).(failures := old(stats).failures + 1,
                                  httpStatusLast := if status.Some? then status else old(stats).httpStatusLast)
    {
      stats := stats.(failures := stats.failures + 1,
                      httpStatusLast := if status.Some? then status else stats.httpStatusLast);
    }

    /** One contract request, with budget and retries applied. */
    method Predict(call: WireCall) returns (verdict: Verdict)
      modifies this`stats, this`nClasses, this`sends
      ensures old(closed) ==> verdict == Closed && View() == old(View()) && sends == old(sends)
      ensures sends >= old(sends)
      ensures !old(closed) ==> Next(old(View()), Event(call, verdict, sends - old(sends)), View())
    {
      if closed {
        return Closed;
      }
      if call.n == 0 || call.n > limits.batchRows || !call.encodable {
        return BadInputs;
      }
      if stats.rows + call.n > limits.maxRows {
        Fail(None);
        return BudgetExceeded;
      }
      if stats.requests + 1 > limits.maxRequests {
        Fail(None);
        return BudgetExceeded;
      }
      var attempt := 0;
      while true
        invariant attempt <= RETRIES
        invariant forall i | 0 <= i < attempt :: Retryable(call.attempts[i])
        invariant stats == old(stats).(retries := old(stats).retries + attempt)
        invariant nClasses == old(nClasses) && sends == old(sends) + attempt
        decreases RETRIES - attempt
      {
        var outcome := call.attempts[attempt];
        if outcome.PinRefused? {
          assert EndsAt(call.attempts, attempt);
          return EgressRefused;
        }
        sends := sends + 1;
        if outcome.TransportError? {
          if attempt < RETRIES {
            stats := stats.(retries := stats.retries + 1);
            attempt := attempt + 1;
            continue;
          }
          assert EndsAt(call.attempts, attempt);
          Fail(None);
          return Unreachable;
        }
        if outcome.status >= 500 && attempt < RETRIES {
          stats := stats.(retries := stats.retries + 1);
          attempt := attempt + 1;
          continue;
        }
        break;
      }
      assert EndsAt(call.attempts, attempt);
      var status, body := call.attempts[attempt].status, call.attempts[attempt].body;
      if status == 401 || status == 403 {
        Fail(Some(status));
        return AuthFailed;
      }
      if status >= 500 {
        Fail(Some(status));
        return Unreachable;
      }
      if status != 200 {
        Fail(Some(status));
        return SchemaMismatch;
      }
      var decoded := Decode(body, call.n, nClasses);
      if decoded.None? {
        Fail(Some(status));
        return SchemaMismatch;
      }
      if nClasses.None? {
        nClasses := Some(decoded.value);
      }
      stats := stats.(requests := stats.requests + 1, rows := stats.rows + call.n,
                      byPurpose := Counted(stats.byPurpose, call.purpose, call.n), httpStatusLast := Some(status));
      return Served(decoded.value);
    }
  }

  /** Requests sent by a call that ends at attempt `k`. */
  function SendsOf(call: WireCall, k: nat): nat
    requires k <= RETRIES
  {
    if call.attempts[k].PinRefused? then k else k + 1
  }

  /** What a call that ends at attempt `k` leaves behind. */
  ghost predicate Completes(s: State, call: WireCall, k: nat, s': State, verdict: Verdict)
    requires k <= RETRIES
  {
    && s'.limits == s.limits
    && verdict == Judge(call.attempts[k], call.n, s.nClasses)
    && s'.nClasses == (if verdict.Served? then Some(verdict.width) else s.nClasses)
    && s'.stats.retries == s.stats.retries + k
    && s'.stats.httpStatusLast == (if call.attempts[k].Answer? then Some(call.attempts[k].status)
                                   else s.stats.httpStatusLast)
    && (if verdict.Served? then
          && s'.stats.requests == s.stats.requests + 1
          && s'.stats.rows == s.stats.rows + call.n
          && s'.stats.failures == s.stats.failures
          && s'.stats.byPurpose == Counted(s.stats.byPurpose, call.purpose, call.n)
        else
          && s'.stats.requests == s.stats.requests && s'.stats.rows == s.stats.rows
          && s'.stats.byPurpose == s.stats.byPurpose
          && s'.stats.failures == s.stats.failures + if verdict.EgressRefused? then 0 else 1)
  }

  // ---------------------------------------------------------------- runs of calls

  /** One call as a transition, with the number of requests it sent. */
  datatype Event = Event(call: WireCall, verdict: Verdict, sent: nat)

  ghost predicate Next(s: State, e: Event, s': State) {
    if Rejected(s, e.call) then
      && e.sent == 0 && s'.limits == s.limits && s'.nClasses == s.nClasses
      && e.verdict == (if e.call.n == 0 || e.call.n > s.limits.batchRows || !e.call.encodable
                       then BadInputs else BudgetExceeded)
      && s'.stats == s.stats.(failures := s.stats.failures + if e.verdict.BudgetExceeded? then 1 else 0)
    else
      exists k: nat | EndsAt(e.call.attempts, k) ::
        Completes(s, e.call, k, s', e.verdict) && e.sent == SendsOf(e.call, k)
  }

  /** Starting from a fresh broker, `states[i + 1]` follows `states[i]` by the i-th event. */
  ghost predicate IsRun(limits: Limits, nClasses: Option<nat>, states: seq<State>, events: seq<Event>) {
    && |states| == |events| + 1
    && states[0] == State(limits, NO_STATS, nClasses)
    && forall i | 0 <= i < |events| :: Next(states[i], events[i], states[i + 1])
  }

  function TotalSent(events: seq<Event>): nat {
    if events == [] then 0 else TotalSent(events[..|events| - 1]) + events[|events| - 1].sent
  }

  /** A failure that was counted after something had been sent. */
  predicate FailedAfterSend(e: Event) {
    e.verdict.Unreachable? || e.verdict.AuthFailed? || e.verdict.SchemaMismatch?
  }

  function FailuresAfterSend(events: seq<Event>): nat {
    if events == [] then 0
    else FailuresAfterSend(events[..|events| - 1]) + if FailedAfterSend(events[|events| - 1]) then 1 else 0
  }

  function BudgetRefusals(events: seq<Event>): nat {
    if events == [] then 0
    else BudgetRefusals(events[..|events| - 1]) + if events[|events| - 1].verdict.BudgetExceeded? then 1 else 0
  }

  function SumRequests(tallies: seq<Tally>): nat {
    if tallies == [] then 0 else tallies[0].requests + SumRequests(tallies[1..])
  }

  function SumRows(tallies: seq<Tally>): nat {
    if tallies == [] then 0 else tallies[0].rows + SumRows(tallies[1..])
  }

  lemma {:induction false} CountedSums(tallies: seq<Tally>, purpose: string, rows: nat)
    ensures SumRequests(Counted(tallies, purpose, rows)) == SumRequests(tallies) + 1
    ensures SumRows(Counted(tallies, purpose, rows)) == SumRows(tallies) + rows
  {
    if tallies != [] && tallies[0].purpose != purpose {
      CountedSums(tallies[1..], purpose, rows);
    }
  }

  /** No call sends more than three times, and it counts its retries exactly. */
  lemma CallIsBounded(s: State, e: Event, s': State)
    requires Next(s, e, s')
    ensures e.sent <= 3
    ensures e.verdict.Served? ==> e.sent == s'.stats.retries - s.stats.retries + 1
    ensures e.sent == (s'.stats.requests - s.stats.requests) + (s'.stats.retries - s.stats.retries)
                      + if FailedAfterSend(e) then 1 else 0
  {
  }

  /** The accounting of any run of calls against any endpoint. */
  lemma {:induction false} Accounting(limits: Limits, nClasses: Option<nat>, states: seq<State>, events: seq<Event>)
    requires IsRun(limits, nClasses, states, events)
    ensures var stats := states[|events|].stats;
            && states[|events|].limits == limits
            && stats.rows <= limits.maxRows
            && stats.requests <= limits.maxRequests
            && SumRequests(stats.byPurpose) == stats.requests
            && SumRows(stats.byPurpose) == stats.rows
            && TotalSent(events) == stats.requests + stats.retries + FailuresAfterSend(events)
            && stats.failures == FailuresAfterSend(events) + BudgetRefusals(events)
    decreases |events|
  {
    if events != [] {
      var n := |events| - 1;
      Accounting(limits, nClasses, states[..n + 1], events[..n]);
      var s, e, s' := states[n], events[n], states[n + 1];
      assert Next(s, e, s');
      CallIsBounded(s, e, s');
      CountedSums(s.stats.byPurpose, e.call.purpose, e.call.n);
    }
  }

  /** Every served response of a run has one and the same width: the declared one, or the first. */
  lemma {:induction false} OneWidth(limits: Limits, nClasses: Option<nat>, states: seq<State>, events: seq<Event>,
                                    i: nat)
    requires IsRun(limits, nClasses, states, events)
    requires i < |events| && events[i].verdict.Served?
    ensures states[|events|].nClasses == Some(events[i].verdict.width)
    ensures nClasses.Some? ==> nClasses == Some(events[i].verdict.width)
    decreases |events|
  {
    var n := |events| - 1;
    assert Next(states[n], events[n], states[n + 1]);
    if i < n {
      OneWidth(limits, nClasses, states[..n + 1], events[..n], i);
    } else {
      DeclaredWidthStays(limits, nClasses, states[..n + 1], events[..n]);
    }
  }

  lemma {:induction false} DeclaredWidthStays(limits: Limits, nClasses: Option<nat>, states: seq<State>,
                                              events: seq<Event>)
    requires IsRun(limits, nClasses, states, events)
    ensures nClasses.Some? ==> states[|events|].nClasses == nClasses
    decreases |events|
  {
    if events != [] {
      var n := |events| - 1;
      assert Next(states[n], events[n], states[n + 1]);
      DeclaredWidthStays(limits, nClasses, states[..n + 1], events[..n]);
    }
  }

  // ---------------------------------------------------------------- what each verdict means

  /** An attempt after which there is another one, if any is left. */
  predicate Temporary(o: Outcome) {
    o == TransportError || (o.Answer? && o.status >= 500)
  }

  /** Attempt `k` of at most three is the last one made. */
  predicate LastMade(call: WireCall, k: nat) {
    k <= 2 && (forall i | 0 <= i < k :: Temporary(call.attempts[i])) && (k == 2 || !Temporary(call.attempts[k]))
  }

  /** The call may reach the network: its rows are encodable and few enough, and both budgets allow them. */
  predicate MaySend(s: State, call: WireCall) {
    && 1 <= call.n <= s.limits.batchRows && call.encodable
    && s.stats.rows + call.n <= s.limits.maxRows && s.stats.requests < s.limits.maxRequests
  }

  /** The answer to `n` rows is a 200 with a table of `n` rows and `width` columns, at least one, and as many
      as were adopted earlier. */
  predicate Fits(o: Outcome, n: nat, adopted: Option<nat>, width: nat) {
    o == Answer(200, Table(n, width)) && width >= 1 && (adopted.Some? ==> adopted.value == width)
  }

  /** What every verdict means for the call, the state before it and the last attempt made. */
  lemma VerdictTold(s: State, e: Event, s': State) returns (k: nat)
    requires Next(s, e, s')
    ensures LastMade(e.call, k)
    ensures e.verdict == BadInputs <==> e.call.n == 0 || e.call.n > s.limits.batchRows || !e.call.encodable
    ensures e.verdict == BudgetExceeded <==>
            && 1 <= e.call.n <= s.limits.batchRows && e.call.encodable
            && (s.stats.rows + e.call.n > s.limits.maxRows || s.stats.requests >= s.limits.maxRequests)
    ensures var last := e.call.attempts[k];
            && (e.verdict == EgressRefused <==> MaySend(s, e.call) && last == PinRefused)
            && (e.verdict == Unreachable <==>
                  MaySend(s, e.call) && (last == TransportError || (last.Answer? && last.status >= 500)))
            && (e.verdict == AuthFailed <==>
                  MaySend(s, e.call) && last.Answer? && (last.status == 401 || last.status == 403))
            && (e.verdict == SchemaMismatch <==>
                  && MaySend(s, e.call) && last.Answer? && last.status < 500
                  && last.status != 401 && last.status != 403
                  && forall width :: !Fits(last, e.call.n, s.nClasses, width))
            && (forall width ::
                  e.verdict == Served(width) <==> MaySend(s, e.call) && Fits(last, e.call.n, s.nClasses, width))
            && e.sent == (if !MaySend(s, e.call) then 0 else if last == PinRefused then k else k + 1)
  {
    if MaySend(s, e.call) {
      k :| EndsAt(e.call.attempts, k) && Completes(s, e.call, k, s', e.verdict) && e.sent == SendsOf(e.call, k);
      var last := e.call.attempts[k];
      if last.Answer? && last.body.Table? {
        assert Fits(last, e.call.n, s.nClasses, last.body.width) <==> e.verdict == Served(last.body.width);
      }
    } else {
      k := LastAttempt(e.call);
    }
  }

  lemma LastAttempt(call: WireCall) returns (k: nat)
    ensures LastMade(call, k)
  {
    k := if !Temporary(call.attempts[0]) then 0 else if !Temporary(call.attempts[1]) then 1 else 2;
  }

  /** There is only one such attempt. */
  lemma LastIsUnique(call: WireCall, k: nat, j: nat)
    requires LastMade(call, k) && LastMade(call, j)
    ensures k == j
  {
  }

  /** The width is the declared one where there is one, and that of every table served before event `i`. */
  ghost predicate AgreesBefore(nClasses: Option<nat>, events: seq<Event>, i: nat, width: nat)
    requires i <= |events|
  {
    && (nClasses.Some? ==> width == nClasses.value)
    && forall j | 0 <= j < i && events[j].verdict.Served? :: events[j].verdict.width == width
  }

  lemma {:induction false} AdoptedWidth(limits: Limits, nClasses: Option<nat>, states: seq<State>, events: seq<Event>,
                                        i: nat, width: nat)
    requires IsRun(limits, nClasses, states, events) && i <= |events|
    ensures AgreesBefore(nClasses, events, i, width) <==>
            (states[i].nClasses.Some? ==> states[i].nClasses.value == width)
    decreases i
  {
    if i > 0 {
      var n := i - 1;
      assert Next(states[n], events[n], states[n + 1]);
      AdoptedWidth(limits, nClasses, states, events, n, width);
      assert AgreesBefore(nClasses, events, i, width) <==>
             && AgreesBefore(nClasses, events, n, width)
             && (events[n].verdict.Served? ==> events[n].verdict.width == width);
    }
  }

  /** Over a run: a call is served if and only if it may be sent and the attempt it ends on is a 200 with a
      table of exactly its rows and of a positive width: the declared one where there is one, and that of
      every table served before. */
  lemma ServedIff(limits: Limits, nClasses: Option<nat>, states: seq<State>, events: seq<Event>, i: nat, k: nat)
    requires IsRun(limits, nClasses, states, events) && i < |events| && LastMade(events[i].call, k)
    ensures events[i].verdict.Served? <==>
            && MaySend(states[i], events[i].call)
            && exists width :: && events[i].call.attempts[k] == Answer(200, Table(events[i].call.n, width)) && width >= 1
                               && AgreesBefore(nClasses, events, i, width)
  {
    assert Next(states[i], events[i], states[i + 1]);
    var k' := VerdictTold(states[i], events[i], states[i + 1]);
    LastIsUnique(events[i].call, k, k');
    forall width
      ensures events[i].verdict == Served(width) <==>
              && MaySend(states[i], events[i].call)
              && events[i].call.attempts[k] == Answer(200, Table(events[i].call.n, width)) && width >= 1
              && AgreesBefore(nClasses, events, i, width)
    {
      AdoptedWidth(limits, nClasses, states, events, i, width);
      assert events[i].verdict == Served(width) <==>
             MaySend(states[i], events[i].call)
             && Fits(events[i].call.attempts[k], events[i].call.n, states[i].nClasses, width);
    }
    if events[i].verdict.Served? {
      assert events[i].verdict == Served(events[i].verdict.width);
    }
  }

  // ---------------------------------------------------------------- tallies by purpose

  ghost predicate OncePer(tallies: seq<Tally>) {
    forall i, j | 0 <= i < j < |tallies| :: tallies[i].purpose != tallies[j].purpose
  }

  /** Served requests of a purpose, and their rows. */
  function RequestsFor(events: seq<Event>, purpose: string): nat {
    if events == [] then 0
    else
      var last := events[|events| - 1];
      RequestsFor(events[..|events| - 1], purpose) + if last.verdict.Served? && last.call.purpose == purpose then 1 else 0
  }

  function RowsFor(events: seq<Event>, purpose: string): nat {
    if events == [] then 0
    else
      var last := events[|events| - 1];
      RowsFor(events[..|events| - 1], purpose)
      + if last.verdict.Served? && last.call.purpose == purpose then last.call.n else 0
  }

  ghost predicate HasTally(tallies: seq<Tally>, purpose: string) {
    exists i :: 0 <= i < |tallies| && tallies[i].purpose == purpose
  }

  /** One request of the purpose was added: to each tally of it, or at the end when there was none. */
  ghost predicate AddsOne(tallies: seq<Tally>, purpose: string, rows: nat, counted: seq<Tally>) {
    && |counted| >= |tallies|
    && (forall i | 0 <= i < |tallies| ::
          counted[i] == if tallies[i].purpose != purpose then tallies[i]
                        else Tally(purpose, tallies[i].requests + 1, tallies[i].rows + rows))
    && (if HasTally(tallies, purpose) then |counted| == |tallies|
        else |counted| == |tallies| + 1 && counted[|tallies|] == Tally(purpose, 1, rows))
  }

  /** Counting a request adds to the one tally of its purpose, or opens one at the end. */
  lemma {:induction false} CountedTold(tallies: seq<Tally>, purpose: string, rows: nat)
    requires OncePer(tallies)
    ensures AddsOne(tallies, purpose, rows, Counted(tallies, purpose, rows))
    ensures OncePer(Counted(tallies, purpose, rows))
    decreases |tallies|
  {
    if tallies != [] {
      if tallies[0].purpose == purpose {
        assert HasTally(tallies, purpose);
      } else {
        CountedTold(tallies[1..], purpose, rows);
        AddsInFront(tallies[0], tallies[1..], purpose, rows, Counted(tallies[1..], purpose, rows));
        assert tallies == [tallies[0]] + tallies[1..];
      }
    }
    OnceStays(tallies, purpose, rows, Counted(tallies, purpose, rows));
  }

  lemma AddsInFront(t: Tally, tallies: seq<Tally>, purpose: string, rows: nat, counted: seq<Tally>)
    requires t.purpose != purpose && AddsOne(tallies, purpose, rows, counted)
    ensures AddsOne([t] + tallies, purpose, rows, [t] + counted)
  {
    if HasTally(tallies, purpose) {
      var i :| 0 <= i < |tallies| && tallies[i].purpose == purpose;
      assert ([t] + tallies)[i + 1].purpose == purpose;
    }
  }

  lemma OnceStays(tallies: seq<Tally>, purpose: string, rows: nat, counted: seq<Tally>)
    requires OncePer(tallies) && AddsOne(tallies, purpose, rows, counted)
    ensures OncePer(counted)
  {
    assert forall i | 0 <= i < |tallies| :: counted[i].purpose == tallies[i].purpose;
  }

  /** One tally for each purpose that was served, with the number of its served requests and of their rows. */
  ghost predicate Exact(tallies: seq<Tally>, events: seq<Event>) {
    && OncePer(tallies)
    && (forall i | 0 <= i < |tallies| :: ExactTally(tallies[i], events))
    && (forall purpose | RequestsFor(events, purpose) > 0 :: HasTally(tallies, purpose))
  }

  ghost predicate ExactTally(t: Tally, events: seq<Event>) {
    t.requests == RequestsFor(events, t.purpose) > 0 && t.rows == RowsFor(events, t.purpose)
  }

  lemma {:induction false} NoneUncounted(events: seq<Event>, purpose: string)
    ensures RequestsFor(events, purpose) == 0 ==> RowsFor(events, purpose) == 0
  {
    if events != [] {
      NoneUncounted(events[..|events| - 1], purpose);
    }
  }

  lemma ServedAddsTally(tallies: seq<Tally>, events: seq<Event>, purpose: string, rows: nat)
    requires events != [] && Exact(tallies, events[..|events| - 1])
    requires events[|events| - 1].verdict.Served? && events[|events| - 1].call.purpose == purpose
    requires events[|events| - 1].call.n == rows
    ensures Exact(Counted(tallies, purpose, rows), events)
  {
    var front, c := events[..|events| - 1], Counted(tallies, purpose, rows);
    CountedTold(tallies, purpose, rows);
    NoneUncounted(front, purpose);
    forall i | 0 <= i < |c| ensures ExactTally(c[i], events) {
      if i < |tallies| {
        assert ExactTally(tallies[i], front);
      } else {
        assert RequestsFor(front, purpose) > 0 ==> HasTally(tallies, purpose);
      }
    }
    forall p | RequestsFor(events, p) > 0 ensures HasTally(c, p) {
      CountedHas(tallies, purpose, rows, p);
      assert p == purpose || RequestsFor(front, p) > 0;
    }
  }

  lemma CountedHas(tallies: seq<Tally>, purpose: string, rows: nat, p: string)
    requires OncePer(tallies)
    ensures p == purpose || HasTally(tallies, p) ==> HasTally(Counted(tallies, purpose, rows), p)
  {
    var c := Counted(tallies, purpose, rows);
    CountedTold(tallies, purpose, rows);
    if HasTally(tallies, p) {
      var i :| 0 <= i < |tallies| && tallies[i].purpose == p;
      assert c[i].purpose == p;
    }
  }

  /** Over every run the tallies are exact. */
  lemma {:induction false} TalliesAreExact(limits: Limits, nClasses: Option<nat>, states: seq<State>,
                                           events: seq<Event>)
    requires IsRun(limits, nClasses, states, events)
    ensures Exact(states[|events|].stats.byPurpose, events)
    decreases |events|
  {
    if events != [] {
      var n := |events| - 1;
      TalliesAreExact(limits, nClasses, states[..n + 1], events[..n]);
      assert Next(states[n], events[n], states[n + 1]);
      if events[n].verdict.Served? {
        ServedAddsTally(states[n].stats.byPurpose, events, events[n].call.purpose, events[n].call.n);
      } else {
        UnservedStays(states[n].stats.byPurpose, events);
      }
    }
  }

  lemma UnservedStays(tallies: seq<Tally>, events: seq<Event>)
    requires events != [] && !events[|events| - 1].verdict.Served? && Exact(tallies, events[..|events| - 1])
    ensures Exact(tallies, events)
  {
    forall i | 0 <= i < |tallies| ensures ExactTally(tallies[i], events) {
      assert ExactTally(tallies[i], events[..|events| - 1]);
    }
  }
}
