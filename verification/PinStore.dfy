/** A store of pins that checks add to: what any sequence of checks keeps, when each check repeats the pin
    of a host that has one and pins a host that has none only where the pin may stand. */
module PinStore {
  type PinMap = map<string, string>

  /** What one check does to the store. */
  datatype Effect = Refused | Pinned(host: string, pin: string)

  type Check<!C> = (PinMap, C) -> Effect

  /** Whether a pin may stand for a host. */
  type Standing = (string, string) -> bool

  function After<C>(check: Check<C>, pins: PinMap, call: C): PinMap {
    match check(pins, call)
    case Refused => pins
    case Pinned(host, pin) => pins[host := pin]
  }

  /** The pins after a sequence of calls on a fresh store. */
  function AfterAll<C>(check: Check<C>, calls: seq<C>): PinMap {
    if calls == [] then map[] else After(check, AfterAll(check, calls[..|calls| - 1]), calls[|calls| - 1])
  }

  /** A pinned host keeps its pin, and a new pin stands. */
  ghost predicate LawfulAt<C>(check: Check<C>, stands: Standing, pins: PinMap, call: C) {
    match check(pins, call)
    case Refused => true
    case Pinned(host, pin) => if host in pins then pin == pins[host] else stands(host, pin)
  }

  ghost predicate Lawful<C(!new)>(check: Check<C>, stands: Standing) {
    forall pins, call :: LawfulAt(check, stands, pins, call)
  }

  ghost predicate AllStand(stands: Standing, pins: PinMap) {
    forall host | host in pins :: stands(host, pins[host])
  }

  /** Every pin of `early` is still there, unchanged, in `late`. */
  ghost predicate Keeps(early: PinMap, late: PinMap) {
    forall host | host in early :: host in late && late[host] == early[host]
  }

  lemma OneCheck<C(!new)>(check: Check<C>, stands: Standing, pins: PinMap, call: C)
    requires LawfulAt(check, stands, pins, call)
    ensures Keeps(pins, After(check, pins, call))
    ensures AllStand(stands, pins) ==> AllStand(stands, After(check, pins, call))
  {
  }

  /** Every pin stands, after any sequence of calls. */
  lemma {:induction false} PinsStand<C(!new)>(check: Check<C>, stands: Standing, calls: seq<C>)
    requires Lawful(check, stands)
    ensures AllStand(stands, AfterAll(check, calls))
  {
    if calls != [] {
      var n := |calls| - 1;
      PinsStand(check, stands, calls[..n]);
      assert LawfulAt(check, stands, AfterAll(check, calls[..n]), calls[n]);
      OneCheck(check, stands, AfterAll(check, calls[..n]), calls[n]);
    }
  }

  /** A pin once set never changes. */
  lemma {:induction false} PinsStay<C(!new)>(check: Check<C>, stands: Standing, calls: seq<C>, n: nat)
    requires Lawful(check, stands) && n <= |calls|
    ensures Keeps(AfterAll(check, calls[..n]), AfterAll(check, calls))
    decreases |calls|
  {
    if n == |calls| {
      assert calls[..n] == calls;
    } else {
      var m := |calls| - 1;
      assert calls[..m][..n] == calls[..n];
      PinsStay(check, stands, calls[..m], n);
      assert LawfulAt(check, stands, AfterAll(check, calls[..m]), calls[m]);
      OneCheck(check, stands, AfterAll(check, calls[..m]), calls[m]);
    }
  }

  /** The pin a check returned is the pin of its host at every later point. */
  lemma ReturnedPinStays<C(!new)>(check: Check<C>, stands: Standing, calls: seq<C>, n: nat, host: string, pin: string)
    requires Lawful(check, stands) && n < |calls|
    requires check(AfterAll(check, calls[..n]), calls[n]) == Pinned(host, pin)
    ensures host in AfterAll(check, calls) && AfterAll(check, calls)[host] == pin
  {
    var soon := calls[..n + 1];
    assert soon[..n] == calls[..n] && soon[n] == calls[n];
    assert AfterAll(check, soon) == AfterAll(check, calls[..n])[host := pin];
    PinsStay(check, stands, calls, n + 1);
  }
}
