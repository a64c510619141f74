/** The connect-time checks and the per-job pin store. */
module Pins {
  import opened Wrappers
  import opened Addresses
  import opened Allowlist
  import opened PinStore

  /** What the resolver returned: a list of texts, or a failure. */
  type Answer = Option<seq<string>>

  /** Rule d for one address a host stands for. */
  predicate Permitted(lib: Library, host: string, allowlist: seq<string>, ip: Ip) {
    var c := Classify(lib, ip);
    || c.Public?
    || (!(c.Loopback? && lib.parseIp(host).None? && !LoopbackName(host))
        && AddressExempt(lib, ip, c, host, allowlist))
  }

  /** The address an item of an answer stands for, if any. */
  function ParseItem(lib: Library, item: string): Option<Ip> {
    lib.parseIp(Unbracket(Trim(item)))
  }

  function Items(lib: Library, raw: seq<string>): seq<Option<Ip>> {
    seq(|raw|, i requires 0 <= i < |raw| => ParseItem(lib, raw[i]))
  }

  /** The distinct addresses among the items in order, or None when an item is not an address. */
  function Gather(items: seq<Option<Ip>>): Option<seq<Ip>> {
    if items == [] then Some([])
    else
      match (Gather(items[..|items| - 1]), items[|items| - 1])
      case (Some(earlier), Some(ip)) => Some(if ip in earlier then earlier else earlier + [ip])
      case _ => None
  }

  predicate NoRepetition(addresses: seq<Ip>) {
    forall i, j | 0 <= i < j < |addresses| :: addresses[i] != addresses[j]
  }

  /** The gathered addresses are exactly those of the items, each once; one bad item spoils all. */
  lemma {:induction false} GatherHolds(items: seq<Option<Ip>>)
    ensures Gather(items).None? <==> None in items
    ensures Gather(items).Some? ==>
              NoRepetition(Gather(items).value) && forall ip :: ip in Gather(items).value <==> Some(ip) in items
  {
    if items != [] {
      GatherHolds(items[..|items| - 1]);
      assert items == items[..|items| - 1] + [items[|items| - 1]];
    }
  }

  /** The addresses a normalised host stands for, before they are classified. */
  function Candidates(lib: Library, host: string, answer: Answer): Result<seq<Ip>, Refusal> {
    match LiteralIp(lib, host)
    case Failure(e) => Failure(e)
    case Success(Some(ip)) => Success([ip])
    case Success(None) =>
      if !ValidHostname(host) then Failure(UrlInvalid("host"))
      else if answer.None? || Gather(Items(lib, answer.value)).None? then Failure(EgressRefused("dns_failure"))
      else if Gather(Items(lib, answer.value)).value == [] then Failure(EgressRefused("dns_empty"))
      else Success(Gather(Items(lib, answer.value)).value)
  }

  function Shown(lib: Library, addresses: seq<Ip>): seq<string> {
    seq(|addresses|, i requires 0 <= i < |addresses| => lib.show(addresses[i]))
  }

  /** Rules d and e: every address the host stands for is permitted, or the host is refused. */
  function Resolved(lib: Library, host: string, allowlist: seq<string>, answer: Answer)
    : (r: Result<seq<string>, Refusal>)
    ensures r.Success? ==> r.value != []
  {
    var hostN := NormaliseHost(host);
    match Candidates(lib, hostN, answer)
    case Failure(e) => Failure(e)
    case Success(addresses) =>
      if exists ip | ip in addresses :: !Permitted(lib, hostN, allowlist, ip)
      then Failure(EgressRefused("address_class")) else Success(Shown(lib, addresses))
  }

  /** Parse an answer, dropping repetitions: exactly the addresses its items stand for, each once, or a
      failure when an item is not an address. */
  method ParseAnswer(lib: Library, raw: seq<string>) returns (r: Option<seq<Ip>>)
    ensures r == Gather(Items(lib, raw))
    ensures r.None? <==> None in Items(lib, raw)
    ensures r.Some? ==>
              && (forall i, j | 0 <= i < j < |r.value| :: r.value[i] != r.value[j])
              && (forall ip :: ip in r.value <==> Some(ip) in Items(lib, raw))
  {
    r := GatherItems(lib, raw);
    GatherHolds(Items(lib, raw));
  }

  method GatherItems(lib: Library, raw: seq<string>) returns (r: Option<seq<Ip>>)
    ensures r == Gather(Items(lib, raw))
  {
    ghost var items := Items(lib, raw);
    var addresses: seq<Ip> := [];
    for i := 0 to |raw|
      invariant Gather(items[..i]) == Some(addresses)
    {
      assert items[..i + 1][..i] == items[..i];
      var parsed := ParseItem(lib, raw[i]);
      assert items[i] == parsed;
      if parsed.None? {
        BadItemSpoils(items, i);
        return None;
      }
      if parsed.value !in addresses {
        addresses := addresses + [parsed.value];
      }
    }
    assert items[..|raw|] == items;
    return Some(addresses);
  }

  lemma BadItemSpoils(items: seq<Option<Ip>>, i: nat)
    requires i < |items| && items[i].None?
    ensures Gather(items).None?
  {
    GatherHolds(items);
  }

  method ResolveAndCheck(lib: Library, host: string, allowlist: seq<string>, answer: Answer)
    returns (r: Result<seq<string>, Refusal>)
    ensures r == Resolved(lib, host, allowlist, answer)
  {
    var hostN := NormaliseHost(host);
    var literal := LiteralIp(lib, hostN);
    if literal.Failure? {
      return Failure(literal.error);
    }
    var addresses: seq<Ip>;
    if literal.value.Some? {
      addresses := [literal.value.value];
    } else {
      if !ValidHostname(hostN) {
        return Failure(UrlInvalid("host"));
      }
      if answer.None? {
        return Failure(EgressRefused("dns_failure"));
      }
      var parsed := ParseAnswer(lib, answer.value);
      if parsed.None? {
        return Failure(EgressRefused("dns_failure"));
      }
      addresses := parsed.value;
      if addresses == [] {
        return Failure(EgressRefused("dns_empty"));
      }
    }
    assert Candidates(lib, hostN, answer) == Success(addresses);
    var fine := AllPermitted(lib, hostN, allowlist, addresses);
    return if fine then Success(Shown(lib, addresses)) else Failure(EgressRefused("address_class"));
  }

  /** Classify every address, stopping at the first that is refused. */
  method AllPermitted(lib: Library, hostN: string, allowlist: seq<string>, addresses: seq<Ip>) returns (fine: bool)
    ensures fine <==> forall ip | ip in addresses :: Permitted(lib, hostN, allowlist, ip)
  {
    for i := 0 to |addresses|
      invariant forall j | 0 <= j < i :: Permitted(lib, hostN, allowlist, addresses[j])
    {
      if !Permitted(lib, hostN, allowlist, addresses[i]) {
        return false;
      }
    }
    return true;
  }

  datatype ResolvedHost = ResolvedHost(host: string, addresses: seq<string>, pinned: string, literalIp: bool,
                                       allowlistEntry: string)

  /** One connect-time check: which host, what the resolver would answer, and whether to recheck. */
  datatype Call = Call(host: string, answer: Answer, recheck: bool)

  /** A host that rule a lets through: its normal form, whether it is an address, and the entry naming it. */
  datatype NamedHost = NamedHost(host: string, literalIp: bool, entry: string)

  /** Rule a. */
  function Named(lib: Library, allowlist: seq<string>, host: string): Result<NamedHost, Refusal> {
    var hostN := NormaliseHost(host);
    match LiteralIp(lib, hostN)
    case Failure(e) => Failure(e)
    case Success(ip) =>
      match AllowlistMatch(lib, hostN, allowlist)
      case Failure(e) => Failure(e)
      case Success(None) => Failure(NotAllowlisted)
      case Success(Some((entry, _))) => Success(NamedHost(hostN, ip.Some?, entry))
  }

  /** A named host against the pins so far and what it resolves to. */
  function Settled(pins: PinMap, named: NamedHost, recheck: bool, resolved: Result<seq<string>, Refusal>)
    : Result<ResolvedHost, Refusal>
    requires resolved.Success? ==> resolved.value != []
  {
    var host := named.host;
    if host in pins && !recheck then
      Success(ResolvedHost(host, [pins[host]], pins[host], named.literalIp, named.entry))
    else
      match resolved
      case Failure(e) => Failure(e)
      case Success(addresses) =>
        if host in pins && pins[host] !in addresses then Failure(EgressRefused("dns_rebinding"))
        else Success(ResolvedHost(host, addresses, if host in pins then pins[host] else addresses[0],
                                  named.literalIp, named.entry))
  }

  /** The outcome of a check against the pins so far. */
  function Checked(lib: Library, allowlist: seq<string>, pins: PinMap, call: Call): Result<ResolvedHost, Refusal> {
    match Named(lib, allowlist, call.host)
    case Failure(e) => Failure(e)
    case Success(named) => Settled(pins, named, call.recheck, Resolved(lib, named.host, allowlist, call.answer))
  }

  function EffectOf(r: Result<ResolvedHost, Refusal>): Effect {
    match r
    case Failure(_) => Refused
    case Success(resolved) => Pinned(resolved.host, resolved.pinned)
  }

  /** A check, as the pin store sees it. */
  function Checking(lib: Library, allowlist: seq<string>): Check<Call> {
    (pins, call) => EffectOf(Checked(lib, allowlist, pins, call))
  }

  class EgressSession {
    var pins: PinMap

    constructor ()
      ensures pins == map[]
    {
      pins := map[];
    }

    /** Rules a, d and e, with the session pin. */
    method CheckRequestHost(lib: Library, allowlist: seq<string>, call: Call) returns (r: Result<ResolvedHost, Refusal>)
      modifies this
      ensures r == Checked(lib, allowlist, old(pins), call)
      ensures pins == After(Checking(lib, allowlist), old(pins), call)
      ensures r.Failure? ==> pins == old(pins)
      ensures r.Success? ==> r.value.host in pins && r.value.pinned == pins[r.value.host]
    {
      var named := LookUp(lib, allowlist, call.host);
      if named.Failure? {
        return Failure(named.error);
      }
      r := PinHost(lib, allowlist, named.value, call);
    }

    /** The checks on a host that rule a lets through. */
    method PinHost(lib: Library, allowlist: seq<string>, named: NamedHost, call: Call)
      returns (r: Result<ResolvedHost, Refusal>)
      modifies this
      ensures r == Settled(old(pins), named, call.recheck, Resolved(lib, named.host, allowlist, call.answer))
      ensures pins == if r.Success? then old(pins)[r.value.host := r.value.pinned] else old(pins)
    {
      var host := named.host;
      if host in pins && !call.recheck {
        assert pins == pins[host := pins[host]];
        return Success(ResolvedHost(host, [pins[host]], pins[host], named.literalIp, named.entry));
      }
      var addresses := ResolveAndCheck(lib, host, allowlist, call.answer);
      if addresses.Failure? {
        return Failure(addresses.error);
      }
      var pinned;
      if host in pins {
        if pins[host] !in addresses.value {
          return Failure(EgressRefused("dns_rebinding"));
        }
        pinned := pins[host];
        assert pins == pins[host := pins[host]];
      } else {
        pinned := addresses.value[0];
        pins := pins[host := pinned];
      }
      return Success(ResolvedHost(host, addresses.value, pinned, named.literalIp, named.entry));
    }

    /** A connection to any other address than the pinned one is refused. */
    method VerifyPin(lib: Library, host: string, address: string) returns (accepted: bool)
      ensures accepted <==> PinAccepts(lib, pins, host, address)
    {
      var hostN := NormaliseHost(host);
      if hostN !in pins {
        return false;
      }
      return CanonicalAddress(lib, address) == pins[hostN];
    }
  }

  method LookUp(lib: Library, allowlist: seq<string>, host: string) returns (r: Result<NamedHost, Refusal>)
    ensures r == Named(lib, allowlist, host)
  {
    var hostN := NormaliseHost(host);
    var ip := LiteralIp(lib, hostN);
    if ip.Failure? {
      return Failure(ip.error);
    }
    var matched := AllowlistMatch(lib, hostN, allowlist);
    if matched.Failure? {
      return Failure(matched.error);
    }
    if matched.value.None? {
      return Failure(NotAllowlisted);
    }
    return Success(NamedHost(hostN, ip.value.Some?, matched.value.value.0));
  }

  function CanonicalAddress(lib: Library, address: string): string {
    match lib.parseIp(Unbracket(Trim(address)))
    case Some(ip) => lib.show(ip)
    case None => address
  }

  predicate PinAccepts(lib: Library, pins: PinMap, host: string, address: string) {
    NormaliseHost(host) in pins && CanonicalAddress(lib, address) == pins[NormaliseHost(host)]
  }

  // ---------------------------------------------------------------- runs

  /** The pins after a sequence of checks in one session. */
  function PinsAfterAll(lib: Library, allowlist: seq<string>, calls: seq<Call>): PinMap {
    AfterAll(Checking(lib, allowlist), calls)
  }

  /** A pin is the text of an address that the rules permit for its host. */
  ghost predicate PinStands(lib: Library, allowlist: seq<string>, host: string, pin: string) {
    exists ip :: pin == lib.show(ip) && Permitted(lib, NormaliseHost(host), allowlist, ip)
  }

  ghost function PermittedPins(lib: Library, allowlist: seq<string>): Standing {
    (host, pin) => PinStands(lib, allowlist, host, pin)
  }

  /** The first address a host resolves to is one that may stand as its pin. */
  lemma ResolvedStands(lib: Library, host: string, allowlist: seq<string>, answer: Answer)
    requires Resolved(lib, host, allowlist, answer).Success?
    ensures PinStands(lib, allowlist, host, Resolved(lib, host, allowlist, answer).value[0])
  {
    var hostN := NormaliseHost(host);
    var ip := Candidates(lib, hostN, answer).value[0];
    assert ip in Candidates(lib, hostN, answer).value;
    assert Permitted(lib, hostN, allowlist, ip);
  }

  /** What a check may do to the pins: it repeats the pin of its host, or sets one that stands; and it
      returns the pin, which is among the addresses it returns. */
  lemma SettledIsLawful(pins: PinMap, named: NamedHost, recheck: bool, resolved: Result<seq<string>, Refusal>)
    requires resolved.Success? ==> resolved.value != []
    ensures var r := Settled(pins, named, recheck, resolved);
            r.Success? ==>
              && r.value.host == named.host && r.value.pinned in r.value.addresses
              && (if named.host in pins then r.value.pinned == pins[named.host]
                  else resolved.Success? && r.value.pinned == resolved.value[0])
  {
  }

  lemma CheckIsLawful(lib: Library, allowlist: seq<string>, pins: PinMap, call: Call)
    ensures LawfulAt(Checking(lib, allowlist), PermittedPins(lib, allowlist), pins, call)
    ensures var r := Checked(lib, allowlist, pins, call);
            r.Success? ==> r.value.host == NormaliseHost(call.host) && r.value.pinned in r.value.addresses
  {
    var named := Named(lib, allowlist, call.host);
    if named.Success? {
      var resolved := Resolved(lib, named.value.host, allowlist, call.answer);
      SettledIsLawful(pins, named.value, call.recheck, resolved);
      if resolved.Success? {
        ResolvedStands(lib, named.value.host, allowlist, call.answer);
      }
    }
  }

  lemma ChecksAreLawful(lib: Library, allowlist: seq<string>)
    ensures Lawful(Checking(lib, allowlist), PermittedPins(lib, allowlist))
  {
    forall pins, call ensures LawfulAt(Checking(lib, allowlist), PermittedPins(lib, allowlist), pins, call) {
      CheckIsLawful(lib, allowlist, pins, call);
    }
  }

  /** Pin stability over any sequence of checks, whatever the resolver answers: a pin once set never
      changes, and every pin is the text of an address the rules permit. */
  lemma PinsAreStable(lib: Library, allowlist: seq<string>, calls: seq<Call>, n: nat)
    requires n <= |calls|
    ensures Keeps(PinsAfterAll(lib, allowlist, calls[..n]), PinsAfterAll(lib, allowlist, calls))
    ensures AllStand(PermittedPins(lib, allowlist), PinsAfterAll(lib, allowlist, calls))
  {
    ChecksAreLawful(lib, allowlist);
    PinsStay(Checking(lib, allowlist), PermittedPins(lib, allowlist), calls, n);
    PinsStand(Checking(lib, allowlist), PermittedPins(lib, allowlist), calls);
  }

  lemma PinHasAddress(lib: Library, allowlist: seq<string>, calls: seq<Call>, host: string) returns (ip: Ip)
    requires host in PinsAfterAll(lib, allowlist, calls)
    ensures PinsAfterAll(lib, allowlist, calls)[host] == lib.show(ip)
    ensures Permitted(lib, NormaliseHost(host), allowlist, ip)
  {
    PinsAreStable(lib, allowlist, calls, |calls|);
    var pin := PinsAfterAll(lib, allowlist, calls)[host];
    assert PermittedPins(lib, allowlist)(host, pin);
    ip :| pin == lib.show(ip) && Permitted(lib, NormaliseHost(host), allowlist, ip);
  }

  /** A permitted address is public or named by the allowlist, and of no class that is never exempt. */
  lemma PermittedIsExempt(lib: Library, host: string, allowlist: seq<string>, ip: Ip)
    requires Permitted(lib, host, allowlist, ip)
    ensures !NeverExempt(Classify(lib, ip))
    ensures Classify(lib, ip).Public? || AddressExempt(lib, ip, Classify(lib, ip), host, allowlist)
    ensures Classify(lib, ip).Loopback? ==> lib.parseIp(host).Some? || LoopbackName(host)
  {
  }

  /** A pin that is the text of an address accepts exactly the texts that denote that address. */
  lemma AcceptsItsAddress(lib: Library, pins: PinMap, host: string, address: string, pinned: Ip)
    requires Sound(lib)
    requires NormaliseHost(host) in pins && pins[NormaliseHost(host)] == lib.show(pinned)
    ensures PinAccepts(lib, pins, host, address) <==> lib.parseIp(Unbracket(Trim(address))) == Some(pinned)
    ensures PinAccepts(lib, pins, host, pins[NormaliseHost(host)])
  {
    assert ShowSound(lib, pinned);
    var ip := lib.parseIp(Unbracket(Trim(address)));
    assert ip.Some? ==> ShowSound(lib, ip.value);
  }

  /** At any point of a session, a pin accepts exactly the texts that denote the pinned address. */
  lemma PinAcceptsOnlyItsAddress(lib: Library, allowlist: seq<string>, calls: seq<Call>, host: string, address: string)
    requires Sound(lib)
    requires NormaliseHost(host) in PinsAfterAll(lib, allowlist, calls)
    ensures PinAccepts(lib, PinsAfterAll(lib, allowlist, calls), host, address) <==>
            var ip := lib.parseIp(Unbracket(Trim(address)));
            ip.Some? && ip == lib.parseIp(PinsAfterAll(lib, allowlist, calls)[NormaliseHost(host)])
  {
    var pinned := PinHasAddress(lib, allowlist, calls, NormaliseHost(host));
    AcceptsItsAddress(lib, PinsAfterAll(lib, allowlist, calls), host, address, pinned);
    assert ShowSound(lib, pinned);
  }

  /** The address a check returned is accepted by every later pin verification of the session. */
  lemma ReturnedPinStaysAccepted(lib: Library, allowlist: seq<string>, calls: seq<Call>, n: nat)
    requires Sound(lib) && n < |calls|
    requires Checked(lib, allowlist, PinsAfterAll(lib, allowlist, calls[..n]), calls[n]).Success?
    ensures PinAccepts(lib, PinsAfterAll(lib, allowlist, calls), calls[n].host,
                       Checked(lib, allowlist, PinsAfterAll(lib, allowlist, calls[..n]), calls[n]).value.pinned)
  {
    var host := NormaliseHost(calls[n].host);
    var r := Checked(lib, allowlist, PinsAfterAll(lib, allowlist, calls[..n]), calls[n]).value;
    CheckIsLawful(lib, allowlist, PinsAfterAll(lib, allowlist, calls[..n]), calls[n]);
    ChecksAreLawful(lib, allowlist);
    ReturnedPinStays(Checking(lib, allowlist), PermittedPins(lib, allowlist), calls, n, host, r.pinned);
    PinAcceptsItself(lib, allowlist, calls, calls[n].host);
  }

  lemma PinAcceptsItself(lib: Library, allowlist: seq<string>, calls: seq<Call>, host: string)
    requires Sound(lib)
    requires NormaliseHost(host) in PinsAfterAll(lib, allowlist, calls)
    ensures var pins := PinsAfterAll(lib, allowlist, calls); PinAccepts(lib, pins, host, pins[NormaliseHost(host)])
  {
    var pins := PinsAfterAll(lib, allowlist, calls);
    var pinned := PinHasAddress(lib, allowlist, calls, NormaliseHost(host));
    AcceptsItsAddress(lib, pins, host, pins[NormaliseHost(host)], pinned);
  }
}
