/** The egress rules told without the functions that compute them: from the traits the library reports for
    an address and for the IPv4 address embedded in it, and from the allowlist's entries as written. */
module EgressRules {
  import opened Wrappers
  import opened Addresses
  import opened Allowlist
  import opened PinStore
  import opened Pins
  import Decimals
  import Url

  // ---------------------------------------------------------------- addresses

  /** Nothing speaks against an address with these traits. */
  predicate Unremarkable(t: Traits) {
    && t.global_
    && !t.unspecified && !t.loopback && !t.linkLocal && !t.multicast && !t.reserved && !t.private_
  }

  /** No entry can permit an address with these traits. */
  predicate BeyondExemption(t: Traits) {
    t.unspecified || (!t.loopback && !t.linkLocal && (t.multicast || t.reserved || (!t.private_ && !t.global_)))
  }

  /** Nothing speaks against the address, nor against the IPv4 address embedded in it. */
  predicate Clean(lib: Library, ip: Ip) {
    && Unremarkable(lib.traits(ip))
    && (ip.V6? && lib.embedded(ip).Some? ==> Unremarkable(lib.traits(lib.embedded(ip).value)))
  }

  /** The traits that decide about an address: those of the embedded IPv4 address where they speak
      against it, or its own. */
  function Deciding(lib: Library, ip: Ip): Traits {
    if ip.V6? && lib.embedded(ip).Some? && !Unremarkable(lib.traits(lib.embedded(ip).value))
    then lib.traits(lib.embedded(ip).value) else lib.traits(ip)
  }

  /** The class of an address, told by the deciding traits. */
  lemma ClassTold(lib: Library, ip: Ip)
    ensures Classify(lib, ip).Public? <==> Clean(lib, ip)
    ensures NeverExempt(Classify(lib, ip)) <==> BeyondExemption(Deciding(lib, ip))
    ensures var c, t := Classify(lib, ip), Deciding(lib, ip);
            && (c.Unspecified? <==> t.unspecified)
            && (c.Loopback? <==> !t.unspecified && t.loopback)
            && (c.LinkLocal? <==> !t.unspecified && !t.loopback && t.linkLocal)
            && (c.Multicast? <==> !t.unspecified && !t.loopback && !t.linkLocal && t.multicast)
            && (c.Private? <==> !t.unspecified && !t.loopback && !t.linkLocal && !t.multicast && !t.reserved
                                && t.private_)
  {
  }

  // ---------------------------------------------------------------- entries

  predicate NamesIp(lib: Library, raw: string, ip: Ip) {
    lib.parseIp(Unbracket(Lower(Trim(raw)))) == Some(ip)
  }

  /** The entry is a network that holds the address. */
  predicate NetHolds(lib: Library, raw: string, ip: Ip) {
    var entry := Lower(Trim(raw));
    && '/' in entry && lib.parseIp(Unbracket(entry)).None?
    && lib.parseNet(entry).Some? && InNet(ip, lib.parseNet(entry).value)
  }

  predicate PrivateNetHolds(lib: Library, raw: string, ip: Ip) {
    NetHolds(lib, raw, ip) && lib.isPrivateNet(lib.parseNet(Lower(Trim(raw))).value)
  }

  predicate NamesHost(raw: string, host: string) {
    Lower(Trim(raw)) != "" && Unbracket(Lower(Trim(raw))) == host
  }

  predicate Alias(host: string) {
    host == "localhost" || host == "host.docker.internal"
  }

  /** Rule a, one entry: it names the host, or holds the address the host is. */
  predicate EntryAdmits(lib: Library, host: string, raw: string) {
    match lib.parseIp(host)
    case Some(ip) => NamesIp(lib, raw, ip) || NetHolds(lib, raw, ip)
    case None => NamesHost(raw, host)
  }

  predicate SomeAdmits(lib: Library, host: string, allowlist: seq<string>) {
    exists i | 0 <= i < |allowlist| :: EntryAdmits(lib, host, allowlist[i])
  }

  /** Position `i` is the first one of the list that passes. */
  predicate First(passes: string -> bool, list: seq<string>, i: nat) {
    i < |list| && passes(list[i]) && forall j | 0 <= j < i :: !passes(list[j])
  }

  /** Entry `i` admits the host and no earlier one does. */
  predicate FirstAdmits(lib: Library, host: string, allowlist: seq<string>, i: nat) {
    First(raw => EntryAdmits(lib, host, raw), allowlist, i)
  }

  /** The first entry that admits the host is, tidied, `entry`. */
  ghost predicate AdmittedBy(lib: Library, host: string, allowlist: seq<string>, entry: string) {
    exists i: nat :: FirstAdmits(lib, host, allowlist, i) && Lower(Trim(allowlist[i])) == entry
  }

  /** Rule d, one entry. */
  predicate EntryExempts(lib: Library, host: string, ip: Ip, raw: string) {
    || NamesIp(lib, raw, ip)
    || PrivateNetHolds(lib, raw, ip)
    || (Alias(host) && NamesHost(raw, host) && (Deciding(lib, ip).loopback || !Deciding(lib, ip).linkLocal))
  }

  /** Rule d: nothing speaks against the address, or an entry exempts it; some traits are beyond exemption,
      and a loopback address is reached only as itself or through a loopback alias. */
  predicate AddressAllowed(lib: Library, host: string, allowlist: seq<string>, ip: Ip) {
    || Clean(lib, ip)
    || (&& !BeyondExemption(Deciding(lib, ip))
        && (Deciding(lib, ip).loopback ==> lib.parseIp(host).Some? || Alias(host))
        && exists i | 0 <= i < |allowlist| :: EntryExempts(lib, host, ip, allowlist[i]))
  }

  lemma NoAddressText(lib: Library, s: string)
    requires Sound(lib) && (s == "" || Alias(s))
    ensures lib.parseIp(s).None? && '/' !in s
  {
    assert TextSound(lib, s);
    if s != "" {
      assert s[3] in "alt" && !AddressChar('l') && !AddressChar('t') && (s[3] == 'a' ==> s[4] == 'l');
    }
  }

  lemma ExemptsIff(lib: Library, ip: Ip, alias: bool, host: string, raw: string)
    requires Sound(lib) && (alias ==> Alias(host))
    ensures Exempts(lib, ip, alias, host, raw) <==>
            NamesIp(lib, raw, ip) || PrivateNetHolds(lib, raw, ip) || (alias && NamesHost(raw, host))
  {
    NoAddressText(lib, "");
    if alias {
      NoAddressText(lib, host);
      AliasIsBare(lib, host, Lower(Trim(raw)));
    }
  }

  /** An entry that is a loopback alias, brackets aside, is no network. */
  lemma AliasIsBare(lib: Library, host: string, entry: string)
    requires '/' !in host
    ensures Unbracket(entry) == host ==> '/' !in entry
  {
  }

  lemma ExemptIff(lib: Library, host: string, allowlist: seq<string>, ip: Ip)
    requires Sound(lib) && !BeyondExemption(Deciding(lib, ip)) && !Clean(lib, ip)
    ensures AddressExempt(lib, ip, Classify(lib, ip), host, allowlist) <==>
            exists i | 0 <= i < |allowlist| :: EntryExempts(lib, host, ip, allowlist[i])
  {
    ClassTold(lib, ip);
    var c := Classify(lib, ip);
    var alias := LoopbackName(host) && (c.Loopback? || c.Private?);
    forall i | 0 <= i < |allowlist|
      ensures Exempts(lib, ip, alias, host, allowlist[i]) <==> EntryExempts(lib, host, ip, allowlist[i])
    {
      ExemptsIff(lib, ip, alias, host, allowlist[i]);
    }
  }

  /** Rule d of the model is the rule told above. */
  lemma PermittedIff(lib: Library, host: string, allowlist: seq<string>, ip: Ip)
    requires Sound(lib)
    ensures Permitted(lib, host, allowlist, ip) <==> AddressAllowed(lib, host, allowlist, ip)
  {
    ClassTold(lib, ip);
    if !BeyondExemption(Deciding(lib, ip)) && !Clean(lib, ip) {
      ExemptIff(lib, host, allowlist, ip);
    }
  }

  lemma MatchEntryTold(lib: Library, host: string, raw: string)
    requires Sound(lib)
    ensures var m := MatchEntry(lib, host, lib.parseIp(host), raw);
            && (m.Some? <==> EntryAdmits(lib, host, raw))
            && (m == Some(IpEntry) ==> lib.parseIp(host).Some? && NamesIp(lib, raw, lib.parseIp(host).value))
            && (m == Some(CidrEntry) ==> lib.parseIp(host).Some? && NetHolds(lib, raw, lib.parseIp(host).value))
            && (m == Some(HostEntry) ==> lib.parseIp(host).None?)
  {
    NoAddressText(lib, "");
  }

  /** Rule a: the match finds the first entry that admits the host, if there is one. */
  lemma {:induction false} FirstMatchTold(lib: Library, host: string, allowlist: seq<string>)
    requires Sound(lib)
    ensures var m := FirstMatch(lib, host, lib.parseIp(host), allowlist);
            && (m.Some? <==> SomeAdmits(lib, host, allowlist))
            && (m.Some? ==> AdmittedBy(lib, host, allowlist, m.value.0))
    decreases |allowlist|
  {
    if allowlist != [] {
      var rest := allowlist[1..];
      MatchEntryTold(lib, host, allowlist[0]);
      FirstMatchTold(lib, host, rest);
      if EntryAdmits(lib, host, allowlist[0]) {
        assert FirstAdmits(lib, host, allowlist, 0);
      } else {
        SomeInRest(lib, host, allowlist);
        if SomeAdmits(lib, host, rest) {
          var m := FirstMatch(lib, host, lib.parseIp(host), rest).value;
          var i: nat :| FirstAdmits(lib, host, rest, i) && Lower(Trim(rest[i])) == m.0;
          FirstInRest(raw => EntryAdmits(lib, host, raw), allowlist, i);
          assert FirstAdmits(lib, host, allowlist, i + 1);
        }
      }
    }
  }

  lemma SomeInRest(lib: Library, host: string, allowlist: seq<string>)
    requires allowlist != [] && !EntryAdmits(lib, host, allowlist[0])
    ensures SomeAdmits(lib, host, allowlist) <==> SomeAdmits(lib, host, allowlist[1..])
  {
    var rest := allowlist[1..];
    forall i | 0 < i < |allowlist| ensures EntryAdmits(lib, host, allowlist[i]) <==> EntryAdmits(lib, host, rest[i - 1]) {
    }
    assert forall i | 0 <= i < |rest| :: rest[i] == allowlist[i + 1];
  }

  lemma FirstInRest(passes: string -> bool, list: seq<string>, i: nat)
    requires list != [] && !passes(list[0]) && First(passes, list[1..], i)
    ensures First(passes, list, i + 1)
  {
    assert forall j | 0 < j < |list| :: list[j] == list[1..][j - 1];
  }

  // ---------------------------------------------------------------- what a host resolves to

  function ItemIp(lib: Library, item: string): Option<Ip> {
    lib.parseIp(Unbracket(Trim(item)))
  }

  /** The host is the address, or an item of the resolver's answer is. */
  predicate StandsFor(lib: Library, host: string, answer: Answer, ip: Ip) {
    if lib.parseIp(host).Some? then lib.parseIp(host) == Some(ip)
    else answer.Some? && exists item | item in answer.value :: ItemIp(lib, item) == Some(ip)
  }

  predicate BadHost(lib: Library, host: string) {
    '%' in host || (lib.parseIp(host).None? && !ValidHostname(host))
  }

  /** The resolver failed, or returned something that is no address. */
  predicate Unresolved(lib: Library, host: string, answer: Answer) {
    lib.parseIp(host).None? && (answer.None? || exists item | item in answer.value :: ItemIp(lib, item).None?)
  }

  predicate NoAnswer(lib: Library, host: string, answer: Answer) {
    lib.parseIp(host).None? && answer == Some([])
  }

  ghost predicate AllAllowed(lib: Library, host: string, allowlist: seq<string>, answer: Answer) {
    forall ip | StandsFor(lib, host, answer, ip) :: AddressAllowed(lib, host, allowlist, ip)
  }

  lemma CandidatesTold(lib: Library, host: string, answer: Answer)
    ensures var r := Candidates(lib, host, answer);
            && (r == Failure(UrlInvalid("host")) <==> BadHost(lib, host))
            && (r == Failure(EgressRefused("dns_failure")) <==> !BadHost(lib, host) && Unresolved(lib, host, answer))
            && (r == Failure(EgressRefused("dns_empty")) <==> !BadHost(lib, host) && NoAnswer(lib, host, answer))
            && (r.Success? <==>
                  !BadHost(lib, host) && !Unresolved(lib, host, answer) && !NoAnswer(lib, host, answer))
            && (r.Success? ==>
                  && NoRepetition(r.value) && r.value != []
                  && (forall ip :: ip in r.value <==> StandsFor(lib, host, answer, ip)))
  {
    if !BadHost(lib, host) && lib.parseIp(host).None? && answer.Some? {
      var items := Items(lib, answer.value);
      GatherHolds(items);
      ItemsTold(lib, answer.value);
      if answer.value != [] {
        assert ItemIp(lib, answer.value[0]) == items[0];
      }
      if Gather(items).Some? && answer.value != [] {
        assert items[0].Some? && items[0].value in Gather(items).value;
      }
    }
  }

  lemma ItemsTold(lib: Library, raw: seq<string>)
    ensures forall parsed :: parsed in Items(lib, raw) <==> exists item | item in raw :: ItemIp(lib, item) == parsed
  {
    var items := Items(lib, raw);
    forall parsed | parsed in items ensures exists item | item in raw :: ItemIp(lib, item) == parsed {
      var i :| 0 <= i < |items| && items[i] == parsed;
      assert ItemIp(lib, raw[i]) == parsed;
    }
    forall item | item in raw ensures ItemIp(lib, item) in items {
      var i :| 0 <= i < |raw| && raw[i] == item;
      assert items[i] == ItemIp(lib, item);
    }
  }

  lemma {:induction false} FirstIsFirst(items: seq<Option<Ip>>)
    requires items != [] && Gather(items).Some?
    ensures Gather(items).value != [] && items[0] == Some(Gather(items).value[0])
  {
    if |items| > 1 {
      FirstIsFirst(items[..|items| - 1]);
    } else {
      assert Gather(items[..0]) == Some([]);
    }
  }

  /** Rules d and e on what a host resolves to: which hosts and answers are refused for what, and that
      otherwise exactly the addresses it stands for are returned, the first one first. */
  lemma ResolvedTold(lib: Library, host: string, allowlist: seq<string>, answer: Answer)
    requires Sound(lib)
    ensures var name, r := NormaliseHost(host), Resolved(lib, host, allowlist, answer);
            var fine := !BadHost(lib, name) && !Unresolved(lib, name, answer) && !NoAnswer(lib, name, answer);
            && (r == Failure(UrlInvalid("host")) <==> BadHost(lib, name))
            && (r == Failure(EgressRefused("dns_failure")) <==> !BadHost(lib, name) && Unresolved(lib, name, answer))
            && (r == Failure(EgressRefused("dns_empty")) <==> !BadHost(lib, name) && NoAnswer(lib, name, answer))
            && (r == Failure(EgressRefused("address_class")) <==> fine && !AllAllowed(lib, name, allowlist, answer))
            && (r.Success? <==> fine && AllAllowed(lib, name, allowlist, answer))
            && (r.Success? ==> Lists(lib, name, answer, r.value))
  {
    var name := NormaliseHost(host);
    CandidatesTold(lib, name, answer);
    var candidates := Candidates(lib, name, answer);
    if candidates.Success? {
      forall ip | ip in candidates.value
        ensures Permitted(lib, name, allowlist, ip) <==> AddressAllowed(lib, name, allowlist, ip)
      {
        PermittedIff(lib, name, allowlist, ip);
      }
      CandidatesListed(lib, name, answer, candidates.value);
    }
  }

  /** The texts of the addresses a host stands for: all of them, no other, and the first one first. */
  ghost predicate Lists(lib: Library, host: string, answer: Answer, texts: seq<string>) {
    && texts != []
    && (forall text | text in texts :: exists ip :: StandsFor(lib, host, answer, ip) && text == lib.show(ip))
    && (forall ip | StandsFor(lib, host, answer, ip) :: lib.show(ip) in texts)
    && (match lib.parseIp(host)
        case Some(ip) => texts[0] == lib.show(ip)
        case None =>
          && answer.Some? && answer.value != [] && ItemIp(lib, answer.value[0]).Some?
          && texts[0] == lib.show(ItemIp(lib, answer.value[0]).value))
  }

  lemma CandidatesListed(lib: Library, host: string, answer: Answer, addresses: seq<Ip>)
    requires Candidates(lib, host, answer) == Success(addresses)
    ensures Lists(lib, host, answer, Shown(lib, addresses))
  {
    CandidatesTold(lib, host, answer);
    var texts := Shown(lib, addresses);
    forall text | text in texts ensures exists ip :: StandsFor(lib, host, answer, ip) && text == lib.show(ip) {
      var i :| 0 <= i < |texts| && texts[i] == text;
      assert addresses[i] in addresses;
    }
    forall ip | StandsFor(lib, host, answer, ip) ensures lib.show(ip) in texts {
      var i :| 0 <= i < |addresses| && addresses[i] == ip;
      assert texts[i] == lib.show(ip);
    }
    if lib.parseIp(host).None? {
      var items := Items(lib, answer.value);
      if items != [] {
        FirstIsFirst(items);
        assert items[0] == ItemIp(lib, answer.value[0]);
      }
    }
  }

  // ---------------------------------------------------------------- the connect-time check

  /** Whether the host has to be resolved, and the pin the addresses must include. */
  predicate Resolves(pins: PinMap, call: Call) {
    NormaliseHost(call.host) !in pins || call.recheck
  }

  /** The name the rules see: the check normalises a host once more than it looks its pin up. */
  function RuleName(host: string): string {
    NormaliseHost(NormaliseHost(host))
  }

  lemma PercentStays(host: string)
    ensures '%' in NormaliseHost(host) <==> '%' in host
  {
    LowerKeeps(Unbracket(Trim(host)), '%');
  }

  lemma NamedTold(lib: Library, allowlist: seq<string>, host: string)
    requires Sound(lib)
    ensures var r, name := Named(lib, allowlist, host), RuleName(host);
            && (r == Failure(UrlInvalid("host")) <==> '%' in host)
            && (r == Failure(NotAllowlisted) <==> '%' !in host && !SomeAdmits(lib, name, allowlist))
            && (r.Success? <==> '%' !in host && SomeAdmits(lib, name, allowlist))
            && (r.Success? ==>
                  && r.value.host == NormaliseHost(host)
                  && (r.value.literalIp <==> lib.parseIp(NormaliseHost(host)).Some?)
                  && AdmittedBy(lib, name, allowlist, r.value.entry))
  {
    PercentStays(host);
    PercentStays(NormaliseHost(host));
    FirstMatchTold(lib, RuleName(host), allowlist);
  }

  /** When a check succeeds, and every reason for which it can be refused. */
  lemma CheckTold(lib: Library, allowlist: seq<string>, pins: PinMap, call: Call)
    requires Sound(lib)
    ensures var r, host, name := Checked(lib, allowlist, pins, call), NormaliseHost(call.host), RuleName(call.host);
            var admitted := '%' !in call.host && SomeAdmits(lib, name, allowlist);
            var looked := admitted && Resolves(pins, call);
            var found := looked && !BadHost(lib, name) && !Unresolved(lib, name, call.answer)
                         && !NoAnswer(lib, name, call.answer);
            var allowed := found && AllAllowed(lib, name, allowlist, call.answer);
            var moved := host in pins && !PinStillThere(lib, name, call.answer, pins[host]);
            && (r == Failure(NotAllowlisted) <==> '%' !in call.host && !SomeAdmits(lib, name, allowlist))
            && (r == Failure(UrlInvalid("host")) <==> '%' in call.host || (looked && BadHost(lib, name)))
            && (r == Failure(EgressRefused("dns_failure")) <==>
                  looked && !BadHost(lib, name) && Unresolved(lib, name, call.answer))
            && (r == Failure(EgressRefused("dns_empty")) <==>
                  looked && !BadHost(lib, name) && NoAnswer(lib, name, call.answer))
            && (r == Failure(EgressRefused("address_class")) <==> found && !allowed)
            && (r == Failure(EgressRefused("dns_rebinding")) <==> allowed && moved)
            && (r.Success? <==> admitted && (Resolves(pins, call) ==> allowed && !moved))
  {
    var name := RuleName(call.host);
    NamedTold(lib, allowlist, call.host);
    ResolvedTold(lib, NormaliseHost(call.host), allowlist, call.answer);
  }

  ghost predicate PinStillThere(lib: Library, host: string, answer: Answer, pin: string) {
    exists ip :: StandsFor(lib, host, answer, ip) && lib.show(ip) == pin
  }

  /** What a successful check returns. */
  lemma CheckReturns(lib: Library, allowlist: seq<string>, pins: PinMap, call: Call)
    requires Sound(lib) && Checked(lib, allowlist, pins, call).Success?
    ensures var r, host := Checked(lib, allowlist, pins, call).value, NormaliseHost(call.host);
            && r.host == host
            && (r.literalIp <==> lib.parseIp(host).Some?)
            && AdmittedBy(lib, RuleName(call.host), allowlist, r.allowlistEntry)
            && r.pinned == (if host in pins then pins[host] else r.addresses[0])
            && (if Resolves(pins, call) then Lists(lib, RuleName(call.host), call.answer, r.addresses)
                else r.addresses == [pins[host]])
  {
    NamedTold(lib, allowlist, call.host);
    ResolvedTold(lib, NormaliseHost(call.host), allowlist, call.answer);
    SettledReturns(pins, Named(lib, allowlist, call.host).value, call.recheck,
                   Resolved(lib, NormaliseHost(call.host), allowlist, call.answer));
  }

  lemma SettledReturns(pins: PinMap, named: NamedHost, recheck: bool, resolved: Result<seq<string>, Refusal>)
    requires resolved.Success? ==> resolved.value != []
    requires Settled(pins, named, recheck, resolved).Success?
    ensures var r := Settled(pins, named, recheck, resolved).value;
            && r.host == named.host && r.literalIp == named.literalIp && r.allowlistEntry == named.entry
            && r.pinned == (if named.host in pins then pins[named.host] else r.addresses[0])
            && (if named.host !in pins || recheck then resolved == Success(r.addresses)
                else r.addresses == [pins[named.host]])
  {
  }

  /** Over every session, whatever the resolver answers: an address a successful check returns is one the
      rules allow for the host, whether it was resolved just now or pinned earlier. */
  lemma OnlyAllowedAddresses(lib: Library, allowlist: seq<string>, calls: seq<Call>, n: nat, text: string)
    returns (ip: Ip, name: string)
    requires Sound(lib) && n < |calls|
    requires Checked(lib, allowlist, PinsAfterAll(lib, allowlist, calls[..n]), calls[n]).Success?
    requires text in Checked(lib, allowlist, PinsAfterAll(lib, allowlist, calls[..n]), calls[n]).value.addresses
    ensures text == lib.show(ip) && AddressAllowed(lib, RuleName(calls[n].host), allowlist, ip)
    ensures name == RuleName(calls[n].host)
    ensures !Clean(lib, ip) ==>
              && !BeyondExemption(Deciding(lib, ip))
              && exists i | 0 <= i < |allowlist| :: EntryExempts(lib, name, ip, allowlist[i])
  {
    name := RuleName(calls[n].host);
    var pins := PinsAfterAll(lib, allowlist, calls[..n]);
    CheckTold(lib, allowlist, pins, calls[n]);
    CheckReturns(lib, allowlist, pins, calls[n]);
    if Resolves(pins, calls[n]) {
      ip :| StandsFor(lib, name, calls[n].answer, ip) && text == lib.show(ip);
    } else {
      ip := PinHasAddress(lib, allowlist, calls[..n], NormaliseHost(calls[n].host));
      PermittedIff(lib, name, allowlist, ip);
    }
  }

  /** The case the rules exist for: a name that is no loopback alias, none of whose entries is an address or
      a network, never reaches an address something speaks against. */
  lemma NamesReachCleanAddresses(lib: Library, allowlist: seq<string>, calls: seq<Call>, n: nat, text: string)
    returns (ip: Ip)
    requires Sound(lib) && n < |calls|
    requires Checked(lib, allowlist, PinsAfterAll(lib, allowlist, calls[..n]), calls[n]).Success?
    requires text in Checked(lib, allowlist, PinsAfterAll(lib, allowlist, calls[..n]), calls[n]).value.addresses
    requires !Alias(RuleName(calls[n].host))
    requires forall i | 0 <= i < |allowlist| ::
               lib.parseIp(Unbracket(Lower(Trim(allowlist[i])))).None? && '/' !in Lower(Trim(allowlist[i]))
    ensures text == lib.show(ip) && Clean(lib, ip)
  {
    var name;
    ip, name := OnlyAllowedAddresses(lib, allowlist, calls, n, text);
  }

  // ---------------------------------------------------------------- the registration check

  lemma HostCharIsKept(c: char)
    requires Url.HostChar(c)
    ensures c !in SPACES && c !in BRACKETS && c != '%'
  {
  }

  lemma HostIsNormal(host: string)
    requires Lower(host) == host && host != "" && forall i | 0 <= i < |host| :: Url.HostChar(host[i])
    ensures NormaliseHost(host) == host && '%' !in host
  {
    HostCharIsKept(host[0]);
    HostCharIsKept(host[|host| - 1]);
    assert Trim(host) == host;
    assert Unbracket(host) == host;
  }

  /** The host of an accepted read is in normal form. */
  lemma TargetHostIsNormal(lib: Library, url: string)
    requires Sound(lib) && Url.ReadTarget(lib, url).Success?
    ensures var t := Url.ReadTarget(lib, url).value;
            NormaliseHost(t.host) == t.host && '%' !in t.host && (t.scheme == "https" || t.scheme == "http")
  {
    Url.AcceptedIsPlain(lib, url);
    HostIsNormal(Url.ReadTarget(lib, url).value.host);
  }

  /** A host that is an address is an allowed one. */
  predicate LiteralAllowed(lib: Library, host: string, allowlist: seq<string>) {
    lib.parseIp(host).Some? ==> AddressAllowed(lib, host, allowlist, lib.parseIp(host).value)
  }

  /** Not plaintext; or to a loopback alias, or to an address that something speaks against. */
  predicate PlaintextFits(lib: Library, scheme: string, host: string) {
    scheme == "https" || Alias(host) || (lib.parseIp(host).Some? && !Clean(lib, lib.parseIp(host).value))
  }

  lemma MatchTold(lib: Library, host: string, allowlist: seq<string>)
    requires Sound(lib) && NormaliseHost(host) == host && '%' !in host
    ensures AllowlistMatch(lib, host, allowlist).Success?
    ensures AllowlistMatch(lib, host, allowlist).value.Some? <==> SomeAdmits(lib, host, allowlist)
  {
    FirstMatchTold(lib, host, allowlist);
  }

  lemma LiteralTold(lib: Library, host: string, allowlist: seq<string>, ip: Ip)
    requires Sound(lib) && lib.parseIp(host) == Some(ip)
    ensures var c := Classify(lib, ip);
            && (c.Public? || AddressExempt(lib, ip, c, host, allowlist) <==> AddressAllowed(lib, host, allowlist, ip))
            && (c.Public? <==> Clean(lib, ip))
            && (AddressAllowed(lib, host, allowlist, ip) ==> c in {Public, Loopback, Private, LinkLocal})
  {
    ClassTold(lib, ip);
    PermittedIff(lib, host, allowlist, ip);
  }

  lemma JudgementTold(lib: Library, allowlist: seq<string>, t: Url.Target)
    requires Sound(lib) && NormaliseHost(t.host) == t.host && '%' !in t.host
    requires t.scheme == "https" || t.scheme == "http"
    ensures var r, admitted, allowed, fits := Url.Judge(lib, allowlist, t), SomeAdmits(lib, t.host, allowlist),
                                              LiteralAllowed(lib, t.host, allowlist), PlaintextFits(lib, t.scheme, t.host);
            && (r == Failure(NotAllowlisted) <==> !admitted)
            && (r == Failure(EgressRefused("address_class")) <==> admitted && !allowed)
            && (r == Failure(UrlInvalid("plaintext")) <==> admitted && allowed && !fits)
            && (r.Success? <==> admitted && allowed && fits)
  {
    MatchTold(lib, t.host, allowlist);
    if lib.parseIp(t.host).Some? {
      LiteralTold(lib, t.host, allowlist, lib.parseIp(t.host).value);
    }
  }

  /** When a URL that reads well is accepted, and every reason for which it can be refused: no entry admits
      its host; its host is an address the rules do not allow; or it is plaintext to anything but a loopback
      alias or an address that something speaks against, yet an entry exempts. */
  lemma RegistrationTold(lib: Library, allowlist: seq<string>, url: string)
    requires Sound(lib) && Url.ReadTarget(lib, url).Success?
    ensures var t, r := Url.ReadTarget(lib, url).value, Url.CheckRegistrationUrl(lib, allowlist, url);
            var admitted, allowed := SomeAdmits(lib, t.host, allowlist), LiteralAllowed(lib, t.host, allowlist);
            var fits := PlaintextFits(lib, t.scheme, t.host);
            && (r == Failure(NotAllowlisted) <==> !admitted)
            && (r == Failure(EgressRefused("address_class")) <==> admitted && !allowed)
            && (r == Failure(UrlInvalid("plaintext")) <==> admitted && allowed && !fits)
            && (r.Success? <==> admitted && allowed && fits)
  {
    TargetHostIsNormal(lib, url);
    Url.CheckIsJudgement(lib, allowlist, url);
    JudgementTold(lib, allowlist, Url.ReadTarget(lib, url).value);
  }

  /** What an accepted URL is registered as. */
  lemma EndpointTold(lib: Library, allowlist: seq<string>, url: string)
    requires Sound(lib) && Url.CheckRegistrationUrl(lib, allowlist, url).Success?
    ensures Url.ReadTarget(lib, url).Success?
    ensures var t, e := Url.ReadTarget(lib, url).value, Url.CheckRegistrationUrl(lib, allowlist, url).value;
            && e.scheme == t.scheme && e.host == t.host && e.port == t.port && e.path == t.path
            && AdmittedBy(lib, t.host, allowlist, e.allowlistEntry)
            && (e.plaintext <==> t.scheme == "http")
            && e.url == t.scheme + "://"
                        + ((if lib.parseIp(t.host).Some? && lib.parseIp(t.host).value.V6? then "[" + t.host + "]" else t.host)
                           + (if t.port == (if t.scheme == "https" then 443 else 80) then "" else ":" + Decimals.Print(t.port)))
                        + t.path
    ensures var t, e := Url.ReadTarget(lib, url).value, Url.CheckRegistrationUrl(lib, allowlist, url).value;
            match lib.parseIp(t.host)
            case None => !e.literalIp && e.addressClass.None? && (e.plaintextLoopback <==> e.plaintext)
            case Some(ip) =>
              && e.literalIp && e.addressClass.Some?
              && (e.addressClass == Some(Public) <==> Clean(lib, ip))
              && (e.addressClass == Some(Loopback) <==> Deciding(lib, ip).loopback)
              && (e.addressClass == Some(LinkLocal) <==> !Deciding(lib, ip).loopback && Deciding(lib, ip).linkLocal)
              && (e.addressClass == Some(Private) <==>
                    !Clean(lib, ip) && !Deciding(lib, ip).loopback && !Deciding(lib, ip).linkLocal)
              && (e.plaintextLoopback <==> e.plaintext && Deciding(lib, ip).loopback)
  {
    RegistrationTold(lib, allowlist, url);
    TargetHostIsNormal(lib, url);
    var t := Url.ReadTarget(lib, url).value;
    FirstMatchTold(lib, t.host, allowlist);
    var ip := lib.parseIp(t.host);
    if ip.Some? {
      ClassTold(lib, ip.value);
      if Alias(t.host) {
        NoAddressText(lib, t.host);
      }
    }
  }
}
