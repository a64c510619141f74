/** The two allowlist algorithms: the egress policy's match and the safety gate's simple loop. */
module Allowlist {
  import opened Wrappers
  import opened Addresses
  import Networks

  datatype Kind = HostEntry | IpEntry | CidrEntry

  function Tidy(raw: string): string {
    Lower(Trim(raw))
  }

  function EntryNetwork(lib: Library, entry: string): Option<Net> {
    if '/' in entry then lib.parseNet(entry) else None
  }

  /** How one entry admits a normalised host, if it does. */
  function MatchEntry(lib: Library, host: string, ip: Option<Ip>, raw: string): Option<Kind> {
    MatchTidy(lib, host, ip, Tidy(raw))
  }

  function MatchTidy(lib: Library, host: string, ip: Option<Ip>, entry: string): Option<Kind> {
    if entry == "" then None
    else if ip.Some? && lib.parseIp(Unbracket(entry)).Some? then
      if lib.parseIp(Unbracket(entry)) == ip then Some(IpEntry) else None
    else if ip.Some? && EntryNetwork(lib, entry).Some? then
      if InNet(ip.value, EntryNetwork(lib, entry).value) then Some(CidrEntry) else None
    else if Unbracket(entry) == host then Some(HostEntry)
    else None
  }

  function FirstMatch(lib: Library, host: string, ip: Option<Ip>, allowlist: seq<string>): Option<(string, Kind)> {
    if allowlist == [] then None
    else
      match MatchEntry(lib, host, ip, allowlist[0])
      case Some(kind) => Some((Tidy(allowlist[0]), kind))
      case None => FirstMatch(lib, host, ip, allowlist[1..])
  }

  /** The first entry admitting a host. */
  function AllowlistMatch(lib: Library, host: string, allowlist: seq<string>)
    : Result<Option<(string, Kind)>, Refusal>
  {
    var hostN := NormaliseHost(host);
    match LiteralIp(lib, hostN)
    case Failure(e) => Failure(e)
    case Success(ip) => Success(FirstMatch(lib, hostN, ip, allowlist))
  }

  /** The safety gate's test of one entry against an extracted host. */
  predicate Admits(lib: Library, host: string, allowed: string) {
    || host == allowed
    || (lib.parseIp(host).Some? && lib.parseNet(allowed).Some?
        && InNet(lib.parseIp(host).value, lib.parseNet(allowed).value))
  }

  predicate IsTargetAllowed(lib: Library, host: string, allowlist: seq<string>) {
    allowlist != [] && (Admits(lib, host, allowlist[0]) || IsTargetAllowed(lib, host, allowlist[1..]))
  }

  /** The form of an entry the simple loop understands. */
  function Canonical(raw: string): string {
    var entry := Tidy(raw);
    if '/' in entry then entry else Unbracket(entry)
  }

  predicate ZoneFree(allowlist: seq<string>) {
    forall i | 0 <= i < |allowlist| :: '%' !in allowlist[i]
  }

  /** A host as the gate extracts it: lower-case, without brackets, zone id or slash. */
  predicate PlainHost(host: string) {
    host != "" && NormaliseHost(host) == host && '%' !in host && '/' !in host
  }

  function Canonicals(allowlist: seq<string>): seq<string> {
    if allowlist == [] then [] else [Canonical(allowlist[0])] + Canonicals(allowlist[1..])
  }

  lemma LowerKeeps(s: string, c: char)
    requires !('a' <= c <= 'z') && !('A' <= c <= 'Z')
    ensures c in Lower(s) <==> c in s
  {
    if c in s {
      var i :| 0 <= i < |s| && s[i] == c;
      assert Lower(s)[i] == c;
    }
  }

  lemma BareText(lib: Library, raw: string)
    requires '%' !in raw
    ensures '%' !in Tidy(raw) && '%' !in Unbracket(Tidy(raw))
    ensures '/' in Unbracket(Tidy(raw)) <==> '/' in Tidy(raw)
  {
    LowerKeeps(Trim(raw), '%');
  }

  /** One entry: the policy admits exactly the hosts the gate admits for its canonical form. */
  lemma EntryAgrees(lib: Library, host: string, raw: string)
    requires Sound(lib) && PlainHost(host) && '%' !in raw
    ensures MatchEntry(lib, host, lib.parseIp(host), raw).Some? <==> Admits(lib, host, Canonical(raw))
  {
    BareText(lib, raw);
    var entry := Tidy(raw);
    var bare := Unbracket(entry);
    assert TextSound(lib, bare);
    if '/' in entry {
      assert lib.parseIp(bare).None? && host != bare && host != entry;
    } else {
      SingleAddressAgrees(lib, host, bare);
    }
  }

  lemma SingleAddressAgrees(lib: Library, host: string, bare: string)
    requires Sound(lib) && '%' !in bare && '/' !in bare
    ensures Admits(lib, host, bare) <==>
            if lib.parseIp(host).Some? && lib.parseIp(bare).Some? then lib.parseIp(host) == lib.parseIp(bare)
            else host == bare
  {
    assert TextSound(lib, bare);
    if lib.parseIp(bare).Some? && lib.parseIp(host).Some? {
      HostNetHoldsOneAddress(lib.parseIp(bare).value, lib.parseIp(host).value);
    }
  }

  /** The policy's match finds an entry exactly when the gate's loop accepts the host against the
      entries in canonical form. */
  lemma {:induction false} AllowlistsAgree(lib: Library, host: string, allowlist: seq<string>)
    requires Sound(lib) && PlainHost(host) && ZoneFree(allowlist)
    ensures AllowlistMatch(lib, host, allowlist).Success?
    ensures AllowlistMatch(lib, host, allowlist).value.Some? <==> IsTargetAllowed(lib, host, Canonicals(allowlist))
  {
    if allowlist != [] {
      EntryAgrees(lib, host, allowlist[0]);
      AllowlistsAgree(lib, host, allowlist[1..]);
      assert Canonicals(allowlist)[1..] == Canonicals(allowlist[1..]);
    }
  }

  // ---------------------------------------------------------------- entries as they are written

  /** The two algorithms decide alike about one host and one entry as it is written. */
  predicate AlikeFor(lib: Library, host: string, raw: string) {
    MatchEntry(lib, host, lib.parseIp(host), raw).Some? <==> Admits(lib, host, raw)
  }

  /** The entry reads alike to both: a network in the same way untidied and tidied; any other entry when
      it is tidy already, or an address, or when even its tidy form names no host. */
  predicate ReadsAlike(lib: Library, raw: string) {
    if '/' in raw then lib.parseNet(Canonical(raw)) == lib.parseNet(raw)
    else Canonical(raw) == raw || lib.parseIp(raw).Some? || !PlainHost(Canonical(raw))
  }

  lemma AddressCharIsPlain(c: char)
    requires AddressChar(c)
    ensures c !in SPACES && c !in BRACKETS && c != '/' && c != '%'
    ensures AddressChar(LowerChar(c))
  {
  }

  /** The text of an address needs no trimming and holds no slash. */
  lemma AddressTextIsPlain(lib: Library, s: string)
    requires Sound(lib) && '%' !in s && lib.parseIp(s).Some?
    ensures s != "" && Trim(s) == s && Unbracket(s) == s && '/' !in s
  {
    assert TextSound(lib, s);
    forall i | 0 <= i < |s| ensures s[i] !in SPACES && s[i] !in BRACKETS && s[i] != '/' {
      AddressCharIsPlain(s[i]);
    }
  }

  lemma TidyIsLower(raw: string)
    ensures Lower(Tidy(raw)) == Tidy(raw)
    ensures Lower(Canonical(raw)) == Canonical(raw)
  {
    var entry := Tidy(raw);
    assert forall i | 0 <= i < |entry| :: LowerChar(entry[i]) == entry[i];
    LowerStays(entry, Unbracket(entry));
  }

  lemma LowerStays(s: string, r: string)
    requires forall i | 0 <= i < |s| :: LowerChar(s[i]) == s[i]
    requires r == Unbracket(s)
    ensures Lower(r) == r
  {
    forall i | 0 <= i < |r| ensures LowerChar(r[i]) == r[i] {
      if r[i] !in BRACKETS {
        assert r[i] in s;
      }
    }
  }

  lemma SlashStays(raw: string)
    ensures '/' in Tidy(raw) <==> '/' in raw
    ensures '%' in Tidy(raw) <==> '%' in raw
    ensures '/' in Canonical(raw) <==> '/' in raw
    ensures '%' in Canonical(raw) <==> '%' in raw
  {
    LowerKeeps(Trim(raw), '/');
    LowerKeeps(Trim(raw), '%');
  }

  /** The text of an address, as a host. */
  lemma ShownIsPlainHost(lib: Library, ip: Ip)
    requires Sound(lib)
    ensures PlainHost(lib.show(ip)) && lib.parseIp(lib.show(ip)) == Some(ip)
  {
    assert ShowSound(lib, ip);
    AddressTextIsPlain(lib, lib.show(ip));
  }

  /** An entry with a slash admits the addresses of a network, or nothing. */
  lemma NetworkEntry(lib: Library, host: string, raw: string)
    requires Sound(lib) && PlainHost(host) && '%' !in raw && '/' in raw
    ensures MatchEntry(lib, host, lib.parseIp(host), raw).Some? <==> InSomeNet(lib, host, lib.parseNet(Canonical(raw)))
    ensures Admits(lib, host, raw) <==> InSomeNet(lib, host, lib.parseNet(raw))
  {
    SlashStays(raw);
    BareText(lib, raw);
    NotAnAddress(lib, Unbracket(Tidy(raw)));
    NetworkTidy(lib, host, Tidy(raw));
  }

  lemma NotAnAddress(lib: Library, s: string)
    requires Sound(lib) && '%' !in s && '/' in s
    ensures lib.parseIp(s).None?
  {
    if lib.parseIp(s).Some? {
      AddressTextIsPlain(lib, s);
    }
  }

  lemma NetworkTidy(lib: Library, host: string, entry: string)
    requires '/' in entry && '/' in Unbracket(entry) && '/' !in host && lib.parseIp(Unbracket(entry)).None?
    ensures MatchTidy(lib, host, lib.parseIp(host), entry).Some? <==> InSomeNet(lib, host, lib.parseNet(entry))
  {
  }

  predicate InSomeNet(lib: Library, host: string, net: Option<Net>) {
    lib.parseIp(host).Some? && net.Some? && InNet(lib.parseIp(host).value, net.value)
  }

  /** Two readings of a network that differ differ on some address. */
  lemma DifferentNets(lib: Library, a: Option<Net>, b: Option<Net>) returns (host: string)
    requires Sound(lib) && a != b
    requires (a.Some? ==> Masked(a.value)) && (b.Some? ==> Masked(b.value))
    ensures PlainHost(host) && InSomeNet(lib, host, a) != InSomeNet(lib, host, b)
  {
    var ip: Ip;
    if a.Some? && b.Some? {
      if Networks.SameMembers(a.value, b.value) {
        Networks.NetIsItsMembers(a.value, b.value);
      }
      ip :| InNet(ip, a.value) != InNet(ip, b.value);
    } else {
      ip := if a.Some? then a.value.base else b.value.base;
    }
    host := lib.show(ip);
    ShownIsPlainHost(lib, ip);
  }

  /** An entry without a slash admits the hosts of one name or one address. */
  lemma NameEntry(lib: Library, host: string, raw: string)
    requires Sound(lib) && PlainHost(host) && '%' !in raw && '/' !in raw
    ensures MatchEntry(lib, host, lib.parseIp(host), raw).Some? <==> Names(lib, host, Canonical(raw))
    ensures Admits(lib, host, raw) <==> Names(lib, host, raw)
  {
    EntryAgrees(lib, host, raw);
    SlashStays(raw);
    SingleAddressAgrees(lib, host, Canonical(raw));
    SingleAddressAgrees(lib, host, raw);
  }

  /** The host is the name, or both are the same address. */
  predicate Names(lib: Library, host: string, name: string) {
    if lib.parseIp(host).Some? && lib.parseIp(name).Some? then lib.parseIp(host) == lib.parseIp(name) else host == name
  }

  lemma NameReadsAlike(lib: Library, host: string, raw: string)
    requires Sound(lib) && PlainHost(host) && '%' !in raw && '/' !in raw && ReadsAlike(lib, raw)
    ensures Names(lib, host, Canonical(raw)) <==> Names(lib, host, raw)
  {
    SlashStays(raw);
    if Canonical(raw) == raw {
    } else if lib.parseIp(raw).Some? {
      AddressReadsAlike(lib, raw);
    } else {
      NamesNoHost(lib, host, raw);
    }
  }

  /** Tidying the text of an address does not change the address. */
  lemma AddressReadsAlike(lib: Library, raw: string)
    requires Sound(lib) && '%' !in raw && '/' !in raw && lib.parseIp(raw).Some?
    ensures lib.parseIp(Canonical(raw)) == lib.parseIp(raw)
  {
    AddressTextIsPlain(lib, raw);
    assert TextSound(lib, raw);
    LowerKeeps(raw, '%');
    LowerKeeps(raw, '/');
    AddressTextIsPlain(lib, Lower(raw));
  }

  /** An entry whose tidy form is no host, and that is no address, names no host in either form. */
  lemma NamesNoHost(lib: Library, host: string, raw: string)
    requires Sound(lib) && PlainHost(host) && '%' !in raw && '/' !in raw
    requires Canonical(raw) != raw && lib.parseIp(raw).None? && !PlainHost(Canonical(raw))
    ensures !Names(lib, host, Canonical(raw)) && !Names(lib, host, raw)
  {
    var bare := Canonical(raw);
    SlashStays(raw);
    TidyIsLower(raw);
    if lib.parseIp(bare).Some? {
      AddressTextIsPlain(lib, bare);
    }
    PlainHostIsCanonical(host);
  }

  lemma PlainHostIsCanonical(host: string)
    requires PlainHost(host)
    ensures Canonical(host) == host
  {
    var trimmed := Trim(host);
    var bare := Unbracket(trimmed);
    assert |bare| == |host|;
    assert trimmed == host && bare == host;
  }

  /** A host on which an entry that does not read alike parts the algorithms: its tidy form. */
  lemma NameReadsDifferently(lib: Library, raw: string)
    requires Sound(lib) && '%' !in raw && '/' !in raw && !ReadsAlike(lib, raw)
    ensures PlainHost(Canonical(raw))
    ensures Names(lib, Canonical(raw), Canonical(raw)) && !Names(lib, Canonical(raw), raw)
  {
  }

  /** The exact condition: the two algorithms decide alike about an entry for every host if and only if it
      reads alike. */
  lemma AlikeIff(lib: Library, raw: string)
    requires Sound(lib) && '%' !in raw
    ensures (forall host | PlainHost(host) :: AlikeFor(lib, host, raw)) <==> ReadsAlike(lib, raw)
  {
    if ReadsAlike(lib, raw) {
      forall host | PlainHost(host) ensures AlikeFor(lib, host, raw) {
        AlikeWhenReadAlike(lib, host, raw);
      }
    } else if '/' in raw {
      assert NetSound(lib, raw) && NetSound(lib, Canonical(raw));
      var host := DifferentNets(lib, lib.parseNet(Canonical(raw)), lib.parseNet(raw));
      NetworkEntry(lib, host, raw);
      assert !AlikeFor(lib, host, raw);
    } else {
      NameReadsDifferently(lib, raw);
      NameEntry(lib, Canonical(raw), raw);
      assert !AlikeFor(lib, Canonical(raw), raw);
    }
  }

  lemma AlikeWhenReadAlike(lib: Library, host: string, raw: string)
    requires Sound(lib) && '%' !in raw && PlainHost(host) && ReadsAlike(lib, raw)
    ensures AlikeFor(lib, host, raw)
  {
    if '/' in raw {
      NetworkEntry(lib, host, raw);
    } else {
      NameEntry(lib, host, raw);
      NameReadsAlike(lib, host, raw);
    }
  }

  /** On a list of entries that read alike, the two algorithms agree outright. */
  lemma {:induction false} AgreeOnAlikeEntries(lib: Library, host: string, allowlist: seq<string>)
    requires Sound(lib) && PlainHost(host) && ZoneFree(allowlist)
    requires forall i | 0 <= i < |allowlist| :: ReadsAlike(lib, allowlist[i])
    ensures AllowlistMatch(lib, host, allowlist).Success?
    ensures AllowlistMatch(lib, host, allowlist).value.Some? <==> IsTargetAllowed(lib, host, allowlist)
  {
    if allowlist != [] {
      AlikeWhenReadAlike(lib, host, allowlist[0]);
      AgreeOnAlikeEntries(lib, host, allowlist[1..]);
    }
  }

  /** An entry that parts them: the policy reads "H" as "h", the gate does not. */
  lemma UntidyEntriesDisagree(lib: Library)
    requires Sound(lib)
    ensures AllowlistMatch(lib, "h", ["H"]) == Success(Some(("h", HostEntry)))
    ensures !IsTargetAllowed(lib, "h", ["H"])
  {
    assert NormaliseHost("h") == "h" && Tidy("H") == "h" && Unbracket("h") == "h";
    assert TextSound(lib, "h") && !AddressChar("h"[0]);
  }

  /** Rule d, one entry: it names the address literally, or as a private network containing it, or
      it is the loopback alias the host was given by. */
  predicate Exempts(lib: Library, address: Ip, alias: bool, host: string, raw: string) {
    var entry := Tidy(raw);
    if entry == "" then false
    else if lib.parseIp(Unbracket(entry)).Some? then lib.parseIp(Unbracket(entry)) == Some(address)
    else if EntryNetwork(lib, entry).Some? then
      lib.isPrivateNet(EntryNetwork(lib, entry).value) && InNet(address, EntryNetwork(lib, entry).value)
    else alias && Unbracket(entry) == host
  }

  predicate LoopbackName(host: string) {
    host == "localhost" || host == "host.docker.internal"
  }

  /** Rule d's exemption. */
  predicate AddressExempt(lib: Library, address: Ip, c: AddressClass, host: string, allowlist: seq<string>) {
    && !NeverExempt(c)
    && exists i | 0 <= i < |allowlist| ::
         Exempts(lib, address, LoopbackName(host) && (c.Loopback? || c.Private?), host, allowlist[i])
  }
}
