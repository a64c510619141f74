/** Hosts, addresses and networks, over an `ipaddress` library known only by its contract. */
module Addresses {
  import opened Wrappers

  // ---------------------------------------------------------------- strings

  function LowerChar(c: char): char {
    if 'A' <= c <= 'Z' then c - 'A' + 'a' else c
  }

  function Lower(s: string): (r: string)
    ensures |r| == |s|
    ensures forall i | 0 <= i < |s| :: r[i] == LowerChar(s[i])
  {
    if s == [] then [] else [LowerChar(s[0])] + Lower(s[1..])
  }

  /** `s.strip(chars)`: what is left after dropping leading and trailing characters of a set. */
  function Strip(s: string, chars: string): (r: string)
    ensures |r| <= |s| && (|r| == |s| ==> r == s)
    ensures r != [] ==> r[0] !in chars && r[|r| - 1] !in chars
    ensures s == [] || (s[0] !in chars && s[|s| - 1] !in chars) ==> r == s
    ensures forall c | c !in chars :: c in r <==> c in s
    decreases |s|
  {
    if s == [] then []
    else if s[0] in chars then
      assert s == [s[0]] + s[1..];
      Strip(s[1..], chars)
    else if s[|s| - 1] in chars then
      assert s == s[..|s| - 1] + [s[|s| - 1]];
      Strip(s[..|s| - 1], chars)
    else s
  }

  const SPACES := " \t\n\r\U{0B}\U{0C}\U{1C}\U{1D}\U{1E}\U{1F}"
  const BRACKETS := "[]"

  function Trim(s: string): string {
    Strip(s, SPACES)
  }

  function Unbracket(s: string): string {
    Strip(s, BRACKETS)
  }

  function NormaliseHost(host: string): string {
    Lower(Unbracket(Trim(host)))
  }

  // ---------------------------------------------------------------- the address library

  type Word32 = n: nat | n < 0x1_0000_0000
  type Word128 = n: nat | n < 0x1_0000_0000_0000_0000_0000_0000_0000_0000

  datatype Ip = V4(v4: Word32) | V6(v6: Word128)
  {
    function Value(): nat {
      if V4? then v4 else v6
    }

    function Bits(): nat {
      if V4? then 32 else 128
    }
  }

  /** A network: the addresses that share the first `prefix` bits of `base`. */
  datatype Net = Net(base: Ip, prefix: nat)

  /** The `is_*` properties of an address. */
  datatype Traits = Traits(unspecified: bool, loopback: bool, linkLocal: bool, multicast: bool,
                           reserved: bool, private_: bool, global_: bool)

  datatype Library = Library(
    parseIp: string -> Option<Ip>,        // ip_address
    parseNet: string -> Option<Net>,      // ip_network, strict=False
    show: Ip -> string,                   // str
    traits: Ip -> Traits,
    embedded: Ip -> Option<Ip>,           // ipv4_mapped, sixtofour or the teredo client
    isPrivateNet: Net -> bool)

  function Pow2(n: nat): nat
    ensures Pow2(n) > 0
  {
    if n == 0 then 1 else 2 * Pow2(n - 1)
  }

  predicate InNet(ip: Ip, net: Net) {
    && ip.V4? == net.base.V4?
    && net.prefix <= ip.Bits()
    && ip.Value() / Pow2(ip.Bits() - net.prefix) == net.base.Value() / Pow2(ip.Bits() - net.prefix)
  }

  /** How many addresses a network holds. */
  function Size(net: Net): nat
    requires net.prefix <= net.base.Bits()
  {
    Pow2(net.base.Bits() - net.prefix)
  }

  /** The base of a network has no bits set beyond the prefix. */
  predicate Masked(net: Net) {
    net.prefix <= net.base.Bits() && net.base.Value() % Size(net) == 0
  }

  /** The network of a single address. */
  function HostNet(ip: Ip): Net {
    Net(ip, ip.Bits())
  }

  lemma HostNetHoldsOneAddress(ip: Ip, other: Ip)
    ensures InNet(other, HostNet(ip)) <==> other == ip
  {
    assert Pow2(0) == 1;
  }

  /** What the proofs use of the library: an address prints as lower-case text that reads back as itself
      and needs no trimming; the text of an address has at most 45 characters, all of them hexadecimal
      digits, dots and colons, with a colon exactly in IPv6 text, and letter case does not matter; a
      network written without a slash is a single address; a network has no bits set beyond its prefix.
      Texts with a zone id are left open. */
  ghost predicate Sound(lib: Library) {
    && (forall ip :: ShowSound(lib, ip))
    && (forall s :: TextSound(lib, s))
    && (forall s :: NetSound(lib, s))
  }

  predicate AddressChar(c: char) {
    Digit(c) || 'a' <= c <= 'f' || 'A' <= c <= 'F' || c == '.' || c == ':'
  }

  ghost predicate ShowSound(lib: Library, ip: Ip) {
    var text := lib.show(ip);
    && lib.parseIp(text) == Some(ip) && '%' !in text
    && Trim(text) == text && Unbracket(text) == text && Lower(text) == text
  }

  ghost predicate NetSound(lib: Library, s: string) {
    lib.parseNet(s).Some? ==> Masked(lib.parseNet(s).value)
  }

  ghost predicate TextSound(lib: Library, s: string) {
    && ('%' !in s && lib.parseIp(s).Some? ==>
          && 1 <= |s| <= 45 && (forall i | 0 <= i < |s| :: AddressChar(s[i]))
          && (':' in s <==> lib.parseIp(s).value.V6?)
          && lib.parseIp(Lower(s)) == lib.parseIp(s))
    && ('%' !in s && '/' !in s ==>
          lib.parseNet(s) == match lib.parseIp(s) case None => None case Some(ip) => Some(HostNet(ip)))
  }

  // ---------------------------------------------------------------- classes

  datatype AddressClass = Public | Loopback | Private | LinkLocal | Multicast | Reserved | Unspecified

  predicate NeverExempt(c: AddressClass) {
    c.Multicast? || c.Reserved? || c.Unspecified?
  }

  function ClassOfTraits(t: Traits): AddressClass {
    if t.unspecified then Unspecified
    else if t.loopback then Loopback
    else if t.linkLocal then LinkLocal
    else if t.multicast then Multicast
    else if t.reserved then Reserved
    else if t.private_ then Private
    else if t.global_ then Public
    else Reserved
  }

  /** An IPv4 address embedded in an IPv6 one decides the class unless it is public. */
  function Classify(lib: Library, ip: Ip): AddressClass {
    var inner := if ip.V6? && lib.embedded(ip).Some?
                 then ClassOfTraits(lib.traits(lib.embedded(ip).value)) else Public;
    if inner != Public then inner else ClassOfTraits(lib.traits(ip))
  }

  // ---------------------------------------------------------------- refusals

  datatype Refusal =
    | UrlInvalid(rule: string)
    | NotAllowlisted
    | EgressRefused(rule: string)
    | SplitError  // urlsplit's own ValueError, which the check does not catch

  /** The address a host literal denotes, if any; a zone id is refused. */
  function LiteralIp(lib: Library, host: string): Result<Option<Ip>, Refusal> {
    if '%' in host then Failure(UrlInvalid("host")) else Success(lib.parseIp(host))
  }

  // ---------------------------------------------------------------- host names

  predicate Digit(c: char) {
    '0' <= c <= '9'
  }

  predicate AllDigits(s: string) {
    s != "" && forall i | 0 <= i < |s| :: Digit(s[i])
  }

  predicate NameChar(c: char) {
    'a' <= c <= 'z' || Digit(c)
  }

  /** One DNS label: up to 63 letters, digits and inner hyphens. */
  predicate Label(s: string) {
    && 1 <= |s| <= 63
    && NameChar(s[0]) && NameChar(s[|s| - 1])
    && forall i | 0 <= i < |s| :: NameChar(s[i]) || s[i] == '-'
  }

  /** `s.split(".")`. */
  function Labels(s: string): (labels: seq<string>)
    ensures labels != []
  {
    if s == [] then [""]
    else
      var rest := Labels(s[1..]);
      if s[0] == '.' then [""] + rest else [[s[0]] + rest[0]] + rest[1..]
  }

  predicate ValidHostname(host: string) {
    var labels := Labels(host);
    && 1 <= |host| <= 253
    && host[|host| - 1] != '.'
    && !AllDigits(labels[|labels| - 1])
    && forall i | 0 <= i < |labels| :: Label(labels[i])
  }

  /** A valid host name is made of lower-case letters, digits, hyphens and dots. */
  lemma {:induction false} LabelsCover(s: string, i: nat)
    requires i < |s|
    requires forall k | 0 <= k < |Labels(s)| :: forall j | 0 <= j < |Labels(s)[k]| ::
               NameChar(Labels(s)[k][j]) || Labels(s)[k][j] == '-'
    ensures NameChar(s[i]) || s[i] == '-' || s[i] == '.'
  {
    var rest := Labels(s[1..]);
    if s[0] != '.' {
      assert Labels(s)[0][0] == s[0];
    }
    if i > 0 {
      forall k, j | 0 <= k < |rest| && 0 <= j < |rest[k]| ensures NameChar(rest[k][j]) || rest[k][j] == '-' {
        if s[0] == '.' {
          assert Labels(s)[k + 1] == rest[k];
        } else if k == 0 {
          assert Labels(s)[0][j + 1] == rest[0][j];
        } else {
          assert Labels(s)[k] == rest[k];
        }
      }
      LabelsCover(s[1..], i - 1);
    }
  }
}
