/** The static check of a registration URL and the normal form it returns.

    The splitting is `urllib.parse.urlsplit` as Python 3.14 has it, on the printable ASCII strings
    that get past the first checks (URI syntax: section 3 of RFC 3986). */
module Url {
  import opened Wrappers
  import opened Addresses
  import opened Allowlist
  import Decimals

  const MAX_URL_LENGTH := 2048

  function DefaultPort(scheme: string): nat {
    if scheme == "https" then 443 else 80
  }

  // ---------------------------------------------------------------- splitting

  /** Position of the first character of `s` in `chars`, or |s|. */
  function IndexOf(s: string, chars: string): (i: nat)
    ensures i <= |s|
    ensures forall j | 0 <= j < i :: s[j] !in chars
    ensures i < |s| ==> s[i] in chars
  {
    if s == [] || s[0] in chars then 0 else 1 + IndexOf(s[1..], chars)
  }

  /** What stands before and after the first occurrence of a character of `chars`. */
  function Head(s: string, chars: string): string {
    s[..IndexOf(s, chars)]
  }

  function Tail(s: string, chars: string): string {
    var i := IndexOf(s, chars);
    if i < |s| then s[i + 1..] else ""
  }

  lemma Cut(a: string, c: char, b: string, chars: string)
    requires c in chars
    requires forall i | 0 <= i < |a| :: a[i] !in chars
    ensures IndexOf(a + [c] + b, chars) == |a|
    ensures Head(a + [c] + b, chars) == a && Tail(a + [c] + b, chars) == b
  {
    var s := a + [c] + b;
    assert s[|a|] == c;
    assert forall j | 0 <= j < |a| :: s[j] == a[j];
    assert s[..|a|] == a && s[|a| + 1..] == b;
  }

  lemma NoCut(a: string, chars: string)
    requires forall i | 0 <= i < |a| :: a[i] !in chars
    ensures IndexOf(a, chars) == |a| && Head(a, chars) == a && Tail(a, chars) == ""
  {
  }

  predicate Alpha(c: char) {
    'a' <= c <= 'z' || 'A' <= c <= 'Z'
  }

  predicate SchemeChar(c: char) {
    Alpha(c) || Digit(c) || c == '+' || c == '-' || c == '.'
  }

  datatype Parts = Parts(scheme: string, netloc: string, path: string)

  /** The scheme and what follows its colon; no scheme when the text before the colon is not one. */
  function SplitScheme(url: string): (string, string) {
    var i := IndexOf(url, ":");
    if 0 < i < |url| && Alpha(url[0]) && forall j | 0 <= j < i :: SchemeChar(url[j])
    then (Lower(url[..i]), url[i + 1..]) else ("", url)
  }

  /** `v` hex digits, a dot, and something. */
  predicate FutureHost(s: string) {
    var dot := IndexOf(s, ".");
    && 2 <= dot < |s| - 1
    && forall i | 1 <= i < dot :: Digit(s[i]) || 'a' <= s[i] <= 'f' || 'A' <= s[i] <= 'F'
  }

  function AfterAt(netloc: string): string
    decreases |netloc|
  {
    if '@' in netloc && IndexOf(netloc, "@") < |netloc| then AfterAt(Tail(netloc, "@")) else netloc
  }

  /** What brackets may hold, and what may stand around them. */
  predicate BracketsOk(lib: Library, netloc: string) {
    var hostPort := AfterAt(netloc);
    var bracketed := Tail(hostPort, "[");
    var host := if '[' in hostPort then Head(bracketed, "]") else Head(hostPort, ":");
    var after := Tail(bracketed, "]");
    && ('[' in hostPort ==> hostPort[0] == '[' && (after == "" || after[0] == ':'))
    && (if host != "" && host[0] == 'v' then FutureHost(host)
        else lib.parseIp(host).Some? && lib.parseIp(host).value.V6?)
  }

  /** The network location and the path after `//`. */
  function SplitPath(rest: string): (string, string) {
    var i := IndexOf(rest, "/?#");
    (rest[..i], rest[i..])
  }

  /** `urlsplit`, for a URL without query and fragment. */
  function Split(lib: Library, url: string): Result<Parts, Refusal> {
    var (scheme, rest) := SplitScheme(url);
    if |rest| >= 2 && rest[..2] == "//" then
      var (netloc, path) := SplitPath(rest[2..]);
      if ('[' in netloc) != (']' in netloc) then Failure(SplitError)
      else if '[' in netloc && !BracketsOk(lib, netloc) then Failure(SplitError)
      else Success(Parts(scheme, netloc, path))
    else Success(Parts(scheme, "", rest))
  }

  /** The host and port texts of a network location. */
  function HostPort(netloc: string): (string, string) {
    var hostPort := AfterAt(netloc);
    if '[' in hostPort then
      var bracketed := Tail(hostPort, "[");
      (Head(bracketed, "]"), Tail(Tail(bracketed, "]"), ":"))
    else (Head(hostPort, ":"), Tail(hostPort, ":"))
  }

  /** `parts.hostname`: lower-case, a zone id excepted. */
  function Hostname(netloc: string): string {
    var host := HostPort(netloc).0;
    Lower(Head(host, "%")) + host[IndexOf(host, "%")..]
  }

  /** `parts.port`, or None where it raises. */
  function PortOf(netloc: string, default_: nat): Option<nat> {
    var text := HostPort(netloc).1;
    if text == "" then Some(default_)
    else if AllDigits(text) && Decimals.Parse(text) <= 65535 then Some(Decimals.Parse(text))
    else None
  }

  // ---------------------------------------------------------------- the check

  /** What the check reads off a URL before it consults the policy. */
  datatype Target = Target(scheme: string, host: string, port: nat, path: string)

  predicate Printable(s: string) {
    forall i | 0 <= i < |s| :: '!' <= s[i] <= '~'
  }

  predicate PlainUrl(url: string) {
    0 < |url| <= MAX_URL_LENGTH && Printable(url)
  }

  /** The checks on the parts of a URL, given the host and the port of its network location. */
  function TargetOf(lib: Library, url: string, parts: Parts, host: string, port: Option<nat>): Result<Target, Refusal> {
    if parts.scheme != "https" && parts.scheme != "http" then Failure(UrlInvalid("scheme"))
    else if '@' in parts.netloc then Failure(UrlInvalid("userinfo"))
    else if '?' in url then Failure(UrlInvalid("query"))
    else if '#' in url then Failure(UrlInvalid("fragment"))
    else if host == "" then Failure(UrlInvalid("host"))
    else if port.None? || port.value < 1 then Failure(UrlInvalid("port"))
    else
      match LiteralIp(lib, host)
      case Failure(e) => Failure(e)
      case Success(ip) =>
        if ip.None? && !ValidHostname(host) then Failure(UrlInvalid("host"))
        else Success(Target(parts.scheme, host, port.value, if parts.path == "" then "/" else parts.path))
  }

  function ReadTarget(lib: Library, url: string): Result<Target, Refusal> {
    if !PlainUrl(url) then Failure(UrlInvalid("url"))
    else
      match Split(lib, url)
      case Failure(e) => Failure(e)
      case Success(parts) =>
        TargetOf(lib, url, parts, Hostname(parts.netloc), PortOf(parts.netloc, DefaultPort(parts.scheme)))
  }

  datatype ParsedEndpoint = ParsedEndpoint(
    url: string, scheme: string, host: string, port: nat, path: string, literalIp: bool,
    addressClass: Option<AddressClass>, allowlistEntry: string, plaintext: bool, plaintextLoopback: bool)

  function HostText(lib: Library, host: string): string {
    if lib.parseIp(host).Some? && lib.parseIp(host).value.V6? then "[" + host + "]" else host
  }

  function PortText(scheme: string, port: nat): string {
    if port == DefaultPort(scheme) then "" else ":" + Decimals.Print(port)
  }

  /** The normal form of a URL. */
  function Render(lib: Library, t: Target): string {
    t.scheme + "://" + (HostText(lib, t.host) + PortText(t.scheme, t.port)) + t.path
  }

  /** Rules a, c and d on what the URL names. */
  function Judge(lib: Library, allowlist: seq<string>, t: Target): Result<ParsedEndpoint, Refusal> {
    match AllowlistMatch(lib, t.host, allowlist)
    case Failure(e) => Failure(e)
    case Success(None) => Failure(NotAllowlisted)
    case Success(Some((entry, _))) =>
      var ip := lib.parseIp(t.host);
      var class_ := if ip.Some? then Some(Classify(lib, ip.value)) else None;
      if ip.Some? && !class_.value.Public? && !AddressExempt(lib, ip.value, class_.value, t.host, allowlist) then
        Failure(EgressRefused("address_class"))
      else
        var loopback := LoopbackName(t.host) || class_ == Some(Loopback);
        var plaintext := t.scheme == "http";
        if plaintext && !loopback && class_ != Some(Private) && class_ != Some(LinkLocal) then
          Failure(UrlInvalid("plaintext"))
        else
          Success(ParsedEndpoint(Render(lib, t), t.scheme, t.host, t.port, t.path, ip.Some?, class_, entry,
                                 plaintext, plaintext && loopback))
  }

  /** Rules a to d on the URL alone. */
  function CheckRegistrationUrl(lib: Library, allowlist: seq<string>, url: string): Result<ParsedEndpoint, Refusal> {
    match ReadTarget(lib, url)
    case Failure(e) => Failure(e)
    case Success(t) => Judge(lib, allowlist, t)
  }

  // ---------------------------------------------------------------- what an accepted URL looks like

  /** Characters that keep their place in the host part of a URL. */
  predicate HostChar(c: char) {
    '!' <= c <= '~' && c != '/' && c != '?' && c != '#' && c != '@' && c != '%' && c != '[' && c != ']'
  }

  ghost predicate PlainTarget(lib: Library, t: Target) {
    && (t.scheme == "https" || t.scheme == "http")
    && 1 <= t.port <= 65535
    && t.host != "" && Lower(t.host) == t.host
    && (forall i | 0 <= i < |t.host| :: HostChar(t.host[i]))
    && (if lib.parseIp(t.host).Some? then (lib.parseIp(t.host).value.V6? <==> ':' in t.host)
        else ':' !in t.host && ValidHostname(t.host))
    && t.path != "" && t.path[0] == '/' && Printable(t.path) && '?' !in t.path && '#' !in t.path
    && |Render(lib, t)| <= MAX_URL_LENGTH
  }

  lemma AfterAtIsIdentity(s: string)
    requires '@' !in s
    ensures AfterAt(s) == s
  {
  }

  /** The text after a host: nothing, or a colon and a port. */
  ghost predicate PortSuffix(suffix: string, digits: string) {
    && (forall i | 0 <= i < |digits| :: Digit(digits[i]))
    && ((suffix == "" && digits == "") || suffix == ":" + digits)
  }

  lemma SuffixTail(suffix: string, digits: string)
    requires PortSuffix(suffix, digits)
    ensures Tail(suffix, ":") == digits
    ensures forall i | 0 <= i < |suffix| :: suffix[i] == ':' || Digit(suffix[i])
    ensures suffix == "" || suffix[0] == ':'
  {
    if suffix != "" {
      assert suffix == "" + [':'] + digits;
      Cut("", ':', digits, ":");
    } else {
      NoCut(suffix, ":");
    }
  }

  lemma BracketedReadsBack(host: string, suffix: string, digits: string)
    requires PortSuffix(suffix, digits)
    requires forall i | 0 <= i < |host| :: HostChar(host[i])
    ensures var netloc := "[" + host + "]" + suffix;
            && '@' !in netloc && '[' in netloc && ']' in netloc
            && AfterAt(netloc) == netloc
            && netloc[0] == '['
            && Head(Tail(netloc, "["), "]") == host
            && Tail(Tail(netloc, "["), "]") == suffix
            && HostPort(netloc) == (host, digits)
  {
    var netloc := "[" + host + "]" + suffix;
    SuffixTail(suffix, digits);
    assert netloc == "" + ['['] + (host + [']'] + suffix);
    assert netloc[0] == '[' && netloc[|host| + 1] == ']';
    assert '@' !in netloc;
    AfterAtIsIdentity(netloc);
    Cut("", '[', host + [']'] + suffix, "[");
    Cut(host, ']', suffix, "]");
  }

  lemma PlainReadsBack(host: string, suffix: string, digits: string)
    requires PortSuffix(suffix, digits)
    requires forall i | 0 <= i < |host| :: HostChar(host[i]) && host[i] != ':'
    ensures var netloc := host + suffix;
            && '@' !in netloc && '[' !in netloc && ']' !in netloc
            && HostPort(netloc) == (host, digits)
  {
    var netloc := host + suffix;
    SuffixTail(suffix, digits);
    assert forall i | 0 <= i < |netloc| :: netloc[i] == ':' || HostChar(netloc[i]);
    assert '@' !in netloc && '[' !in netloc && ']' !in netloc;
    AfterAtIsIdentity(netloc);
    if suffix != "" {
      assert netloc == host + [':'] + digits;
      Cut(host, ':', digits, ":");
    } else {
      assert netloc == host;
      NoCut(host, ":");
    }
  }

  function PortDigits(t: Target): string {
    if t.port == DefaultPort(t.scheme) then "" else Decimals.Print(t.port)
  }

  function Netloc(lib: Library, t: Target): string {
    HostText(lib, t.host) + PortText(t.scheme, t.port)
  }

  /** Delimiters of the host part keep out of it. */
  predicate NetlocChar(c: char) {
    '!' <= c <= '~' && c != '/' && c != '?' && c != '#'
  }

  ghost predicate ReadsBack(lib: Library, netloc: string, host: string, digits: string) {
    && HostPort(netloc) == (host, digits)
    && ('[' in netloc <==> ']' in netloc)
    && ('[' in netloc ==> BracketsOk(lib, netloc))
    && '@' !in netloc
    && (forall i | 0 <= i < |netloc| :: NetlocChar(netloc[i]))
  }

  lemma BracketedChars(host: string, suffix: string)
    requires forall i | 0 <= i < |host| :: HostChar(host[i])
    requires forall i | 0 <= i < |suffix| :: suffix[i] == ':' || Digit(suffix[i])
    ensures var netloc := "[" + host + "]" + suffix; forall i | 0 <= i < |netloc| :: NetlocChar(netloc[i])
  {
  }

  lemma BracketedNetloc(lib: Library, host: string, suffix: string, digits: string)
    requires PortSuffix(suffix, digits)
    requires forall i | 0 <= i < |host| :: HostChar(host[i])
    requires host != "" && host[0] != 'v' && lib.parseIp(host).Some? && lib.parseIp(host).value.V6?
    ensures ReadsBack(lib, "[" + host + "]" + suffix, host, digits)
  {
    var netloc := "[" + host + "]" + suffix;
    SuffixTail(suffix, digits);
    BracketedReadsBack(host, suffix, digits);
    BracketedChars(host, suffix);
  }

  lemma PlainNetloc(lib: Library, host: string, suffix: string, digits: string)
    requires PortSuffix(suffix, digits)
    requires forall i | 0 <= i < |host| :: HostChar(host[i]) && host[i] != ':'
    ensures ReadsBack(lib, host + suffix, host, digits)
  {
    SuffixTail(suffix, digits);
    PlainReadsBack(host, suffix, digits);
  }

  /** The network location of a normal form reads back as the host and the port. */
  lemma NetlocReadsBack(lib: Library, t: Target)
    requires Sound(lib) && PlainTarget(lib, t)
    ensures ReadsBack(lib, Netloc(lib, t), t.host, PortDigits(t))
  {
    var digits, suffix := PortDigits(t), PortText(t.scheme, t.port);
    assert TextSound(lib, t.host);
    if lib.parseIp(t.host).Some? && lib.parseIp(t.host).value.V6? {
      assert AddressChar(t.host[0]);
      BracketedNetloc(lib, t.host, suffix, digits);
    } else {
      assert forall i | 0 <= i < |t.host| :: t.host[i] != ':';
      PlainNetloc(lib, t.host, suffix, digits);
    }
  }

  // ---------------------------------------------------------------- the normal form is a fixed point

  lemma SchemeReadsBack(scheme: string, rest: string)
    requires Lower(scheme) == "https" || Lower(scheme) == "http"
    ensures SplitScheme(scheme + "://" + rest) == (Lower(scheme), "//" + rest)
  {
    assert scheme + "://" + rest == scheme + [':'] + ("//" + rest);
    WebSchemeIsAlpha(scheme);
    SplitsAtColon(scheme, "//" + rest);
  }

  lemma SplitsAtColon(scheme: string, rest: string)
    requires scheme != "" && forall i | 0 <= i < |scheme| :: Alpha(scheme[i]) && scheme[i] != ':'
    ensures SplitScheme(scheme + [':'] + rest) == (Lower(scheme), rest)
  {
    var url := scheme + [':'] + rest;
    Cut(scheme, ':', rest, ":");
    assert forall i | 0 <= i < |scheme| :: url[i] == scheme[i];
    assert url[..|scheme|] == scheme && url[|scheme| + 1..] == rest;
  }

  lemma WebSchemeIsAlpha(scheme: string)
    requires Lower(scheme) == "https" || Lower(scheme) == "http"
    ensures scheme != "" && forall i | 0 <= i < |scheme| :: Alpha(scheme[i]) && scheme[i] != ':'
  {
    WebLetters(Lower(scheme));
    forall i | 0 <= i < |scheme| ensures Alpha(scheme[i]) && scheme[i] != ':' {
      assert Lower(scheme)[i] == LowerChar(scheme[i]);
    }
  }

  lemma WebLetters(s: string)
    requires s == "https" || s == "http"
    ensures s != "" && forall i | 0 <= i < |s| :: 'a' <= s[i] <= 'z'
  {
  }

  lemma PathReadsBack(netloc: string, path: string)
    requires forall i | 0 <= i < |netloc| :: NetlocChar(netloc[i])
    requires path == "" || path[0] == '/'
    ensures SplitPath(netloc + path) == (netloc, path)
  {
    if path == "" {
      assert netloc + path == netloc;
      NoCut(netloc, "/?#");
    } else {
      assert netloc + path == netloc + [path[0]] + path[1..];
      Cut(netloc, path[0], path[1..], "/?#");
    }
    assert (netloc + path)[|netloc|..] == path;
  }

  lemma SplitReadsBack(lib: Library, scheme: string, netloc: string, path: string)
    requires Lower(scheme) == "https" || Lower(scheme) == "http"
    requires forall i | 0 <= i < |netloc| :: NetlocChar(netloc[i])
    requires path == "" || path[0] == '/'
    requires ('[' in netloc <==> ']' in netloc) && ('[' in netloc ==> BracketsOk(lib, netloc))
    ensures Split(lib, scheme + "://" + netloc + path) == Success(Parts(Lower(scheme), netloc, path))
  {
    SchemeReadsBack(scheme, netloc + path);
    assert scheme + "://" + netloc + path == scheme + "://" + (netloc + path);
    var rest := "//" + (netloc + path);
    assert rest[..2] == "//" && rest[2..] == netloc + path;
    PathReadsBack(netloc, path);
  }

  lemma HostnameReadsBack(lib: Library, t: Target)
    requires Sound(lib) && PlainTarget(lib, t)
    ensures Hostname(Netloc(lib, t)) == t.host
    ensures PortOf(Netloc(lib, t), DefaultPort(t.scheme)) == Some(t.port)
  {
    NetlocReadsBack(lib, t);
    assert forall i | 0 <= i < |t.host| :: HostChar(t.host[i]);
    HostReads(Netloc(lib, t), t.host);
    Decimals.ParsePrint(t.port);
    PortReads(Netloc(lib, t), PortDigits(t), DefaultPort(t.scheme), t.port);
  }

  lemma HostReads(netloc: string, host: string)
    requires HostPort(netloc).0 == host && Lower(host) == host && '%' !in host
    ensures Hostname(netloc) == host
  {
    NoCut(host, "%");
    assert host[..|host|] == host && host[|host|..] == "";
    assert host + "" == host;
  }

  lemma PortReads(netloc: string, digits: string, default_: nat, port: nat)
    requires HostPort(netloc).1 == digits && port <= 65535
    requires if digits == "" then port == default_ else AllDigits(digits) && Decimals.Parse(digits) == port
    ensures PortOf(netloc, default_) == Some(port)
  {
  }

  /** A normal form splits into the pieces it was rendered from. */
  lemma RenderSplits(lib: Library, t: Target)
    requires Sound(lib) && PlainTarget(lib, t)
    ensures Split(lib, Render(lib, t)) == Success(Parts(t.scheme, Netloc(lib, t), t.path))
    ensures '@' !in Netloc(lib, t)
    ensures Printable(Render(lib, t)) && '?' !in Render(lib, t) && '#' !in Render(lib, t)
  {
    NetlocReadsBack(lib, t);
    WebIsLower(t.scheme);
    SplitReadsBack(lib, t.scheme, Netloc(lib, t), t.path);
    RenderChars(t.scheme, Netloc(lib, t), t.path);
  }

  lemma WebIsLower(scheme: string)
    requires scheme == "https" || scheme == "http"
    ensures Lower(scheme) == scheme
  {
  }

  /** Reading a normal form gives back the target it was rendered from. */
  lemma RenderReadsBack(lib: Library, t: Target)
    requires Sound(lib) && PlainTarget(lib, t)
    ensures ReadTarget(lib, Render(lib, t)) == Success(t)
  {
    RenderSplits(lib, t);
    HostnameReadsBack(lib, t);
    TargetReadsBack(lib, t, Render(lib, t), Netloc(lib, t));
  }

  lemma TargetReadsBack(lib: Library, t: Target, url: string, netloc: string)
    requires PlainTarget(lib, t)
    requires PlainUrl(url) && '?' !in url && '#' !in url && '@' !in netloc
    requires Split(lib, url) == Success(Parts(t.scheme, netloc, t.path))
    requires Hostname(netloc) == t.host && PortOf(netloc, DefaultPort(t.scheme)) == Some(t.port)
    ensures ReadTarget(lib, url) == Success(t)
  {
    PlainTargetPasses(lib, t, url, netloc);
  }

  lemma PlainTargetPasses(lib: Library, t: Target, url: string, netloc: string)
    requires PlainTarget(lib, t) && '?' !in url && '#' !in url && '@' !in netloc
    ensures TargetOf(lib, url, Parts(t.scheme, netloc, t.path), t.host, Some(t.port)) == Success(t)
  {
    assert forall i | 0 <= i < |t.host| :: HostChar(t.host[i]);
    assert '%' !in t.host;
  }

  lemma RenderChars(scheme: string, netloc: string, path: string)
    requires scheme == "https" || scheme == "http"
    requires forall i | 0 <= i < |netloc| :: NetlocChar(netloc[i])
    requires Printable(path) && '?' !in path && '#' !in path
    ensures var url := scheme + "://" + netloc + path; Printable(url) && '?' !in url && '#' !in url
  {
    var front := scheme + "://";
    var url := front + netloc + path;
    forall i | 0 <= i < |url| ensures '!' <= url[i] <= '~' && url[i] != '?' && url[i] != '#' {
      if i < |front| {
        assert url[i] == front[i];
      } else if i < |front + netloc| {
        assert url[i] == netloc[i - |front|];
      } else {
        assert url[i] == path[i - |front + netloc|] && path[i - |front + netloc|] in path;
      }
    }
  }

  // ---------------------------------------------------------------- every accepted URL has a plain target

  /** A host that is an address or a valid name needs no quoting in a URL. */
  lemma HostIsPlain(lib: Library, host: string)
    requires Sound(lib) && '%' !in host
    requires lib.parseIp(host).Some? || ValidHostname(host)
    ensures forall i | 0 <= i < |host| :: HostChar(host[i])
    ensures lib.parseIp(host).Some? ==> (lib.parseIp(host).value.V6? <==> ':' in host)
    ensures lib.parseIp(host).None? ==> ':' !in host
    ensures |HostText(lib, host)| <= 253
  {
    assert TextSound(lib, host);
    forall i | 0 <= i < |host|
      ensures HostChar(host[i]) && (lib.parseIp(host).None? ==> host[i] != ':')
    {
      if lib.parseIp(host).Some? {
        assert AddressChar(host[i]);
      } else {
        forall k, j | 0 <= k < |Labels(host)| && 0 <= j < |Labels(host)[k]|
          ensures NameChar(Labels(host)[k][j]) || Labels(host)[k][j] == '-'
        {
          assert Label(Labels(host)[k]);
        }
        LabelsCover(host, i);
      }
    }
  }

  /** A successful split takes the URL apart without loss. */
  lemma SplitIsExact(lib: Library, url: string)
    requires Split(lib, url).Success?
    requires Split(lib, url).value.netloc != ""
    requires '?' !in url && '#' !in url
    ensures var p := Split(lib, url).value;
            && (p.scheme == "" || |url| == |p.scheme| + 3 + |p.netloc| + |p.path|)
            && (p.path == "" || p.path[0] == '/')
            && (forall i | 0 <= i < |p.path| :: p.path[i] in url)
            && ('[' in p.netloc <==> ']' in p.netloc) && ('[' in p.netloc ==> BracketsOk(lib, p.netloc))
  {
    var (scheme, rest) := SplitScheme(url);
    var k := IndexOf(rest[2..], "/?#");
    assert forall i | 0 <= i < |rest| :: rest[i] == url[|url| - |rest| + i];
    assert forall i | 0 <= i < |rest[2..]| :: rest[2..][i] in url;
  }

  /** The texts of host and port fit into the network location they were read from. */
  lemma HostPortFits(lib: Library, netloc: string)
    requires '@' !in netloc
    requires ('[' in netloc <==> ']' in netloc) && ('[' in netloc ==> BracketsOk(lib, netloc))
    ensures var (host, text) := HostPort(netloc);
            && |host| + (if text == "" then 0 else 1 + |text|) + (if '[' in netloc then 2 else 0) <= |netloc|
            && ('[' !in netloc ==> ':' !in host)
  {
    AfterAtIsIdentity(netloc);
    if '[' in netloc {
      var bracketed := Tail(netloc, "[");
      assert netloc[0] == '[';
      assert bracketed == netloc[1..];
      var i :| 0 <= i < |netloc| && netloc[i] == ']';
      assert bracketed[i - 1] == ']';
      var close := IndexOf(bracketed, "]");
      assert |bracketed| == close + 1 + |Tail(bracketed, "]")|;
    }
  }

  lemma PortTextFits(netloc: string, scheme: string)
    requires PortOf(netloc, DefaultPort(scheme)).Some?
    ensures var text, port := HostPort(netloc).1, PortOf(netloc, DefaultPort(scheme)).value;
            |PortText(scheme, port)| <= if text == "" then 0 else 1 + |text|
  {
    var text := HostPort(netloc).1;
    if text != "" {
      Decimals.PrintIsShortest(text);
    }
  }

  /** What the guards of an accepting read say. */
  lemma GuardsPassed(lib: Library, url: string, p: Parts, host: string, port: Option<nat>)
    requires TargetOf(lib, url, p, host, port).Success?
    ensures '?' !in url && '#' !in url && '@' !in p.netloc && host != "" && '%' !in host
    ensures var t := TargetOf(lib, url, p, host, port).value;
            && t.scheme == p.scheme && (t.scheme == "https" || t.scheme == "http")
            && t.host == host && port == Some(t.port) && t.port >= 1
            && (lib.parseIp(host).Some? || ValidHostname(host))
            && t.path == if p.path == "" then "/" else p.path
  {
  }

  lemma AcceptedGuards(lib: Library, url: string) returns (p: Parts)
    requires ReadTarget(lib, url).Success?
    ensures PlainUrl(url) && Split(lib, url) == Success(p)
    ensures ReadTarget(lib, url) == TargetOf(lib, url, p, Hostname(p.netloc), PortOf(p.netloc, DefaultPort(p.scheme)))
  {
    p := Split(lib, url).value;
  }

  lemma NormalFormFits(lib: Library, t: Target, netloc: string, path: string, length: nat)
    requires t.scheme == "https" || t.scheme == "http"
    requires length == |t.scheme| + 3 + |netloc| + |path| && length <= MAX_URL_LENGTH
    requires |HostText(lib, t.host)| <= 253 && t.port <= 65535
    requires |HostText(lib, t.host)| + |PortText(t.scheme, t.port)| <= |netloc|
    requires t.path == if path == "" then "/" else path
    ensures |Render(lib, t)| <= MAX_URL_LENGTH
  {
    Decimals.PortIsShort(t.port);
  }

  lemma HostTextFits(lib: Library, netloc: string, host: string)
    requires '@' !in netloc
    requires ('[' in netloc <==> ']' in netloc) && ('[' in netloc ==> BracketsOk(lib, netloc))
    requires host == Lower(HostPort(netloc).0)
    requires lib.parseIp(host).Some? && lib.parseIp(host).value.V6? ==> ':' in host
    ensures var text := HostPort(netloc).1;
            |HostText(lib, host)| + (if text == "" then 0 else 1 + |text|) <= |netloc|
  {
    HostPortFits(lib, netloc);
    LowerKeeps(HostPort(netloc).0, ':');
  }

  /** Reading a URL that is accepted yields a target whose normal form is within the length cap. */
  lemma AcceptedIsPlain(lib: Library, url: string)
    requires Sound(lib) && ReadTarget(lib, url).Success?
    ensures PlainTarget(lib, ReadTarget(lib, url).value)
  {
    var p := AcceptedGuards(lib, url);
    var t := ReadTarget(lib, url).value;
    GuardsPassed(lib, url, p, Hostname(p.netloc), PortOf(p.netloc, DefaultPort(p.scheme)));
    HostComesFromNetloc(lib, p.netloc, t.host);
    SplitIsExact(lib, url);
    HostIsPlain(lib, t.host);
    HostTextFits(lib, p.netloc, t.host);
    PortTextFits(p.netloc, t.scheme);
    NormalFormFits(lib, t, p.netloc, p.path, |url|);
    PathIsPlain(url, p.path, t.path);
  }

  lemma PathIsPlain(url: string, rest: string, path: string)
    requires Printable(url) && '?' !in url && '#' !in url
    requires forall i | 0 <= i < |rest| :: rest[i] in url
    requires rest == "" || rest[0] == '/'
    requires path == if rest == "" then "/" else rest
    ensures path != "" && path[0] == '/' && Printable(path) && '?' !in path && '#' !in path
  {
  }

  lemma PercentStays(raw: string)
    requires '%' in raw
    ensures '%' in Lower(Head(raw, "%")) + raw[IndexOf(raw, "%")..]
  {
    var j :| 0 <= j < |raw| && raw[j] == '%';
    assert raw[IndexOf(raw, "%")..][0] == '%';
  }

  lemma HostComesFromNetloc(lib: Library, netloc: string, host: string)
    requires Hostname(netloc) == host && '%' !in host && host != ""
    ensures netloc != ""
    ensures host == Lower(HostPort(netloc).0) && Lower(host) == host
  {
    var raw := HostPort(netloc).0;
    if '%' in raw {
      PercentStays(raw);
    }
    NothingToCut(raw);
    LowerTwice(raw);
    if netloc == "" {
      AfterAtIsIdentity(netloc);
    }
  }

  lemma NothingToCut(raw: string)
    requires '%' !in raw
    ensures Lower(Head(raw, "%")) + raw[IndexOf(raw, "%")..] == Lower(raw)
  {
    NoCut(raw, "%");
    assert raw[|raw|..] == "";
    assert Lower(raw) + "" == Lower(raw);
  }

  lemma LowerTwice(s: string)
    ensures Lower(Lower(s)) == Lower(s)
  {
  }

  lemma CheckIsJudgement(lib: Library, allowlist: seq<string>, url: string)
    ensures CheckRegistrationUrl(lib, allowlist, url) ==
            match ReadTarget(lib, url)
            case Failure(e) => Failure(e)
            case Success(t) => Judge(lib, allowlist, t)
  {
  }

  /** What a favourable judgement promises about its target. */
  lemma JudgementPermits(lib: Library, allowlist: seq<string>, t: Target)
    requires Judge(lib, allowlist, t).Success?
    ensures var e := Judge(lib, allowlist, t).value;
            && e.url == Render(lib, t) && e.scheme == t.scheme && e.host == t.host && e.port == t.port
            && AllowlistMatch(lib, e.host, allowlist).Success?
            && AllowlistMatch(lib, e.host, allowlist).value.Some?
            && (e.literalIp <==> e.addressClass.Some?)
            && (e.literalIp ==> e.addressClass.value.Public? || !NeverExempt(e.addressClass.value))
            && (e.plaintext <==> e.scheme == "http")
            && (e.plaintext ==>
                  LoopbackName(e.host) || e.addressClass in {Some(Loopback), Some(Private), Some(LinkLocal)})
  {
  }

  /** Normalisation is a fixed point: whenever a URL is accepted, its normal form is accepted too
      and gives the same endpoint. */
  lemma NormalFormIsFixed(lib: Library, allowlist: seq<string>, url: string)
    requires Sound(lib)
    requires CheckRegistrationUrl(lib, allowlist, url).Success?
    ensures var endpoint := CheckRegistrationUrl(lib, allowlist, url).value;
            CheckRegistrationUrl(lib, allowlist, endpoint.url) == Success(endpoint)
  {
    CheckIsJudgement(lib, allowlist, url);
    var t := ReadTarget(lib, url).value;
    AcceptedIsPlain(lib, url);
    RenderReadsBack(lib, t);
    JudgementPermits(lib, allowlist, t);
    CheckIsJudgement(lib, allowlist, Render(lib, t));
  }

  /** What acceptance promises: the host is on the allowlist, the normal form is short, a literal
      address is of a class that can be permitted, and plaintext goes only to this machine or to a
      private or link-local literal. */
  lemma AcceptedIsPermitted(lib: Library, allowlist: seq<string>, url: string)
    requires Sound(lib)
    requires CheckRegistrationUrl(lib, allowlist, url).Success?
    ensures var e := CheckRegistrationUrl(lib, allowlist, url).value;
            && AllowlistMatch(lib, e.host, allowlist).Success?
            && AllowlistMatch(lib, e.host, allowlist).value.Some?
            && (e.scheme == "https" || e.scheme == "http") && 1 <= e.port <= 65535 && |e.url| <= MAX_URL_LENGTH
            && (e.literalIp ==> e.addressClass.Some? && !NeverExempt(e.addressClass.value))
            && (e.scheme == "http" ==>
                  LoopbackName(e.host) || e.addressClass in {Some(Loopback), Some(Private), Some(LinkLocal)})
  {
    CheckIsJudgement(lib, allowlist, url);
    AcceptedIsPlain(lib, url);
    PlainIsPermitted(lib, allowlist, ReadTarget(lib, url).value);
  }

  lemma PlainIsPermitted(lib: Library, allowlist: seq<string>, t: Target)
    requires PlainTarget(lib, t) && Judge(lib, allowlist, t).Success?
    ensures var e := Judge(lib, allowlist, t).value;
            && AllowlistMatch(lib, e.host, allowlist).Success?
            && AllowlistMatch(lib, e.host, allowlist).value.Some?
            && (e.scheme == "https" || e.scheme == "http") && 1 <= e.port <= 65535 && |e.url| <= MAX_URL_LENGTH
            && (e.literalIp ==> e.addressClass.Some? && !NeverExempt(e.addressClass.value))
            && (e.scheme == "http" ==>
                  LoopbackName(e.host) || e.addressClass in {Some(Loopback), Some(Private), Some(LinkLocal)})
  {
    JudgementPermits(lib, allowlist, t);
  }
}
