/** Which texts the registration check reads, told as a grammar: how a scheme, a host, a port and a path may
    be spelled (URI syntax: section 3 of RFC 3986). */
module UrlGrammar {
  import opened Wrappers
  import opened Addresses
  import opened Allowlist
  import opened Url
  import Decimals

  /** The pieces of a URL as they are written; the port with its colon, or nothing. */
  datatype Spelling = Spelling(scheme: string, bracketed: bool, host: string, port: string, path: string)

  function NetText(s: Spelling): string {
    (if s.bracketed then "[" + s.host + "]" else s.host) + s.port
  }

  function Text(s: Spelling): string {
    s.scheme + "://" + NetText(s) + s.path
  }

  predicate Hex(c: char) {
    '0' <= c <= '9' || 'a' <= c <= 'f' || 'A' <= c <= 'F'
  }

  /** `v`, hexadecimal digits, a dot, and something more. */
  predicate FutureText(s: string) {
    exists k | 2 <= k < |s| - 1 :: s[0] == 'v' && s[k] == '.' && forall i | 1 <= i < k :: Hex(s[i])
  }

  /** The host is in brackets and IPv6 (or of a future kind), or it is not and holds no colon; letter case
      aside it is an address without a zone, or a valid name. */
  predicate SpellsHost(lib: Library, bracketed: bool, text: string, host: string) {
    && Lower(text) == host && host != "" && '%' !in text
    && (if bracketed
        then FutureText(text) || (text[0] != 'v' && lib.parseIp(text).Some? && lib.parseIp(text).value.V6?)
        else ':' !in text)
    && (lib.parseIp(host).Some? || ValidHostname(host))
  }

  /** No port or just a colon means the scheme's own; otherwise a decimal number up to 65535. */
  predicate SpellsPort(text: string, scheme: string, port: nat) {
    if text == "" || text == ":" then port == (if scheme == "https" then 443 else 80)
    else text[0] == ':' && AllDigits(text[1..]) && Decimals.Parse(text[1..]) == port && 1 <= port <= 65535
  }

  predicate Spells(lib: Library, s: Spelling, t: Target) {
    && Lower(s.scheme) == t.scheme && (t.scheme == "https" || t.scheme == "http")
    && SpellsHost(lib, s.bracketed, s.host, t.host)
    && SpellsPort(s.port, t.scheme, t.port)
    && (if s.path == "" then t.path == "/" else s.path[0] == '/' && t.path == s.path)
  }

  /** At most 2048 printable ASCII characters, without a query or a fragment. */
  predicate Admissible(url: string) {
    PrintableText(url) && '?' !in url && '#' !in url
  }

  predicate PrintableText(url: string) {
    1 <= |url| <= 2048 && forall i | 0 <= i < |url| :: '!' <= url[i] <= '~'
  }

  // ---------------------------------------------------------------- what is spelled right is read

  lemma FutureIff(s: string)
    ensures FutureText(s) <==> s != "" && s[0] == 'v' && FutureHost(s)
  {
    var dot := IndexOf(s, ".");
    if FutureText(s) {
      var k :| 2 <= k < |s| - 1 && s[0] == 'v' && s[k] == '.' && forall i | 1 <= i < k :: Hex(s[i]);
      assert dot == k;
    }
    if s != "" && s[0] == 'v' && FutureHost(s) {
      assert s[dot] == '.';
    }
  }

  lemma HostCharsStand(text: string, host: string)
    requires Lower(text) == host && forall i | 0 <= i < |host| :: HostChar(host[i])
    ensures forall i | 0 <= i < |text| :: HostChar(text[i])
  {
    forall i | 0 <= i < |text| ensures HostChar(text[i]) {
      assert HostChar(host[i]) && host[i] == LowerChar(text[i]);
    }
  }

  function PortDigits(text: string): string {
    if text == "" then "" else text[1..]
  }

  lemma PortSuffixes(text: string, scheme: string, port: nat)
    requires SpellsPort(text, scheme, port)
    ensures PortSuffix(text, PortDigits(text))
  {
    if text != "" {
      assert text == ":" + text[1..];
    }
  }

  lemma NetTextReadsBack(lib: Library, s: Spelling, t: Target)
    requires Sound(lib) && Spells(lib, s, t)
    ensures ReadsBack(lib, NetText(s), s.host, PortDigits(s.port))
  {
    SpelledHostIsPlain(lib, s.bracketed, s.host, t.host);
    PortSuffixes(s.port, t.scheme, t.port);
    if s.bracketed {
      SpelledInBrackets(lib, s.host, s.port, PortDigits(s.port));
    } else {
      PlainNetloc(lib, s.host, s.port, PortDigits(s.port));
    }
  }

  lemma SpelledHostIsPlain(lib: Library, bracketed: bool, text: string, host: string)
    requires Sound(lib) && SpellsHost(lib, bracketed, text, host)
    ensures forall i | 0 <= i < |text| :: HostChar(text[i])
    ensures if bracketed then BracketedHost(lib, text) else forall i | 0 <= i < |text| :: text[i] != ':'
  {
    LowerKeeps(text, '%');
    HostIsPlain(lib, host);
    HostCharsStand(text, host);
    FutureIff(text);
  }

  lemma SpelledInBrackets(lib: Library, host: string, suffix: string, digits: string)
    requires PortSuffix(suffix, digits) && BracketedHost(lib, host)
    requires forall i | 0 <= i < |host| :: HostChar(host[i])
    ensures ReadsBack(lib, "[" + host + "]" + suffix, host, digits)
  {
    BracketedReadsBack(host, suffix, digits);
    BracketsHold(lib, "[" + host + "]" + suffix, host, suffix);
    PortSuffixChars(suffix, digits);
    BracketedChars(host, suffix);
  }

  lemma PortSuffixChars(suffix: string, digits: string)
    requires PortSuffix(suffix, digits)
    ensures forall i | 0 <= i < |suffix| :: suffix[i] == ':' || Digit(suffix[i])
  {
  }

  lemma BracketsHold(lib: Library, netloc: string, host: string, suffix: string)
    requires AfterAt(netloc) == netloc && '[' in netloc && netloc[0] == '['
    requires Head(Tail(netloc, "["), "]") == host && Tail(Tail(netloc, "["), "]") == suffix
    requires (suffix == "" || suffix[0] == ':') && BracketedHost(lib, host)
    ensures BracketsOk(lib, netloc)
  {
  }

  lemma HostAndPortRead(lib: Library, s: Spelling, t: Target)
    requires Sound(lib) && Spells(lib, s, t)
    ensures Hostname(NetText(s)) == t.host
    ensures PortOf(NetText(s), DefaultPort(t.scheme)) == Some(t.port)
  {
    NetTextReadsBack(lib, s, t);
    NoCut(s.host, "%");
  }

  lemma TextSplits(lib: Library, s: Spelling, t: Target)
    requires Sound(lib) && Spells(lib, s, t)
    ensures Split(lib, Text(s)) == Success(Parts(t.scheme, NetText(s), s.path))
    ensures '@' !in NetText(s)
  {
    NetTextReadsBack(lib, s, t);
    SplitReadsBack(lib, s.scheme, NetText(s), s.path);
  }

  /** The other guards let a target through whose parts are right. */
  lemma GuardsPass(lib: Library, url: string, p: Parts, t: Target)
    requires t.scheme == p.scheme && (t.scheme == "https" || t.scheme == "http")
    requires '@' !in p.netloc && '?' !in url && '#' !in url
    requires t.host != "" && '%' !in t.host && t.port >= 1 && (lib.parseIp(t.host).Some? || ValidHostname(t.host))
    requires t.path == if p.path == "" then "/" else p.path
    ensures TargetOf(lib, url, p, t.host, Some(t.port)) == Success(t)
  {
  }

  lemma PartsRead(lib: Library, url: string, p: Parts, t: Target)
    requires Admissible(url) && Split(lib, url) == Success(p)
    requires Hostname(p.netloc) == t.host && PortOf(p.netloc, DefaultPort(p.scheme)) == Some(t.port)
    requires TargetOf(lib, url, p, t.host, Some(t.port)) == Success(t)
    ensures ReadTarget(lib, url) == Success(t)
  {
  }

  lemma SpelledIsRead(lib: Library, s: Spelling, t: Target)
    requires Sound(lib) && Admissible(Text(s)) && Spells(lib, s, t)
    ensures ReadTarget(lib, Text(s)) == Success(t)
  {
    var p := Parts(t.scheme, NetText(s), s.path);
    TextSplits(lib, s, t);
    HostAndPortRead(lib, s, t);
    LowerKeeps(s.host, '%');
    GuardsPass(lib, Text(s), p, t);
    PartsRead(lib, Text(s), p, t);
  }

  // ---------------------------------------------------------------- what is read is spelled right

  /** Where a character of the set stands first, the text falls into two parts around it. */
  lemma CutsAt(s: string, chars: string)
    ensures IndexOf(s, chars) < |s| ==> s == Head(s, chars) + [s[IndexOf(s, chars)]] + Tail(s, chars)
    ensures IndexOf(s, chars) == |s| ==> s == Head(s, chars) && Tail(s, chars) == ""
    ensures forall i | 0 <= i < |Head(s, chars)| :: Head(s, chars)[i] !in chars
  {
  }

  lemma SchemeTakesApart(url: string) returns (scheme: string)
    requires SplitScheme(url).0 != ""
    ensures url == scheme + ":" + SplitScheme(url).1 && Lower(scheme) == SplitScheme(url).0
  {
    scheme := url[..IndexOf(url, ":")];
    CutsAt(url, ":");
  }

  lemma RestTakesApart(lib: Library, url: string)
    requires Split(lib, url).Success? && Split(lib, url).value.netloc != ""
    ensures var p, rest := Split(lib, url).value, SplitScheme(url).1;
            && SplitScheme(url).0 == p.scheme && |rest| >= 2 && rest[..2] == "//" && rest[2..] == p.netloc + p.path
            && ('[' in p.netloc <==> ']' in p.netloc) && ('[' in p.netloc ==> BracketsOk(lib, p.netloc))
            && (p.path == "" || p.path[0] in "/?#")
  {
    var rest := SplitScheme(url).1;
    var i := IndexOf(rest[2..], "/?#");
    assert rest[2..] == rest[2..][..i] + rest[2..][i..];
  }

  /** The scheme, the network location and the path make up the URL they were split from. */
  lemma SplitTakesApart(lib: Library, url: string) returns (scheme: string)
    requires Split(lib, url).Success? && Split(lib, url).value.netloc != "" && Split(lib, url).value.scheme != ""
    requires '?' !in url && '#' !in url
    ensures var p := Split(lib, url).value;
            && url == scheme + "://" + p.netloc + p.path && Lower(scheme) == p.scheme
            && (p.path == "" || p.path[0] == '/')
  {
    RestTakesApart(lib, url);
    scheme := SchemeTakesApart(url);
    Joined(url, scheme, SplitScheme(url).1, Split(lib, url).value.netloc, Split(lib, url).value.path);
  }

  lemma Joined(url: string, scheme: string, rest: string, netloc: string, path: string)
    requires url == scheme + ":" + rest && |rest| >= 2 && rest[..2] == "//" && rest[2..] == netloc + path
    requires '?' !in url && '#' !in url && (path == "" || path[0] in "/?#")
    ensures url == scheme + "://" + netloc + path && (path == "" || path[0] == '/')
  {
    assert rest == "//" + netloc + path;
    if path != "" {
      assert url[|scheme| + 3 + |netloc|] == path[0];
    }
  }

  /** The pieces of a network location: host, brackets and port. */
  lemma NetlocTakesApart(lib: Library, netloc: string) returns (s: Spelling)
    requires '@' !in netloc && netloc != ""
    requires ('[' in netloc <==> ']' in netloc) && ('[' in netloc ==> BracketsOk(lib, netloc))
    ensures NetText(s) == netloc && HostPort(netloc) == (s.host, PortDigits(s.port))
    ensures s.port == "" || s.port[0] == ':'
    ensures s.bracketed <==> '[' in netloc
    ensures !s.bracketed ==> ':' !in s.host
    ensures s.bracketed ==> BracketedHost(lib, s.host)
  {
    AfterAtIsIdentity(netloc);
    if '[' in netloc {
      s := BracketedApart(lib, netloc);
    } else {
      CutsAt(netloc, ":");
      var i := IndexOf(netloc, ":");
      s := Spelling("", false, netloc[..i], netloc[i..], "");
    }
  }

  predicate BracketedHost(lib: Library, host: string) {
    if host != "" && host[0] == 'v' then FutureHost(host) else lib.parseIp(host).Some? && lib.parseIp(host).value.V6?
  }

  lemma BracketsTold(lib: Library, netloc: string)
    requires AfterAt(netloc) == netloc && '[' in netloc && BracketsOk(lib, netloc)
    ensures var bracketed := Tail(netloc, "[");
            && netloc[0] == '[' && bracketed == netloc[1..] && BracketedHost(lib, Head(bracketed, "]"))
            && (Tail(bracketed, "]") == "" || Tail(bracketed, "]")[0] == ':')
            && HostPort(netloc) == (Head(bracketed, "]"), Tail(Tail(bracketed, "]"), ":"))
  {
  }

  lemma BracketedApart(lib: Library, netloc: string) returns (s: Spelling)
    requires AfterAt(netloc) == netloc && '[' in netloc && ']' in netloc && BracketsOk(lib, netloc)
    ensures s.bracketed && NetText(s) == netloc && HostPort(netloc) == (s.host, PortDigits(s.port))
    ensures s.port == "" || s.port[0] == ':'
    ensures BracketedHost(lib, s.host)
  {
    BracketsTold(lib, netloc);
    var bracketed := Tail(netloc, "[");
    s := Spelling("", true, Head(bracketed, "]"), Tail(bracketed, "]"), "");
    ClosedText(netloc, bracketed);
    if s.port != "" {
      Cut("", ':', s.port[1..], ":");
      assert s.port == "" + [':'] + s.port[1..];
    }
  }

  lemma ClosedText(netloc: string, bracketed: string)
    requires netloc != "" && netloc[0] == '[' && bracketed == netloc[1..] && ']' in netloc
    ensures netloc == "[" + Head(bracketed, "]") + "]" + Tail(bracketed, "]")
  {
    var i :| 0 <= i < |netloc| && netloc[i] == ']';
    assert bracketed[i - 1] == ']';
    CutsAt(bracketed, "]");
  }

  predicate DigitsOf(text: string, default_: nat, port: nat) {
    if text == "" then port == default_ else AllDigits(text) && Decimals.Parse(text) == port && port <= 65535
  }

  lemma PortIsDigits(netloc: string, text: string, default_: nat, port: nat)
    requires HostPort(netloc).1 == text && PortOf(netloc, default_) == Some(port)
    ensures DigitsOf(text, default_, port)
  {
  }

  lemma PortIsSpelled(text: string, scheme: string, port: nat)
    requires DigitsOf(PortDigits(text), DefaultPort(scheme), port) && port >= 1 && (text == "" || text[0] == ':')
    ensures SpellsPort(text, scheme, port)
  {
    if text != "" {
      assert text == ":" + text[1..];
    }
  }

  lemma HostIsSpelled(lib: Library, n: Spelling, host: string)
    requires Lower(n.host) == host && host != "" && '%' !in host
    requires if n.bracketed then BracketedHost(lib, n.host) else ':' !in n.host
    requires lib.parseIp(host).Some? || ValidHostname(host)
    ensures SpellsHost(lib, n.bracketed, n.host, host)
  {
    LowerKeeps(n.host, '%');
    FutureIff(n.host);
  }

  lemma ReadIsSpelled(lib: Library, url: string, t: Target) returns (s: Spelling)
    requires Sound(lib) && ReadTarget(lib, url) == Success(t)
    ensures Admissible(url) && Text(s) == url && Spells(lib, s, t)
  {
    var p := AcceptedGuards(lib, url);
    GuardsPassed(lib, url, p, Hostname(p.netloc), PortOf(p.netloc, DefaultPort(p.scheme)));
    HostComesFromNetloc(lib, p.netloc, t.host);
    RestTakesApart(lib, url);
    var scheme := SplitTakesApart(lib, url);
    var n := NetlocTakesApart(lib, p.netloc);
    HostIsSpelled(lib, n, t.host);
    PortIsDigits(p.netloc, PortDigits(n.port), DefaultPort(p.scheme), t.port);
    PortIsSpelled(n.port, t.scheme, t.port);
    s := Spelling(scheme, n.bracketed, n.host, n.port, p.path);
    assert Text(s) == scheme + "://" + NetText(n) + p.path;
  }

  /** A URL is read as a target if and only if it is admissible and spells that target. */
  lemma ReadsIff(lib: Library, url: string, t: Target)
    requires Sound(lib)
    ensures ReadTarget(lib, url) == Success(t) <==>
            Admissible(url) && exists s :: Text(s) == url && Spells(lib, s, t)
  {
    if ReadTarget(lib, url) == Success(t) {
      var s := ReadIsSpelled(lib, url, t);
    }
    if Admissible(url) && exists s :: Text(s) == url && Spells(lib, s, t) {
      var s :| Text(s) == url && Spells(lib, s, t);
      SpelledIsRead(lib, s, t);
    }
  }

  /** Two targets are never spelled by one URL. */
  lemma OneTarget(lib: Library, s: Spelling, t: Target, s': Spelling, t': Target)
    requires Sound(lib) && Text(s) == Text(s') && Admissible(Text(s))
    requires Spells(lib, s, t) && Spells(lib, s', t')
    ensures t == t'
  {
    SpelledIsRead(lib, s, t);
    SpelledIsRead(lib, s', t');
  }

  /** A URL has a scheme exactly when it starts with a letter and goes on with letters, digits, "+", "-" and
      "." up to its first colon. */
  lemma SchemeTold(url: string)
    ensures SplitScheme(url).0 != "" <==>
            exists i :: SchemeEnds(url, i)
    ensures forall i: nat | SchemeEnds(url, i) :: SplitScheme(url) == (Lower(url[..i]), url[i + 1..])
    ensures SplitScheme(url).0 == "" ==> SplitScheme(url).1 == url
  {
    forall i: nat | SchemeEnds(url, i) ensures SplitScheme(url) == (Lower(url[..i]), url[i + 1..]) && url[..i] != "" {
      SchemeEndsAt(url, i);
    }
    if SplitScheme(url).0 != "" {
      assert SchemeEnds(url, IndexOf(url, ":"));
    }
  }

  lemma SchemeEndsAt(url: string, i: nat)
    requires SchemeEnds(url, i)
    ensures SplitScheme(url) == (Lower(url[..i]), url[i + 1..])
  {
    assert forall j | 0 <= j < i :: url[j] != ':';
    assert url == url[..i] + [':'] + url[i + 1..];
    Cut(url[..i], ':', url[i + 1..], ":");
  }

  predicate SchemeEnds(url: string, i: nat) {
    && 0 < i < |url| && url[i] == ':'
    && ('a' <= url[0] <= 'z' || 'A' <= url[0] <= 'Z')
    && forall j | 0 <= j < i ::
         'a' <= url[j] <= 'z' || 'A' <= url[j] <= 'Z' || '0' <= url[j] <= '9' || url[j] in "+-."
  }

  /** The rest from `k` on holds no "@", and one stands before it unless the rest is everything. */
  predicate AfterLastAt(netloc: string, rest: string, k: nat) {
    k <= |netloc| && rest == netloc[k..] && '@' !in rest && (k == 0 || netloc[k - 1] == '@')
  }

  /** Host and port are read after the last "@". */
  lemma {:induction false} AfterAtTold(netloc: string) returns (k: nat)
    ensures AfterLastAt(netloc, AfterAt(netloc), k)
    decreases |netloc|
  {
    if '@' in netloc {
      var i := FirstAt(netloc);
      var j := AfterAtTold(netloc[i + 1..]);
      k := LastAtShifts(netloc, i, AfterAt(netloc[i + 1..]), j);
    } else {
      AfterAtIsIdentity(netloc);
      k := 0;
    }
  }

  lemma LastAtShifts(netloc: string, i: nat, rest: string, j: nat) returns (k: nat)
    requires i < |netloc| && netloc[i] == '@' && AfterLastAt(netloc[i + 1..], rest, j)
    ensures AfterLastAt(netloc, rest, k)
  {
    k := i + 1 + j;
    assert netloc[i + 1..][j..] == netloc[k..];
  }

  lemma FirstAt(netloc: string) returns (i: nat)
    requires '@' in netloc
    ensures i < |netloc| && netloc[i] == '@' && AfterAt(netloc) == AfterAt(netloc[i + 1..])
  {
    i := FirstOfOne(netloc, '@', "@");
  }

  lemma FirstOfOne(s: string, c: char, chars: string) returns (i: nat)
    requires c in s && chars == [c]
    ensures i == IndexOf(s, chars) < |s| && s[i] == c && Tail(s, chars) == s[i + 1..]
  {
    i := IndexOf(s, chars);
    var m :| 0 <= m < |s| && s[m] == c;
    assert s[m] in chars;
  }

  /** The outcome of a read names the first rule that the parts break. */
  predicate RefusedInOrder(lib: Library, url: string, p: Parts, host: string, port: Option<nat>,
                           r: Result<Target, Refusal>)
  {
    if p.scheme != "https" && p.scheme != "http" then r == Failure(UrlInvalid("scheme"))
    else if '@' in p.netloc then r == Failure(UrlInvalid("userinfo"))
    else if '?' in url then r == Failure(UrlInvalid("query"))
    else if '#' in url then r == Failure(UrlInvalid("fragment"))
    else if host == "" then r == Failure(UrlInvalid("host"))
    else if port.None? || port == Some(0) then r == Failure(UrlInvalid("port"))
    else r.Failure? ==>
      r == Failure(UrlInvalid("host")) && ('%' in host || (lib.parseIp(host).None? && !ValidHostname(host)))
  }

  lemma ReadsParts(lib: Library, url: string, p: Parts, host: string, port: Option<nat>)
    requires PlainUrl(url) && Split(lib, url) == Success(p)
    requires host == Hostname(p.netloc) && port == PortOf(p.netloc, DefaultPort(p.scheme))
    ensures ReadTarget(lib, url) == TargetOf(lib, url, p, host, port)
  {
  }

  /** Which rule a refused URL is refused under: the first one it breaks, in this order. */
  lemma RefusalsTold(lib: Library, url: string, p: Parts, host: string, port: Option<nat>)
    requires PrintableText(url) && Split(lib, url) == Success(p)
    requires host == Hostname(p.netloc) && port == PortOf(p.netloc, DefaultPort(p.scheme))
    ensures RefusedInOrder(lib, url, p, host, port, ReadTarget(lib, url))
  {
    ReadsParts(lib, url, p, host, port);
    TargetRefusals(lib, url, p, host, port);
  }

  lemma TargetRefusals(lib: Library, url: string, p: Parts, host: string, port: Option<nat>)
    ensures RefusedInOrder(lib, url, p, host, port, TargetOf(lib, url, p, host, port))
  {
  }

  lemma ShapelessIsRefused(lib: Library, url: string)
    ensures !PrintableText(url) ==> ReadTarget(lib, url) == Failure(UrlInvalid("url"))
    ensures PrintableText(url) && Split(lib, url).Failure? ==> ReadTarget(lib, url) == Failure(SplitError)
  {
  }
}
