/** The contract on the address library can be met: a library that writes an address as a dot or a
    colon and a decimal number meets it, so nothing proved from the contract holds for want of a library. */
module SoundLibrary {
  import opened Wrappers
  import opened Addresses
  import Decimals

  /** The longest text of an address. */
  const MAX_TEXT := 45

  function ParseIp(s: string): Option<Ip> {
    if 2 <= |s| <= MAX_TEXT && AllDigits(s[1..]) then
      var n := Decimals.Parse(s[1..]);
      if s[0] == '.' && n < 0x1_0000_0000 then Some(V4(n))
      else if s[0] == ':' && n < 0x1_0000_0000_0000_0000_0000_0000_0000_0000 then Some(V6(n))
      else None
    else None
  }

  function ParseNet(s: string): Option<Net> {
    match ParseIp(s)
    case None => None
    case Some(ip) => Some(HostNet(ip))
  }

  function Show(ip: Ip): string {
    (if ip.V4? then "." else ":") + Decimals.Print(ip.Value())
  }

  const PLAIN := Library(
    s => ParseIp(s), s => ParseNet(s), ip => Show(ip),
    _ => Traits(false, false, false, false, false, false, true), _ => None, _ => false)

  function Pow10(k: nat): nat {
    if k == 0 then 1 else 10 * Pow10(k - 1)
  }

  lemma PowersOfTen()
    ensures Pow10(39) > 0x1_0000_0000_0000_0000_0000_0000_0000_0000
  {
    assert Pow10(3) == 1000;
    assert Pow10(6) == 1000000;
    assert Pow10(9) == 1000000000;
    assert Pow10(12) == 1000000000000;
    assert Pow10(15) == 1000000000000000;
    assert Pow10(18) == 1000000000000000000;
    assert Pow10(21) == 1000000000000000000000;
    assert Pow10(24) == 1000000000000000000000000;
    assert Pow10(27) == 1000000000000000000000000000;
    assert Pow10(30) == 1000000000000000000000000000000;
    assert Pow10(33) == 1000000000000000000000000000000000;
    assert Pow10(36) == 1000000000000000000000000000000000000;
    assert Pow10(39) == 1000000000000000000000000000000000000000;
  }

  lemma {:induction false} PrintFits(n: nat, k: nat)
    requires k >= 1 && n < Pow10(k)
    ensures |Decimals.Print(n)| <= k
  {
    if n >= 10 {
      PrintFits(n / 10, k - 1);
    }
  }

  lemma ShowReadsBack(ip: Ip)
    ensures ShowSound(PLAIN, ip)
  {
    ShowParses(ip);
    NeedsNoTrimming(if ip.V4? then "." else ":", Decimals.Print(ip.Value()));
  }

  lemma ShowParses(ip: Ip)
    ensures ParseIp(Show(ip)) == Some(ip)
  {
    PowersOfTen();
    PrintFits(ip.Value(), 39);
    Decimals.ParsePrint(ip.Value());
    assert Show(ip)[1..] == Decimals.Print(ip.Value());
  }

  lemma NeedsNoTrimming(front: string, digits: string)
    requires (front == "." || front == ":") && AllDigits(digits)
    ensures Trim(front + digits) == front + digits && Unbracket(front + digits) == front + digits
    ensures Lower(front + digits) == front + digits && '%' !in front + digits
  {
    var text := front + digits;
    assert text[0] == front[0] && text[|text| - 1] == digits[|digits| - 1];
    Kept(front[0]);
    Kept(digits[|digits| - 1]);
  }

  lemma Kept(c: char)
    requires Digit(c) || c == '.' || c == ':'
    ensures c !in SPACES && c !in BRACKETS
  {
  }

  lemma TextReadsBack(s: string)
    ensures TextSound(PLAIN, s)
  {
    if ParseIp(s).Some? {
      assert forall i | 1 <= i < |s| :: s[i] == s[1..][i - 1];
      assert Lower(s) == s;
    }
  }

  lemma PlainIsSound()
    ensures Sound(PLAIN)
  {
    forall ip ensures ShowSound(PLAIN, ip) {
      ShowReadsBack(ip);
    }
    forall s ensures TextSound(PLAIN, s) {
      TextReadsBack(s);
    }
    forall s ensures NetSound(PLAIN, s) {
    }
  }
}
