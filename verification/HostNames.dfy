/** What the string functions under the egress rules compute: what trimming takes off a host, and which
    texts are host names. */
module HostNames {
  import opened Addresses

  ghost predicate Only(s: string, chars: string) {
    forall i | 0 <= i < |s| :: s[i] in chars
  }

  /** The middle of a text, when only characters of the set are left out on both sides. */
  ghost predicate Middle(s: string, chars: string, r: string, i: nat, j: nat) {
    i <= j <= |s| && r == s[i..j] && Only(s[..i], chars) && Only(s[j..], chars)
  }

  lemma FrontDropped(s: string, chars: string, r: string, i: nat, j: nat)
    requires s != [] && s[0] in chars && Middle(s[1..], chars, r, i, j)
    ensures Middle(s, chars, r, i + 1, j + 1)
  {
    assert s == [s[0]] + s[1..];
    assert s[..i + 1] == [s[0]] + s[1..][..i];
    assert s[j + 1..] == s[1..][j..];
  }

  lemma BackDropped(s: string, chars: string, r: string, i: nat, j: nat)
    requires s != [] && s[|s| - 1] in chars && Middle(s[..|s| - 1], chars, r, i, j)
    ensures Middle(s, chars, r, i, j)
  {
    var front := s[..|s| - 1];
    assert s == front + [s[|s| - 1]];
    assert s[..i] == front[..i];
    assert s[j..] == front[j..] + [s[|s| - 1]];
  }

  /** Stripping takes characters of the set off both ends, and nothing else. */
  lemma {:induction false} StripTold(s: string, chars: string) returns (i: nat, j: nat)
    ensures Middle(s, chars, Strip(s, chars), i, j)
    decreases |s|
  {
    var r := Strip(s, chars);
    if s == [] {
      i, j := 0, 0;
    } else if s[0] in chars {
      i, j := StripTold(s[1..], chars);
      FrontDropped(s, chars, r, i, j);
      i, j := i + 1, j + 1;
    } else if s[|s| - 1] in chars {
      i, j := StripTold(s[..|s| - 1], chars);
      BackDropped(s, chars, r, i, j);
    } else {
      i, j := 0, |s|;
    }
  }

  /** The characters below 128 that Python's `str.strip` takes for white space. */
  predicate IsSpace(c: char) {
    c == ' ' || '\t' <= c <= '\r' || '\U{1C}' <= c <= '\U{1F}'
  }

  ghost predicate AllSpace(s: string) {
    forall i | 0 <= i < |s| :: IsSpace(s[i])
  }

  ghost predicate AllBrackets(s: string) {
    forall i | 0 <= i < |s| :: s[i] == '[' || s[i] == ']'
  }

  lemma SpacesTold(c: char)
    ensures c in SPACES <==> IsSpace(c)
    ensures c in BRACKETS <==> c == '[' || c == ']'
  {
    assert SPACES[0] == ' ' && SPACES[1] == '\t' && SPACES[2] == '\n' && SPACES[3] == '\r';
    assert SPACES[4] == '\U{0B}' && SPACES[5] == '\U{0C}' && SPACES[6] == '\U{1C}';
    assert SPACES[7] == '\U{1D}' && SPACES[8] == '\U{1E}' && SPACES[9] == '\U{1F}';
    assert BRACKETS[0] == '[' && BRACKETS[1] == ']';
  }

  const UPPER := "ABCDEFGHIJKLMNOPQRSTUVWXYZ"
  const LOWER := "abcdefghijklmnopqrstuvwxyz"

  /** The k-th capital letter becomes the k-th small one, and no other character changes. */
  lemma LowerTold(k: nat, c: char)
    ensures |UPPER| == |LOWER| == 26
    ensures k < 26 ==> LowerChar(UPPER[k]) == LOWER[k]
    ensures c !in UPPER ==> LowerChar(c) == c
  {
    assert forall i | 0 <= i < 26 :: UPPER[i] == 'A' + i as char && LOWER[i] == 'a' + i as char;
    if 'A' <= c <= 'Z' {
      assert UPPER[(c - 'A') as int] == c;
    }
  }

  /** A host is normalised by taking white space off both ends, then brackets, then lowering its letters. */
  lemma NormaliseTold(host: string) returns (a: string, b: string, core: string, c: string, d: string)
    ensures host == a + (b + core + c) + d && NormaliseHost(host) == Lower(core)
    ensures AllSpace(a) && AllSpace(d)
    ensures AllBrackets(b) && AllBrackets(c)
    ensures core != "" ==> core[0] !in "[]" && core[|core| - 1] !in "[]"
    ensures var middle := b + core + c; middle != "" ==> !IsSpace(middle[0]) && !IsSpace(middle[|middle| - 1])
  {
    var middle;
    a, middle, d := TrimTold(host);
    b, core, c := UnbracketTold(middle);
  }

  lemma OnlySpaces(s: string)
    requires Only(s, SPACES)
    ensures AllSpace(s)
  {
    forall i | 0 <= i < |s| ensures IsSpace(s[i]) {
      SpacesTold(s[i]);
    }
  }

  lemma OnlyBrackets(s: string)
    requires Only(s, BRACKETS)
    ensures AllBrackets(s)
  {
    forall i | 0 <= i < |s| ensures s[i] == '[' || s[i] == ']' {
      SpacesTold(s[i]);
    }
  }

  lemma StripParts(s: string, chars: string) returns (a: string, core: string, d: string)
    ensures s == a + core + d && core == Strip(s, chars) && Only(a, chars) && Only(d, chars)
    ensures core != "" ==> core[0] !in chars && core[|core| - 1] !in chars
  {
    var i, j := StripTold(s, chars);
    a, core, d := s[..i], s[i..j], s[j..];
  }

  lemma TrimTold(s: string) returns (a: string, core: string, d: string)
    ensures s == a + core + d && Trim(s) == core
    ensures AllSpace(a) && AllSpace(d)
    ensures core != "" ==> !IsSpace(core[0]) && !IsSpace(core[|core| - 1])
  {
    a, core, d := StripParts(s, SPACES);
    OnlySpaces(a);
    OnlySpaces(d);
    if core != "" {
      SpacesTold(core[0]);
      SpacesTold(core[|core| - 1]);
    }
  }

  lemma UnbracketTold(s: string) returns (b: string, core: string, c: string)
    ensures s == b + core + c && Unbracket(s) == core
    ensures AllBrackets(b) && AllBrackets(c)
    ensures core != "" ==> core[0] !in "[]" && core[|core| - 1] !in "[]"
  {
    b, core, c := StripParts(s, BRACKETS);
    OnlyBrackets(b);
    OnlyBrackets(c);
  }

  // ---------------------------------------------------------------- labels

  /** `".".join(labels)`. */
  function Join(labels: seq<string>): string
    requires labels != []
  {
    if |labels| == 1 then labels[0] else labels[0] + "." + Join(labels[1..])
  }

  ghost predicate DotFree(labels: seq<string>) {
    forall i | 0 <= i < |labels| :: '.' !in labels[i]
  }

  /** Splitting at the dots loses nothing. */
  lemma {:induction false} LabelsJoin(s: string)
    ensures Join(Labels(s)) == s && DotFree(Labels(s))
  {
    if s != [] {
      var rest := Labels(s[1..]);
      LabelsJoin(s[1..]);
      if s[0] == '.' {
        assert ([""] + rest)[1..] == rest;
        assert s == "" + "." + s[1..];
      } else {
        var all := [[s[0]] + rest[0]] + rest[1..];
        assert all[1..] == rest[1..];
        assert s == [s[0]] + s[1..];
        assert forall i | 0 < i < |all| :: all[i] == rest[i];
        if |rest| > 1 {
          assert [s[0]] + (rest[0] + "." + Join(rest[1..])) == ([s[0]] + rest[0]) + "." + Join(rest[1..]);
        }
      }
    }
  }

  /** Labels without dots are found again in the text they are joined to. */
  lemma {:induction false} JoinedLabels(labels: seq<string>)
    requires labels != [] && DotFree(labels)
    ensures Labels(Join(labels)) == labels
    decreases |labels|, |labels[0]|
  {
    var s := Join(labels);
    if labels[0] == "" {
      assert labels == [""] + labels[1..];
      if |labels| > 1 {
        JoinedLabels(labels[1..]);
        assert s[0] == '.' && s[1..] == Join(labels[1..]);
      }
    } else {
      var fewer := [labels[0][1..]] + labels[1..];
      assert fewer[1..] == labels[1..];
      assert forall i | 0 < i < |fewer| :: fewer[i] == labels[i];
      JoinedLabels(fewer);
      assert s == [labels[0][0]] + Join(fewer);
      assert s[0] == labels[0][0] && s[1..] == Join(fewer);
      assert s[0] in labels[0];
      assert [s[0]] + fewer[0] == labels[0];
      assert labels == [labels[0]] + labels[1..];
    }
  }

  /** Up to 63 lower-case letters, digits and hyphens, with no hyphen at either end. */
  predicate ProperLabel(s: string) {
    && 1 <= |s| <= 63 && s[0] != '-' && s[|s| - 1] != '-'
    && forall i | 0 <= i < |s| :: 'a' <= s[i] <= 'z' || '0' <= s[i] <= '9' || s[i] == '-'
  }

  ghost predicate NameOf(host: string, labels: seq<string>) {
    && labels != [] && Join(labels) == host
    && (forall i | 0 <= i < |labels| :: ProperLabel(labels[i]))
    && !Only(labels[|labels| - 1], "0123456789")
  }

  lemma LabelIff(s: string)
    ensures Label(s) <==> ProperLabel(s)
  {
    assert forall i | 0 <= i < |s| :: NameChar(s[i]) || s[i] == '-' <==>
             'a' <= s[i] <= 'z' || '0' <= s[i] <= '9' || s[i] == '-';
    assert |s| > 0 ==> (NameChar(s[0]) || s[0] == '-' || !NameChar(s[0]));
  }

  /** A host name is at most 253 characters of proper labels joined by dots, the last one not a number. */
  lemma ValidHostnameIff(host: string)
    ensures ValidHostname(host) <==> |host| <= 253 && exists labels :: NameOf(host, labels)
  {
    LabelsJoin(host);
    if ValidHostname(host) {
      ValidIsName(host);
      assert NameOf(host, Labels(host));
    }
    if |host| <= 253 && exists labels :: NameOf(host, labels) {
      var labels :| NameOf(host, labels);
      NameIsValid(host, labels);
    }
  }

  lemma DigitTold(c: char)
    ensures Digit(c) <==> c in "0123456789"
  {
    var digits := "0123456789";
    if Digit(c) {
      assert digits[(c - '0') as int] == c;
    }
  }

  lemma ValidIsName(host: string)
    requires ValidHostname(host)
    ensures NameOf(host, Labels(host))
  {
    LabelsJoin(host);
    var labels := Labels(host);
    forall i | 0 <= i < |labels| ensures ProperLabel(labels[i]) {
      LabelIff(labels[i]);
    }
    var last := labels[|labels| - 1];
    assert ProperLabel(last);
    var i :| 0 <= i < |last| && !Digit(last[i]);
    DigitTold(last[i]);
  }

  lemma NameIsValid(host: string, labels: seq<string>)
    requires NameOf(host, labels) && |host| <= 253
    ensures ValidHostname(host)
  {
    forall i | 0 <= i < |labels| ensures '.' !in labels[i] && Label(labels[i]) {
      assert ProperLabel(labels[i]);
      LabelIff(labels[i]);
    }
    JoinedLabels(labels);
    EndsInLast(labels);
    var last := labels[|labels| - 1];
    var i :| 0 <= i < |last| && last[i] !in "0123456789";
    DigitTold(last[i]);
  }

  lemma {:induction false} EndsInLast(labels: seq<string>)
    requires labels != [] && labels[|labels| - 1] != ""
    ensures Join(labels) != "" && Join(labels)[|Join(labels)| - 1] == labels[|labels| - 1][|labels[|labels| - 1]| - 1]
  {
    if |labels| > 1 {
      EndsInLast(labels[1..]);
    }
  }
}
