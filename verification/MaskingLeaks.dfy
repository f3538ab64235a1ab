/** Leaks of the email mask through all three masks: exactly those of the email
    pass on text without digits, and not those that the CPF pass stars. */
module MaskingLeaks {
  import opened Base
  import opened Masking
  import opened MaskingProofs
  import opened MaskingMail

  predicate NoDigits(t: string) { forall k :: 0 <= k < |t| ==> !IsDigit(t[k]) }

  lemma {:induction false} NoDigitsNothingToHide(pw: bool, t: string)
    requires NoDigits(t)
    ensures NoIpv4(pw, t) && NoCpf(pw, t)
    decreases |t|
  {
    if t != "" {
      NoMatchWithoutDigits(pw, t);
      NoDigitsNothingToHide(IsWord(t[0]), t[1..]);
    }
  }

  lemma {:induction false} NoDigitsStay(t: string)
    requires NoDigits(t)
    ensures NoDigits(SubMail(t))
    decreases |t|
  {
    if t != "" {
      if MailAt(t).None? {
        NoDigitsStay(t[1..]);
        SubMailSkips(t);
      } else {
        var m := MailAt(t).value;
        MailAtIsMail(t);
        NoDigitsStay(t[m.n..]);
        SubMailMatch(t, m);
        assert NoDigits(MailHead(t, m)) && NoDigits(t[m.dot + 1..m.n]);
      }
    }
  }

  /** On text without digits the email mask alone decides. */
  lemma DigitlessLeaksIff(s: string)
    requires NoDigits(s)
    ensures ContainsMail(MaskString(s)) <==> Leaks(s)
  {
    assert MaskIpv4(s) == s by {
      NoDigitsNothingToHide(false, s);
      CleanIsUnchanged(false, s);
    }
    assert !ContainsCpf(MaskEmail(s)) by {
      NoDigitsStay(s);
      NoDigitsNothingToHide(false, MaskEmail(s));
      NoCpfIsExact(MaskEmail(s));
    }
    MaskStringHidesEmailsIff(s);
  }

  /** So the second domain leaks through all three masks. */
  lemma ChainedAddressLeaksThroughAll(s: string)
    requires s == "a@b.c@d.e"
    ensures ContainsMail(MaskString(s))
  {
    ChainedAddressLeaks(s);
    ChainHasNoDigits(s);
    DigitlessLeaksIff(s);
  }

  lemma ChainHasNoDigits(s: string)
    requires s == "a@b.c@d.e"
    ensures NoDigits(s)
  {
  }

  // ------------------------------------------------------ a leak that is starred

  /** Text without digits in front does not change what the CPF pass does. */
  lemma {:induction false} CpfPassSkips(pw: bool, g: string, v: string)
    requires NoDigits(g) && g != ""
    ensures SubCpf(pw, g + v) == g + SubCpf(IsWord(g[|g| - 1]), v)
    decreases |g|
  {
    var t := g + v;
    assert t[1..] == g[1..] + v;
    if |g| == 1 {
      assert g[1..] + v == v;
    } else {
      CpfPassSkips(IsWord(g[0]), g[1..], v);
      assert g == [g[0]] + g[1..];
    }
  }

  lemma StarsEndTail(w: string)
    requires w != "" && w[0] == '*' && NoMail(w)
    ensures MailAt("@" + w).None? && !BareTail("@" + w) && NoMail("@" + w)
  {
    var bare := "@" + w;
    assert bare[1..] == w;
    RunEnds(bare, Local, 0, 0);
  }

  lemma MaskedMailBefore(x: char, y: char, tld: string, bare: string)
    requires AllWord(tld) && MailAt(bare).None? && !BareTail(bare) && NoMail(bare)
    ensures NoMail([x] + "***@" + [y] + "***" + ("." + tld + bare))
  {
    LocalGlue("." + tld, bare);
    HeadHasNoMail(x, y, "." + tld + bare);
  }

  lemma StarredDomain(v: string, w: string)
    requires CpfAt(false, v) && NoMail(SubCpf(true, v[14..])) && w == SubCpf(false, v)
    ensures w != "" && w[0] == '*' && NoMail(w)
  {
    MaskedCpfHasNoMail(SubCpf(true, v[14..]));
  }

  /** What the email pass makes of an address, and the `@` after it. */
  function MaskedThenAt(x: char, y: char, tld: string): string {
    [x] + "***@" + [y] + "***" + ("." + tld + "@")
  }

  lemma MaskedThenStars(x: char, y: char, tld: string, w: string)
    requires AllWord(tld) && w != "" && w[0] == '*' && NoMail(w)
    ensures NoMail(MaskedThenAt(x, y, tld) + w)
  {
    StarsEndTail(w);
    MaskedMailBefore(x, y, tld, "@" + w);
    assert MaskedThenAt(x, y, tld) + w == [x] + "***@" + [y] + "***" + ("." + tld + ("@" + w));
  }

  /** A domain that begins with a CPF is starred by the CPF pass: what the email
      pass leaks in front of it is no address in the end. */
  lemma StarredLeakIsHidden(x: char, y: char, tld: string, v: string, g: string)
    requires g == MaskedThenAt(x, y, tld) && NoDigits(g) && AllWord(tld)
    requires CpfAt(false, v) && NoMail(SubCpf(true, v[14..]))
    ensures NoMail(SubCpf(false, g + v))
  {
    var w := SubCpf(false, v);
    StarredDomain(v, w);
    MaskedThenStars(x, y, tld, w);
    assert g[|g| - 1] == '@';
    CpfPassSkips(false, g, v);
  }

  /** The IPv4 pass skips such text too. */
  lemma {:induction false} Ipv4PassSkips(pw: bool, g: string, v: string)
    requires NoDigits(g) && g != ""
    ensures SubIpv4(pw, g + v) == g + SubIpv4(IsWord(g[|g| - 1]), v)
    decreases |g|
  {
    var t := g + v;
    NoMatchWithoutDigits(pw, t);
    assert t[1..] == g[1..] + v;
    if |g| == 1 {
      assert g[1..] + v == v;
    } else {
      Ipv4PassSkips(IsWord(g[0]), g[1..], v);
      assert g == [g[0]] + g[1..];
    }
  }

  /** A CPF with no digits after it holds no IPv4 address: it has two dots only. */
  lemma {:induction false} CpfHoldsNoIpv4(pw: bool, v: string, i: nat)
    requires CpfAt(false, v) && NoDigits(v[14..]) && i <= 14
    ensures NoIpv4(pw, v[i..])
    decreases 14 - i
  {
    if i == 14 {
      NoDigitsNothingToHide(pw, v[14..]);
    } else {
      var t := v[i..];
      assert t[1..] == v[i + 1..];
      assert forall k :: 0 <= k < |t| ==> t[k] == v[i + k];
      CpfHoldsNoIpv4(IsWord(t[0]), v, i + 1);
      assert Ipv4At(pw, t).None? by {
        if Ipv4At(pw, t).Some? {
          Ipv4AtIsIpv4(pw, t);
          ThreeDotsAreTooMany(pw, v, i, Ipv4At(pw, t).value);
        }
      }
    }
  }

  lemma ThreeDotsAreTooMany(pw: bool, v: string, i: nat, q: Quad)
    requires CpfAt(false, v) && NoDigits(v[14..]) && i < 14
    ensures !IsIpv4(pw, v[i..], q)
  {
    if IsIpv4(pw, v[i..], q) { MatchIsDotted(pw, v[i..], q); }
  }

  lemma {:induction false} LocalHasNoMail(v: string)
    requires AllLocal(v, |v|)
    ensures NoMail(v) && SubMail(v) == v
    decreases |v|
  {
    if v != "" {
      RunEnds(v, Local, 0, |v|);
      LocalHasNoMail(v[1..]);
      SubMailSkips(v);
      assert v == [v[0]] + v[1..];
    }
  }

  lemma FirstOfTwo(s: string, v: string)
    requires s == "a@b.c@" + v
    ensures MailAt(s) == Some(Mail(1, 3, 5)) && s[5..] == "@" + v
  {
    RunEnds(s, Local, 0, 1);
    RunEnds(s, Domain, 2, 5);
    RunEnds(s, Word, 4, 5);
  }

  lemma SecondDomainStays(rest: string, v: string)
    requires rest == "@" + v && AllLocal(v, |v|) && DomainTail(v)
    ensures SubMail(rest) == rest && LeaksAfter(rest)
  {
    assert rest[1..] == v;
    AtSignStays(rest);
    LocalHasNoMail(v);
    RunEnds(v, Local, 0, |v|);
  }

  lemma FirstIsMasked(s: string, rest: string, m: Mail)
    requires s != "" && MailAt(s) == Some(m) && m.n <= |s| && s[m.n..] == rest && SubMail(rest) == rest
    ensures IsMail(s, m) && SubMail(s) == MailHead(s, m) + (s[m.dot + 1..m.n] + rest)
  {
    MailAtIsMail(s);
    SubMailMatch(s, m);
  }

  lemma FormOfFirst(s: string, v: string, m: Mail)
    requires s == "a@b.c@" + v && m == Mail(1, 3, 5) && IsMail(s, m)
    ensures MailHead(s, m) + (s[m.dot + 1..m.n] + ("@" + v)) == MaskedThenAt('a', 'b', "c") + v
  {
    assert s[0] == 'a' && s[2] == 'b' && s[4] == 'c';
    assert s[4..5] == [s[4]];
  }

  lemma SecondDomainForm(s: string, v: string)
    requires s == "a@b.c@" + v && AllLocal(v, |v|) && DomainTail(v)
    ensures SubMail(s) == MaskedThenAt('a', 'b', "c") + v
  {
    var m, rest := Mail(1, 3, 5), "@" + v;
    FirstOfTwo(s, v);
    SecondDomainStays(rest, v);
    FirstIsMasked(s, rest, m);
    FormOfFirst(s, v, m);
  }

  lemma SecondDomainIsLeaked(s: string, v: string)
    requires s == "a@b.c@" + v && AllLocal(v, |v|) && DomainTail(v)
    ensures Leaks(s)
  {
    FirstOfTwo(s, v);
    SecondDomainStays("@" + v, v);
    MatchThenDomainLeaks(s, Mail(1, 3, 5));
  }

  lemma NoAddressToMask(s: string, v: string)
    requires s == "a@b.c@" + v && CpfAt(false, v) && NoDigits(v[14..])
    ensures MaskIpv4(s) == s
  {
    Ipv4PassSkips(false, s[..6], v);
    CpfHoldsNoIpv4(false, v, 0);
    assert v[0..] == v && s == s[..6] + v;
    CleanIsUnchanged(false, v);
  }

  lemma StarredRest(v: string)
    requires |v| >= 14 && AllLocal(v, |v|) && NoDigits(v[14..])
    ensures NoMail(SubCpf(true, v[14..]))
  {
    NoDigitsNothingToHide(true, v[14..]);
    CleanIsUnchanged(true, v[14..]);
    LocalHasNoMail(v[14..]);
  }

  /** It does happen: the email pass leaves an address whose domain begins with a
      CPF, and the CPF pass takes that domain away. */
  lemma StarredLeak(s: string, v: string)
    requires s == "a@b.c@" + v && AllLocal(v, |v|) && DomainTail(v)
    requires CpfAt(false, v) && NoDigits(v[14..])
    ensures Leaks(MaskIpv4(s)) && !ContainsMail(MaskString(s))
  {
    NoAddressToMask(s, v);
    SecondDomainIsLeaked(s, v);
    SecondDomainForm(s, v);
    StarredRest(v);
    FormIsHidden(MaskedThenAt('a', 'b', "c"), v, MaskEmail(s));
    NoMailIsExact(MaskString(s));
  }

  lemma FormIsHidden(g: string, v: string, masked: string)
    requires g == MaskedThenAt('a', 'b', "c") && masked == g + v
    requires CpfAt(false, v) && NoMail(SubCpf(true, v[14..]))
    ensures NoMail(MaskCpf(masked))
  {
    StarredLeakIsHidden('a', 'b', "c", v, g);
  }

  lemma StarredLeakExists(v: string)
    requires v == "123.456.789-09.e"
    ensures AllLocal(v, |v|) && DomainTail(v) && CpfAt(false, v) && NoDigits(v[14..])
  {
    assert IsTail(v, 14);
  }
}
