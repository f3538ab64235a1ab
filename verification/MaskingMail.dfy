/** What the email mask leaves: exactly when an address survives it. */
module MaskingMail {
  import opened Base
  import opened Masking
  import opened MaskingProofs

  // ----------------------------------------------------------- parts of a match

  /** `u` starts with the part of an address after its `@`, up to the first
      character of the last label. */
  predicate IsTail(u: string, dot: nat) {
    && 1 <= dot && dot + 1 < |u|
    && (forall k :: 0 <= k < dot ==> IsDomain(u[k])) && u[dot] == '.' && IsWord(u[dot + 1])
  }

  ghost predicate DomainTail(u: string) {
    exists dot :: IsTail(u, dot)
  }

  ghost predicate BareTail(u: string) {
    u != "" && u[0] == '@' && DomainTail(u[1..])
  }

  lemma MatchHasTail(t: string, m: Mail)
    requires IsMail(t, m)
    ensures Run(t, Local, 0) == m.at && BareTail(t[m.at..])
  {
    RunEnds(t, Local, 0, m.at);
    var u := t[m.at..][1..];
    assert forall k :: 0 <= k < |u| ==> u[k] == t[m.at + 1 + k];
    assert IsTail(u, m.dot - m.at - 1);
  }

  lemma TailMakesMatch(t: string, at: nat, dot: nat)
    requires 0 < at < |t| && (forall k :: 0 <= k < at ==> IsLocal(t[k])) && t[at] == '@'
    requires IsTail(t[at + 1..], dot)
    ensures IsMail(t, Mail(at, at + 1 + dot, at + 3 + dot))
  {
    var u := t[at + 1..];
    assert forall k :: at < k < |t| ==> t[k] == u[k - at - 1];
  }

  /** A match is a run of local characters and what can follow it. */
  lemma MailAtSplits(t: string)
    ensures MailAt(t).Some? <==> Run(t, Local, 0) > 0 && BareTail(t[Run(t, Local, 0)..])
  {
    var at := Run(t, Local, 0);
    if MailAt(t).Some? {
      MailAtIsMail(t);
      MatchHasTail(t, MailAt(t).value);
    }
    if at > 0 && BareTail(t[at..]) {
      assert t[at..][1..] == t[at + 1..];
      var dot :| IsTail(t[at + 1..], dot);
      TailMakesMatch(t, at, dot);
      MailAtIsGreedy(t, Mail(at, at + 1 + dot, at + 3 + dot));
    }
  }

  // ------------------------------------------------------ what the pass changes

  lemma NoMailToTheRight(t: string)
    requires t != "" && IsLocal(t[0]) && MailAt(t).None?
    ensures MailAt(t[1..]).None?
  {
    if MailAt(t[1..]).Some? { MailExtendsLeft(t); }
  }

  lemma SubMailSkips(t: string)
    requires t != "" && MailAt(t).None?
    ensures SubMail(t) == [t[0]] + SubMail(t[1..])
  {
  }

  lemma TakeCons(t: string, e: nat, v: string)
    requires 0 < e <= |t|
    ensures t[1..][e - 1..] == t[e..]
    ensures [t[0]] + (t[1..][..e - 1] + v) == t[..e] + v
  {
    assert [t[0]] + t[1..][..e - 1] == t[..e];
  }

  /** Where no address starts, the pass keeps the local characters. */
  lemma {:induction false} RunIsKept(t: string, e: nat)
    requires MailAt(t).None? && e <= |t| && AllLocal(t, e)
    ensures SubMail(t) == t[..e] + SubMail(t[e..])
  {
    if e == 0 {
      assert t[0..] == t;
    } else {
      var tail := t[1..];
      NoMailToTheRight(t);
      RunIsKept(tail, e - 1);
      calc {
        SubMail(t);
        { SubMailSkips(t); }
        [t[0]] + SubMail(tail);
        [t[0]] + (tail[..e - 1] + SubMail(tail[e - 1..]));
        { TakeCons(t, e, SubMail(t[e..])); }
        t[..e] + SubMail(t[e..]);
      }
    }
  }

  predicate AllLocal(t: string, e: nat)
    requires e <= |t|
  {
    forall k :: 0 <= k < e ==> IsLocal(t[k])
  }

  /** A domain survives the pass exactly when no address starts on it. */
  lemma TailSurvivesIff(u: string)
    ensures DomainTail(SubMail(u)) <==> MailAt(u).None? && DomainTail(u)
  {
    var s := SubMail(u);
    if u != "" && MailAt(u).Some? {
      MaskedMailStars(u);
      forall dot ensures !IsTail(s, dot) {
      }
    } else {
      var e := Run(u, Local, 0);
      RunIsKept(u, e);
      SubMailFirst(u[e..]);
      forall dot ensures IsTail(u, dot) <==> IsTail(s, dot) {
        TailIsLocal(u, s, e, dot);
        TailIsLocal(s, u, e, dot);
      }
    }
  }

  /** A tail lies within the run of local characters. */
  lemma TailIsLocal(a: string, b: string, e: nat, dot: nat)
    requires e <= |a| && e <= |b| && a[..e] == b[..e]
    requires e < |a| ==> !IsLocal(a[e])
    ensures IsTail(a, dot) ==> IsTail(b, dot)
  {
    if IsTail(a, dot) {
      assert forall k :: 0 <= k <= dot + 1 ==> IsLocal(a[k]);
      assert dot + 1 < e;
      assert forall k :: 0 <= k < e ==> a[..e][k] == a[k] && b[..e][k] == b[k];
    }
  }

  lemma NoMailAtStar(s: string)
    requires |s| >= 2 && (!IsLocal(s[0]) || (!IsLocal(s[1]) && s[1] != '@'))
    ensures MailAt(s).None?
  {
    RunEnds(s, Local, 0, if IsLocal(s[0]) then 1 else 0);
  }

  lemma AtSignStays(t: string)
    requires t != "" && !IsLocal(t[0])
    ensures MailAt(t).None? && SubMail(t) == [t[0]] + SubMail(t[1..])
  {
    RunEnds(t, Local, 0, 0);
  }

  /** The output of the pass never starts with an address. */
  lemma OutputStartsClean(t: string)
    ensures MailAt(SubMail(t)).None?
  {
    var s := SubMail(t);
    if t != "" && MailAt(t).Some? {
      MaskedMailStars(t);
      NoMailAtStar(s);
    } else {
      var e := Run(t, Local, 0);
      RunIsKept(t, e);
      SubMailFirst(t[e..]);
      assert forall k :: 0 <= k < e ==> s[k] == t[k];
      RunEnds(s, Local, 0, e);
      if MailAt(s).Some? {
        MailAtSplits(s);
        assert s[e..] == SubMail(t[e..]);
        AtSignStays(t[e..]);
        TailSurvivesIff(t[e..][1..]);
        MailAtSplits(t);
        assert false;
      }
    }
  }

  // ------------------------------------------------------------- no address left

  predicate NoMail(t: string) {
    t == "" || (MailAt(t).None? && NoMail(t[1..]))
  }

  ghost predicate ContainsMail(s: string) {
    exists i :: 0 <= i < |s| && MatchesMail(s[i..])
  }

  ghost predicate MatchesMail(t: string) {
    exists m :: IsMail(t, m)
  }

  lemma MatchesMailIff(t: string)
    ensures MatchesMail(t) <==> MailAt(t).Some?
  {
    MailAtIsMail(t);
    forall m | IsMail(t, m) ensures MailAt(t).Some? {
      MailAtIsGreedy(t, m);
    }
  }

  lemma {:induction false} NoMailIsExact(s: string)
    ensures NoMail(s) <==> !ContainsMail(s)
  {
    if s != "" {
      NoMailIsExact(s[1..]);
      MatchesMailIff(s);
      assert s[0..] == s;
      forall i | 0 < i < |s| ensures s[i..] == s[1..][i - 1..] {
      }
      if ContainsMail(s[1..]) {
        var i :| 0 <= i < |s[1..]| && MatchesMail(s[1..][i..]);
        assert s[1..][i..] == s[i + 1..];
      }
    }
  }

  lemma {:induction false} NoMailGlue(u: string, v: string)
    requires forall k :: 0 <= k < |u| ==> MailAt((u + v)[k..]).None?
    ensures NoMail(u + v) <==> NoMail(v)
  {
    if u == "" {
      assert u + v == v;
    } else {
      assert (u + v)[0..] == u + v;
      assert (u + v)[1..] == u[1..] + v;
      forall k | 0 <= k < |u[1..]| ensures MailAt((u[1..] + v)[k..]).None? {
        assert (u[1..] + v)[k..] == (u + v)[k + 1..];
      }
      NoMailGlue(u[1..], v);
    }
  }

  lemma RunAfterLocal(g: string, v: string)
    requires AllLocal(g, |g|)
    ensures Run(g + v, Local, 0) == |g| + Run(v, Local, 0)
  {
    var e := Run(v, Local, 0);
    assert forall k :: 0 <= k < e ==> (g + v)[|g| + k] == v[k];
    RunEnds(g + v, Local, 0, |g| + e);
  }

  /** Local characters in front make an address exactly of a bare tail. */
  lemma LocalBefore(g: string, v: string)
    requires g != "" && AllLocal(g, |g|) && MailAt(v).None?
    ensures MailAt(g + v).Some? <==> BareTail(v)
  {
    var e := Run(v, Local, 0);
    assert MailAt(g + v).Some? <==> BareTail(v[e..]) by {
      RunAfterLocal(g, v);
      MailAtSplits(g + v);
      assert (g + v)[|g| + e..] == v[e..];
    }
    if e == 0 {
      assert v[e..] == v;
    } else {
      MailAtSplits(v);
    }
  }

  lemma {:induction false} LocalGlue(g: string, v: string)
    requires g != "" && AllLocal(g, |g|) && MailAt(v).None?
    ensures NoMail(g + v) <==> !BareTail(v) && NoMail(v)
  {
    LocalBefore(g, v);
    assert (g + v)[1..] == g[1..] + v;
    if |g| == 1 {
      assert g[1..] + v == v;
    } else {
      LocalGlue(g[1..], v);
    }
  }

  /** The starred part of a masked address starts none. */
  lemma HeadHasNoMail(x: char, y: char, v: string)
    requires v != "" && v[0] == '.'
    ensures NoMail([x] + "***@" + [y] + "***" + v) <==> NoMail(v)
  {
    var u := [x] + "***@" + [y] + "***";
    forall k | 0 <= k < |u| ensures MailAt((u + v)[k..]).None? {
      var w := (u + v)[k..];
      assert w[0] == u[k] && w[1] == (u + v)[k + 1];
      NoMailAtStar(w);
    }
    NoMailGlue(u, v);
  }

  // ------------------------------------------------------------------- theorems

  /** The pass leaves an address when a match is followed by an `@` and another
      domain, on which no match of its own starts. */
  ghost predicate Leaks(t: string)
    decreases |t|
  {
    if t == "" then false
    else match MailAt(t)
      case None => Leaks(t[1..])
      case Some(m) => LeaksAfter(t[m.n..]) || Leaks(t[m.n..])
  }

  ghost predicate LeaksAfter(rest: string) {
    BareTail(rest) && MailAt(rest[1..]).None?
  }

  lemma BareTailSurvivesIff(rest: string)
    ensures BareTail(SubMail(rest)) <==> LeaksAfter(rest)
  {
    SubMailFirst(rest);
    if rest != "" && rest[0] == '@' {
      AtSignStays(rest);
      TailSurvivesIff(rest[1..]);
    }
  }

  lemma MaskedFormLeaksIff(x: char, y: char, tld: string, rest: string)
    requires AllWord(tld)
    ensures NoMail([x] + "***@" + [y] + "***" + ("." + tld + SubMail(rest))) <==>
      !LeaksAfter(rest) && NoMail(SubMail(rest))
  {
    var g, v := "." + tld, SubMail(rest);
    HeadHasNoMail(x, y, g + v);
    OutputStartsClean(rest);
    LocalGlue(g, v);
    BareTailSurvivesIff(rest);
  }

  lemma HeadForm(t: string, m: Mail, tld: string, v: string)
    requires IsMail(t, m)
    ensures MailHead(t, m) + (tld + v) == [t[0]] + "***@" + [t[m.at + 1]] + "***" + ("." + tld + v)
  {
  }

  lemma MaskedMailLeaksIff(t: string, m: Mail, tld: string, rest: string)
    requires IsMail(t, m) && AllWord(tld)
    ensures NoMail(MailHead(t, m) + (tld + SubMail(rest))) <==> !LeaksAfter(rest) && NoMail(SubMail(rest))
  {
    HeadForm(t, m, tld, SubMail(rest));
    MaskedFormLeaksIff(t[0], t[m.at + 1], tld, rest);
  }

  lemma {:induction false} NoMailIffNoLeak(t: string)
    ensures NoMail(SubMail(t)) <==> !Leaks(t)
    decreases |t|
  {
    if t != "" {
      if MailAt(t).None? {
        NoMailIffNoLeak(t[1..]);
        OutputStartsClean(t);
        assert SubMail(t)[1..] == SubMail(t[1..]);
      } else {
        var m := MailAt(t).value;
        MailAtIsMail(t);
        MailLabel(t);
        NoMailIffNoLeak(t[m.n..]);
        SubMailMatch(t, m);
        MaskedMailLeaksIff(t, m, t[m.dot + 1..m.n], t[m.n..]);
      }
    }
  }

  lemma {:induction false} FixedIffNoMail(u: string)
    ensures SubMail(u) == u <==> NoMail(u)
  {
    if u != "" {
      if MailAt(u).None? {
        FixedIffNoMail(u[1..]);
        assert u == [u[0]] + u[1..];
        assert SubMail(u)[1..] == SubMail(u[1..]);
      } else {
        MaskingChanges(u);
      }
    }
  }

  lemma MaskingChanges(u: string)
    requires u != "" && MailAt(u).Some?
    ensures SubMail(u) != u && !NoMail(u)
  {
    MaskedMailStars(u);
    MailAtIsMail(u);
    var m := MailAt(u).value;
    assert IsLocal(u[1]) || u[1] == '@' by {
      if m.at > 1 { assert IsLocal(u[1]); }
    }
  }

  /** The email mask hides every address, and masking again changes nothing,
      exactly when the text does not leak. */
  lemma EmailsAreHiddenIff(s: string)
    ensures !ContainsMail(MaskEmail(s)) <==> !Leaks(s)
    ensures MaskEmail(MaskEmail(s)) == MaskEmail(s) <==> !Leaks(s)
  {
    NoMailIffNoLeak(s);
    NoMailIsExact(MaskEmail(s));
    FixedIffNoMail(MaskEmail(s));
  }

  /** What the CPF pass wrote in no star, it did not write. */
  lemma {:induction false} StarlessIsKept(pw: bool, t: string, n: nat)
    requires n <= |SubCpf(pw, t)| && forall k :: 0 <= k < n ==> SubCpf(pw, t)[k] != '*'
    ensures n <= |t| && t[..n] == SubCpf(pw, t)[..n]
    decreases |t|
  {
    if t != "" && n > 0 {
      MaskedCpfStarts(pw, t);
      var tail := SubCpf(IsWord(t[0]), t[1..]);
      assert forall k :: 0 <= k < n - 1 ==> tail[k] == SubCpf(pw, t)[k + 1];
      StarlessIsKept(IsWord(t[0]), t[1..], n - 1);
      assert t[..n] == [t[0]] + t[1..][..n - 1];
    }
  }

  lemma CpfPassStartsNoMail(pw: bool, t: string)
    requires MailAt(t).None?
    ensures MailAt(SubCpf(pw, t)).None?
  {
    var s := SubCpf(pw, t);
    if MailAt(s).Some? {
      MailAtIsMail(s);
      var m := MailAt(s).value.(n := MailAt(s).value.dot + 2);
      MatchIsStarless(s, m);
      StarlessIsKept(pw, t, m.n);
      SamePrefixMatches(s, t, m);
      MailAtIsGreedy(t, m);
    }
  }

  lemma MatchIsStarless(s: string, m: Mail)
    requires IsMail(s, m)
    ensures forall k :: 0 <= k < m.n ==> s[k] != '*'
  {
  }

  lemma SamePrefixMatches(s: string, t: string, m: Mail)
    requires IsMail(s, m) && m.n <= |t| && t[..m.n] == s[..m.n]
    ensures IsMail(t, m)
  {
    assert forall k :: 0 <= k < m.n ==> t[k] == t[..m.n][k] && s[..m.n][k] == s[k];
  }

  lemma {:induction false} MaskedCpfHasNoMail(v: string)
    ensures NoMail(CPF_MASK + v) <==> NoMail(v)
  {
    forall k | 0 <= k < |CPF_MASK| ensures MailAt((CPF_MASK + v)[k..]).None? {
      var w := (CPF_MASK + v)[k..];
      assert w[0] == CPF_MASK[k] && (k + 1 < |CPF_MASK| ==> w[1] == CPF_MASK[k + 1]);
      RunEnds(w, Local, 0, if IsLocal(w[0]) then 1 else 0);
    }
    NoMailGlue(CPF_MASK, v);
  }

  lemma {:induction false} NoMailDrop(t: string, i: nat)
    requires NoMail(t) && i <= |t|
    ensures NoMail(t[i..])
  {
    if i > 0 {
      NoMailDrop(t[1..], i - 1);
      assert t[1..][i - 1..] == t[i..];
    }
  }

  /** The CPF pass creates no address. */
  lemma {:induction false} SubCpfKeepsNoMail(pw: bool, t: string)
    requires NoMail(t)
    ensures NoMail(SubCpf(pw, t))
    decreases |t|
  {
    if t != "" {
      if CpfAt(pw, t) {
        NoMailDrop(t, 14);
        SubCpfKeepsNoMail(true, t[14..]);
        MaskedCpfHasNoMail(SubCpf(true, t[14..]));
      } else {
        SubCpfKeepsNoMail(IsWord(t[0]), t[1..]);
        CpfPassStartsNoMail(pw, t);
        assert SubCpf(pw, t)[1..] == SubCpf(IsWord(t[0]), t[1..]);
      }
    }
  }

  /** So an address gets through all three masks only where the email pass leaks. */
  lemma MaskStringHidesEmails(s: string)
    ensures ContainsMail(MaskString(s)) ==> Leaks(MaskIpv4(s))
  {
    if !Leaks(MaskIpv4(s)) {
      NoMailIffNoLeak(MaskIpv4(s));
      SubCpfKeepsNoMail(false, MaskEmail(MaskIpv4(s)));
      NoMailIsExact(MaskString(s));
    }
  }

  /** Where the email pass leaves no CPF for the last pass, that is exact. */
  lemma MaskStringHidesEmailsIff(s: string)
    requires !ContainsCpf(MaskEmail(MaskIpv4(s)))
    ensures ContainsMail(MaskString(s)) <==> Leaks(MaskIpv4(s))
  {
    NoCpfIsExact(MaskEmail(MaskIpv4(s)));
    CleanIsUnchanged(false, MaskEmail(MaskIpv4(s)));
    EmailsAreHiddenIff(MaskIpv4(s));
  }

  lemma FirstMatch(s: string)
    requires s == "a@b.c@d.e"
    ensures MailAt(s) == Some(Mail(1, 3, 5))
  {
    RunEnds(s, Local, 0, 1);
    RunEnds(s, Domain, 2, 5);
    RunEnds(s, Word, 4, 5);
  }

  lemma SecondDomainLeaks(rest: string)
    requires rest == "@d.e"
    ensures LeaksAfter(rest)
  {
    var u := rest[1..];
    RunEnds(u, Local, 0, 3);
    assert IsTail(u, 1);
  }

  lemma MatchThenDomainLeaks(t: string, m: Mail)
    requires t != "" && MailAt(t) == Some(m) && m.n <= |t| && LeaksAfter(t[m.n..])
    ensures Leaks(t)
  {
  }

  /** A second domain after an address leaks. */
  lemma ChainedAddressLeaks(s: string)
    requires s == "a@b.c@d.e"
    ensures Leaks(s) && ContainsMail(MaskEmail(s))
  {
    FirstMatch(s);
    SecondDomainLeaks(s[5..]);
    MatchThenDomainLeaks(s, Mail(1, 3, 5));
    EmailsAreHiddenIff(s);
  }
}
