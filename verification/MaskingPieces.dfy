/** What a masked text is, piece by piece: the input without its matches, which
    are replaced, and everything between them as it was. Stated on the patterns,
    for each pass and for the three together. */
module MaskingPieces {
  import opened Base
  import opened Masking
  import opened MaskingProofs
  import opened MaskingMail

  // ---------------------------------------------------------- leftmost rewriting

  /** `rule(s, i, n, mask)`: the pattern matches `n` characters of `s` from
      position `i` on, and they become `mask`. */
  type Rule = (string, nat, nat, string) -> bool

  datatype Piece = Kept(c: char) | Replaced(length: nat, mask: string)

  /** The text that the pieces become. */
  function Output(ps: seq<Piece>): string {
    if ps == [] then ""
    else (match ps[0] case Kept(c) => [c] case Replaced(_, mask) => mask) + Output(ps[1..])
  }

  ghost predicate NoMatchAt(rule: Rule, s: string, i: nat) {
    forall n, mask :: !rule(s, i, n, mask)
  }

  /** The pieces are what a leftmost, non-overlapping substitution makes of `s`
      from position `i` on: a character is kept where no match starts, and a match
      is replaced as a whole. */
  ghost predicate Cuts(rule: Rule, s: string, i: nat, ps: seq<Piece>)
    decreases |ps|
  {
    if ps == [] then i == |s|
    else match ps[0]
      case Kept(c) => i < |s| && s[i] == c && NoMatchAt(rule, s, i) && Cuts(rule, s, i + 1, ps[1..])
      case Replaced(n, mask) => 0 < n && i + n <= |s| && rule(s, i, n, mask) && Cuts(rule, s, i + n, ps[1..])
  }

  ghost predicate Rewrites(rule: Rule, s: string, i: nat, out: string) {
    exists ps :: Cuts(rule, s, i, ps) && Output(ps) == out
  }

  // ------------------------------------------------------------------ the rules

  /** An address keeps its first three octets. */
  ghost predicate Ipv4Rule(s: string, i: nat, n: nat, mask: string) {
    i <= |s| && exists q :: IsIpv4(WordBefore(s, i), s[i..], q) && n == q.n && mask == s[i..][..q.c] + ".x"
  }

  /** The match that a greedy search takes: the last dot, then the longest label. */
  ghost predicate IsGreedyMail(t: string, m: Mail) {
    && IsMail(t, m)
    && forall k :: IsMail(t, k) ==> k.at == m.at && k.dot <= m.dot && (k.dot == m.dot ==> k.n <= m.n)
  }

  /** A mail address keeps the first characters of its two sides and its last
      label. */
  ghost predicate MailRule(s: string, i: nat, n: nat, mask: string) {
    i <= |s| && exists m :: IsGreedyMail(s[i..], m) && n == m.n && mask == StarredMail(s[i..], m)
  }

  function StarredMail(t: string, m: Mail): string
    requires IsMail(t, m)
  {
    [t[0]] + "***@" + [t[m.at + 1]] + "***." + t[m.dot + 1..m.n]
  }

  ghost predicate CpfRule(s: string, i: nat, n: nat, mask: string) {
    i <= |s| && CpfAt(WordBefore(s, i), s[i..]) && n == 14 && mask == "***.***.***-**"
  }

  // -------------------------------------------------------------- building pieces

  lemma KeepOne(rule: Rule, s: string, i: nat, rest: string)
    requires i < |s| && NoMatchAt(rule, s, i) && Rewrites(rule, s, i + 1, rest)
    ensures Rewrites(rule, s, i, [s[i]] + rest)
  {
    var ps :| Cuts(rule, s, i + 1, ps) && Output(ps) == rest;
    var qs := [Kept(s[i])] + ps;
    assert qs[1..] == ps;
    assert Cuts(rule, s, i, qs) && Output(qs) == [s[i]] + rest;
  }

  lemma ReplaceOne(rule: Rule, s: string, i: nat, n: nat, j: nat, mask: string, rest: string)
    requires 0 < n && i + n == j <= |s| && rule(s, i, n, mask) && Rewrites(rule, s, j, rest)
    ensures Rewrites(rule, s, i, mask + rest)
  {
    var ps :| Cuts(rule, s, j, ps) && Output(ps) == rest;
    var qs := [Replaced(n, mask)] + ps;
    assert qs[1..] == ps;
    assert Cuts(rule, s, i, qs) && Output(qs) == mask + rest;
  }

  lemma Stop(rule: Rule, s: string)
    ensures Rewrites(rule, s, |s|, "")
  {
    assert Cuts(rule, s, |s|, []) && Output([]) == "";
  }

  /** A pattern that matches in one way at most rewrites in one way only. */
  ghost predicate IsFunctional(rule: Rule) {
    forall s, i, n, mask, k, other :: rule(s, i, n, mask) && rule(s, i, k, other) ==> n == k && mask == other
  }

  lemma {:induction false} CutsAreUnique(rule: Rule, s: string, i: nat, ps: seq<Piece>, qs: seq<Piece>)
    requires IsFunctional(rule) && Cuts(rule, s, i, ps) && Cuts(rule, s, i, qs)
    ensures ps == qs
    decreases |ps|
  {
    if ps != [] && qs != [] {
      assert ps[0] == qs[0];
      CutsAreUnique(rule, s, if ps[0].Kept? then i + 1 else i + ps[0].length, ps[1..], qs[1..]);
      assert ps == [ps[0]] + ps[1..] && qs == [qs[0]] + qs[1..];
    }
  }

  lemma RewritesAreUnique(rule: Rule, s: string, i: nat, a: string, b: string)
    requires IsFunctional(rule) && Rewrites(rule, s, i, a) && Rewrites(rule, s, i, b)
    ensures a == b
  {
    var ps :| Cuts(rule, s, i, ps) && Output(ps) == a;
    var qs :| Cuts(rule, s, i, qs) && Output(qs) == b;
    CutsAreUnique(rule, s, i, ps, qs);
  }

  // ------------------------------------------------------------------- IPv4 pass

  lemma Ipv4RuleIff(s: string, i: nat, n: nat, mask: string)
    requires i <= |s|
    ensures Ipv4Rule(s, i, n, mask) <==>
      var q := Ipv4At(WordBefore(s, i), s[i..]);
      q.Some? && n == q.value.n && q.value.c <= |s[i..]| && mask == s[i..][..q.value.c] + ".x"
  {
    Ipv4AtIsIpv4(WordBefore(s, i), s[i..]);
    forall q | IsIpv4(WordBefore(s, i), s[i..], q) ensures Ipv4At(WordBefore(s, i), s[i..]) == Some(q) {
      Ipv4AtFinds(WordBefore(s, i), s[i..], q);
    }
  }

  lemma Ipv4RuleIsFunctional()
    ensures IsFunctional(Ipv4Rule)
  {
    forall s, i, n, mask, k, other | Ipv4Rule(s, i, n, mask) && Ipv4Rule(s, i, k, other)
      ensures n == k && mask == other
    {
      Ipv4RuleIff(s, i, n, mask);
      Ipv4RuleIff(s, i, k, other);
    }
  }

  lemma {:induction false} Ipv4PassRewrites(s: string, i: nat)
    requires i <= |s|
    ensures Rewrites(Ipv4Rule, s, i, SubIpv4(WordBefore(s, i), s[i..]))
    decreases |s| - i
  {
    var pw, t := WordBefore(s, i), s[i..];
    if i == |s| {
      Stop(Ipv4Rule, s);
    } else {
      match Ipv4At(pw, t)
      case None =>
        forall n, mask ensures !Ipv4Rule(s, i, n, mask) { Ipv4RuleIff(s, i, n, mask); }
        Ipv4PassRewrites(s, i + 1);
        assert t[1..] == s[i + 1..];
        KeepOne(Ipv4Rule, s, i, SubIpv4(IsWord(t[0]), t[1..]));
      case Some(q) =>
        Ipv4AtIsIpv4(pw, t);
        Ipv4RuleIff(s, i, q.n, t[..q.c] + ".x");
        Ipv4PassRewrites(s, i + q.n);
        assert t[q.n..] == s[i + q.n..] && s[i + q.n - 1] == t[q.n - 1];
        ReplaceOne(Ipv4Rule, s, i, q.n, i + q.n, t[..q.c] + ".x", SubIpv4(true, t[q.n..]));
    }
  }

  /** `mask_ipv4` is the substitution of its pattern, and nothing else is. */
  lemma MaskIpv4Iff(s: string, out: string)
    ensures out == MaskIpv4(s) <==> Rewrites(Ipv4Rule, s, 0, out)
  {
    assert s[0..] == s;
    Ipv4PassRewrites(s, 0);
    Ipv4RuleIsFunctional();
    if Rewrites(Ipv4Rule, s, 0, out) { RewritesAreUnique(Ipv4Rule, s, 0, out, MaskIpv4(s)); }
  }

  // ------------------------------------------------------------------ email pass

  lemma GreedyMailIff(t: string, m: Mail)
    ensures IsGreedyMail(t, m) <==> MailAt(t) == Some(m)
  {
    MailAtIsMail(t);
    forall k | IsMail(t, k)
      ensures MailAt(t).Some? && k.at == MailAt(t).value.at && k.dot <= MailAt(t).value.dot
      ensures k.dot == MailAt(t).value.dot ==> k.n <= MailAt(t).value.n
    {
      MailAtIsGreedy(t, k);
    }
  }

  lemma MailRuleIff(s: string, i: nat, n: nat, mask: string)
    requires i <= |s|
    ensures MailRule(s, i, n, mask) <==>
      var m := MailAt(s[i..]);
      m.Some? && IsMail(s[i..], m.value) && n == m.value.n && mask == StarredMail(s[i..], m.value)
  {
    MailAtIsMail(s[i..]);
    forall m ensures IsGreedyMail(s[i..], m) <==> MailAt(s[i..]) == Some(m) { GreedyMailIff(s[i..], m); }
  }

  lemma MailRuleIsFunctional()
    ensures IsFunctional(MailRule)
  {
    forall s, i, n, mask, k, other | MailRule(s, i, n, mask) && MailRule(s, i, k, other)
      ensures n == k && mask == other
    {
      MailRuleIff(s, i, n, mask);
      MailRuleIff(s, i, k, other);
    }
  }

  lemma StarredIsHead(t: string, m: Mail)
    requires IsMail(t, m)
    ensures StarredMail(t, m) == MailHead(t, m) + t[m.dot + 1..m.n]
  {
  }

  lemma Regroup(whole: string, mask: string, head: string, last: string, rest: string)
    requires whole == head + (last + rest) && mask == head + last
    ensures whole == mask + rest
  {
  }

  lemma SubMailReplaces(t: string, m: Mail, mask: string)
    requires t != "" && MailAt(t) == Some(m) && IsMail(t, m) && mask == StarredMail(t, m)
    ensures SubMail(t) == mask + SubMail(t[m.n..])
  {
    StarredIsHead(t, m);
    Regroup(SubMail(t), mask, MailHead(t, m), t[m.dot + 1..m.n], SubMail(t[m.n..]));
  }

  lemma MailKeepsOne(s: string, i: nat, t: string)
    requires i < |s| && t == s[i..] && MailAt(t).None? && Rewrites(MailRule, s, i + 1, SubMail(s[i + 1..]))
    ensures Rewrites(MailRule, s, i, SubMail(t))
  {
    forall n, mask ensures !MailRule(s, i, n, mask) { MailRuleIff(s, i, n, mask); }
    assert t[1..] == s[i + 1..];
    SubMailSkips(t);
    KeepOne(MailRule, s, i, SubMail(t[1..]));
  }

  lemma MailReplacesOne(s: string, i: nat, t: string, m: Mail, j: nat, mask: string, rest: string)
    requires i < |s| && t == s[i..] && MailAt(t) == Some(m) && IsMail(t, m) && mask == StarredMail(t, m)
    requires j == i + m.n && rest == SubMail(t[m.n..]) && Rewrites(MailRule, s, j, rest)
    ensures Rewrites(MailRule, s, i, SubMail(t))
  {
    SubMailReplaces(t, m, mask);
    MailRuleIff(s, i, m.n, mask);
    ReplaceOne(MailRule, s, i, m.n, j, mask, rest);
  }

  lemma {:induction false} MailPassRewrites(s: string, i: nat)
    requires i <= |s|
    ensures Rewrites(MailRule, s, i, SubMail(s[i..]))
    decreases |s| - i
  {
    var t := s[i..];
    if i == |s| {
      Stop(MailRule, s);
    } else {
      match MailAt(t)
      case None =>
        MailPassRewrites(s, i + 1);
        MailKeepsOne(s, i, t);
      case Some(m) =>
        MailAtIsMail(t);
        var j := i + m.n;
        MailPassRewrites(s, j);
        assert t[m.n..] == s[j..];
        MailReplacesOne(s, i, t, m, j, StarredMail(t, m), SubMail(s[j..]));
    }
  }

  /** `mask_email` is the substitution of its pattern, and nothing else is. */
  lemma MaskEmailIff(s: string, out: string)
    ensures out == MaskEmail(s) <==> Rewrites(MailRule, s, 0, out)
  {
    assert s[0..] == s;
    MailPassRewrites(s, 0);
    MailRuleIsFunctional();
    if Rewrites(MailRule, s, 0, out) { RewritesAreUnique(MailRule, s, 0, out, MaskEmail(s)); }
  }

  // -------------------------------------------------------------------- CPF pass

  lemma CpfRuleIsFunctional()
    ensures IsFunctional(CpfRule)
  {
  }

  lemma {:induction false} CpfPassRewrites(s: string, i: nat)
    requires i <= |s|
    ensures Rewrites(CpfRule, s, i, SubCpf(WordBefore(s, i), s[i..]))
    decreases |s| - i
  {
    var pw, t := WordBefore(s, i), s[i..];
    if i == |s| {
      Stop(CpfRule, s);
    } else if CpfAt(pw, t) {
      CpfPassRewrites(s, i + 14);
      assert t[14..] == s[i + 14..] && s[i + 13] == t[13];
      ReplaceOne(CpfRule, s, i, 14, i + 14, "***.***.***-**", SubCpf(true, t[14..]));
    } else {
      CpfPassRewrites(s, i + 1);
      assert t[1..] == s[i + 1..];
      KeepOne(CpfRule, s, i, SubCpf(IsWord(t[0]), t[1..]));
    }
  }

  /** `mask_cpf` is the substitution of its pattern, and nothing else is. */
  lemma MaskCpfIff(s: string, out: string)
    ensures out == MaskCpf(s) <==> Rewrites(CpfRule, s, 0, out)
  {
    assert s[0..] == s;
    CpfPassRewrites(s, 0);
    CpfRuleIsFunctional();
    if Rewrites(CpfRule, s, 0, out) { RewritesAreUnique(CpfRule, s, 0, out, MaskCpf(s)); }
  }

  // ------------------------------------------------------------ all three passes

  /** Addresses first, then mail addresses in what is left, then CPFs. */
  ghost predicate IsMasked(s: string, out: string) {
    exists t, u :: Rewrites(Ipv4Rule, s, 0, t) && Rewrites(MailRule, t, 0, u) && Rewrites(CpfRule, u, 0, out)
  }

  lemma MaskStringIff(s: string, out: string)
    ensures out == MaskString(s) <==> IsMasked(s, out)
  {
    var t, u := MaskIpv4(s), MaskEmail(MaskIpv4(s));
    MaskIpv4Iff(s, t);
    MaskEmailIff(t, u);
    MaskCpfIff(u, out);
    assert MaskCpf(u) == MaskString(s);
    if IsMasked(s, out) {
      var t', u' :| Rewrites(Ipv4Rule, s, 0, t') && Rewrites(MailRule, t', 0, u') && Rewrites(CpfRule, u', 0, out);
      MaskIpv4Iff(s, t');
      MaskEmailIff(t', u');
    }
  }
}
