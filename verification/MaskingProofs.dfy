/** Main results about the masks: no IPv4 address and no CPF survives the three
    passes, although each later pass rewrites the text around what the earlier
    ones hid. */
module MaskingProofs {
  import opened Base
  import opened Masking

  /** No match of the IPv4 pattern starts anywhere in `t`. */
  predicate NoIpv4(pw: bool, t: string)
    decreases |t|
  {
    t == "" || (Ipv4At(pw, t).None? && NoIpv4(IsWord(t[0]), t[1..]))
  }

  predicate NoCpf(pw: bool, t: string)
    decreases |t|
  {
    t == "" || (!CpfAt(pw, t) && NoCpf(IsWord(t[0]), t[1..]))
  }

  lemma {:induction false} NoIpv4Means(s: string, i: nat, t: string)
    requires i <= |s| && t == s[i..]
    ensures NoIpv4(WordBefore(s, i), t) <==> forall j :: i <= j < |s| ==> Ipv4At(WordBefore(s, j), s[j..]).None?
    decreases |s| - i
  {
    if i < |s| {
      NoIpv4Means(s, i + 1, s[i + 1..]);
      assert t[1..] == s[i + 1..];
    }
  }

  lemma NoIpv4IsExact(s: string)
    ensures NoIpv4(false, s) <==> !ContainsIpv4(s)
  {
    NoIpv4Means(s, 0, s);
    forall j | 0 <= j < |s|
      ensures Ipv4At(WordBefore(s, j), s[j..]).Some? <==> exists q :: IsIpv4(WordBefore(s, j), s[j..], q)
    {
      var pw, t := WordBefore(s, j), s[j..];
      Ipv4AtIsIpv4(pw, t);
      if q :| IsIpv4(pw, t, q) { Ipv4AtFinds(pw, t, q); }
    }
  }

  lemma {:induction false} NoCpfMeans(s: string, i: nat, t: string)
    requires i <= |s| && t == s[i..]
    ensures NoCpf(WordBefore(s, i), t) <==> forall j :: i <= j < |s| ==> !CpfAt(WordBefore(s, j), s[j..])
    decreases |s| - i
  {
    if i < |s| {
      NoCpfMeans(s, i + 1, s[i + 1..]);
      assert t[1..] == s[i + 1..];
    }
  }

  lemma NoCpfIsExact(s: string)
    ensures NoCpf(false, s) <==> !ContainsCpf(s)
  {
    NoCpfMeans(s, 0, s);
  }

  // ------------------------------------------------------------ what matches see

  predicate IsDotted(c: char) { IsDigit(c) || c == '.' }

  /** `a` and `b` go on in the same way after their first `n` characters, as far
      as a word boundary can tell. */
  predicate SameEnd(a: string, b: string, n: nat)
    requires n <= |a| && n <= |b|
  {
    EndsWord(a, n) == EndsWord(b, n)
  }

  lemma MatchIsDotted(pw: bool, t: string, q: Quad)
    requires IsIpv4(pw, t, q)
    ensures forall k :: 0 <= k < q.n ==> IsDotted(t[k])
    ensures q.n >= 7 && IsDigit(t[0]) && IsDigit(t[q.n - 1])
  {
  }

  /** Whether a match of length `n` is there depends on `n` characters and on
      what ends it. */
  lemma MatchIsLocal(pw: bool, a: string, b: string, q: Quad)
    requires IsIpv4(pw, a, q) && q.n <= |b| && a[..q.n] == b[..q.n] && SameEnd(a, b, q.n)
    ensures IsIpv4(pw, b, q)
  {
    assert forall k :: 0 <= k < q.n ==> a[..q.n][k] == a[k] && b[..q.n][k] == b[k];
  }

  /** The first `n` characters could be those of a match. */
  ghost predicate DottedPrefix(t: string, n: nat) {
    0 < n <= |t| && IsDigit(t[n - 1]) && forall k :: 0 <= k < n ==> IsDotted(t[k])
  }

  ghost predicate Agree(a: string, b: string, n: nat) {
    n <= |a| && n <= |b| && a[..n] == b[..n] && SameEnd(a, b, n)
  }

  /** `a` has no match at its start if it agrees with `b`, which has none, on
      every prefix that could be one. */
  lemma NoMatchCarries(pw: bool, a: string, b: string)
    requires Ipv4At(pw, b).None?
    requires forall n :: DottedPrefix(a, n) ==> Agree(a, b, n)
    ensures Ipv4At(pw, a).None?
  {
    if Ipv4At(pw, a).Some? {
      var q := Ipv4At(pw, a).value;
      Ipv4AtIsIpv4(pw, a);
      MatchIsDotted(pw, a, q);
      assert DottedPrefix(a, q.n);
      MatchIsLocal(pw, a, b, q);
      Ipv4AtFinds(pw, b, q);
    }
  }

  lemma DottedTail(c: char, tail: string, n: nat)
    requires n > 1 && DottedPrefix([c] + tail, n)
    ensures DottedPrefix(tail, n - 1)
  {
    assert forall k :: 0 <= k < |tail| ==> tail[k] == ([c] + tail)[k + 1];
  }

  lemma AgreeCons(c: char, a: string, b: string, n: nat)
    requires n > 0 && Agree(a, b, n - 1)
    ensures Agree([c] + a, [c] + b, n)
  {
    assert ([c] + a)[..n] == [c] + a[..n - 1];
    assert ([c] + b)[..n] == [c] + b[..n - 1];
  }

  lemma NoMatchWithoutDigits(pw: bool, t: string)
    requires |t| >= 1 && (!IsDigit(t[0]) || (|t| >= 2 && !IsDotted(t[1])))
    ensures Ipv4At(pw, t).None?
  {
    if Ipv4At(pw, t).Some? {
      Ipv4AtIsIpv4(pw, t);
      MatchIsDotted(pw, t, Ipv4At(pw, t).value);
    }
  }

  // --------------------------------------------------------- the IPv4 pass itself

  lemma SubIpv4First(pw: bool, t: string)
    ensures SubIpv4(pw, t) == "" <==> t == ""
    ensures t != "" ==> SubIpv4(pw, t)[0] == t[0]
  {
    if t != "" { Ipv4AtIsIpv4(pw, t); }
  }

  /** Up to a dotted prefix, the output of the IPv4 pass is its input. */
  lemma {:induction false} SubIpv4Agrees(pw: bool, t: string, n: nat)
    requires DottedPrefix(SubIpv4(pw, t), n)
    ensures Agree(SubIpv4(pw, t), t, n)
    decreases |t|
  {
    match Ipv4At(pw, t) {
      case None =>
        var tail := SubIpv4(IsWord(t[0]), t[1..]);
        SubIpv4First(IsWord(t[0]), t[1..]);
        assert t == [t[0]] + t[1..];
        if n > 1 {
          DottedTail(t[0], tail, n);
          SubIpv4Agrees(IsWord(t[0]), t[1..], n - 1);
        }
        AgreeCons(t[0], tail, t[1..], n);
      case Some(q) =>
        Ipv4AtIsIpv4(pw, t);
        KeptGroupsAgree(t, q, SubIpv4(true, t[q.n..]), n);
    }
  }

  lemma KeptGroupsAgree(t: string, q: Quad, rest: string, n: nat)
    requires IsIpv4(false, t, q) && DottedPrefix(t[..q.c] + ".x" + rest, n)
    ensures Agree(t[..q.c] + ".x" + rest, t, n)
  {
    var o := t[..q.c] + ".x" + rest;
    assert o[q.c] == '.' && o[q.c + 1] == 'x';
    assert n <= q.c;
    assert o[..q.c + 1] == t[..q.c + 1];
    assert o[n] == o[..q.c + 1][n] == t[..q.c + 1][n] == t[n];
    assert o[..n] == o[..q.c + 1][..n] == t[..n];
  }

  /** The three groups a match keeps, followed by `.x`, start no other match. */
  lemma MaskedOctetsAreClean(t: string, q: Quad, rest: string, k: nat, pw: bool)
    requires IsIpv4(false, t, q) && k < q.c + 2
    ensures Ipv4At(pw, (t[..q.c] + ".x" + rest)[k..]).None?
  {
    var o := t[..q.c] + ".x" + rest;
    assert o[q.c + 1] == 'x';
    if Ipv4At(pw, o[k..]).Some? {
      var r := Ipv4At(pw, o[k..]).value;
      Ipv4AtIsIpv4(pw, o[k..]);
      MatchIsDotted(pw, o[k..], r);
      // All three separators would have to lie among the two of the kept groups.
      assert false;
    }
  }

  lemma {:induction false} NoIpv4Glue(pw: bool, u: string, v: string)
    requires forall k :: 0 <= k < |u| ==> Ipv4At(if k == 0 then pw else IsWord(u[k - 1]), (u + v)[k..]).None?
    requires NoIpv4(if u == "" then pw else IsWord(u[|u| - 1]), v)
    ensures NoIpv4(pw, u + v)
    decreases |u|
  {
    if u == "" {
      assert u + v == v;
    } else {
      var w := u[1..];
      assert (u + v)[0..] == u + v && (u + v)[1..] == w + v;
      forall k | 0 <= k < |w| ensures Ipv4At(if k == 0 then IsWord(u[0]) else IsWord(w[k - 1]), (w + v)[k..]).None? {
        assert (w + v)[k..] == (u + v)[k + 1..];
      }
      NoIpv4Glue(IsWord(u[0]), w, v);
    }
  }

  /** The IPv4 pass leaves no IPv4 address. */
  lemma {:induction false} SubIpv4Cleans(pw: bool, t: string)
    ensures NoIpv4(pw, SubIpv4(pw, t))
    decreases |t|
  {
    if t != "" {
      var o := SubIpv4(pw, t);
      match Ipv4At(pw, t) {
        case None =>
          SubIpv4Cleans(IsWord(t[0]), t[1..]);
          assert o[1..] == SubIpv4(IsWord(t[0]), t[1..]);
          forall n | DottedPrefix(o, n) ensures Agree(o, t, n) {
            SubIpv4Agrees(pw, t, n);
          }
          NoMatchCarries(pw, o, t);
        case Some(q) =>
          Ipv4AtIsIpv4(pw, t);
          var u, v := t[..q.c] + ".x", SubIpv4(true, t[q.n..]);
          SubIpv4Cleans(true, t[q.n..]);
          forall k | 0 <= k < |u| ensures Ipv4At(if k == 0 then pw else IsWord(u[k - 1]), (u + v)[k..]).None? {
            MaskedOctetsAreClean(t, q, v, k, if k == 0 then pw else IsWord(u[k - 1]));
          }
          NoIpv4Glue(pw, u, v);
      }
    }
  }

  // ------------------------------------------------- the email pass keeps it so

  lemma SubMailFirst(t: string)
    ensures SubMail(t) == "" <==> t == ""
    ensures t != "" ==> SubMail(t)[0] == t[0]
  {
    if t != "" { MailAtIsMail(t); }
  }

  lemma MaskedMailStars(t: string)
    ensures t != "" && MailAt(t).Some? ==> |SubMail(t)| >= 2 && SubMail(t)[1] == '*'
  {
    if t != "" && MailAt(t).Some? {
      MailAtIsMail(t);
      assert SubMail(t)[1] == MailHead(t, MailAt(t).value)[1];
    }
  }

  /** A match can always be extended to the left by one more local character. */
  lemma MailExtendsLeft(t: string)
    requires t != "" && IsLocal(t[0]) && MailAt(t[1..]).Some?
    ensures MailAt(t).Some?
  {
    MailAtIsMail(t[1..]);
    var m := MailAt(t[1..]).value;
    var w := Mail(m.at + 1, m.dot + 1, m.n + 1);
    assert forall k :: 0 < k < |t| ==> t[k] == t[1..][k - 1];
    assert IsMail(t, w);
    MailAtIsGreedy(t, w);
  }

  /** Where no address starts, the email pass leaves dotted prefixes alone. */
  lemma {:induction false} SubMailAgrees(t: string, n: nat)
    requires DottedPrefix(SubMail(t), n)
    requires MailAt(t).None? || !IsWord(t[0])
    ensures Agree(SubMail(t), t, n)
    decreases |t|
  {
    SubMailFirst(t);
    match MailAt(t) {
      case None =>
        var tail := SubMail(t[1..]);
        SubMailFirst(t[1..]);
        assert t == [t[0]] + t[1..];
        if n > 1 {
          assert IsDotted(SubMail(t)[0]);
          assert MailAt(t[1..]).None? by { if MailAt(t[1..]).Some? { MailExtendsLeft(t); } }
          DottedTail(t[0], tail, n);
          SubMailAgrees(t[1..], n - 1);
        }
        AgreeCons(t[0], tail, t[1..], n);
      case Some(m) =>
        MaskedMailStars(t);
        assert false;
    }
  }

  /** Matches in the text after a masked address: `g` is its last label, `rest`
      the input that follows. */
  lemma {:induction false} LabelStaysClean(pw: bool, g: string, rest: string)
    requires AllWord(g)
    requires rest == "" || !IsWord(rest[0])
    requires NoIpv4(pw, g + rest)
    ensures NoIpv4(pw, g + SubMail(rest))
    decreases |rest|, 1
  {
    forall k | 0 <= k < |g| ensures Ipv4At(if k == 0 then pw else IsWord(g[k - 1]), (g + SubMail(rest))[k..]).None? {
      SuffixIsClean(pw, g, rest, k);
      LabelStartsClean(if k == 0 then pw else IsWord(g[k - 1]), g[k..], rest);
      assert (g + SubMail(rest))[k..] == g[k..] + SubMail(rest);
    }
    SuffixIsClean(pw, g, rest, |g|);
    assert g[|g|..] + rest == rest;
    SubMailKeepsClean(if g == "" then pw else IsWord(g[|g| - 1]), rest);
    NoIpv4Glue(pw, g, SubMail(rest));
  }

  lemma SuffixIsClean(pw: bool, g: string, rest: string, k: nat)
    requires k <= |g| && NoIpv4(pw, g + rest)
    ensures NoIpv4(if k == 0 then pw else IsWord(g[k - 1]), g[k..] + rest)
  {
    if k > 0 { NoIpv4Drop(pw, g + rest, k); }
    assert (g + rest)[k..] == g[k..] + rest;
  }

  lemma LabelStartsClean(pw: bool, g: string, rest: string)
    requires rest == "" || !IsWord(rest[0])
    requires g != "" && NoIpv4(pw, g + rest)
    ensures Ipv4At(pw, g + SubMail(rest)).None?
  {
    SubMailFirst(rest);
    forall n | DottedPrefix(SubMail(rest), n) ensures Agree(SubMail(rest), rest, n) { SubMailAgrees(rest, n); }
    forall n | DottedPrefix(g + SubMail(rest), n) ensures Agree(g + SubMail(rest), g + rest, n) {
      PrefixedAgrees(g, SubMail(rest), rest, n);
    }
    NoMatchCarries(pw, g + SubMail(rest), g + rest);
  }

  lemma {:induction false} PrefixedAgrees(g: string, a: string, b: string, n: nat)
    requires (a == "" <==> b == "") && (a != "" ==> a[0] == b[0])
    requires forall m :: DottedPrefix(a, m) ==> Agree(a, b, m)
    requires DottedPrefix(g + a, n)
    ensures Agree(g + a, g + b, n)
    decreases |g|
  {
    if g == "" {
      assert g + a == a && g + b == b;
    } else {
      var c, h := g[0], g[1..];
      assert g + a == [c] + (h + a) && g + b == [c] + (h + b);
      if n > 1 {
        DottedTail(c, h + a, n);
        PrefixedAgrees(h, a, b, n - 1);
      }
      AgreeCons(c, h + a, h + b, n);
    }
  }

  lemma {:induction false} NoIpv4Drop(pw: bool, t: string, i: nat)
    requires 0 < i <= |t| && NoIpv4(pw, t)
    ensures NoIpv4(IsWord(t[i - 1]), t[i..])
    decreases i
  {
    if i > 1 {
      NoIpv4Drop(IsWord(t[0]), t[1..], i - 1);
      assert t[1..][i - 1..] == t[i..];
    }
  }

  lemma UnmaskedStartsClean(pw: bool, t: string)
    requires t != "" && MailAt(t).None? && Ipv4At(pw, t).None?
    ensures Ipv4At(pw, SubMail(t)).None?
  {
    forall n | DottedPrefix(SubMail(t), n) ensures Agree(SubMail(t), t, n) { SubMailAgrees(t, n); }
    NoMatchCarries(pw, SubMail(t), t);
  }

  predicate AllWord(g: string) { forall k :: 0 <= k < |g| ==> IsWord(g[k]) }

  lemma MailLabel(t: string)
    requires MailAt(t).Some?
    ensures var m := MailAt(t).value;
      && m.dot < m.n <= |t| && t[m.dot] == '.'
      && AllWord(t[m.dot + 1..m.n])
      && (t[m.n..] == "" || !IsWord(t[m.n..][0]))
  {
    MailAtIsMail(t);
  }

  lemma UnmaskedIsClean(pw: bool, t: string)
    requires t != "" && MailAt(t).None? && Ipv4At(pw, t).None?
    requires NoIpv4(IsWord(t[0]), SubMail(t[1..]))
    ensures NoIpv4(pw, SubMail(t))
  {
    UnmaskedStartsClean(pw, t);
    assert SubMail(t)[0] == t[0] && SubMail(t)[1..] == SubMail(t[1..]);
  }

  lemma MaskedMailIsClean(pw: bool, t: string, m: Mail)
    requires t != "" && MailAt(t) == Some(m) && m.dot < m.n <= |t|
    requires NoIpv4(false, t[m.dot + 1..m.n] + SubMail(t[m.n..]))
    ensures NoIpv4(pw, SubMail(t))
  {
    MailAtIsMail(t);
    HeadIsClean(pw, t, m, t[m.dot + 1..m.n] + SubMail(t[m.n..]));
    SubMailMatch(t, m);
  }

  /** The email pass creates no IPv4 address. */
  lemma {:induction false} SubMailKeepsClean(pw: bool, t: string)
    requires NoIpv4(pw, t)
    ensures NoIpv4(pw, SubMail(t))
    decreases |t|, 0
  {
    if t != "" {
      if MailAt(t).None? {
        SubMailKeepsClean(IsWord(t[0]), t[1..]);
        UnmaskedIsClean(pw, t);
      } else {
        var m := MailAt(t).value;
        MailLabel(t);
        TailAfterDotIsClean(pw, t, m.dot, m.n);
        LabelStaysClean(false, t[m.dot + 1..m.n], t[m.n..]);
        MaskedMailIsClean(pw, t, m);
      }
    }
  }

  lemma TailAfterDotIsClean(pw: bool, t: string, dot: nat, n: nat)
    requires NoIpv4(pw, t) && dot < n <= |t| && t[dot] == '.'
    ensures NoIpv4(false, t[dot + 1..n] + t[n..])
  {
    NoIpv4Drop(pw, t, dot + 1);
    Cut(t, dot + 1, n);
  }

  lemma Cut(t: string, i: nat, n: nat)
    requires i <= n <= |t|
    ensures t[i..] == t[i..n] + t[n..]
  {
  }

  lemma SubMailMatch(t: string, m: Mail)
    requires t != "" && MailAt(t) == Some(m) && IsMail(t, m)
    ensures SubMail(t) == MailHead(t, m) + (t[m.dot + 1..m.n] + SubMail(t[m.n..]))
  {
  }

  /** The starred part of a masked address starts no match. */
  lemma HeadIsClean(pw: bool, t: string, m: Mail, v: string)
    requires IsMail(t, m) && NoIpv4(false, v)
    ensures NoIpv4(pw, MailHead(t, m) + v)
  {
    var u := MailHead(t, m);
    forall k | 0 <= k < |u| ensures Ipv4At(if k == 0 then pw else IsWord(u[k - 1]), (u + v)[k..]).None? {
      assert (u + v)[k..][0] == u[k] && (k + 1 < |u| ==> (u + v)[k..][1] == u[k + 1]);
      NoMatchWithoutDigits(if k == 0 then pw else IsWord(u[k - 1]), (u + v)[k..]);
    }
    NoIpv4Glue(pw, u, v);
  }

  // --------------------------------------------------- the CPF pass keeps it so

  lemma MaskedCpfStarts(pw: bool, t: string)
    ensures CpfAt(pw, t) ==> SubCpf(pw, t)[0] == '*'
  {
  }

  /** The CPF pass leaves star-free prefixes alone, up to and including what
      ends a number. */
  lemma {:induction false} SubCpfAgrees(pw: bool, t: string, n: nat)
    requires 0 < n <= |SubCpf(pw, t)| && IsDigit(SubCpf(pw, t)[n - 1])
    requires forall k :: 0 <= k < n ==> SubCpf(pw, t)[k] != '*'
    ensures Agree(SubCpf(pw, t), t, n)
    decreases |t|
  {
    MaskedCpfStarts(pw, t);
    if !CpfAt(pw, t) {
      var tail := SubCpf(IsWord(t[0]), t[1..]);
      assert t == [t[0]] + t[1..];
      if n > 1 {
        assert forall k :: 0 <= k < n - 1 ==> tail[k] == SubCpf(pw, t)[k + 1];
        SubCpfAgrees(IsWord(t[0]), t[1..], n - 1);
      }
      AgreeCons(t[0], tail, t[1..], n);
    }
  }

  lemma {:induction false} StarsGlue(pw: bool, v: string)
    requires NoIpv4(false, v) && NoCpf(false, v)
    ensures NoIpv4(pw, CPF_MASK + v) && NoCpf(pw, CPF_MASK + v)
  {
    StarsGlueFrom(pw, 0, v);
    assert CPF_MASK[0..] == CPF_MASK;
  }

  lemma {:induction false} StarsGlueFrom(pw: bool, i: nat, v: string)
    requires i <= |CPF_MASK| && NoIpv4(false, v) && NoCpf(false, v)
    requires i == |CPF_MASK| ==> !pw
    ensures NoIpv4(pw, CPF_MASK[i..] + v) && NoCpf(pw, CPF_MASK[i..] + v)
    decreases |CPF_MASK| - i
  {
    var x := CPF_MASK[i..] + v;
    if i == |CPF_MASK| {
      assert x == v;
    } else {
      assert x[0] == CPF_MASK[i] && x[1..] == CPF_MASK[i + 1..] + v;
      StarsGlueFrom(false, i + 1, v);
      NoMatchWithoutDigits(pw, x);
    }
  }

  /** The CPF pass removes every CPF and creates no IPv4 address. `pwOut` is the
      character before in the output; it differs from the input's `pw` only
      right after a masked CPF. */
  lemma {:induction false} SubCpfCleans(pw: bool, pwOut: bool, t: string)
    requires NoIpv4(pw, t)
    requires pw == pwOut || t == "" || !IsWord(t[0])
    ensures NoIpv4(pwOut, SubCpf(pw, t)) && NoCpf(pwOut, SubCpf(pw, t))
    decreases |t|
  {
    if t != "" {
      var o := SubCpf(pw, t);
      if CpfAt(pw, t) {
        NoIpv4Drop(pw, t, 14);
        SubCpfCleans(true, false, t[14..]);
        StarsGlue(pwOut, SubCpf(true, t[14..]));
      } else {
        SubCpfCleans(IsWord(t[0]), IsWord(t[0]), t[1..]);
        assert o[0] == t[0] && o[1..] == SubCpf(IsWord(t[0]), t[1..]);
        if IsDigit(t[0]) {
          CpfHeadCarries(pw, t);
          forall n | DottedPrefix(o, n) ensures Agree(o, t, n) {
            SubCpfAgrees(pw, t, n);
          }
          NoMatchCarries(pw, o, t);
        } else {
          NoMatchWithoutDigits(pwOut, o);
        }
      }
    }
  }

  lemma CpfHeadCarries(pw: bool, t: string)
    requires t != "" && !CpfAt(pw, t)
    ensures !CpfAt(pw, SubCpf(pw, t))
  {
    var o := SubCpf(pw, t);
    if CpfAt(pw, o) {
      SubCpfAgrees(pw, t, 14);
      assert forall k :: 0 <= k < 14 ==> o[..14][k] == o[k] && t[..14][k] == t[k];
    }
  }

  /** Nothing that looks like an IPv4 address or a CPF is left by the masks. */
  lemma MaskStringHidesAddressesAndCpfs(s: string)
    ensures !ContainsIpv4(MaskString(s)) && !ContainsCpf(MaskString(s))
  {
    SubIpv4Cleans(false, s);
    SubMailKeepsClean(false, MaskIpv4(s));
    SubCpfCleans(false, false, MaskEmail(MaskIpv4(s)));
    NoIpv4IsExact(MaskString(s));
    NoCpfIsExact(MaskString(s));
  }

  /** The IPv4 and CPF masks change nothing in a text without such a match, so
      masking twice is masking once. */
  lemma {:induction false} CleanIsUnchanged(pw: bool, t: string)
    ensures NoIpv4(pw, t) ==> SubIpv4(pw, t) == t
    ensures NoCpf(pw, t) ==> SubCpf(pw, t) == t
    decreases |t|
  {
    if t != "" {
      CleanIsUnchanged(IsWord(t[0]), t[1..]);
      assert t == [t[0]] + t[1..];
    }
  }

  lemma MasksAreIdempotent(s: string)
    ensures MaskIpv4(MaskIpv4(s)) == MaskIpv4(s)
    ensures MaskCpf(MaskString(s)) == MaskString(s) && MaskIpv4(MaskString(s)) == MaskString(s)
  {
    SubIpv4Cleans(false, s);
    CleanIsUnchanged(false, MaskIpv4(s));
    MaskStringHidesAddressesAndCpfs(s);
    NoIpv4IsExact(MaskString(s));
    NoCpfIsExact(MaskString(s));
    CleanIsUnchanged(false, MaskString(s));
  }
}
