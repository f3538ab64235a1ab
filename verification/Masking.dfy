/** The masks of server/app/services/pii.py on ASCII text, as the leftmost,
    non-overlapping substitutions that `re.sub` performs.

    A pass reads the text from left to right. All it needs to know about what it
    has already read is whether the previous character is a word character,
    because that decides the `\b` at the current position. */
module Masking {
  import opened Base

  predicate IsDigit(c: char) { '0' <= c <= '9' }
  predicate IsAlnum(c: char) { IsDigit(c) || 'a' <= c <= 'z' || 'A' <= c <= 'Z' }
  predicate IsWord(c: char) { IsAlnum(c) || c == '_' }
  predicate IsLocal(c: char) { IsAlnum(c) || c == '.' || c == '_' || c == '%' || c == '+' || c == '-' }
  predicate IsDomain(c: char) { IsAlnum(c) || c == '.' || c == '-' }

  /** Is there a word boundary before `t[n]`, given that `t[n - 1]` is a word character? */
  predicate EndsWord(t: string, n: nat)
    requires n <= |t|
  {
    n == |t| || !IsWord(t[n])
  }

  /** The character classes of the patterns. */
  datatype Class = Digit | Word | Local | Domain

  predicate In(c: char, cls: Class) {
    match cls case Digit => IsDigit(c) case Word => IsWord(c) case Local => IsLocal(c) case Domain => IsDomain(c)
  }

  /** The end of the longest run of a class from position `i` on. */
  function Run(t: string, cls: Class, i: nat): (j: nat)
    requires i <= |t|
    ensures i <= j <= |t|
    ensures forall k :: i <= k < j ==> In(t[k], cls)
    ensures j < |t| ==> !In(t[j], cls)
    decreases |t| - i
  {
    if i < |t| && In(t[i], cls) then Run(t, cls, i + 1) else i
  }

  // -------------------------------------------------------------------- IPv4

  /** The three separators and the end of a match. */
  datatype Quad = Quad(a: nat, b: nat, c: nat, n: nat)

  predicate Octet(t: string, i: nat, j: nat)
    requires i <= j <= |t|
  {
    1 <= j - i <= 3 && forall k :: i <= k < j ==> IsDigit(t[k])
  }

  /** `\b(\d{1,3}\.\d{1,3}\.\d{1,3})\.(\d{1,3})\b` matches `t[..q.n]`, its first
      group being `t[..q.c]`; `pw` tells whether a word character comes before. */
  predicate IsIpv4(pw: bool, t: string, q: Quad) {
    && q.a < q.b < q.c < q.n <= |t|
    && !pw && EndsWord(t, q.n)
    && t[q.a] == '.' && t[q.b] == '.' && t[q.c] == '.'
    && Octet(t, 0, q.a) && Octet(t, q.a + 1, q.b) && Octet(t, q.b + 1, q.c) && Octet(t, q.c + 1, q.n)
  }

  function Ipv4At(pw: bool, t: string): Option<Quad> {
    var a := Run(t, Digit, 0);
    if pw || !(1 <= a <= 3) || a == |t| || t[a] != '.' then None else
    var b := Run(t, Digit, a + 1);
    if !(1 <= b - a - 1 <= 3) || b == |t| || t[b] != '.' then None else
    var c := Run(t, Digit, b + 1);
    if !(1 <= c - b - 1 <= 3) || c == |t| || t[c] != '.' then None else
    var n := Run(t, Digit, c + 1);
    if !(1 <= n - c - 1 <= 3) || !EndsWord(t, n) then None else Some(Quad(a, b, c, n))
  }

  lemma RunIsOctet(t: string, i: nat, j: nat)
    requires i <= j <= |t| && Octet(t, i, j) && (j == |t| || !IsDigit(t[j]))
    ensures Run(t, Digit, i) == j
  {
  }

  lemma Ipv4AtIsIpv4(pw: bool, t: string)
    ensures Ipv4At(pw, t).Some? ==> IsIpv4(pw, t, Ipv4At(pw, t).value)
  {
  }

  lemma Ipv4AtFinds(pw: bool, t: string, q: Quad)
    requires IsIpv4(pw, t, q)
    ensures Ipv4At(pw, t) == Some(q)
  {
    RunIsOctet(t, 0, q.a);
    RunIsOctet(t, q.a + 1, q.b);
    RunIsOctet(t, q.b + 1, q.c);
    RunIsOctet(t, q.c + 1, q.n);
  }

  /** The scan finds a match exactly where the pattern has one, and there is at
      most one. */
  lemma Ipv4AtIff(pw: bool, t: string, q: Quad)
    ensures Ipv4At(pw, t) == Some(q) <==> IsIpv4(pw, t, q)
  {
    Ipv4AtIsIpv4(pw, t);
    if IsIpv4(pw, t, q) { Ipv4AtFinds(pw, t, q); }
  }

  function SubIpv4(pw: bool, t: string): string
    decreases |t|
  {
    if t == "" then ""
    else match Ipv4At(pw, t)
      case None => [t[0]] + SubIpv4(IsWord(t[0]), t[1..])
      case Some(q) => t[..q.c] + ".x" + SubIpv4(true, t[q.n..])
  }

  // --------------------------------------------------------------------- CPF

  /** `\b\d{3}\.\d{3}\.\d{3}-\d{2}\b` matches `t[..14]`. */
  predicate CpfAt(pw: bool, t: string) {
    && |t| >= 14 && !pw && EndsWord(t, 14)
    && (forall k | 0 <= k < 14 && k != 3 && k != 7 && k != 11 :: IsDigit(t[k]))
    && t[3] == '.' && t[7] == '.' && t[11] == '-'
  }

  const CPF_MASK := "***.***.***-**"

  function SubCpf(pw: bool, t: string): string
    decreases |t|
  {
    if t == "" then ""
    else if CpfAt(pw, t) then CPF_MASK + SubCpf(true, t[14..])
    else [t[0]] + SubCpf(IsWord(t[0]), t[1..])
  }

  // ------------------------------------------------------------------- email

  /** Positions of the `@`, of the last dot, and of the end of a match. */
  datatype Mail = Mail(at: nat, dot: nat, n: nat)

  /** The email pattern can match `t[..m.n]` with these positions. */
  predicate IsMail(t: string, m: Mail) {
    && 1 <= m.at && m.at + 2 <= m.dot && m.dot + 2 <= m.n <= |t|
    && (forall k :: 0 <= k < m.at ==> IsLocal(t[k])) && t[m.at] == '@'
    && (forall k :: m.at < k < m.dot ==> IsDomain(t[k])) && t[m.dot] == '.'
    && (forall k :: m.dot < k < m.n ==> IsWord(t[k]))
  }

  /** The last dot in `t[lo..hi]` that a word character follows. */
  function LastDot(t: string, lo: nat, hi: nat): (d: Option<nat>)
    requires hi <= |t|
    ensures d.Some? ==> lo <= d.value < hi && d.value + 1 < |t| && t[d.value] == '.' && IsWord(t[d.value + 1])
    ensures forall k :: lo <= k < hi && k + 1 < |t| && t[k] == '.' && IsWord(t[k + 1]) ==> d.Some? && k <= d.value
  {
    if hi <= lo then None
    else if hi < |t| && t[hi - 1] == '.' && IsWord(t[hi]) then Some(hi - 1)
    else LastDot(t, lo, hi - 1)
  }

  function MailAt(t: string): Option<Mail> {
    var at := Run(t, Local, 0);
    if at == 0 || at == |t| || t[at] != '@' then None else
    var end := Run(t, Domain, at + 1);
    match LastDot(t, at + 2, end)
    case None => None
    case Some(dot) => Some(Mail(at, dot, Run(t, Word, dot + 1)))
  }

  lemma RunEnds(t: string, cls: Class, i: nat, j: nat)
    requires i <= j <= |t| && (forall k :: i <= k < j ==> In(t[k], cls)) && (j == |t| || !In(t[j], cls))
    ensures Run(t, cls, i) == j
  {
  }

  lemma RunCovers(t: string, cls: Class, i: nat, j: nat)
    requires i <= j <= |t| && forall k :: i <= k < j ==> In(t[k], cls)
    ensures j <= Run(t, cls, i)
  {
  }

  /** The scan's match is the one the greedy pattern takes: the `@` is forced,
      the dot is the last possible one, and the end the farthest. It finds none
      exactly when no split of the text matches. */
  lemma MailAtIsGreedy(t: string, m: Mail)
    ensures MailAt(t).Some? ==> IsMail(t, MailAt(t).value)
    ensures MailAt(t).Some? ==> var n := MailAt(t).value.n; EndsWord(t, n)
    ensures IsMail(t, m) ==> MailAt(t).Some?
    ensures IsMail(t, m) ==> MailAt(t).value.at == m.at && m.dot <= MailAt(t).value.dot
    ensures IsMail(t, m) && m.dot == MailAt(t).value.dot ==> m.n <= MailAt(t).value.n
  {
    if IsMail(t, m) {
      RunEnds(t, Local, 0, m.at);
      RunCovers(t, Domain, m.at + 1, m.dot + 1);
      assert IsWord(t[m.dot + 1]);
      if m.dot == MailAt(t).value.dot { RunCovers(t, Word, m.dot + 1, m.n); }
    }
  }

  /** The masked form of a matched address, without the last label. */
  function MailHead(t: string, m: Mail): string
    requires IsMail(t, m)
  {
    [t[0]] + "***@" + [t[m.at + 1]] + "***."
  }

  lemma MailAtIsMail(t: string)
    ensures MailAt(t).Some? ==> IsMail(t, MailAt(t).value) && EndsWord(t, MailAt(t).value.n)
  {
    MailAtIsGreedy(t, Mail(0, 0, 0));
  }

  function SubMail(t: string): string
    decreases |t|
  {
    if t == "" then ""
    else match MailAt(t)
      case None => [t[0]] + SubMail(t[1..])
      case Some(m) =>
        MailAtIsMail(t);
        MailHead(t, m) + (t[m.dot + 1..m.n] + SubMail(t[m.n..]))
  }

  // -------------------------------------------------------------- mask_string

  function MaskIpv4(s: string): string { SubIpv4(false, s) }
  function MaskEmail(s: string): string { SubMail(s) }
  function MaskCpf(s: string): string { SubCpf(false, s) }

  function MaskString(s: string): string {
    if s == "" then s else MaskCpf(MaskEmail(MaskIpv4(s)))
  }

  predicate WordBefore(s: string, i: nat)
    requires i <= |s|
  {
    i > 0 && IsWord(s[i - 1])
  }

  /** Some position of `s` starts a match of the IPv4 pattern. */
  ghost predicate ContainsIpv4(s: string) {
    exists i :: 0 <= i < |s| && exists q :: IsIpv4(WordBefore(s, i), s[i..], q)
  }

  ghost predicate ContainsCpf(s: string) {
    exists i :: 0 <= i < |s| && CpfAt(WordBefore(s, i), s[i..])
  }
}
