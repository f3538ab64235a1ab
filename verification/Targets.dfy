/** The textual encodings of an action's target: what the REST routers store
    (server/app/api/fail2ban.py, server/app/api/firewall.py) and what the
    heartbeat handler reads back (server/app/grpc_server/agent_servicer.py). */
module Targets {

  /** Python's `s.partition(sep)` for a one-character separator, without the
      middle component: an absent separator leaves the second part empty. */
  function Partition(s: string, sep: char): (r: (string, string)) {
    if s == "" then ("", "")
    else if s[0] == sep then ("", s[1..])
    else var (head, tail) := Partition(s[1..], sep); ([s[0]] + head, tail)
  }

  /** Python's `s.split(sep, limit)` for a one-character separator. */
  function SplitN(s: string, sep: char, limit: nat): (parts: seq<string>)
    ensures 1 <= |parts| <= limit + 1
    decreases limit
  {
    if limit == 0 || sep !in s then [s]
    else var (head, tail) := Partition(s, sep); [head] + SplitN(tail, sep, limit - 1)
  }

  /** Python's `sep.join(parts)`. */
  function Join(parts: seq<string>, sep: char): string {
    if parts == [] then ""
    else if |parts| == 1 then parts[0]
    else parts[0] + [sep] + Join(parts[1..], sep)
  }

  /** Cutting at the first separator gives the two halves back exactly when the
      first half has no separator of its own. */
  lemma {:induction false} PartitionUndoesIff(a: string, sep: char, b: string)
    ensures Partition(a + [sep] + b, sep) == (a, b) <==> sep !in a
  {
    var s := a + [sep] + b;
    if a == "" {
      assert s[1..] == b;
    } else {
      PartitionUndoesIff(a[1..], sep, b);
      assert s[1..] == a[1..] + [sep] + b;
      var (head, tail) := Partition(s[1..], sep);
      assert a[0] != sep ==> Partition(s, sep) == ([a[0]] + head, tail);
      assert ([a[0]] + head)[1..] == head;
      assert a == [a[0]] + a[1..];
    }
  }

  /** `split` with the right limit undoes `join` when no part but the last
      holds the separator. */
  lemma {:induction false} SplitUndoesJoin(parts: seq<string>, sep: char)
    requires parts != []
    requires forall i :: 0 <= i < |parts| - 1 ==> sep !in parts[i]
    ensures SplitN(Join(parts, sep), sep, |parts| - 1) == parts
  {
    if |parts| > 1 {
      var rest := Join(parts[1..], sep);
      var s := parts[0] + [sep] + rest;
      assert s[|parts[0]|] == sep;
      PartitionUndoesIff(parts[0], sep, rest);
      SplitUndoesJoin(parts[1..], sep);
      assert [parts[0]] + parts[1..] == parts;
    }
  }

  /** The two sides of the first separator; without one, all is on the left. */
  predicate IsCut(s: string, sep: char, head: string, tail: string) {
    sep !in head && (s == head + [sep] + tail || (s == head && tail == ""))
  }

  lemma {:induction false} PartitionIsCut(s: string, sep: char)
    ensures IsCut(s, sep, Partition(s, sep).0, Partition(s, sep).1)
    ensures sep in s ==> s == Partition(s, sep).0 + [sep] + Partition(s, sep).1
  {
    if s != "" && s[0] != sep {
      PartitionIsCut(s[1..], sep);
      assert s == [s[0]] + s[1..];
    }
  }

  /** Cutting is what `partition` does, and nothing else is. */
  lemma PartitionIff(s: string, sep: char, head: string, tail: string)
    ensures Partition(s, sep) == (head, tail) <==> IsCut(s, sep, head, tail)
  {
    PartitionIsCut(s, sep);
    if IsCut(s, sep, head, tail) {
      if s == head + [sep] + tail {
        PartitionUndoesIff(head, sep, tail);
      } else {
        NoSeparator(s, sep);
      }
    }
  }

  lemma {:induction false} NoSeparator(s: string, sep: char)
    requires sep !in s
    ensures Partition(s, sep) == (s, "")
  {
    if s != "" {
      NoSeparator(s[1..], sep);
      assert s == [s[0]] + s[1..];
    }
  }

  /** How often the separator occurs. */
  function Count(s: string, sep: char): nat {
    if s == "" then 0 else (if s[0] == sep then 1 else 0) + Count(s[1..], sep)
  }

  lemma {:induction false} PartitionCounts(s: string, sep: char)
    ensures sep in s <==> Count(s, sep) > 0
    ensures sep in s ==> Count(Partition(s, sep).1, sep) == Count(s, sep) - 1
  {
    if s != "" {
      PartitionCounts(s[1..], sep);
    }
  }

  /** A bounded split cuts at the first separators, as many as the limit allows;
      joining the parts gives the text back. */
  lemma {:induction false} SplitParts(s: string, sep: char, limit: nat)
    ensures |SplitN(s, sep, limit)| == 1 + if Count(s, sep) < limit then Count(s, sep) else limit
    ensures Join(SplitN(s, sep, limit), sep) == s
    ensures forall i :: 0 <= i < |SplitN(s, sep, limit)| - 1 ==> sep !in SplitN(s, sep, limit)[i]
    decreases limit
  {
    PartitionCounts(s, sep);
    if limit > 0 && sep in s {
      var (head, tail) := Partition(s, sep);
      PartitionIsCut(s, sep);
      SplitParts(tail, sep, limit - 1);
      var rest := SplitN(tail, sep, limit - 1);
      var parts := [head] + rest;
      assert parts[1..] == rest && SplitN(s, sep, limit) == parts;
      PartitionIff(s, sep, head, tail);
    }
  }

  /** Five texts joined by bars, of which only the last may hold a bar. */
  predicate IsFive(s: string, a: string, b: string, c: string, d: string, e: string) {
    s == a + "|" + (b + "|" + (c + "|" + (d + "|" + e))) && '|' !in a && '|' !in b && '|' !in c && '|' !in d
  }

  lemma JoinFive(a: string, b: string, c: string, d: string, e: string)
    ensures Join([a, b, c, d, e], '|') == a + "|" + (b + "|" + (c + "|" + (d + "|" + e)))
  {
    assert [a, b, c, d, e][1..] == [b, c, d, e] && [b, c, d, e][1..] == [c, d, e];
    assert [c, d, e][1..] == [d, e] && [d, e][1..] == [e];
    assert Join([d, e], '|') == d + "|" + e;
    assert Join([c, d, e], '|') == c + "|" + (d + "|" + e);
    assert Join([b, c, d, e], '|') == b + "|" + (c + "|" + (d + "|" + e));
  }

  /** Splitting into five is that, and nothing else is. */
  lemma SplitFiveIff(s: string, a: string, b: string, c: string, d: string, e: string)
    ensures SplitN(s, '|', 4) == [a, b, c, d, e] <==> IsFive(s, a, b, c, d, e)
  {
    JoinFive(a, b, c, d, e);
    if SplitN(s, '|', 4) == [a, b, c, d, e] {
      SplitParts(s, '|', 4);
      assert [a, b, c, d, e][0] == a && [a, b, c, d, e][1] == b && [a, b, c, d, e][2] == c && [a, b, c, d, e][3] == d;
    }
    if IsFive(s, a, b, c, d, e) {
      SplitUndoesJoin([a, b, c, d, e], '|');
    }
  }

  // ---------------------------------------------------------------- requests

  datatype Backend = Ufw | Firewalld
  datatype Verb = Allow | Deny
  datatype Protocol = Tcp | Udp

  function BackendName(b: Backend): string { match b case Ufw => "ufw" case Firewalld => "firewalld" }
  function VerbName(v: Verb): string { match v case Allow => "allow" case Deny => "deny" }
  function ProtocolName(p: Protocol): string { match p case Tcp => "tcp" case Udp => "udp" }

  predicate IsDigit(c: char) { '0' <= c <= '9' }
  predicate IsAlnum(c: char) { IsDigit(c) || 'a' <= c <= 'z' || 'A' <= c <= 'Z' }

  /** A `$` at the end of a Python pattern also accepts one trailing newline. */
  function DropFinalNewline(s: string): string {
    if s != "" && s[|s| - 1] == '\n' then s[..|s| - 1] else s
  }

  /** The jail validator: an alphanumeric, then up to 63 of `[a-zA-Z0-9_-]`. */
  predicate ValidJail(jail: string) {
    var j := DropFinalNewline(jail);
    1 <= |j| <= 64 && |jail| <= 64 && IsAlnum(j[0])
    && forall c | c in j :: IsAlnum(c) || c == '_' || c == '-'
  }

  /** The port validator: digit groups separated by single `,` or `:`. */
  predicate ValidPort(port: string) {
    var p := DropFinalNewline(port);
    1 <= |p| && |port| <= 64 && IsDecimal(p[0]) && IsDecimal(p[|p| - 1])
    && (forall i | 0 <= i < |p| :: IsDecimal(p[i]) || p[i] == ',' || p[i] == ':')
    && (forall i | 0 < i < |p| :: IsDecimal(p[i]) || IsDecimal(p[i - 1]))
  }

  /** Python's `\d` also takes decimal digits of other scripts; which characters
      outside ASCII those are does not matter here, so all of them may be. */
  predicate IsDecimal(c: char) { IsDigit(c) || c > '\U{7F}' }

  datatype BanRequest = BanRequest(jail: string, ip: string)
  datatype AddRule = AddRule(backend: Backend, verb: Verb, protocol: Protocol, port: string, cidr: string)
  datatype RemoveRule = RemoveRule(backend: Backend, ruleId: string)

  function BanTarget(r: BanRequest): string { r.jail + ":" + r.ip }

  function AddRuleTarget(r: AddRule): string {
    Join([BackendName(r.backend), VerbName(r.verb), ProtocolName(r.protocol), r.port, r.cidr], '|')
  }

  function RemoveRuleTarget(r: RemoveRule): string { BackendName(r.backend) + "|" + r.ruleId }

  lemma NamesHaveNoBar(b: Backend, v: Verb, p: Protocol)
    ensures '|' !in BackendName(b) && '|' !in VerbName(v) && '|' !in ProtocolName(p)
  {
  }

  /** A validated jail name never holds the separator, whatever the address is. */
  lemma JailHasNoColon(jail: string)
    requires ValidJail(jail)
    ensures ':' !in jail
  {
    var j := DropFinalNewline(jail);
    forall i | 0 <= i < |jail| ensures jail[i] != ':' {
      if i < |j| { assert jail[i] == j[i] && j[i] in j; }
    }
  }

  lemma PortHasNoBar(port: string)
    requires ValidPort(port)
    ensures '|' !in port
  {
    var p := DropFinalNewline(port);
    forall i | 0 <= i < |port| ensures port[i] != '|' {
      if i < |p| { assert port[i] == p[i]; }
    }
  }

  /** fail2ban targets decode to the requested jail and address, including IPv6
      addresses, whose own colons come after the first one. */
  lemma BanRoundTrip(r: BanRequest)
    requires ValidJail(r.jail)
    ensures Partition(BanTarget(r), ':') == (r.jail, r.ip)
  {
    JailHasNoColon(r.jail);
    PartitionUndoesIff(r.jail, ':', r.ip);
    assert BanTarget(r) == r.jail + [':'] + r.ip;
  }

  lemma RemoveRuleRoundTrip(r: RemoveRule)
    ensures Partition(RemoveRuleTarget(r), '|') == (BackendName(r.backend), r.ruleId)
  {
    NamesHaveNoBar(r.backend, Allow, Tcp);
    PartitionUndoesIff(BackendName(r.backend), '|', r.ruleId);
    assert RemoveRuleTarget(r) == BackendName(r.backend) + ['|'] + r.ruleId;
  }

  lemma AddRuleRoundTrip(r: AddRule)
    requires ValidPort(r.port)
    ensures SplitN(AddRuleTarget(r), '|', 4)
         == [BackendName(r.backend), VerbName(r.verb), ProtocolName(r.protocol), r.port, r.cidr]
  {
    NamesHaveNoBar(r.backend, r.verb, r.protocol);
    PortHasNoBar(r.port);
    SplitUndoesJoin([BackendName(r.backend), VerbName(r.verb), ProtocolName(r.protocol), r.port, r.cidr], '|');
  }

  /** The stored text spells the request out, field by field. */
  lemma AddRuleIsSpelled(r: AddRule)
    requires ValidPort(r.port)
    ensures IsFive(AddRuleTarget(r),
                   if r.backend == Ufw then "ufw" else "firewalld", if r.verb == Allow then "allow" else "deny",
                   if r.protocol == Tcp then "tcp" else "udp", r.port, r.cidr)
  {
    AddRuleRoundTrip(r);
    SplitFiveIff(AddRuleTarget(r), BackendName(r.backend), VerbName(r.verb), ProtocolName(r.protocol), r.port, r.cidr);
  }

  lemma RemoveRuleIsSpelled(r: RemoveRule)
    ensures IsCut(RemoveRuleTarget(r), '|', if r.backend == Ufw then "ufw" else "firewalld", r.ruleId)
  {
    RemoveRuleRoundTrip(r);
    PartitionIff(RemoveRuleTarget(r), '|', BackendName(r.backend), r.ruleId);
  }

  /** Two validated requests of one kind share a target only if they are equal. */
  lemma BanIsInjective(a: BanRequest, b: BanRequest)
    requires ValidJail(a.jail) && ValidJail(b.jail)
    ensures BanTarget(a) == BanTarget(b) <==> a == b
  {
    BanRoundTrip(a); BanRoundTrip(b);
  }

  lemma AddRuleIsInjective(a: AddRule, b: AddRule)
    requires ValidPort(a.port) && ValidPort(b.port)
    ensures AddRuleTarget(a) == AddRuleTarget(b) <==> a == b
  {
    AddRuleRoundTrip(a); AddRuleRoundTrip(b);
    assert "ufw"[0] == 'u' && "firewalld"[0] == 'f';
    if AddRuleTarget(a) == AddRuleTarget(b) {
      var parts := SplitN(AddRuleTarget(a), '|', 4);
      FiveAre(parts, BackendName(a.backend), VerbName(a.verb), ProtocolName(a.protocol), a.port, a.cidr);
      FiveAre(parts, BackendName(b.backend), VerbName(b.verb), ProtocolName(b.protocol), b.port, b.cidr);
    }
  }

  lemma FiveAre(parts: seq<string>, a: string, b: string, c: string, d: string, e: string)
    ensures parts == [a, b, c, d, e] <==>
      |parts| == 5 && parts[0] == a && parts[1] == b && parts[2] == c && parts[3] == d && parts[4] == e
  {
  }

  lemma RemoveRuleIsInjective(a: RemoveRule, b: RemoveRule)
    ensures RemoveRuleTarget(a) == RemoveRuleTarget(b) <==> a == b
  {
    RemoveRuleRoundTrip(a); RemoveRuleRoundTrip(b);
    assert "ufw"[0] == 'u' && "firewalld"[0] == 'f';
  }
}
