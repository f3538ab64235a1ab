/** What a heartbeat does to the `actions` table: decoding rows into commands,
    applying reported results, and marking pending rows as sent
    (server/app/grpc_server/agent_servicer.py). */
module Commands {
  import opened Base
  import opened Actions
  import Targets

  datatype Payload =
    | NoPayload
    | BlockIpCommand(ip: string, durationSeconds: nat)
    | UnblockIpCommand(ip: string)
    | YaraScanCommand(path: string)
    | QuarantineFileCommand(path: string)
    | ClamavScanCommand(path: string)
    | Fail2banUnbanCommand(jail: string, ip: string)
    | Fail2banBanCommand(jail: string, ip: string)
    | RkhunterScanCommand
    | LynisAuditCommand
    | ChkrootkitScanCommand
    | AideCheckCommand
    | AddFirewallRuleCommand(backend: string, verb: string, protocol: string, port: string, cidr: string)
    | RemoveFirewallRuleCommand(backend: string, ruleId: string)

  datatype Command = Command(id: ActionId, payload: Payload, reason: string)

  /** A row's payload; an unknown kind and a malformed rule target have none. */
  function Decode(kind: Kind, target: string): Payload {
    match kind
    case BlockIp => BlockIpCommand(target, 0)
    case UnblockIp => UnblockIpCommand(target)
    case RunYaraScan => YaraScanCommand(target)
    case QuarantineFile => QuarantineFileCommand(target)
    case RunClamavScan => ClamavScanCommand(target)
    case Fail2banUnban => var (jail, ip) := Targets.Partition(target, ':'); Fail2banUnbanCommand(jail, ip)
    case Fail2banBan => var (jail, ip) := Targets.Partition(target, ':'); Fail2banBanCommand(jail, ip)
    case RunRkhunterScan => RkhunterScanCommand
    case RunLynisAudit => LynisAuditCommand
    case RunChkrootkitScan => ChkrootkitScanCommand
    case RunAideCheck => AideCheckCommand
    case AddFirewallRule =>
      var parts := Targets.SplitN(target, '|', 4);
      if |parts| == 5 then AddFirewallRuleCommand(parts[0], parts[1], parts[2], parts[3], parts[4]) else NoPayload
    case RemoveFirewallRule =>
      var (backend, ruleId) := Targets.Partition(target, '|'); RemoveFirewallRuleCommand(backend, ruleId)
    case OtherKind(_) => NoPayload
  }

  /** The reason travels inside the payload: commands without one (and
      `unblock_ip`, whose message has no such field) do not carry it. */
  function CommandOf(id: ActionId, a: Action): Command {
    var payload := Decode(a.kind, a.target);
    Command(id, payload, if payload.NoPayload? || payload.UnblockIpCommand? then "" else a.reason)
  }

  // -------------------------------------------------- what a command stands for

  /** Read from the agent's side: the kind and target of the row behind a
      payload. A rule to add needs four bars at least. */
  predicate StandsFor(p: Payload, kind: Kind, target: string) {
    match p
    case NoPayload => kind.OtherKind? || (kind == AddFirewallRule && Targets.Count(target, '|') < 4)
    case BlockIpCommand(ip, seconds) => kind == BlockIp && target == ip && seconds == 0
    case UnblockIpCommand(ip) => kind == UnblockIp && target == ip
    case YaraScanCommand(path) => kind == RunYaraScan && target == path
    case QuarantineFileCommand(path) => kind == QuarantineFile && target == path
    case ClamavScanCommand(path) => kind == RunClamavScan && target == path
    case Fail2banUnbanCommand(jail, ip) => kind == Fail2banUnban && Targets.IsCut(target, ':', jail, ip)
    case Fail2banBanCommand(jail, ip) => kind == Fail2banBan && Targets.IsCut(target, ':', jail, ip)
    case RkhunterScanCommand => kind == RunRkhunterScan
    case LynisAuditCommand => kind == RunLynisAudit
    case ChkrootkitScanCommand => kind == RunChkrootkitScan
    case AideCheckCommand => kind == RunAideCheck
    case AddFirewallRuleCommand(backend, verb, protocol, port, cidr) =>
      kind == AddFirewallRule && Targets.IsFive(target, backend, verb, protocol, port, cidr)
    case RemoveFirewallRuleCommand(backend, ruleId) =>
      kind == RemoveFirewallRule && Targets.IsCut(target, '|', backend, ruleId)
  }

  predicate CarriesReason(p: Payload) {
    match p case NoPayload => false case UnblockIpCommand(_) => false case _ => true
  }

  /** The command tells the agent what the row says. */
  predicate Conveys(cmd: Command, a: Action) {
    && StandsFor(cmd.payload, a.kind, a.target)
    && cmd.reason == if CarriesReason(cmd.payload) then a.reason else ""
  }

  lemma DecodeCutIff(p: Payload, kind: Kind, target: string)
    requires kind == Fail2banBan || kind == Fail2banUnban || kind == RemoveFirewallRule
    ensures p == Decode(kind, target) <==> StandsFor(p, kind, target)
  {
    var sep := if kind == RemoveFirewallRule then '|' else ':';
    match p
    case Fail2banUnbanCommand(jail, ip) => Targets.PartitionIff(target, sep, jail, ip);
    case Fail2banBanCommand(jail, ip) => Targets.PartitionIff(target, sep, jail, ip);
    case RemoveFirewallRuleCommand(backend, ruleId) => Targets.PartitionIff(target, sep, backend, ruleId);
    case _ =>
  }

  lemma DecodeAddRuleIff(p: Payload, target: string)
    ensures p == Decode(AddFirewallRule, target) <==> StandsFor(p, AddFirewallRule, target)
  {
    FiveParts(target);
    match p
    case AddFirewallRuleCommand(backend, verb, protocol, port, cidr) =>
      Targets.SplitFiveIff(target, backend, verb, protocol, port, cidr);
      Targets.FiveAre(Targets.SplitN(target, '|', 4), backend, verb, protocol, port, cidr);
    case _ =>
  }

  lemma FiveParts(target: string)
    ensures |Targets.SplitN(target, '|', 4)| == 5 <==> Targets.Count(target, '|') >= 4
  {
    Targets.SplitParts(target, '|', 4);
  }

  /** Every kind of row is decoded into the payload that stands for it, and into
      no other. */
  lemma DecodeIff(p: Payload, kind: Kind, target: string)
    ensures p == Decode(kind, target) <==> StandsFor(p, kind, target)
  {
    if kind == AddFirewallRule {
      DecodeAddRuleIff(p, target);
    } else if kind == Fail2banBan || kind == Fail2banUnban || kind == RemoveFirewallRule {
      DecodeCutIff(p, kind, target);
    }
  }

  lemma CommandIff(cmd: Command, id: ActionId, a: Action)
    ensures cmd == CommandOf(id, a) <==> cmd.id == id && Conveys(cmd, a)
  {
    DecodeIff(cmd.payload, a.kind, a.target);
    DecodeIff(Decode(a.kind, a.target), a.kind, a.target);
  }

  /** The agent receives exactly the fields the operator's validated request
      named, for every request that packs several fields into one target. */
  lemma DecodeRecoversBan(ban: Targets.BanRequest)
    requires Targets.ValidJail(ban.jail)
    ensures Decode(Fail2banBan, Targets.BanTarget(ban)) == Fail2banBanCommand(ban.jail, ban.ip)
    ensures Decode(Fail2banUnban, Targets.BanTarget(ban)) == Fail2banUnbanCommand(ban.jail, ban.ip)
  {
    Targets.BanRoundTrip(ban);
  }

  lemma DecodeRecoversAddRule(add: Targets.AddRule)
    requires Targets.ValidPort(add.port)
    ensures Decode(AddFirewallRule, Targets.AddRuleTarget(add))
         == AddFirewallRuleCommand(Targets.BackendName(add.backend), Targets.VerbName(add.verb),
                                   Targets.ProtocolName(add.protocol), add.port, add.cidr)
  {
    Targets.AddRuleRoundTrip(add);
  }

  lemma DecodeRecoversRemoveRule(remove: Targets.RemoveRule)
    ensures Decode(RemoveFirewallRule, Targets.RemoveRuleTarget(remove))
         == RemoveFirewallRuleCommand(Targets.BackendName(remove.backend), remove.ruleId)
  {
    Targets.RemoveRuleRoundTrip(remove);
  }

  /** An open row of this host and kind that was made for request `r`. */
  ghost predicate IsOpenFor<R>(
    t: Table, id: ActionId, host: HostId, kind: Kind, requests: map<ActionId, R>, r: R)
  {
    && id in t && id in requests && requests[id] == r
    && t[id].host == host && t[id].kind == kind && IsOpen(t[id])
  }

  lemma OccupiedIffMadeFor<R>(
    t: Table, host: HostId, kind: Kind, requests: map<ActionId, R>, target: string, r: R)
    requires forall id | id in t && t[id].kind == kind && IsOpen(t[id]) ::
      id in requests && (t[id].target == target <==> requests[id] == r)
    ensures Occupied(t, host, kind, Some(target), OPEN) <==> exists id :: IsOpenFor(t, id, host, kind, requests, r)
  {
    if id :| id in t && Occupies(t[id], host, kind, Some(target), OPEN) {
      assert IsOpenFor(t, id, host, kind, requests, r);
    }
    if id :| IsOpenFor(t, id, host, kind, requests, r) {
      assert Occupies(t[id], host, kind, Some(target), OPEN);
    }
  }

  /** In a table whose open rows of a kind were made for validated requests, the
      duplicate check by target finds a row exactly when an open one was made for
      an equal request for the same host. */
  lemma BanDuplicateIffEqual(
    t: Table, host: HostId, kind: Kind, requests: map<ActionId, Targets.BanRequest>, ban: Targets.BanRequest)
    requires Targets.ValidJail(ban.jail)
    requires forall id | id in t && t[id].kind == kind && IsOpen(t[id]) ::
      id in requests && Targets.ValidJail(requests[id].jail) && t[id].target == Targets.BanTarget(requests[id])
    ensures Occupied(t, host, kind, Some(Targets.BanTarget(ban)), OPEN) <==>
      exists id :: IsOpenFor(t, id, host, kind, requests, ban)
  {
    forall id | id in t && t[id].kind == kind && IsOpen(t[id])
      ensures t[id].target == Targets.BanTarget(ban) <==> requests[id] == ban
    {
      Targets.BanIsInjective(requests[id], ban);
    }
    OccupiedIffMadeFor(t, host, kind, requests, Targets.BanTarget(ban), ban);
  }

  lemma AddRuleDuplicateIffEqual(
    t: Table, host: HostId, requests: map<ActionId, Targets.AddRule>, add: Targets.AddRule)
    requires Targets.ValidPort(add.port)
    requires forall id | id in t && t[id].kind == AddFirewallRule && IsOpen(t[id]) ::
      id in requests && Targets.ValidPort(requests[id].port) && t[id].target == Targets.AddRuleTarget(requests[id])
    ensures Occupied(t, host, AddFirewallRule, Some(Targets.AddRuleTarget(add)), OPEN) <==>
      exists id :: IsOpenFor(t, id, host, AddFirewallRule, requests, add)
  {
    forall id | id in t && t[id].kind == AddFirewallRule && IsOpen(t[id])
      ensures t[id].target == Targets.AddRuleTarget(add) <==> requests[id] == add
    {
      Targets.AddRuleIsInjective(requests[id], add);
    }
    OccupiedIffMadeFor(t, host, AddFirewallRule, requests, Targets.AddRuleTarget(add), add);
  }

  lemma RemoveRuleDuplicateIffEqual(
    t: Table, host: HostId, requests: map<ActionId, Targets.RemoveRule>, remove: Targets.RemoveRule)
    requires forall id | id in t && t[id].kind == RemoveFirewallRule && IsOpen(t[id]) ::
      id in requests && t[id].target == Targets.RemoveRuleTarget(requests[id])
    ensures Occupied(t, host, RemoveFirewallRule, Some(Targets.RemoveRuleTarget(remove)), OPEN) <==>
      exists id :: IsOpenFor(t, id, host, RemoveFirewallRule, requests, remove)
  {
    forall id | id in t && t[id].kind == RemoveFirewallRule && IsOpen(t[id])
      ensures t[id].target == Targets.RemoveRuleTarget(remove) <==> requests[id] == remove
    {
      Targets.RemoveRuleIsInjective(requests[id], remove);
    }
    OccupiedIffMadeFor(t, host, RemoveFirewallRule, requests, Targets.RemoveRuleTarget(remove), remove);
  }

  // ----------------------------------------------------------------- results

  datatype ResultStatus = Unspecified | Ok | FailedResult | Unsupported

  /** A reported id; the server skips one that is not a UUID. */
  datatype CommandId = Uuid(id: ActionId) | Malformed(text: string)

  datatype CommandResult = CommandResult(
    commandId: CommandId, status: ResultStatus, message: string, executedAt: Option<Time>)

  function Outcome(a: Action, r: CommandResult, now: Time): Action {
    var b := match r.status
      case Ok => a.(status := Executed)
      case FailedResult => a.(status := Failed, error := Some(r.message))
      case Unsupported => a.(status := Failed, error := Some("unsupported: " + r.message))
      case Unspecified => a;
    b.(executedAt := if r.executedAt.Some? then r.executedAt else Some(now))
  }

  /** Does this result reach row `id` of a table, when reported by `host`? */
  predicate Reaches(t: Table, host: HostId, r: CommandResult, id: ActionId) {
    r.commandId == Uuid(id) && id in t && t[id].host == host
  }

  function ApplyResult(t: Table, host: HostId, r: CommandResult, now: Time): Table {
    if r.commandId.Uuid? && Reaches(t, host, r, r.commandId.id)
    then t[r.commandId.id := Outcome(t[r.commandId.id], r, now)]
    else t
  }

  function ApplyResults(t: Table, host: HostId, results: seq<CommandResult>, now: Time): Table {
    if results == [] then t
    else ApplyResult(ApplyResults(t, host, results[..|results| - 1], now), host, results[|results| - 1], now)
  }

  /** Results change no row's identity, touch only the reporter's rows, and a
      row's status moves only under a result that names it. */
  lemma {:induction false} ApplyResultsFrame(t: Table, host: HostId, results: seq<CommandResult>, now: Time)
    ensures var u := ApplyResults(t, host, results, now);
      && u.Keys == t.Keys
      && forall id :: id in t ==>
           && SameKey(t[id], u[id]) && t[id].reason == u[id].reason
           && (u[id] == t[id] || (t[id].host == host && exists r :: r in results && r.commandId == Uuid(id)))
  {
    if results != [] {
      var last := |results| - 1;
      ApplyResultsFrame(t, host, results[..last], now);
      assert forall r :: r in results[..last] ==> r in results;
      assert results[last] in results;
    }
  }

  /** The last result that names a row and carries a status decides the row. */
  lemma {:induction false} LastResultDecides(
    t: Table, host: HostId, results: seq<CommandResult>, now: Time, id: ActionId, k: nat)
    requires id in t && t[id].host == host
    requires k < |results| && results[k].commandId == Uuid(id) && results[k].status != Unspecified
    requires forall j :: k < j < |results| && results[j].commandId == Uuid(id) ==> results[j].status == Unspecified
    ensures id in ApplyResults(t, host, results, now)
    ensures var a := ApplyResults(t, host, results, now)[id]; var r := results[k];
      && a.status == (if r.status == Ok then Executed else Failed)
      && (r.status == FailedResult ==> a.error == Some(r.message))
      && (r.status == Unsupported ==> a.error == Some("unsupported: " + r.message))
  {
    var last := |results| - 1;
    ApplyResultsFrame(t, host, results[..last], now);
    if k < last {
      LastResultDecides(t, host, results[..last], now, id, k);
    }
  }

  /** Without a result that names the row and carries a status, it keeps its
      status: the other half of `LastResultDecides`. */
  lemma {:induction false} UnnamedRowKeepsStatus(
    t: Table, host: HostId, results: seq<CommandResult>, now: Time, id: ActionId)
    requires id in t
    requires t[id].host != host || forall r :: r in results && r.commandId == Uuid(id) ==> r.status == Unspecified
    ensures id in ApplyResults(t, host, results, now)
    ensures ApplyResults(t, host, results, now)[id].status == t[id].status
    ensures ApplyResults(t, host, results, now)[id].error == t[id].error
  {
    ApplyResultsFrame(t, host, results, now);
    if results != [] && t[id].host == host {
      var last := |results| - 1;
      ApplyResultsFrame(t, host, results[..last], now);
      assert forall r :: r in results[..last] ==> r in results;
      assert results[last] in results;
      UnnamedRowKeepsStatus(t, host, results[..last], now, id);
    }
  }

  ghost predicate NamedWithStatus(host: HostId, row: Action, results: seq<CommandResult>, id: ActionId) {
    row.host == host && exists k ::
      0 <= k < |results| && results[k].commandId == Uuid(id) && results[k].status != Unspecified
  }

  /** The index of the last result that names `id` with a status. */
  lemma {:induction false} LastNamed(results: seq<CommandResult>, id: ActionId, k: nat) returns (last: nat)
    requires k < |results| && results[k].commandId == Uuid(id) && results[k].status != Unspecified
    ensures k <= last < |results| && results[last].commandId == Uuid(id) && results[last].status != Unspecified
    ensures forall j :: last < j < |results| && results[j].commandId == Uuid(id) ==> results[j].status == Unspecified
    decreases |results| - k
  {
    last := k;
    if j :| k < j < |results| && results[j].commandId == Uuid(id) && results[j].status != Unspecified {
      last := LastNamed(results, id, j);
    }
  }

  /** `reverted` is not final: a reverted row stays reverted through a heartbeat
      exactly when the heartbeat reports no status for it. */
  lemma RevertedStaysIff(t: Table, host: HostId, results: seq<CommandResult>, now: Time, id: ActionId)
    requires id in t && t[id].status == Reverted
    ensures id in ApplyResults(t, host, results, now)
    ensures ApplyResults(t, host, results, now)[id].status == Reverted <==> !NamedWithStatus(host, t[id], results, id)
  {
    ApplyResultsFrame(t, host, results, now);
    if NamedWithStatus(host, t[id], results, id) {
      var k :| 0 <= k < |results| && results[k].commandId == Uuid(id) && results[k].status != Unspecified;
      var last := LastNamed(results, id, k);
      LastResultDecides(t, host, results, now, id, last);
    } else {
      UnnamedRowKeepsStatus(t, host, results, now, id);
    }
  }

  /** The last status that the results give for `id`. */
  function LastStatus(results: seq<CommandResult>, id: ActionId): Option<ResultStatus> {
    if results == [] then None
    else
      var r := results[|results| - 1];
      if r.commandId == Uuid(id) && r.status != Unspecified then Some(r.status)
      else LastStatus(results[..|results| - 1], id)
  }

  /** The status a row has after a heartbeat of `host` reported these results. */
  function StatusAfter(a: Action, host: HostId, results: seq<CommandResult>, id: ActionId): Status {
    if a.host != host then a.status
    else match LastStatus(results, id)
      case None => a.status
      case Some(last) => if last == Ok then Executed else Failed
  }

  lemma {:induction false} LastStatusDecides(
    t: Table, host: HostId, results: seq<CommandResult>, now: Time, id: ActionId)
    requires id in t
    ensures id in ApplyResults(t, host, results, now)
    ensures ApplyResults(t, host, results, now)[id].host == t[id].host
    ensures ApplyResults(t, host, results, now)[id].status == StatusAfter(t[id], host, results, id)
  {
    if results != [] {
      LastStatusDecides(t, host, results[..|results| - 1], now, id);
    }
  }

  /** The last result that names a row, with or without a status, decides when
      it counts as executed. */
  lemma {:induction false} LastReportDecidesTime(
    t: Table, host: HostId, results: seq<CommandResult>, now: Time, id: ActionId, k: nat)
    requires id in t && t[id].host == host
    requires k < |results| && results[k].commandId == Uuid(id)
    requires forall j :: k < j < |results| ==> results[j].commandId != Uuid(id)
    ensures id in ApplyResults(t, host, results, now)
    ensures ApplyResults(t, host, results, now)[id].executedAt ==
      if results[k].executedAt.Some? then results[k].executedAt else Some(now)
  {
    var last := |results| - 1;
    ApplyResultsFrame(t, host, results[..last], now);
    if k < last {
      LastReportDecidesTime(t, host, results[..last], now, id, k);
    }
  }

  // ----------------------------------------------------------------- sending

  function PendingIds(t: Table, host: HostId): set<ActionId> {
    set id | id in t && t[id].host == host && t[id].status == Pending
  }

  /** Marks the rows named by `ids` as sent. */
  function MarkSent(t: Table, ids: set<ActionId>, now: Time): Table {
    map id | id in t :: if id in ids then t[id].(status := Sent, sentAt := Some(now)) else t[id]
  }

  /** The table a heartbeat commits: results first, then every row of the host
      that is still pending is sent. */
  function AfterHeartbeat(t: Table, host: HostId, results: seq<CommandResult>, now: Time): Table {
    var applied := ApplyResults(t, host, results, now);
    MarkSent(applied, PendingIds(applied, host), now)
  }

  /** The commands are the decoded rows `ids`, each exactly once, in any order. */
  ghost predicate Dispatches(t: Table, ids: set<ActionId>, cmds: seq<Command>) {
    && (forall k :: 0 <= k < |cmds| ==>
      cmds[k].id in ids && cmds[k].id in t && cmds[k] == CommandOf(cmds[k].id, t[cmds[k].id]))
    && (forall id :: id in ids ==> exists k :: 0 <= k < |cmds| && cmds[k].id == id)
    && (forall j, k :: 0 <= j < k < |cmds| ==> cmds[j].id != cmds[k].id)
  }

  /** Every command of the answer conveys the row of its id. */
  ghost predicate AllConvey(cmds: seq<Command>, t: Table) {
    forall k :: 0 <= k < |cmds| ==> cmds[k].id in t && Conveys(cmds[k], t[cmds[k].id])
  }

  lemma DispatchedConvey(t: Table, ids: set<ActionId>, cmds: seq<Command>)
    requires Dispatches(t, ids, cmds)
    ensures AllConvey(cmds, t)
  {
    forall k | 0 <= k < |cmds| ensures Conveys(cmds[k], t[cmds[k].id]) {
      CommandIff(cmds[k], cmds[k].id, t[cmds[k].id]);
    }
  }

  /** Results change nothing that a command conveys. */
  lemma ConveyBeforeResults(t: Table, host: HostId, results: seq<CommandResult>, now: Time, cmds: seq<Command>)
    requires AllConvey(cmds, ApplyResults(t, host, results, now))
    ensures AllConvey(cmds, t)
  {
    ApplyResultsFrame(t, host, results, now);
  }

  lemma DispatchOneMore(t: Table, ids: set<ActionId>, cmds: seq<Command>, id: ActionId)
    requires Dispatches(t, ids, cmds) && id in t && id !in ids
    ensures Dispatches(t, ids + {id}, cmds + [CommandOf(id, t[id])])
  {
    var more := cmds + [CommandOf(id, t[id])];
    forall i | i in ids + {id} ensures exists k :: 0 <= k < |more| && more[k].id == i {
      if i in ids {
        var k :| 0 <= k < |cmds| && cmds[k].id == i;
        assert more[k].id == i;
      } else {
        assert more[|cmds|].id == i;
      }
    }
  }

  /** A heartbeat opens no row, keeps identities, and leaves none of the host's
      rows pending. */
  lemma HeartbeatFrame(t: Table, host: HostId, results: seq<CommandResult>, now: Time)
    ensures var u := AfterHeartbeat(t, host, results, now);
      && u.Keys == t.Keys
      && PendingIds(u, host) == {}
      && (forall id :: id in t ==> SameKey(t[id], u[id]) && t[id].reason == u[id].reason)
      && (forall id :: id in t && t[id].host != host ==> u[id] == t[id])
      && (forall id :: id in t && u[id].status == Sent && t[id].status != Sent ==>
            t[id].status == Pending && t[id].host == host && u[id].sentAt == Some(now))
      && (forall id :: id in t && StatusAfter(t[id], host, results, id) == Pending && t[id].host == host ==>
            u[id].status == Sent && u[id].sentAt == Some(now))
      && (forall id :: id in t && (StatusAfter(t[id], host, results, id) != Pending || t[id].host != host) ==>
            u[id].status == StatusAfter(t[id], host, results, id))
  {
    ApplyResultsFrame(t, host, results, now);
    var m := ApplyResults(t, host, results, now);
    forall id | id in t ensures m[id].status == StatusAfter(t[id], host, results, id) {
      LastStatusDecides(t, host, results, now, id);
    }
    forall id | id in t && m[id].status == Pending ensures t[id].status == Pending {
      StatusComesFromResults(t, host, results, now, id);
    }
    forall id | id in t && m[id].status == Sent ensures t[id].status == Sent {
      StatusComesFromResults(t, host, results, now, id);
    }
  }

  /** Results only ever move a row to executed or failed. */
  lemma StatusComesFromResults(t: Table, host: HostId, results: seq<CommandResult>, now: Time, id: ActionId)
    requires id in t
    ensures id in ApplyResults(t, host, results, now)
    ensures var s := ApplyResults(t, host, results, now)[id].status;
            if NamedWithStatus(host, t[id], results, id) then s == Executed || s == Failed else s == t[id].status
  {
    if NamedWithStatus(host, t[id], results, id) {
      var k :| 0 <= k < |results| && results[k].commandId == Uuid(id) && results[k].status != Unspecified;
      var last := LastNamed(results, id, k);
      LastResultDecides(t, host, results, now, id, last);
    } else {
      UnnamedRowKeepsStatus(t, host, results, now, id);
    }
  }

  // ---------------------------------------------------------------- operator

  function RevertReason(id: ActionId): string { "revert:" + Digits(id) }

  /** The number that decimal digits denote. */
  function Value(digits: string): nat {
    if digits == "" then 0
    else
      var last := digits[|digits| - 1];
      Value(digits[..|digits| - 1]) * 10 + if '0' <= last <= '9' then last as int - '0' as int else 0
  }

  /** The text says that it undoes row `id`. */
  predicate NamesReverted(reason: string, id: ActionId) {
    |reason| > 7 && reason[..7] == "revert:" && Value(reason[7..]) == id
  }

  lemma {:induction false} DigitsDenote(n: nat)
    ensures Digits(n) != "" && Value(Digits(n)) == n
  {
    if n < 10 {
      assert Digits(n)[..0] == "";
    } else {
      DigitsDenote(n / 10);
      assert Digits(n)[..|Digits(n)| - 1] == Digits(n / 10);
    }
  }

  lemma RevertReasonNames(id: ActionId)
    ensures NamesReverted(RevertReason(id), id)
  {
    DigitsDenote(id);
    assert RevertReason(id)[7..] == Digits(id) && RevertReason(id)[..7] == "revert:";
  }

  function Digits(n: nat): string {
    if n < 10 then [('0' as int + n) as char] else Digits(n / 10) + [('0' as int + n % 10) as char]
  }

  /** An operator's revert: any row becomes reverted, and an executed block also
      gets a pending `unblock_ip` for the same address. */
  function Revert(t: Table, id: ActionId, unblockId: ActionId, now: Time): Table
    requires id in t
  {
    var a := t[id];
    var u := t[id := a.(status := Reverted, revertedAt := Some(now))];
    if a.kind == BlockIp && a.status == Executed
    then u[unblockId := NewRow(a.host, UnblockIp, a.target, RevertReason(id))]
    else u
  }

  /** What a revert leaves: the row reverted and otherwise as it was, every other
      row as it was, and, exactly when the row was an executed block, a pending
      unblock of the same address on the same host that names it. */
  ghost predicate IsReverted(t: Table, u: Table, id: ActionId, unblockId: ActionId, now: Time)
    requires id in t && unblockId !in t
  {
    && id in u && u[id] == t[id].(status := Reverted, revertedAt := Some(now))
    && (forall other :: other in t && other != id ==> other in u && u[other] == t[other])
    && (forall other :: other in u && other !in t ==> other == unblockId)
    && (unblockId in u <==> t[id].kind == BlockIp && t[id].status == Executed)
    && (unblockId in u ==> IsUnblockOf(u[unblockId], t[id], id))
  }

  /** A fresh pending row that unblocks what the block of `id` blocked. */
  ghost predicate IsUnblockOf(b: Action, a: Action, id: ActionId) {
    IsFreshRow(b, a.host, UnblockIp, a.target, RevertReason(id))
  }

  lemma RevertIff(t: Table, id: ActionId, unblockId: ActionId, now: Time, u: Table)
    requires id in t && unblockId !in t
    ensures u == Revert(t, id, unblockId, now) <==> IsReverted(t, u, id, unblockId, now)
  {
    if IsReverted(t, u, id, unblockId, now) {
      var v := Revert(t, id, unblockId, now);
      assert u.Keys == v.Keys;
      assert forall k :: k in u ==> u[k] == v[k];
    }
  }
}
