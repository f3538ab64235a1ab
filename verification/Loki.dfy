/** The Loki client (server/app/services/loki.py): pushing events as labelled
    streams and reading them back. */
module Loki {
  import opened Base
  import opened Sorting

  // --------------------------------------------------------------------- push

  datatype IngestEvent = IngestEvent(
    eventId: string, hostId: string, timestamp: Time,
    source: string, severity: string, raw: string, fields: map<string, string>)

  datatype Labels = Labels(hostId: string, source: string, severity: string)

  /** A stored line: the JSON object `push` writes, or anything else that a
      reader may find. Absent keys of an object are `None`. */
  datatype Line =
    | Object(eventId: Option<string>, raw: Option<string>, fields: Option<map<string, string>>, text: string)
    | OtherJson(text: string)
    | NotJson(text: string)

  datatype Entry = Entry(at: Time, line: Line)

  datatype Stream = Stream(labels: Labels, values: seq<Entry>)

  function LabelsOf(e: IngestEvent): Labels { Labels(e.hostId, e.source, e.severity) }

  function TimestampOf(e: IngestEvent): int { e.timestamp }

  function Payload(e: IngestEvent): Line { Object(Some(e.eventId), Some(e.raw), Some(e.fields), "") }

  function Values(events: seq<IngestEvent>): seq<Entry> {
    seq(|events|, i requires 0 <= i < |events| => Entry(events[i].timestamp, Payload(events[i])))
  }

  /** The stream of one label set. */
  function StreamFor(events: seq<IngestEvent>, labels: Labels): Stream {
    Stream(labels, Values(StableSort(WithKey(events, LabelsOf, labels), TimestampOf)))
  }

  /** The label sets that occur, each once. */
  ghost predicate AreTheLabels(order: seq<Labels>, events: seq<IngestEvent>) {
    && Distinct(order)
    && (forall e :: e in events ==> LabelsOf(e) in order)
    && (forall l :: l in order ==> WithKey(events, LabelsOf, l) != [])
  }

  /** The label sets that occur, in the order of their first events. */
  function FirstSeen(events: seq<IngestEvent>): seq<Labels> {
    if events == [] then []
    else
      var front, l := FirstSeen(events[..|events| - 1]), LabelsOf(events[|events| - 1]);
      if l in front then front else front + [l]
  }

  lemma FirstSeenGrows(events: seq<IngestEvent>, n: nat)
    requires n < |events|
    ensures var front, l := FirstSeen(events[..n]), LabelsOf(events[n]);
      FirstSeen(events[..n + 1]) == if l in front then front else front + [l]
  {
    assert events[..n + 1][..n] == events[..n];
  }

  /** Each occurring label set is mapped to its events, in order. */
  ghost predicate IsGrouping(groups: map<Labels, seq<IngestEvent>>, events: seq<IngestEvent>) {
    forall l :: if l in groups then groups[l] != [] && groups[l] == WithKey(events, LabelsOf, l)
                else WithKey(events, LabelsOf, l) == []
  }

  lemma AddToGroup(groups: map<Labels, seq<IngestEvent>>, events: seq<IngestEvent>, n: nat)
    requires n < |events| && IsGrouping(groups, events[..n])
    ensures
      var l := LabelsOf(events[n]);
      IsGrouping(groups[l := (if l in groups then groups[l] else []) + [events[n]]], events[..n + 1])
  {
    forall l ensures WithKey(events[..n + 1], LabelsOf, l) ==
      WithKey(events[..n], LabelsOf, l) + if LabelsOf(events[n]) == l then [events[n]] else []
    {
      WithKeyGrows(events, n, LabelsOf, l);
    }
  }

  lemma LabelsAreGrouped(groups: map<Labels, seq<IngestEvent>>, events: seq<IngestEvent>)
    requires IsGrouping(groups, events)
    ensures forall e :: e in events ==> LabelsOf(e) in groups
  {
    forall e | e in events ensures LabelsOf(e) in groups {
      var i :| 0 <= i < |events| && events[i] == e;
      KeysAppear(events, LabelsOf, i);
    }
  }

  /** `_group_by_labels`; `order` is the insertion order of the dictionary. */
  method GroupByLabels(events: seq<IngestEvent>) returns (groups: map<Labels, seq<IngestEvent>>, order: seq<Labels>)
    ensures order == FirstSeen(events) && AreTheLabels(order, events)
    ensures IsGrouping(groups, events)
    ensures forall l :: l in groups <==> l in order
  {
    groups, order := map[], [];
    for i := 0 to |events|
      invariant Distinct(order) && order == FirstSeen(events[..i])
      invariant forall l :: l in groups <==> l in order
      invariant IsGrouping(groups, events[..i])
    {
      AddToGroup(groups, events, i);
      FirstSeenGrows(events, i);
      var labels := LabelsOf(events[i]);
      if labels !in groups {
        groups := groups[labels := []];
        order := order + [labels];
      }
      groups := groups[labels := groups[labels] + [events[i]]];
    }
    assert events[..|events|] == events;
    LabelsAreGrouped(groups, events);
  }

  /** The streams hold a permutation of the events, have pairwise different
      labels, and are each the stable time sort of the events with their labels. */
  ghost predicate IsPartition(streams: seq<Stream>, events: seq<IngestEvent>) {
    && multiset(Contents(streams)) == multiset(events)
    && (forall i, j :: 0 <= i < j < |streams| ==> streams[i].labels != streams[j].labels)
    && (forall i :: 0 <= i < |streams| ==> IsGroupOf(streams[i], events))
  }

  /** The label set and the line together hold the whole event. */
  ghost predicate Carries(labels: Labels, entry: Entry, e: IngestEvent) {
    && labels.hostId == e.hostId && labels.source == e.source && labels.severity == e.severity
    && entry.at == e.timestamp && entry.line.Object?
    && entry.line.eventId == Some(e.eventId) && entry.line.raw == Some(e.raw) && entry.line.fields == Some(e.fields)
  }

  ghost predicate AllCarried(s: Stream, events: seq<IngestEvent>) {
    |s.values| == |events| && forall j :: 0 <= j < |events| ==> Carries(s.labels, s.values[j], events[j])
  }

  ghost predicate IsGroupOf(s: Stream, events: seq<IngestEvent>) {
    && s.values != [] && AllCarried(s, RecoverAll(s))
    && IsStableSortOf(RecoverAll(s), WithKey(events, LabelsOf, s.labels), TimestampOf)
  }

  /** `push`: the streams of the request, or none for an empty batch. */
  method Push(events: seq<IngestEvent>) returns (streams: seq<Stream>)
    ensures AreTheLabels(FirstSeen(events), events) && ArePushed(streams, events, FirstSeen(events))
    ensures IsPartition(streams, events)
  {
    streams := [];
    if events == [] {
      PushPartitions([], events, []);
      return;
    }
    var groups, order := GroupByLabels(events);
    for i := 0 to |order|
      invariant ArePushed(streams, events, order[..i])
    {
      var group := groups[order[i]];
      OneMorePushed(streams, events, order, i);
      streams := streams + [Stream(order[i], Values(StableSort(group, TimestampOf)))];
    }
    assert order[..|order|] == order;
    PushPartitions(streams, events, order);
  }

  ghost predicate ArePushed(streams: seq<Stream>, events: seq<IngestEvent>, order: seq<Labels>) {
    && |streams| == |order|
    && forall i :: 0 <= i < |streams| ==> streams[i] == StreamFor(events, order[i])
  }

  lemma OneMorePushed(streams: seq<Stream>, events: seq<IngestEvent>, order: seq<Labels>, i: nat)
    requires i < |order| && ArePushed(streams, events, order[..i])
    ensures ArePushed(streams + [StreamFor(events, order[i])], events, order[..i + 1])
  {
  }

  // ------------------------------------------------------------- what is sent

  /** The event that a stored entry stands for. */
  function Recover(labels: Labels, entry: Entry): IngestEvent {
    IngestEvent(
      if entry.line.Object? && entry.line.eventId.Some? then entry.line.eventId.value else "",
      labels.hostId, entry.at, labels.source, labels.severity,
      if entry.line.Object? && entry.line.raw.Some? then entry.line.raw.value else entry.line.text,
      if entry.line.Object? && entry.line.fields.Some? then entry.line.fields.value else map[])
  }

  function RecoverAll(s: Stream): seq<IngestEvent> {
    seq(|s.values|, i requires 0 <= i < |s.values| => Recover(s.labels, s.values[i]))
  }

  function Contents(streams: seq<Stream>): seq<IngestEvent> {
    if streams == [] then [] else Contents(streams[..|streams| - 1]) + RecoverAll(streams[|streams| - 1])
  }

  lemma ValuesRecover(events: seq<IngestEvent>, labels: Labels)
    requires forall i :: 0 <= i < |events| ==> LabelsOf(events[i]) == labels
    ensures RecoverAll(Stream(labels, Values(events))) == events
  {
    forall i | 0 <= i < |events| ensures Recover(labels, Values(events)[i]) == events[i] {
    }
  }

  /** A stream gives back its events: those with its labels, by time, equal
      times in arrival order. */
  lemma StreamRecovers(events: seq<IngestEvent>, labels: Labels)
    ensures RecoverAll(StreamFor(events, labels)) == StableSort(WithKey(events, LabelsOf, labels), TimestampOf)
    ensures IsStableSortOf(RecoverAll(StreamFor(events, labels)), WithKey(events, LabelsOf, labels), TimestampOf)
  {
    var group := WithKey(events, LabelsOf, labels);
    var sorted := StableSort(group, TimestampOf);
    SortPermutes(group, TimestampOf);
    forall i | 0 <= i < |sorted| ensures LabelsOf(sorted[i]) == labels {
      assert sorted[i] in multiset(sorted);
    }
    ValuesRecover(sorted, labels);
    SortIsTheStableSort(group, TimestampOf, sorted);
  }

  lemma StreamCarries(events: seq<IngestEvent>, labels: Labels)
    ensures AllCarried(StreamFor(events, labels), RecoverAll(StreamFor(events, labels)))
  {
  }

  /** The groups of the given label sets, one after the other. */
  function Groups(events: seq<IngestEvent>, order: seq<Labels>): seq<IngestEvent> {
    if order == [] then []
    else Groups(events, order[..|order| - 1]) + WithKey(events, LabelsOf, order[|order| - 1])
  }

  lemma {:induction false} GroupsGrow(events: seq<IngestEvent>, e: IngestEvent, order: seq<Labels>)
    requires Distinct(order)
    ensures multiset(Groups(events + [e], order)) ==
      multiset(Groups(events, order)) + if LabelsOf(e) in order then multiset{e} else multiset{}
  {
    if order != [] {
      var front, last := order[..|order| - 1], order[|order| - 1];
      assert order == front + [last];
      GroupsGrow(events, e, front);
      OneGroupGrows(events, e, last);
      GroupsOfMore(events, front, last);
      GroupsOfMore(events + [e], front, last);
    }
  }

  lemma GroupsOfMore(events: seq<IngestEvent>, front: seq<Labels>, last: Labels)
    ensures multiset(Groups(events, front + [last])) == multiset(Groups(events, front)) +
      multiset(WithKey(events, LabelsOf, last))
  {
    assert (front + [last])[..|front|] == front;
  }

  lemma OneGroupGrows(events: seq<IngestEvent>, e: IngestEvent, l: Labels)
    ensures multiset(WithKey(events + [e], LabelsOf, l)) ==
      multiset(WithKey(events, LabelsOf, l)) + if LabelsOf(e) == l then multiset{e} else multiset{}
  {
    assert (events + [e])[..|events|] == events;
  }

  lemma {:induction false} NoGroups(order: seq<Labels>)
    ensures Groups([], order) == []
  {
    if order != [] {
      NoGroups(order[..|order| - 1]);
    }
  }

  lemma {:induction false} GroupsPartition(events: seq<IngestEvent>, order: seq<Labels>)
    requires Distinct(order) && forall e :: e in events ==> LabelsOf(e) in order
    ensures multiset(Groups(events, order)) == multiset(events)
  {
    if events == [] {
      NoGroups(order);
    } else {
      var front, last := events[..|events| - 1], events[|events| - 1];
      assert events == front + [last];
      GroupsPartition(front, order);
      GroupsGrow(front, last, order);
    }
  }

  lemma {:induction false} ContentsAreGroups(streams: seq<Stream>, events: seq<IngestEvent>, order: seq<Labels>)
    requires ArePushed(streams, events, order)
    ensures multiset(Contents(streams)) == multiset(Groups(events, order))
  {
    if streams != [] {
      var n := |streams| - 1;
      ContentsAreGroups(streams[..n], events, order[..n]);
      StreamRecovers(events, order[n]);
      SortPermutes(WithKey(events, LabelsOf, order[n]), TimestampOf);
    }
  }

  /** A push sends a permutation of its events, in streams with pairwise
      different labels that hold exactly the events with those labels. */
  lemma PushPartitions(streams: seq<Stream>, events: seq<IngestEvent>, order: seq<Labels>)
    requires AreTheLabels(order, events) && ArePushed(streams, events, order)
    ensures IsPartition(streams, events)
  {
    ContentsAreGroups(streams, events, order);
    GroupsPartition(events, order);
    forall i | 0 <= i < |streams| ensures IsGroupOf(streams[i], events) {
      StreamRecovers(events, order[i]);
      StreamCarries(events, order[i]);
      assert order[i] in order;
    }
  }

  // -------------------------------------------------------------------- query

  /** A stream of a response; labels may be missing. */
  datatype ReadStream = ReadStream(labels: map<string, string>, values: seq<Entry>)

  function Get(m: map<string, string>, key: string, otherwise: string): string {
    if key in m then m[key] else otherwise
  }

  function GetOr<T>(o: Option<T>, otherwise: T): T { if o.Some? then o.value else otherwise }

  /** The queried event, or `None` for a line whose JSON value has no keys. */
  function ReadEntry(hostId: string, labels: map<string, string>, entry: Entry): Option<IngestEvent> {
    var host, source, severity :=
      Get(labels, "host_id", hostId), Get(labels, "source", ""), Get(labels, "severity", "info");
    match entry.line
    case Object(eventId, raw, fields, text) =>
      Some(IngestEvent(GetOr(eventId, ""), host, entry.at, source, severity, GetOr(raw, text), GetOr(fields, map[])))
    case NotJson(text) => Some(IngestEvent("", host, entry.at, source, severity, text, map[]))
    case OtherJson(_) => None
  }

  predicate IsLabel(labels: map<string, string>, key: string, otherwise: string, value: string) {
    if key in labels then value == labels[key] else value == otherwise
  }

  /** The event says what the line and its labels say. A line that is not JSON is
      the raw text itself; a JSON value without keys is no event. */
  predicate IsRead(hostId: string, labels: map<string, string>, entry: Entry, e: IngestEvent) {
    && e.timestamp == entry.at
    && IsLabel(labels, "host_id", hostId, e.hostId)
    && IsLabel(labels, "source", "", e.source)
    && IsLabel(labels, "severity", "info", e.severity)
    && match entry.line
       case OtherJson(_) => false
       case NotJson(text) => e.eventId == "" && e.raw == text && e.fields == map[]
       case Object(eventId, raw, fields, text) =>
         && (match eventId case Some(id) => e.eventId == id case None => e.eventId == "")
         && (match raw case Some(line) => e.raw == line case None => e.raw == text)
         && (match fields case Some(found) => e.fields == found case None => e.fields == map[])
  }

  lemma ReadEntryIff(hostId: string, labels: map<string, string>, entry: Entry, e: IngestEvent)
    ensures ReadEntry(hostId, labels, entry) == Some(e) <==> IsRead(hostId, labels, entry, e)
  {
  }

  predicate IsReadableStream(s: ReadStream) {
    forall j :: 0 <= j < |s.values| ==> !s.values[j].line.OtherJson?
  }

  predicate IsReadable(streams: seq<ReadStream>) {
    forall i :: 0 <= i < |streams| ==> IsReadableStream(streams[i])
  }

  function ReadStreamEvents(hostId: string, s: ReadStream): seq<IngestEvent>
    requires IsReadableStream(s)
  {
    seq(|s.values|, i requires 0 <= i < |s.values| => ReadEntry(hostId, s.labels, s.values[i]).value)
  }

  /** Every entry of the response, in response order. */
  function ReadAll(hostId: string, streams: seq<ReadStream>): seq<IngestEvent>
    requires IsReadable(streams)
  {
    if streams == [] then []
    else ReadAll(hostId, streams[..|streams| - 1]) + ReadStreamEvents(hostId, streams[|streams| - 1])
  }

  ghost predicate AreReadFrom(hostId: string, s: ReadStream, events: seq<IngestEvent>) {
    && |events| == |s.values|
    && forall j :: 0 <= j < |events| ==> IsRead(hostId, s.labels, s.values[j], events[j])
  }

  /** One event for each line of the response, in response order. */
  ghost predicate AreRead(hostId: string, streams: seq<ReadStream>, events: seq<IngestEvent>)
    decreases |streams|
  {
    if streams == [] then events == []
    else
      var front, last := streams[..|streams| - 1], streams[|streams| - 1];
      var n := |events| - |last.values|;
      n >= 0 && AreRead(hostId, front, events[..n]) && AreReadFrom(hostId, last, events[n..])
  }

  lemma ReadStreamIff(hostId: string, s: ReadStream, events: seq<IngestEvent>)
    requires IsReadableStream(s)
    ensures events == ReadStreamEvents(hostId, s) <==> AreReadFrom(hostId, s, events)
  {
    forall j, e | 0 <= j < |s.values|
      ensures ReadEntry(hostId, s.labels, s.values[j]) == Some(e) <==> IsRead(hostId, s.labels, s.values[j], e)
    {
      ReadEntryIff(hostId, s.labels, s.values[j], e);
    }
    var all := ReadStreamEvents(hostId, s);
    forall j | 0 <= j < |all| ensures IsRead(hostId, s.labels, s.values[j], all[j]) {
      assert ReadEntry(hostId, s.labels, s.values[j]) == Some(all[j]);
    }
  }

  /** What a query sorts is exactly one event for each line it got. */
  lemma {:induction false} ReadAllIff(hostId: string, streams: seq<ReadStream>, events: seq<IngestEvent>)
    requires IsReadable(streams)
    ensures events == ReadAll(hostId, streams) <==> AreRead(hostId, streams, events)
  {
    if streams != [] {
      var front, last := streams[..|streams| - 1], streams[|streams| - 1];
      var n := |events| - |last.values|;
      if n >= 0 {
        ReadAllIff(hostId, front, events[..n]);
        ReadStreamIff(hostId, last, events[n..]);
        assert events == events[..n] + events[n..];
      }
    }
  }

  function Newest(e: IngestEvent): int { -e.timestamp }

  function Take<T>(s: seq<T>, n: nat): seq<T> { if n < |s| then s[..n] else s }

  /** The part of `query_for_host` after the response arrived; `None` is the
      error of reading keys of a JSON value that has none. */
  method QueryForHost(hostId: string, limit: nat, streams: seq<ReadStream>) returns (events: Option<seq<IngestEvent>>)
    ensures events.Some? <==> IsReadable(streams)
    ensures events.Some? ==> events.value == Take(StableSort(ReadAll(hostId, streams), Newest), limit)
    ensures forall all {:trigger AreRead(hostId, streams, all)} | events.Some? && AreRead(hostId, streams, all) ::
      events.value == Take(StableSort(all, Newest), limit)
  {
    var out := [];
    for i := 0 to |streams|
      invariant IsReadable(streams[..i])
      invariant out == ReadAll(hostId, streams[..i])
    {
      var stream := streams[i];
      ghost var before := out;
      for j := 0 to |stream.values|
        invariant forall k :: 0 <= k < j ==> !stream.values[k].line.OtherJson?
        invariant out == before + ReadStreamEvents(hostId, ReadStream(stream.labels, stream.values[..j]))
      {
        var event := ReadEntry(hostId, stream.labels, stream.values[j]);
        if event.None? {
          assert !IsReadableStream(streams[i]);
          return None;
        }
        out := out + [event.value];
        assert stream.values[..j + 1] == stream.values[..j] + [stream.values[j]];
      }
      assert stream.values[..|stream.values|] == stream.values;
      assert streams[..i + 1][..i] == streams[..i];
    }
    assert streams[..|streams|] == streams;
    events := Some(Take(StableSort(out, Newest), limit));
    forall all | AreRead(hostId, streams, all) ensures all == out { ReadAllIff(hostId, streams, all); }
  }

  ghost predicate NewestFirst(events: seq<IngestEvent>) {
    forall i, j :: 0 <= i < j < |events| ==> events[i].timestamp >= events[j].timestamp
  }

  ghost predicate NoneNewer(omitted: seq<IngestEvent>, kept: seq<IngestEvent>) {
    forall i, j :: 0 <= i < |omitted| && 0 <= j < |kept| ==> omitted[i].timestamp <= kept[j].timestamp
  }

  lemma CutNewestFirst(sorted: seq<IngestEvent>, n: nat)
    requires NewestFirst(sorted) && n <= |sorted|
    ensures NewestFirst(sorted[..n]) && NoneNewer(sorted[n..], sorted[..n])
    ensures multiset(sorted[..n]) + multiset(sorted[n..]) == multiset(sorted)
  {
    assert sorted == sorted[..n] + sorted[n..];
  }

  lemma SortIsNewestFirst(all: seq<IngestEvent>)
    ensures NewestFirst(StableSort(all, Newest))
  {
    SortSorts(all, Newest);
    var sorted := StableSort(all, Newest);
    forall i, j | 0 <= i < j < |sorted| ensures sorted[i].timestamp >= sorted[j].timestamp {
      assert Newest(sorted[i]) <= Newest(sorted[j]);
    }
  }

  /** A query answers with the `limit` most recent entries, newest first:
      together with what it omits they are all entries, and nothing omitted is
      newer than anything kept. */
  lemma NewestAreKept(all: seq<IngestEvent>, limit: nat) returns (omitted: seq<IngestEvent>)
    ensures
      var out := Take(StableSort(all, Newest), limit);
      && |out| == (if limit < |all| then limit else |all|)
      && NewestFirst(out) && NoneNewer(omitted, out)
      && multiset(out) + multiset(omitted) == multiset(all)
  {
    var sorted := StableSort(all, Newest);
    SortPermutes(all, Newest);
    SortIsNewestFirst(all);
    var n := if limit < |sorted| then limit else |sorted|;
    CutNewestFirst(sorted, n);
    omitted := sorted[n..];
    assert sorted[..n] == Take(sorted, limit);
  }

  // --------------------------------------------------------------- round trip

  /** The selector of a query; no `source` is the empty string. */
  predicate Selects(labels: Labels, hostId: string, source: string) {
    labels.hostId == hostId && (source == "" || labels.source == source)
  }

  function Select(streams: seq<Stream>, hostId: string, source: string): seq<Stream> {
    if streams == [] then []
    else
      var front, last := Select(streams[..|streams| - 1], hostId, source), streams[|streams| - 1];
      if Selects(last.labels, hostId, source) then front + [last] else front
  }

  function Matching(events: seq<IngestEvent>, hostId: string, source: string): seq<IngestEvent> {
    if events == [] then []
    else
      var front, last := Matching(events[..|events| - 1], hostId, source), events[|events| - 1];
      if Selects(LabelsOf(last), hostId, source) then front + [last] else front
  }

  function LabelMap(l: Labels): map<string, string> {
    map["host_id" := l.hostId, "source" := l.source, "severity" := l.severity]
  }

  /** A response shows the streams, with their entries in any order. */
  ghost predicate Shows(response: seq<ReadStream>, streams: seq<Stream>) {
    && |response| == |streams|
    && forall i :: 0 <= i < |streams| ==>
         && response[i].labels == LabelMap(streams[i].labels)
         && multiset(response[i].values) == multiset(streams[i].values)
  }

  lemma {:induction false} ReadPermuted(hostId: string, labels: map<string, string>, a: seq<Entry>, b: seq<Entry>)
    requires multiset(a) == multiset(b) && IsReadableStream(ReadStream(labels, a)) &&
      IsReadableStream(ReadStream(labels, b))
    ensures multiset(ReadStreamEvents(hostId, ReadStream(labels, a))) ==
      multiset(ReadStreamEvents(hostId, ReadStream(labels, b)))
    decreases |a|
  {
    if a == [] {
      assert |multiset(b)| == 0;
    } else {
      var i := RemoveOne(a, b);
      var last := [b[i]];
      assert a == a[..|a| - 1] + last;
      assert b == b[..i] + last + b[i + 1..];
      ReadPermuted(hostId, labels, a[..|a| - 1], b[..i] + b[i + 1..]);
      ReadSplits(hostId, labels, a[..|a| - 1], last);
      ReadSplits(hostId, labels, b[..i], b[i + 1..]);
      ReadSplits(hostId, labels, b[..i], last);
      ReadSplits(hostId, labels, b[..i] + last, b[i + 1..]);
    }
  }

  lemma ReadSplits(hostId: string, labels: map<string, string>, a: seq<Entry>, b: seq<Entry>)
    requires IsReadableStream(ReadStream(labels, a + b))
    requires IsReadableStream(ReadStream(labels, a)) && IsReadableStream(ReadStream(labels, b))
    ensures ReadStreamEvents(hostId, ReadStream(labels, a + b)) ==
      ReadStreamEvents(hostId, ReadStream(labels, a)) + ReadStreamEvents(hostId, ReadStream(labels, b))
  {
  }

  /** Every line is one that `push` writes. */
  predicate IsWritten(s: Stream) {
    forall j :: 0 <= j < |s.values| ==>
      var line := s.values[j].line;
      line.Object? && line.eventId.Some? && line.raw.Some? && line.fields.Some?
  }

  lemma ShownStreamReads(hostId: string, shown: ReadStream, s: Stream)
    requires IsWritten(s)
    requires shown.labels == LabelMap(s.labels) && multiset(shown.values) == multiset(s.values)
    ensures IsReadableStream(shown)
    ensures multiset(ReadStreamEvents(hostId, shown)) == multiset(RecoverAll(s))
  {
    forall j | 0 <= j < |shown.values| ensures !shown.values[j].line.OtherJson? {
      assert shown.values[j] in multiset(s.values);
    }
    var stored := ReadStream(shown.labels, s.values);
    ReadPermuted(hostId, shown.labels, shown.values, s.values);
    assert ReadStreamEvents(hostId, stored) == RecoverAll(s);
  }

  ghost predicate AreWritten(streams: seq<Stream>) {
    forall i :: 0 <= i < |streams| ==> IsWritten(streams[i])
  }

  ghost predicate AreStreamsOf(streams: seq<Stream>, events: seq<IngestEvent>) {
    forall i :: 0 <= i < |streams| ==> streams[i] == StreamFor(events, streams[i].labels)
  }

  lemma ReadAllGrows(hostId: string, front: seq<ReadStream>, last: ReadStream)
    requires IsReadable(front) && IsReadableStream(last)
    ensures IsReadable(front + [last])
    ensures ReadAll(hostId, front + [last]) == ReadAll(hostId, front) + ReadStreamEvents(hostId, last)
  {
    assert (front + [last])[..|front|] == front;
  }

  lemma {:induction false} ShownStreamsRead(hostId: string, response: seq<ReadStream>, streams: seq<Stream>)
    requires AreWritten(streams) && Shows(response, streams)
    ensures IsReadable(response)
    ensures multiset(ReadAll(hostId, response)) == multiset(Contents(streams))
  {
    if streams != [] {
      var n := |streams| - 1;
      var front, shown := response[..n], streams[..n];
      assert Shows(front, shown);
      ShownStreamsRead(hostId, front, shown);
      ShownStreamReads(hostId, response[n], streams[n]);
      ReadAllGrows(hostId, front, response[n]);
      assert response == front + [response[n]];
    }
  }

  lemma {:induction false} MatchingSplits(a: seq<IngestEvent>, b: seq<IngestEvent>, hostId: string, source: string)
    ensures Matching(a + b, hostId, source) == Matching(a, hostId, source) + Matching(b, hostId, source)
  {
    if b == [] {
      assert a + b == a;
    } else {
      MatchingSplits(a, b[..|b| - 1], hostId, source);
      assert (a + b)[..|a + b| - 1] == a + b[..|b| - 1];
    }
  }

  lemma {:induction false} MatchingIsAllOrNothing(
    events: seq<IngestEvent>, labels: Labels, hostId: string, source: string)
    requires forall i :: 0 <= i < |events| ==> LabelsOf(events[i]) == labels
    ensures Matching(events, hostId, source) == if Selects(labels, hostId, source) then events else []
  {
    if events != [] {
      MatchingIsAllOrNothing(events[..|events| - 1], labels, hostId, source);
    }
  }

  lemma {:induction false} MatchingCounts(events: seq<IngestEvent>, hostId: string, source: string, e: IngestEvent)
    ensures multiset(Matching(events, hostId, source))[e] ==
      if Selects(LabelsOf(e), hostId, source) then multiset(events)[e] else 0
  {
    if events != [] {
      MatchingCounts(events[..|events| - 1], hostId, source, e);
      assert events == events[..|events| - 1] + [events[|events| - 1]];
    }
  }

  lemma {:induction false} SelectedContents(
    streams: seq<Stream>, hostId: string, source: string)
    ensures Contents(Select(streams, hostId, source)) == Matching(Contents(streams), hostId, source)
  {
    if streams != [] {
      var n := |streams| - 1;
      var last := streams[n];
      SelectedContents(streams[..n], hostId, source);
      MatchingIsAllOrNothing(RecoverAll(last), last.labels, hostId, source);
      MatchingSplits(Contents(streams[..n]), RecoverAll(last), hostId, source);
      ContentsOfMore(Select(streams[..n], hostId, source), last);
    }
  }

  lemma {:induction false} SelectedAreStreams(
    streams: seq<Stream>, events: seq<IngestEvent>, hostId: string, source: string)
    requires AreStreamsOf(streams, events)
    ensures AreStreamsOf(Select(streams, hostId, source), events)
  {
    if streams != [] {
      SelectedAreStreams(streams[..|streams| - 1], events, hostId, source);
    }
  }

  lemma MatchingPermutes(a: seq<IngestEvent>, b: seq<IngestEvent>, hostId: string, source: string)
    requires multiset(a) == multiset(b)
    ensures multiset(Matching(a, hostId, source)) == multiset(Matching(b, hostId, source))
  {
    forall e ensures multiset(Matching(a, hostId, source))[e] == multiset(Matching(b, hostId, source))[e] {
      MatchingCounts(a, hostId, source, e);
      MatchingCounts(b, hostId, source, e);
    }
  }

  lemma StreamsAreWritten(streams: seq<Stream>, events: seq<IngestEvent>)
    requires AreStreamsOf(streams, events)
    ensures AreWritten(streams)
  {
    forall i | 0 <= i < |streams| ensures IsWritten(streams[i]) {
      assert streams[i] == StreamFor(events, streams[i].labels);
    }
  }

  lemma {:induction false} ContentsSplit(a: seq<Stream>, b: seq<Stream>)
    ensures Contents(a + b) == Contents(a) + Contents(b)
  {
    if b == [] {
      assert a + b == a;
    } else {
      var front, last := b[..|b| - 1], b[|b| - 1];
      ContentsSplit(a, front);
      ContentsOfMore(a + front, last);
      ContentsOfMore(front, last);
      assert b == front + [last] && a + b == (a + front) + [last];
    }
  }

  lemma ContentsOfMore(front: seq<Stream>, last: Stream)
    ensures Contents(front + [last]) == Contents(front) + RecoverAll(last)
  {
    assert (front + [last])[..|front|] == front;
  }

  lemma {:induction false} ContentsPermute(a: seq<Stream>, b: seq<Stream>)
    requires multiset(a) == multiset(b)
    ensures multiset(Contents(a)) == multiset(Contents(b))
    decreases |a|
  {
    if a == [] {
      assert |multiset(b)| == 0;
    } else {
      var i := RemoveOne(a, b);
      var last := [b[i]];
      assert a == a[..|a| - 1] + last;
      assert b == b[..i] + last + b[i + 1..];
      ContentsPermute(a[..|a| - 1], b[..i] + b[i + 1..]);
      ContentsSplit(a[..|a| - 1], last);
      ContentsSplit(b[..i], b[i + 1..]);
      ContentsSplit(b[..i] + last, b[i + 1..]);
      ContentsSplit(b[..i], last);
    }
  }

  lemma WrittenPermute(a: seq<Stream>, b: seq<Stream>)
    requires multiset(a) == multiset(b) && AreWritten(b)
    ensures AreWritten(a)
  {
    forall i | 0 <= i < |a| ensures IsWritten(a[i]) {
      assert a[i] in multiset(b);
    }
  }

  /** What was pushed is what a query reads: in whatever order Loki lists the
      streams and their entries, the response holds exactly the pushed events of
      that host and source. `shown` is the order of the streams. */
  lemma QueryReadsPushed(
    streams: seq<Stream>, events: seq<IngestEvent>, order: seq<Labels>,
    hostId: string, source: string, shown: seq<Stream>, response: seq<ReadStream>)
    requires AreTheLabels(order, events) && ArePushed(streams, events, order)
    requires multiset(shown) == multiset(Select(streams, hostId, source)) && Shows(response, shown)
    ensures IsReadable(response)
    ensures multiset(ReadAll(hostId, response)) == multiset(Matching(events, hostId, source))
  {
    PushPartitions(streams, events, order);
    SelectedContents(streams, hostId, source);
    SelectedAreStreams(streams, events, hostId, source);
    StreamsAreWritten(Select(streams, hostId, source), events);
    WrittenPermute(shown, Select(streams, hostId, source));
    ShownStreamsRead(hostId, response, shown);
    ContentsPermute(shown, Select(streams, hostId, source));
    MatchingPermutes(Contents(streams), events, hostId, source);
  }

  /** What a backward query with a limit may answer, when `all` are the events
      that match: as many as fit, and none that is older than an omitted one. */
  ghost predicate IsNewestPart(all: seq<IngestEvent>, part: seq<IngestEvent>, omitted: seq<IngestEvent>, limit: nat) {
    && multiset(part) + multiset(omitted) == multiset(all)
    && |part| == (if limit < |all| then limit else |all|)
    && NoneNewer(omitted, part)
  }

  lemma NoneNewerPermutes(omitted: seq<IngestEvent>, a: seq<IngestEvent>, b: seq<IngestEvent>)
    requires NoneNewer(omitted, a) && multiset(a) == multiset(b)
    ensures NoneNewer(omitted, b)
  {
    forall i, j | 0 <= i < |omitted| && 0 <= j < |b| ensures omitted[i].timestamp <= b[j].timestamp {
      assert b[j] in multiset(a);
      var k :| 0 <= k < |a| && a[k] == b[j];
    }
  }

  /** End to end: Loki applies the limit to the matching events, the client sorts
      and cuts again, and the result is the `limit` newest pushed events of that
      host and source, newest first. */
  lemma QueryReturnsNewestPushed(
    events: seq<IngestEvent>, hostId: string, source: string, limit: nat,
    response: seq<ReadStream>, omitted: seq<IngestEvent>)
    requires IsReadable(response)
    requires IsNewestPart(Matching(events, hostId, source), ReadAll(hostId, response), omitted, limit)
    ensures
      var out := Take(StableSort(ReadAll(hostId, response), Newest), limit);
      NewestFirst(out) && IsNewestPart(Matching(events, hostId, source), out, omitted, limit)
  {
    var part := ReadAll(hostId, response);
    var out := StableSort(part, Newest);
    assert Take(out, limit) == out;
    SortIsNewestFirst(part);
    SortPermutes(part, Newest);
    NoneNewerPermutes(omitted, part, out);
  }
}
