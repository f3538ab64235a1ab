/** The debounced file watcher (agent/internal/filewatcher/filewatcher.go): an
    event loop and timer callbacks that share a map under a mutex. Every stretch
    of code that holds the mutex is one step. */
module FileWatcher {
  import opened Base

  type Path = string
  type TimerId = nat

  // ------------------------------------------------------------- which events

  datatype Op = Create | Write | Remove | Rename | Chmod

  datatype Event = Event(name: Path, ops: set<Op>)

  function StripSlashes(s: string): string {
    if s != "" && s[|s| - 1] == '/' then StripSlashes(s[..|s| - 1]) else s
  }

  function AfterLastSlash(s: string): string {
    if s == "" || s[|s| - 1] == '/' then "" else AfterLastSlash(s[..|s| - 1]) + [s[|s| - 1]]
  }

  /** `filepath.Base`. */
  function BaseName(name: string): string {
    if name == "" then "."
    else if StripSlashes(name) == "" then "/"
    else AfterLastSlash(StripSlashes(name))
  }

  ghost predicate AllSlashes(s: string) {
    forall k :: 0 <= k < |s| ==> s[k] == '/'
  }

  /** `name[i..j]` is the last path element: only slashes follow it, and it
      starts the name or comes after a slash. */
  ghost predicate IsLastElement(name: string, i: nat, j: nat) {
    && i < j <= |name| && AllSlashes(name[j..])
    && (forall k :: i <= k < j ==> name[k] != '/')
    && (i == 0 || name[i - 1] == '/')
  }

  ghost predicate IsBaseName(name: string, base: string) {
    if name == "" then base == "."
    else if AllSlashes(name) then base == "/"
    else exists i: nat, j: nat :: IsLastElement(name, i, j) && base == name[i..j]
  }

  lemma {:induction false} StripSlashesCuts(s: string) returns (j: nat)
    ensures j <= |s| && StripSlashes(s) == s[..j] && AllSlashes(s[j..])
    ensures j > 0 ==> s[j - 1] != '/'
  {
    if s != "" && s[|s| - 1] == '/' {
      var front := s[..|s| - 1];
      j := StripSlashesCuts(front);
      assert s[..j] == front[..j] && s[j..] == front[j..] + ['/'];
    } else {
      j := |s|;
    }
  }

  lemma {:induction false} AfterLastSlashCuts(s: string) returns (i: nat)
    ensures i <= |s| && AfterLastSlash(s) == s[i..]
    ensures (forall k :: i <= k < |s| ==> s[k] != '/') && (i == 0 || s[i - 1] == '/')
  {
    if s == "" || s[|s| - 1] == '/' {
      i := |s|;
    } else {
      i := AfterLastSlashCuts(s[..|s| - 1]);
      assert s[i..] == s[..|s| - 1][i..] + [s[|s| - 1]];
    }
  }

  lemma SlashFollows(name: string, j: nat, k: nat)
    requires j <= k < |name| && AllSlashes(name[j..])
    ensures name[k] == '/'
  {
    assert name[k] == name[j..][k - j];
  }

  lemma LastElementIsUnique(name: string, i: nat, j: nat, k: nat, l: nat)
    requires IsLastElement(name, i, j) && IsLastElement(name, k, l)
    ensures i == k && j == l
  {
    if j < l { SlashFollows(name, j, l - 1); }
    if l < j { SlashFollows(name, l, j - 1); }
  }

  /** The base name is the last path element, `.` for nothing and `/` for nothing
      but slashes. */
  lemma BaseNameIff(name: string, base: string)
    ensures base == BaseName(name) <==> IsBaseName(name, base)
  {
    var j := StripSlashesCuts(name);
    if j == 0 {
      assert name[0..] == name;
    } else {
      var i := AfterLastSlashCuts(name[..j]);
      assert name[..j][j - 1] == name[j - 1] && name[..j][i..] == name[i..j];
      assert forall k :: i <= k < j ==> name[..j][k] == name[k];
      assert IsLastElement(name, i, j) && !AllSlashes(name);
      assert BaseName(name) == name[i..j];
      forall k: nat, l: nat | IsLastElement(name, k, l) ensures k == i && l == j {
        LastElementIsUnique(name, i, j, k, l);
      }
    }
  }

  predicate EndsWith(s: string, suffix: string) { |suffix| <= |s| && s[|s| - |suffix|..] == suffix }

  ghost predicate IsScanned(ev: Event, base: string, ignoreSuffixes: seq<string>) {
    && (Create in ev.ops || Write in ev.ops)
    && !(base != "" && base[0] == '.')
    && forall i :: 0 <= i < |ignoreSuffixes| ==> !EndsWith(base, ignoreSuffixes[i])
  }

  /** Creations and writes of files that are neither hidden nor ignored. */
  method ShouldScan(ev: Event, ignoreSuffixes: seq<string>) returns (scan: bool)
    ensures exists base :: IsBaseName(ev.name, base) && (scan <==> IsScanned(ev, base, ignoreSuffixes))
  {
    BaseNameIff(ev.name, BaseName(ev.name));
    if Create !in ev.ops && Write !in ev.ops { return false; }
    var base := BaseName(ev.name);
    if base != "" && base[0] == '.' { return false; }
    for i := 0 to |ignoreSuffixes|
      invariant forall k :: 0 <= k < i ==> !EndsWith(base, ignoreSuffixes[k])
    {
      if EndsWith(base, ignoreSuffixes[i]) { return false; }
    }
    scan := true;
  }

  // ------------------------------------------------------------------- timers

  /** A timer is armed until it is stopped or fires; its callback then takes the
      mutex and removes the path's entry, and after that starts the scan. */
  datatype TimerState = Armed | Stopped | Fired | Removed | Scanned

  datatype Timer = Timer(path: Path, createdAt: Time, state: TimerState)

  datatype Scan = Scan(path: Path, timer: TimerId, at: Time)

  /** `accepted` and `scans` record the run; timer `k` was created by event `k`. */
  datatype Watch = Watch(
    now: Time, debounce: nat,
    pending: map<Path, TimerId>, timers: seq<Timer>,
    accepted: seq<(Path, Time)>, scans: seq<Scan>)

  function StopTimer(timers: seq<Timer>, id: TimerId): seq<Timer> {
    if id < |timers| && timers[id].state == Armed then timers[id := timers[id].(state := Stopped)] else timers
  }

  /** `scheduleScan`: stop the path's timer if it is still armed, arm a new one. */
  function Schedule(w: Watch, path: Path): Watch {
    var stopped := if path in w.pending then StopTimer(w.timers, w.pending[path]) else w.timers;
    w.(timers := stopped + [Timer(path, w.now, Armed)],
       pending := w.pending[path := |stopped|],
       accepted := w.accepted + [(path, w.now)])
  }

  /** The callback's critical section: the path's entry goes, whichever timer it
      names by now. */
  function RemoveEntry(w: Watch, id: TimerId): Watch
    requires id < |w.timers|
  {
    w.(pending := w.pending - {w.timers[id].path}, timers := w.timers[id := w.timers[id].(state := Removed)])
  }

  class Watcher {
    var now: Time
    var pending: map<Path, TimerId>
    var timers: seq<Timer>
    const debounce: nat
    ghost var accepted: seq<(Path, Time)>
    ghost var scans: seq<Scan>

    ghost function State(): Watch
      reads this
    {
      Watch(now, debounce, pending, timers, accepted, scans)
    }

    constructor (debounce: nat, now: Time)
      ensures State() == Watch(now, debounce, map[], [], [], [])
    {
      this.debounce, this.now := debounce, now;
      pending, timers, accepted, scans := map[], [], [], [];
    }

    method ScheduleScan(path: Path)
      modifies this
      ensures State() == Schedule(old(State()), path)
    {
      if path in pending {
        var id := pending[path];
        if id < |timers| && timers[id].state == Armed { timers := timers[id := timers[id].(state := Stopped)]; }
      }
      timers := timers + [Timer(path, now, Armed)];
      pending := pending[path := |timers| - 1];
      accepted := accepted + [(path, now)];
    }

    method CallbackRemoves(id: TimerId)
      requires id < |timers|
      modifies this
      ensures State() == RemoveEntry(old(State()), id)
    {
      pending := pending - {timers[id].path};
      timers := timers[id := timers[id].(state := Removed)];
    }
  }

  // --------------------------------------------------------------------- runs

  datatype Step =
    | Pass(elapsed: nat)
    | Accept(path: Path)
    | Fire(id: TimerId)
    | Callback(id: TimerId)
    | StartScan(id: TimerId)

  ghost predicate Enabled(w: Watch, s: Step) {
    match s
    case Pass(_) => true
    case Accept(_) => true
    case Fire(id) => id < |w.timers| && w.timers[id].state == Armed && w.now >= w.timers[id].createdAt + w.debounce
    case Callback(id) => id < |w.timers| && w.timers[id].state == Fired
    case StartScan(id) => id < |w.timers| && w.timers[id].state == Removed
  }

  function SetState(w: Watch, id: TimerId, state: TimerState): Watch
    requires id < |w.timers|
  {
    w.(timers := w.timers[id := w.timers[id].(state := state)])
  }

  ghost function Apply(w: Watch, s: Step): Watch
    requires Enabled(w, s)
  {
    match s
    case Pass(elapsed) => w.(now := w.now + elapsed)
    case Accept(path) => Schedule(w, path)
    case Fire(id) => SetState(w, id, Fired)
    case Callback(id) => RemoveEntry(w, id)
    case StartScan(id) => SetState(w, id, Scanned).(scans := w.scans + [Scan(w.timers[id].path, id, w.now)])
  }

  ghost predicate IsRun(ws: seq<Watch>, steps: seq<Step>) {
    && |ws| == |steps| + 1
    && ws[0].pending == map[] && ws[0].timers == [] && ws[0].accepted == [] && ws[0].scans == []
    && forall i :: 0 <= i < |steps| ==> Enabled(ws[i], steps[i]) && ws[i + 1] == Apply(ws[i], steps[i])
  }

  ghost predicate IsActive(t: Timer) { t.state == Armed || t.state == Fired || t.state == Removed }

  /** The timer is still to scan the path, and no older than the event. */
  ghost predicate IsTimerFor(t: Timer, path: Path, at: Time) { t.path == path && at <= t.createdAt && IsActive(t) }

  ghost predicate TimerCovers(w: Watch, path: Path, at: Time) {
    exists id :: 0 <= id < |w.timers| && IsTimerFor(w.timers[id], path, at)
  }

  ghost predicate ScanCovers(w: Watch, path: Path, at: Time) {
    exists i :: 0 <= i < |w.scans| && w.scans[i].path == path && at + w.debounce <= w.scans[i].at
  }

  /** An event's content will be scanned, or was: a timer no older than it is
      still to run its scan, or a scan started at least the window after it. */
  ghost predicate Covered(w: Watch, path: Path, at: Time) { TimerCovers(w, path, at) || ScanCovers(w, path, at) }

  ghost predicate TimersInv(w: Watch) {
    && |w.timers| == |w.accepted|
    && (forall id :: 0 <= id < |w.timers| ==>
          && w.accepted[id] == (w.timers[id].path, w.timers[id].createdAt)
          && w.timers[id].createdAt <= w.now
          && (w.timers[id].state in {Fired, Removed} ==> w.timers[id].createdAt + w.debounce <= w.now))
    && (forall p :: p in w.pending ==> w.pending[p] < |w.timers| && w.timers[w.pending[p]].path == p)
  }

  ghost predicate ScansInv(w: Watch) {
    && (forall i :: 0 <= i < |w.scans| ==>
          && w.scans[i].timer < |w.timers| && w.timers[w.scans[i].timer].state == Scanned
          && w.timers[w.scans[i].timer].path == w.scans[i].path
          && w.timers[w.scans[i].timer].createdAt + w.debounce <= w.scans[i].at)
    && (forall i, j :: 0 <= i < j < |w.scans| ==> w.scans[i].timer != w.scans[j].timer)
  }

  ghost predicate CoverageInv(w: Watch) {
    forall k :: 0 <= k < |w.accepted| ==> Covered(w, w.accepted[k].0, w.accepted[k].1)
  }

  lemma StepKeepsTimers(w: Watch, s: Step)
    requires Enabled(w, s) && TimersInv(w)
    ensures TimersInv(Apply(w, s))
  {
  }

  lemma StepKeepsScans(w: Watch, s: Step)
    requires Enabled(w, s) && TimersInv(w) && ScansInv(w)
    ensures ScansInv(Apply(w, s))
  {
  }

  lemma StepKeepsCovered(w: Watch, s: Step, path: Path, at: Time)
    requires Enabled(w, s) && TimersInv(w) && Covered(w, path, at) && at <= w.now
    ensures Covered(Apply(w, s), path, at)
  {
    var v := Apply(w, s);
    if ScanCovers(w, path, at) {
      var i :| 0 <= i < |w.scans| && w.scans[i].path == path && at + w.debounce <= w.scans[i].at;
      assert v.scans[i] == w.scans[i];
    } else {
      var id :| 0 <= id < |w.timers| && IsTimerFor(w.timers[id], path, at);
      if s == StartScan(id) {
        assert v.scans[|w.scans|] == Scan(path, id, w.now);
      } else if s.Accept? && s.path in w.pending && w.pending[s.path] == id && w.timers[id].state == Armed {
        // The timer is stopped, but the event that stopped it armed a newer one.
        assert v.timers[|w.timers|] == Timer(path, w.now, Armed);
        assert IsTimerFor(v.timers[|w.timers|], path, at);
      } else {
        assert IsTimerFor(v.timers[id], path, at);
      }
    }
  }

  lemma StepKeepsCoverage(w: Watch, s: Step)
    requires Enabled(w, s) && TimersInv(w) && CoverageInv(w)
    ensures CoverageInv(Apply(w, s))
  {
    var v := Apply(w, s);
    forall k | 0 <= k < |v.accepted| ensures Covered(v, v.accepted[k].0, v.accepted[k].1) {
      if k < |w.accepted| {
        assert v.accepted[k] == w.accepted[k];
        StepKeepsCovered(w, s, w.accepted[k].0, w.accepted[k].1);
      } else {
        assert IsTimerFor(v.timers[k], v.accepted[k].0, v.accepted[k].1);
      }
    }
  }

  lemma {:induction false} RunKeepsInv(ws: seq<Watch>, steps: seq<Step>, n: nat)
    requires IsRun(ws, steps) && n < |ws|
    ensures TimersInv(ws[n]) && ScansInv(ws[n]) && CoverageInv(ws[n])
  {
    if n > 0 {
      RunKeepsInv(ws, steps, n - 1);
      StepKeepsTimers(ws[n - 1], steps[n - 1]);
      StepKeepsScans(ws[n - 1], steps[n - 1]);
      StepKeepsCoverage(ws[n - 1], steps[n - 1]);
    }
  }

  /** Debounce coverage: under every interleaving of events, timer firings and
      callbacks, each accepted event is covered; once no timer is active, each
      was scanned at least the window after it happened. */
  lemma EveryEventIsCovered(ws: seq<Watch>, steps: seq<Step>, n: nat, k: nat)
    requires IsRun(ws, steps) && n < |ws| && k < |ws[n].accepted|
    ensures Covered(ws[n], ws[n].accepted[k].0, ws[n].accepted[k].1)
    ensures (forall id :: 0 <= id < |ws[n].timers| ==> !IsActive(ws[n].timers[id])) ==>
      ScanCovers(ws[n], ws[n].accepted[k].0, ws[n].accepted[k].1)
  {
    RunKeepsInv(ws, steps, n);
  }

  /** No scan comes from nowhere: different scans belong to different accepted
      events of the scanned path, each at least the window earlier. */
  lemma EveryScanIsEarned(ws: seq<Watch>, steps: seq<Step>, n: nat, i: nat)
    requires IsRun(ws, steps) && n < |ws| && i < |ws[n].scans|
    ensures ws[n].scans[i].timer < |ws[n].accepted|
    ensures ws[n].accepted[ws[n].scans[i].timer].0 == ws[n].scans[i].path
    ensures ws[n].accepted[ws[n].scans[i].timer].1 + ws[n].debounce <= ws[n].scans[i].at
    ensures forall j :: 0 <= j < |ws[n].scans| && j != i ==> ws[n].scans[j].timer != ws[n].scans[i].timer
  {
    RunKeepsInv(ws, steps, n);
  }

  // ---------------------------------------------------------------- the race

  ghost predicate ArmedFor(w: Watch, path: Path, id: TimerId) {
    id < |w.timers| && w.timers[id].path == path && w.timers[id].state == Armed
  }

  /** Every armed timer of the path is the one the map names. */
  ghost predicate Tracked(w: Watch, path: Path) {
    forall id :: ArmedFor(w, path, id) ==> path in w.pending && w.pending[path] == id
  }

  ghost predicate OnlyArmed(w: Watch, path: Path, id: TimerId) {
    forall other :: ArmedFor(w, path, other) ==> other == id
  }

  /** An event leaves its own timer as the path's only armed one exactly when
      the path was tracked. */
  lemma EventReplacesTimerIff(w: Watch, path: Path)
    requires TimersInv(w)
    ensures OnlyArmed(Schedule(w, path), path, |w.timers|) <==> Tracked(w, path)
  {
    var v := Schedule(w, path);
    forall id: TimerId | ArmedFor(w, path, id) && !(path in w.pending && w.pending[path] == id)
      ensures ArmedFor(v, path, id) && id != |w.timers|
    {
    }
    forall id: TimerId | ArmedFor(v, path, id) && id != |w.timers|
      ensures ArmedFor(w, path, id) && !(path in w.pending && w.pending[path] == id)
    {
    }
  }

  /** The one step that loses track of a path: a callback of one of its timers
      that takes the mutex while the map names another, still armed, timer. */
  ghost predicate LosesTrack(w: Watch, s: Step, path: Path)
    requires Enabled(w, s)
  {
    s.Callback? && w.timers[s.id].path == path && path in w.pending && ArmedFor(w, path, w.pending[path])
  }

  lemma TrackIsLostIff(w: Watch, s: Step, path: Path)
    requires Enabled(w, s) && TimersInv(w) && Tracked(w, path)
    ensures Tracked(Apply(w, s), path) <==> !LosesTrack(w, s, path)
  {
    var v := Apply(w, s);
    if LosesTrack(w, s, path) {
      assert ArmedFor(v, path, w.pending[path]);
    } else {
      forall id: TimerId | ArmedFor(v, path, id) ensures path in v.pending && v.pending[path] == id {
        if id < |w.timers| {
          assert ArmedFor(w, path, id);
        }
      }
    }
  }

  /** The map can lose track of an armed timer: a timer fires, an event arrives
      before its callback takes the mutex, so Stop comes too late, and then the
      callback removes the newer timer's entry. */
  lemma CallbackOrphansNewerTimer(path: Path)
    ensures
      var w0 := Watch(0, 2, map[], [], [], []);
      var w1 := Apply(Apply(w0, Accept(path)), Pass(2));
      var w2 := Apply(Apply(w1, Fire(0)), Accept(path));
      var w3 := Apply(w2, Callback(0));
      && w2.pending == map[path := 1] && w3.pending == map[]
      && ArmedFor(w3, path, 1) && ArmedFor(Schedule(w3, path), path, 1) && ArmedFor(Schedule(w3, path), path, 2)
  {
    var w0 := Watch(0, 2, map[], [], [], []);
    var w1 := Apply(Apply(w0, Accept(path)), Pass(2));
    assert w1.timers == [Timer(path, 0, Armed)];
    var w2 := Apply(Apply(w1, Fire(0)), Accept(path));
    assert w2.timers == [Timer(path, 0, Fired), Timer(path, 2, Armed)];
    var w3 := Apply(w2, Callback(0));
    assert w3.timers == [Timer(path, 0, Removed), Timer(path, 2, Armed)];
  }
}
