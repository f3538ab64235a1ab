/** The quarantine store (agent/internal/quarantine/quarantine.go): files under
    the name of their SHA-256 digest, each with a sidecar. Any call into the
    file system may fail. */
module Quarantine {
  import opened Base

  /** A file's bytes: ordinary ones, or the text of a sidecar. */
  datatype Content = Bytes(data: string) | Record(sidecar: Sidecar)

  /** SHA-256, taken to be injective. */
  datatype Digest = Sha256(of: Content)

  /** A path outside the store, or `<digest>.bin` or `<digest>.bin.json` in it. */
  datatype Path = Outside(name: string) | Bin(digest: Digest) | Meta(digest: Digest)

  datatype Sidecar = Sidecar(originalPath: Path, digest: Digest, at: Time, reason: string, quarantinePath: Path)

  datatype Node = Directory | File(content: Content)

  type Disk = map<Path, Node>

  datatype RecordFault = NoFault | NotOpened | Torn(written: Content)

  /** Which of a call's file-system calls fail; `partial` is what an
      unsuccessful copy leaves in the destination. */
  datatype Faults = Faults(
    abs: bool, stat: bool, mkdir: bool, hash: bool, statDest: bool, removeDuplicate: bool,
    rename: bool, open: bool, create: bool, copy: bool, close: bool, cleanup: bool, removeSource: bool,
    chmod: bool, record: RecordFault, partial: Content)

  datatype Outcome = Done(sidecar: Sidecar) | Error

  // ------------------------------------------------------------ specification

  /** `moveFile` of an existing source to a destination that does not exist. */
  function Moved(disk: Disk, src: Path, dst: Path, f: Faults): (Disk, bool)
    requires src in disk
  {
    if !f.rename then ((disk - {src})[dst := disk[src]], true)
    else if f.open || f.create then (disk, false)
    else if f.copy || f.close then (if f.cleanup then disk[dst := File(f.partial)] else disk, false)
    else if f.removeSource then (disk[dst := disk[src]], false)
    else ((disk - {src})[dst := disk[src]], true)
  }

  function Recorded(disk: Disk, meta: Path, sidecar: Sidecar, f: RecordFault): (Disk, bool) {
    match f
    case NoFault => (disk[meta := File(Record(sidecar))], true)
    case NotOpened => (disk, false)
    case Torn(written) => (disk[meta := File(written)], false)
  }

  /** Whether the call gets as far as touching the source. */
  predicate Reaches(disk: Disk, src: Path, f: Faults) {
    !f.abs && !f.stat && src in disk && disk[src].File? && !f.mkdir && !f.hash && !f.statDest
  }

  /** The disk once the source was moved, or dropped as a duplicate. */
  function Secured(disk: Disk, src: Path, f: Faults): (Disk, bool)
    requires Reaches(disk, src, f)
  {
    var bin := Bin(Sha256(disk[src].content));
    if bin in disk then
      if f.removeDuplicate then (disk, false) else (disk - {src}, true)
    else
      var (after, ok) := Moved(disk, src, bin, f);
      (after, ok && !f.chmod)
  }

  function SidecarOf(src: Path, content: Content, reason: string, now: Time): Sidecar {
    Sidecar(src, Sha256(content), now, reason, Bin(Sha256(content)))
  }

  function Quarantined(disk: Disk, src: Path, reason: string, now: Time, f: Faults): (Disk, Outcome) {
    if !Reaches(disk, src, f) then (disk, Error)
    else
      var secured := Secured(disk, src, f);
      if !secured.1 then (secured.0, Error)
      else
        var sidecar := SidecarOf(src, disk[src].content, reason, now);
        var recorded := Recorded(secured.0, Meta(sidecar.digest), sidecar, f.record);
        (recorded.0, if recorded.1 then Done(sidecar) else Error)
  }

  // ----------------------------------------------------------- implementation

  class Quarantiner {
    var disk: Disk

    constructor (disk: Disk)
      ensures this.disk == disk
    {
      this.disk := disk;
    }

    method MoveFile(src: Path, dst: Path, f: Faults) returns (ok: bool)
      requires src in disk && disk[src].File? && dst !in disk
      modifies this
      ensures (disk, ok) == Moved(old(disk), src, dst, f)
    {
      ghost var before := disk;
      if !f.rename {
        var node := disk[src];
        disk := disk - {src};
        disk := disk[dst := node];
        return true;
      }
      if f.open { return false; }
      var content := disk[src].content;
      if f.create { return false; }
      disk := disk[dst := File(if f.copy || f.close then f.partial else content)];
      if f.copy || f.close {
        if !f.cleanup {
          disk := disk - {dst};
          assert disk == before;
        }
        return false;
      }
      if f.removeSource { return false; }
      disk := disk - {src};
      assert disk == (before - {src})[dst := File(content)];
      ok := true;
    }

    method WriteJson(meta: Path, sidecar: Sidecar, f: RecordFault) returns (ok: bool)
      modifies this
      ensures (disk, ok) == Recorded(old(disk), meta, sidecar, f)
    {
      match f
      case NotOpened => return false;
      case Torn(written) =>
        disk := disk[meta := File(written)];
        return false;
      case NoFault =>
        disk := disk[meta := File(Record(sidecar))];
        return true;
    }

    method Quarantine(src: Path, reason: string, now: Time, f: Faults) returns (outcome: Outcome)
      modifies this
      ensures (disk, outcome) == Quarantined(old(disk), src, reason, now, f)
    {
      if f.abs { return Error; }
      if f.stat || src !in disk { return Error; }
      if disk[src].Directory? { return Error; }
      if f.mkdir || f.hash { return Error; }
      var content := disk[src].content;
      var digest := Sha256(content);
      if f.statDest { return Error; }
      if Bin(digest) in disk {
        if f.removeDuplicate { return Error; }
        disk := disk - {src};
      } else {
        var moved := MoveFile(src, Bin(digest), f);
        if !moved { return Error; }
        if f.chmod { return Error; }
      }
      var sidecar := Sidecar(src, digest, now, reason, Bin(digest));
      var written := WriteJson(Meta(digest), sidecar, f.record);
      outcome := if written then Done(sidecar) else Error;
    }
  }

  // ----------------------------------------------------------------- one call

  /** Every `<digest>.bin` holds what its name says. */
  ghost predicate Honest(disk: Disk) {
    forall d :: Bin(d) in disk ==> disk[Bin(d)] == File(d.of)
  }

  ghost predicate HasContent(disk: Disk, p: Path, c: Content) { p in disk && disk[p] == File(c) }

  /** The content is where it was or under its digest. */
  ghost predicate Survives(disk: Disk, src: Path, c: Content) {
    HasContent(disk, src, c) || HasContent(disk, Bin(Sha256(c)), c)
  }

  /** The destination is left behind with the wrong bytes. */
  predicate LeavesDebris(disk: Disk, src: Path, f: Faults) {
    && Reaches(disk, src, f)
    && Bin(Sha256(disk[src].content)) !in disk
    && f.rename && !f.open && !f.create && (f.copy || f.close)
    && f.cleanup && f.partial != disk[src].content
  }

  /** A call keeps the store honest exactly when it leaves no debris: the
      clean-up of a failed copy is the only thing that has to work. */
  lemma StaysHonestIff(disk: Disk, src: Path, reason: string, now: Time, f: Faults)
    requires Honest(disk)
    ensures Honest(Quarantined(disk, src, reason, now, f).0) <==> !LeavesDebris(disk, src, f)
  {
    var after := Quarantined(disk, src, reason, now, f).0;
    if LeavesDebris(disk, src, f) {
      assert Bin(Sha256(disk[src].content)) in after;
    }
  }

  /** With an honest store, a call loses its source's content exactly when the
      source is itself the stored copy and the removal is reached and works. */
  lemma ContentSurvivesIff(disk: Disk, src: Path, reason: string, now: Time, f: Faults)
    requires Honest(disk) && src in disk && disk[src].File?
    ensures Survives(Quarantined(disk, src, reason, now, f).0, src, disk[src].content) <==>
      !(src.Bin? && Reaches(disk, src, f) && !f.removeDuplicate)
  {
    var after := Quarantined(disk, src, reason, now, f).0;
    var c := disk[src].content;
    if src.Bin? {
      assert disk[src] == File(src.digest.of);
      assert src == Bin(Sha256(c));
    }
  }

  /** Nothing but the source, its stored copy and its sidecar is touched, and a
      stored copy that was there stays as it was. */
  lemma OtherFilesStay(disk: Disk, src: Path, reason: string, now: Time, f: Faults, p: Path)
    requires p != src && p in disk
    requires p.Meta? && src in disk && disk[src].File? ==> p.digest != Sha256(disk[src].content)
    ensures p in Quarantined(disk, src, reason, now, f).0
    ensures Quarantined(disk, src, reason, now, f).0[p] == disk[p]
  {
  }

  /** A call succeeds exactly when the source is a file and no file-system call
      on its way fails; then the source is gone, its content stored, and the
      sidecar says where it came from and why. */
  lemma SucceedsIff(disk: Disk, src: Path, reason: string, now: Time, f: Faults)
    requires Honest(disk) && src.Outside?
    ensures var (after, outcome) := Quarantined(disk, src, reason, now, f);
      outcome.Done? <==>
        && Reaches(disk, src, f) && f.record == NoFault
        && if Bin(Sha256(disk[src].content)) in disk then !f.removeDuplicate
           else !f.chmod && (!f.rename || !(f.open || f.create || f.copy || f.close || f.removeSource))
    ensures var (after, outcome) := Quarantined(disk, src, reason, now, f);
      outcome.Done? ==>
        var c := disk[src].content;
        && src !in after
        && HasContent(after, Bin(Sha256(c)), c)
        && HasContent(after, Meta(Sha256(c)), Record(outcome.sidecar))
        && outcome.sidecar == Sidecar(src, Sha256(c), now, reason, Bin(Sha256(c)))
  {
  }

  /** In any store, honest or not, a call on a file outside loses its content
      exactly when it drops the file as a duplicate of different bytes. */
  lemma DuplicateIsTrustedIff(disk: Disk, src: Path, reason: string, now: Time, f: Faults)
    requires src.Outside? && src in disk && disk[src].File?
    ensures
      var c := disk[src].content;
      Survives(Quarantined(disk, src, reason, now, f).0, src, c) <==>
        !(&& Reaches(disk, src, f) && !f.removeDuplicate
          && Bin(Sha256(c)) in disk && disk[Bin(Sha256(c))] != File(c))
  {
    var after := Quarantined(disk, src, reason, now, f).0;
    var bin := Bin(Sha256(disk[src].content));
    if Reaches(disk, src, f) && bin in disk {
      assert after[bin] == disk[bin];
    }
  }

  /** The source is dropped as a duplicate, renamed, or copied and removed. */
  predicate Secures(disk: Disk, src: Path, f: Faults) {
    && Reaches(disk, src, f)
    && if Bin(Sha256(disk[src].content)) in disk then !f.removeDuplicate
       else !f.rename || !(f.open || f.create || f.copy || f.close || f.removeSource)
  }

  /** A file outside goes exactly when it was secured, whether or not the call
      then succeeds; until then no failure changes it. */
  lemma SourceGoesIff(disk: Disk, src: Path, reason: string, now: Time, f: Faults)
    requires src.Outside? && src in disk
    ensures var after := Quarantined(disk, src, reason, now, f).0;
      && (src !in after <==> Secures(disk, src, f))
      && (src in after ==> after[src] == disk[src])
  {
  }

  /** Renamed, or created by a copy that worked or could not be cleaned up. */
  predicate CopyStays(f: Faults) {
    !f.rename || (!f.open && !f.create && (f.cleanup || !(f.copy || f.close)))
  }

  /** A new stored copy appears exactly when the move got as far as writing it and
      nothing took it away again, and it has the right bytes unless it is debris. */
  lemma StoredIff(disk: Disk, src: Path, reason: string, now: Time, f: Faults)
    requires src.Outside? && src in disk && disk[src].File? && Bin(Sha256(disk[src].content)) !in disk
    ensures var after, bin := Quarantined(disk, src, reason, now, f).0, Bin(Sha256(disk[src].content));
      && (bin in after <==> Reaches(disk, src, f) && CopyStays(f))
      && (bin in after ==> after[bin] == if LeavesDebris(disk, src, f) then File(f.partial) else disk[src])
  {
  }

  /** The sidecar changes exactly when its file was opened, after the source was
      secured and its mode set: to a record of this call, or to a torn one. */
  lemma SidecarChangesIff(disk: Disk, src: Path, reason: string, now: Time, f: Faults)
    requires src.Outside? && src in disk && disk[src].File?
    ensures
      var c := disk[src].content;
      var after, meta := Quarantined(disk, src, reason, now, f).0, Meta(Sha256(c));
      if Secures(disk, src, f) && (Bin(Sha256(c)) in disk || !f.chmod) && f.record != NotOpened
      then meta in after && after[meta] == File(
        if f.record == NoFault then Record(Sidecar(src, Sha256(c), now, reason, Bin(Sha256(c)))) else f.record.written)
      else (meta in after <==> meta in disk) && (meta in disk ==> after[meta] == disk[meta])
  {
  }

  // --------------------------------------------------------------------- runs

  /** A run of calls on files outside the store, in which the clean-up of a
      failed copy works, and of arbitrary changes to those files in between. */
  datatype Step =
    | Call(src: Path, reason: string, now: Time, faults: Faults)
    | Edit(name: string, node: Option<Node>)

  ghost predicate Allowed(s: Step) {
    s.Call? ==> s.src.Outside? && !s.faults.cleanup
  }

  ghost function Apply(disk: Disk, s: Step): Disk {
    match s
    case Call(src, reason, now, f) => Quarantined(disk, src, reason, now, f).0
    case Edit(name, Some(node)) => disk[Outside(name) := node]
    case Edit(name, None) => disk - {Outside(name)}
  }

  ghost predicate IsRun(disks: seq<Disk>, steps: seq<Step>) {
    && |disks| == |steps| + 1
    && Honest(disks[0])
    && forall i :: 0 <= i < |steps| ==> Allowed(steps[i]) && disks[i + 1] == Apply(disks[i], steps[i])
  }

  lemma StepKeepsHonest(disk: Disk, s: Step)
    requires Allowed(s) && Honest(disk)
    ensures Honest(Apply(disk, s))
  {
    if s.Call? {
      StaysHonestIff(disk, s.src, s.reason, s.now, s.faults);
    }
  }

  lemma {:induction false} RunStaysHonest(disks: seq<Disk>, steps: seq<Step>, n: nat)
    requires IsRun(disks, steps) && n < |disks|
    ensures Honest(disks[n])
  {
    if n > 0 {
      RunStaysHonest(disks, steps, n - 1);
      StepKeepsHonest(disks[n - 1], steps[n - 1]);
    }
  }

  lemma StepKeepsStored(disk: Disk, s: Step, d: Digest)
    requires Allowed(s) && Bin(d) in disk
    ensures Bin(d) in Apply(disk, s) && Apply(disk, s)[Bin(d)] == disk[Bin(d)]
  {
    if s.Call? {
      OtherFilesStay(disk, s.src, s.reason, s.now, s.faults, Bin(d));
    }
  }

  /** What is stored stays stored. */
  lemma {:induction false} StoredStays(disks: seq<Disk>, steps: seq<Step>, m: nat, n: nat, c: Content)
    requires IsRun(disks, steps) && m <= n < |disks|
    requires HasContent(disks[m], Bin(Sha256(c)), c)
    ensures HasContent(disks[n], Bin(Sha256(c)), c)
    decreases n
  {
    if m < n {
      StoredStays(disks, steps, m, n - 1, c);
      StepKeepsStored(disks[n - 1], steps[n - 1], Sha256(c));
    }
  }

  /** No call loses content, whatever fails: a file that nobody else changes is
      still where it was, or its bytes are stored under their digest. */
  lemma {:induction false} ContentIsNeverLost(
    disks: seq<Disk>, steps: seq<Step>, m: nat, n: nat, name: string, c: Content)
    requires IsRun(disks, steps) && m <= n < |disks|
    requires HasContent(disks[m], Outside(name), c)
    requires forall i :: m <= i < n ==> !(steps[i].Edit? && steps[i].name == name)
    ensures Survives(disks[n], Outside(name), c)
    decreases n
  {
    if m < n {
      var disk, s := disks[n - 1], steps[n - 1];
      ContentIsNeverLost(disks, steps, m, n - 1, name, c);
      RunStaysHonest(disks, steps, n - 1);
      if HasContent(disk, Bin(Sha256(c)), c) {
        StepKeepsStored(disk, s, Sha256(c));
      } else if s.Call? && s.src == Outside(name) {
        ContentSurvivesIff(disk, s.src, s.reason, s.now, s.faults);
      } else if s.Call? {
        OtherFilesStay(disk, s.src, s.reason, s.now, s.faults, Outside(name));
      }
    }
  }

  /** A successful call is final: from then on the content is in the store. */
  lemma SuccessIsFinal(disks: seq<Disk>, steps: seq<Step>, m: nat, n: nat)
    requires IsRun(disks, steps) && m < n < |disks| && steps[m].Call?
    requires Quarantined(disks[m], steps[m].src, steps[m].reason, steps[m].now, steps[m].faults).1.Done?
    ensures steps[m].src in disks[m] && disks[m][steps[m].src].File? && steps[m].src !in disks[m + 1]
    ensures
      var c := disks[m][steps[m].src].content;
      HasContent(disks[n], Bin(Sha256(c)), c)
  {
    RunStaysHonest(disks, steps, m);
    SucceedsIff(disks[m], steps[m].src, steps[m].reason, steps[m].now, steps[m].faults);
    StoredStays(disks, steps, m + 1, n, disks[m][steps[m].src].content);
  }

  // ------------------------------------------------------- what does not hold

  const NO_FAULTS := Faults(false, false, false, false, false, false, false, false, false,
                            false, false, false, false, false, NoFault, Bytes(""))

  /** The documentation calls quarantining a stored copy an error; it succeeds and
      deletes the copy. */
  lemma StoredCopyIsDeleted(c: Content)
    requires c.Bytes?
    ensures
      var bin := Bin(Sha256(c));
      var (after, outcome) := Quarantined(map[bin := File(c)], bin, "", 0, NO_FAULTS);
      outcome.Done? && forall p :: !HasContent(after, p, c)
  {
  }

  /** When the clean-up of a failed copy fails too, trying again reports success
      and the content is nowhere. */
  lemma RetryAfterDebrisLosesContent(name: string, c: Content, partial: Content)
    requires partial != c && c.Bytes?
    ensures
      var src := Outside(name);
      var torn := NO_FAULTS.(rename := true, copy := true, cleanup := true, partial := partial);
      var (first, failed) := Quarantined(map[src := File(c)], src, "", 0, torn);
      var (second, done) := Quarantined(first, src, "", 1, NO_FAULTS);
      failed.Error? && HasContent(first, src, c) && done.Done? && forall p :: !HasContent(second, p, c)
  {
    var src := Outside(name);
    var torn := NO_FAULTS.(rename := true, copy := true, cleanup := true, partial := partial);
    var first := Quarantined(map[src := File(c)], src, "", 0, torn).0;
    assert first == map[src := File(c), Bin(Sha256(c)) := File(partial)];
    var second := Quarantined(first, src, "", 1, NO_FAULTS).0;
    assert second.Keys == {Bin(Sha256(c)), Meta(Sha256(c))};
  }
}
