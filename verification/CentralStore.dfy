/**
 The central credential store: one record and a generation counter beside it,
 each replaced by a rename that only a directory sync makes durable.
 */
module CentralStore {
  import opened Bytes

  /** The largest 64-bit counter; adding one to it wraps to zero. */
  const MAX := 0xFFFF_FFFF_FFFF_FFFF

  datatype Marker = NoMarker | BadMarker | Count(n: nat)

  datatype Record = NoRecord | BadRecord | Kept(generation: nat, token: string)

  /** Every version of a file a crash could leave, oldest first; the last is the one visible now. */
  datatype Disk = Disk(markers: seq<Marker>, records: seq<Record>)

  predicate DiskOk(d: Disk) {
    && d.markers != [] && d.records != []
    && (forall m :: m in d.markers && m.Count? ==> m.n <= MAX)
    && (forall r :: r in d.records && r.Kept? ==> r.generation <= MAX)
  }

  function Last<T>(s: seq<T>): T
    requires s != []
  {
    s[|s| - 1]
  }

  /** How far an atomic replacement got: before the rename, before the directory sync, or all the way. */
  datatype Outcome = NotRenamed | NotSynced | Synced

  /** A synced directory holds what is visible of both files. */
  function WriteMarker(d: Disk, m: Marker, o: Outcome): Disk
    requires DiskOk(d)
  {
    match o
    case NotRenamed => d
    case NotSynced => d.(markers := d.markers + [m])
    case Synced => Disk([m], [Last(d.records)])
  }

  function WriteRecord(d: Disk, r: Record, o: Outcome): Disk
    requires DiskOk(d)
  {
    match o
    case NotRenamed => d
    case NotSynced => d.(records := d.records + [r])
    case Synced => Disk([Last(d.markers)], [r])
  }

  /** The generation SaveKind would issue; None is its error. nanos is the wall clock as a 64-bit count. */
  function NextGeneration(d: Disk, nanos: nat): (g: Option<nat>)
    requires DiskOk(d) && nanos <= MAX
    ensures g.Some? ==> g.value <= MAX
  {
    var wanted := match Last(d.records)
      case Kept(g, _) => if g == MAX then 0 else g + 1
      case NoRecord => 1
      case BadRecord => nanos;
    match Last(d.markers)
    case NoMarker => Some(wanted)
    case BadMarker => None
    case Count(n) => if n == MAX then None else Some(if n >= wanted then n + 1 else wanted)
  }

  datatype Save = Save(disk: Disk, issued: Option<nat>)

  function Saved(d: Disk, token: string, kindAllowed: bool, nanos: nat, counter: Outcome, credential: Outcome): Save
    requires DiskOk(d) && nanos <= MAX
  {
    var g := NextGeneration(d, nanos);
    if !kindAllowed || token == "" || g.None? then Save(d, None)
    else
      var counted := WriteMarker(d, Count(g.value), counter);
      if counter != Synced then Save(counted, None)
      else Save(WriteRecord(counted, Kept(g.value, token), credential), if credential == Synced then g else None)
  }

  datatype Removal = Removal(disk: Disk, ok: bool)

  /** Delete: the counter takes the record's generation, then the record is unlinked without a directory sync. */
  function Deleted(d: Disk, counter: Outcome, unlinked: bool): Removal
    requires DiskOk(d)
  {
    var r := Last(d.records);
    var counted := if r.Kept? then WriteMarker(d, Count(r.generation), counter) else d;
    if r.Kept? && counter != Synced then Removal(counted, false)
    else if r.NoRecord? then Removal(counted, true)
    else if unlinked then Removal(counted.(records := counted.records + [NoRecord]), true)
    else Removal(counted, false)
  }

  class Store {
    var disk: Disk

    constructor ()
      ensures disk == Disk([NoMarker], [NoRecord]) && DiskOk(disk)
    {
      disk := Disk([NoMarker], [NoRecord]);
    }

    method SaveKind(token: string, kindAllowed: bool, nanos: nat, counter: Outcome, credential: Outcome) returns (issued: Option<nat>)
      requires DiskOk(disk) && nanos <= MAX
      modifies this
      ensures Save(disk, issued) == Saved(old(disk), token, kindAllowed, nanos, counter, credential)
      ensures DiskOk(disk)
    {
      if !kindAllowed || token == "" { return None; }
      var generation := 1;
      match Last(disk.records) {
        case Kept(g, _) => generation := (g + 1) % (MAX + 1);
        case BadRecord => generation := nanos;
        case NoRecord =>
      }
      match Last(disk.markers) {
        case Count(n) =>
          if n == MAX { return None; }
          if n >= generation { generation := n + 1; }
        case BadMarker => return None;
        case NoMarker =>
      }
      disk := WriteMarker(disk, Count(generation), counter);
      if counter != Synced { return None; }
      disk := WriteRecord(disk, Kept(generation, token), credential);
      return if credential == Synced then Some(generation) else None;
    }

    method Delete(counter: Outcome, unlinked: bool) returns (ok: bool)
      requires DiskOk(disk)
      modifies this
      ensures Removal(disk, ok) == Deleted(old(disk), counter, unlinked)
      ensures DiskOk(disk)
      ensures ok ==> Last(disk.records) == NoRecord
      ensures forall floor: nat :: Above(old(disk), floor) && RemovalSafe(old(disk), floor) ==> Above(disk, floor)
    {
      var r := Last(disk.records);
      if r.Kept? {
        disk := WriteMarker(disk, Count(r.generation), counter);
        if counter != Synced { return false; }
      }
      if r.NoRecord? { return true; }
      if unlinked { disk := disk.(records := disk.records + [NoRecord]); }
      forall floor: nat | Above(old(disk), floor) && RemovalSafe(old(disk), floor) ensures Above(disk, floor) {
        DeleteKeepsFloor(old(disk), floor, counter, unlinked);
      }
      return unlinked;
    }
  }

  // ---- the floor under every future generation -----------------------------------------------

  /** Whatever a crash leaves, the next save issues a generation above floor. */
  ghost predicate Above(d: Disk, floor: nat) {
    && DiskOk(d)
    && (forall m :: m in d.markers && m.Count? ==> floor <= m.n)
    && (NoMarker in d.markers ==> forall r :: r in d.records ==> CarriesFloor(r, floor))
  }

  /** Without a counter the record has to carry the floor, or be unreadable, or nothing was issued yet. */
  predicate CarriesFloor(r: Record, floor: nat) {
    match r
    case Kept(g, _) => floor <= g < MAX
    case BadRecord => true
    case NoRecord => floor == 0
  }

  predicate ClockDecides(d: Disk)
    requires DiskOk(d)
  {
    Last(d.markers).NoMarker? && Last(d.records).BadRecord?
  }

  /** A save issues above the floor, unless it has only a clock at or below the floor to go by. */
  lemma IssuesAboveIff(d: Disk, floor: nat, nanos: nat)
    requires Above(d, floor) && nanos <= MAX && NextGeneration(d, nanos).Some?
    ensures floor < NextGeneration(d, nanos).value <==> (ClockDecides(d) ==> floor < nanos)
  {
    assert Last(d.markers) in d.markers && Last(d.records) in d.records;
  }

  /** The generation whose record a save makes visible, acknowledged or not. */
  function Shown(d: Disk, token: string, kindAllowed: bool, nanos: nat, counter: Outcome, credential: Outcome): Option<nat>
    requires DiskOk(d) && nanos <= MAX
  {
    if kindAllowed && token != "" && counter == Synced && credential != NotRenamed then NextGeneration(d, nanos) else None
  }

  lemma SaveRaisesFloor(d: Disk, floor: nat, token: string, kindAllowed: bool, nanos: nat, counter: Outcome, credential: Outcome)
    requires Above(d, floor) && nanos <= MAX && (ClockDecides(d) ==> floor < nanos)
    ensures var s := Saved(d, token, kindAllowed, nanos, counter, credential);
            var shown := Shown(d, token, kindAllowed, nanos, counter, credential);
            && Above(s.disk, floor)
            && (shown.Some? ==> floor < shown.value && Above(s.disk, shown.value))
            && (s.issued.Some? ==> s.issued == shown)
  {
    if NextGeneration(d, nanos).Some? { IssuesAboveIff(d, floor, nanos); }
    assert Last(d.markers) in d.markers && Last(d.records) in d.records;
  }

  /** What a delete needs of the record it unlinks for the floor to survive. */
  predicate RemovalSafe(d: Disk, floor: nat)
    requires DiskOk(d)
  {
    match Last(d.records)
    case Kept(g, _) => floor <= g
    case BadRecord => NoMarker !in d.markers || floor == 0
    case NoRecord => true
  }

  lemma DeleteKeepsFloor(d: Disk, floor: nat, counter: Outcome, unlinked: bool)
    requires Above(d, floor) && RemovalSafe(d, floor)
    ensures Above(Deleted(d, counter, unlinked).disk, floor)
  {
    assert Last(d.markers) in d.markers && Last(d.records) in d.records;
  }

  /** Whatever a crash leaves of d, every next save issues above floor, wherever it has more than the clock to go by. */
  ghost predicate NeverBelow(d: Disk, floor: nat) {
    DiskOk(d) && forall m, r, nanos :: m in d.markers && r in d.records ==> IssuesOver(Disk([m], [r]), nanos, floor)
  }

  predicate IssuesOver(d: Disk, nanos: nat, floor: nat) {
    DiskOk(d) && nanos <= MAX && (ClockDecides(d) ==> floor < nanos) && NextGeneration(d, nanos).Some? ==>
      floor < NextGeneration(d, nanos).value
  }

  /** A completed delete leaves a store that can only issue above the floor exactly when the record it unlinked was safe. */
  lemma DeleteKeepsFloorIff(d: Disk, floor: nat)
    requires Above(d, floor) && floor <= MAX
    ensures NeverBelow(Deleted(d, Synced, true).disk, floor) <==> RemovalSafe(d, floor)
  {
    assert Last(d.markers) in d.markers && Last(d.records) in d.records;
    var after := Deleted(d, Synced, true).disk;
    if RemovalSafe(d, floor) {
      DeleteKeepsFloor(d, floor, Synced, true);
      forall m, r, nanos: nat | m in after.markers && r in after.records ensures IssuesOver(Disk([m], [r]), nanos, floor) {
        CrashKeepsFloor(after, floor, m, r);
        if nanos <= MAX && (ClockDecides(Disk([m], [r])) ==> floor < nanos) { IssuesAtLeast(Disk([m], [r]), floor, nanos); }
      }
    } else {
      var m := if Last(d.records).Kept? then Count(Last(d.records).generation) else NoMarker;
      assert m in after.markers && NoRecord in after.records;
      assert NextGeneration(Disk([m], [NoRecord]), 0).Some?;
      assert !IssuesOver(Disk([m], [NoRecord]), 0, floor);
    }
  }

  // ---- runs ------------------------------------------------------------------------------------

  datatype Step =
    | SaveStep(token: string, kindAllowed: bool, nanos: nat, counter: Outcome, credential: Outcome)
    | DeleteStep(counter: Outcome, unlinked: bool)
    | Crash(marker: Marker, record: Record)
    | SpoilRecord
    | SpoilMarker

  /** acked lists the generations saves returned, shown those whose record became visible. */
  datatype Sys = Sys(disk: Disk, acked: seq<nat>, shown: seq<nat>)

  function Appended(s: seq<nat>, g: Option<nat>): seq<nat> {
    if g.Some? then s + [g.value] else s
  }

  ghost predicate Next(s: Sys, step: Step, s': Sys) {
    && DiskOk(s.disk)
    && match step
       case SaveStep(token, kind, nanos, o1, o2) =>
         && nanos <= MAX
         && s' == Sys(Saved(s.disk, token, kind, nanos, o1, o2).disk,
                      Appended(s.acked, Saved(s.disk, token, kind, nanos, o1, o2).issued),
                      Appended(s.shown, Shown(s.disk, token, kind, nanos, o1, o2)))
       case DeleteStep(o, unlinked) => s' == s.(disk := Deleted(s.disk, o, unlinked).disk)
       case Crash(m, r) => m in s.disk.markers && r in s.disk.records && s' == s.(disk := Disk([m], [r]))
       case SpoilRecord => s' == s.(disk := s.disk.(records := s.disk.records + [BadRecord]))
       case SpoilMarker => s' == s.(disk := s.disk.(markers := s.disk.markers + [BadMarker]))
  }

  predicate Increasing(s: seq<nat>) {
    forall i, j :: 0 <= i < j < |s| ==> s[i] < s[j]
  }

  function Top(s: seq<nat>): nat {
    if s == [] then 0 else s[|s| - 1]
  }

  /** A clock the store has to rely on is ahead of what was issued. */
  predicate ClockSound(s: Sys, step: Step, issued: seq<nat>) {
    DiskOk(s.disk) && (step.SaveStep? && ClockDecides(s.disk) ==> Top(issued) < step.nanos)
  }

  /** A spoiled record is not deleted while the store has no counter. */
  predicate AckedSound(s: Sys, step: Step) {
    && ClockSound(s, step, s.acked)
    && (step.DeleteStep? && Last(s.disk.records).BadRecord? ==> RemovalSafe(s.disk, Top(s.acked)))
  }

  /** And no record is deleted while a newer one was shown. */
  predicate ShownSound(s: Sys, step: Step) {
    && ClockSound(s, step, s.shown)
    && (step.DeleteStep? ==> RemovalSafe(s.disk, Top(s.shown)))
  }

  ghost predicate AckedInv(s: Sys) {
    && Above(s.disk, Top(s.acked)) && Increasing(s.acked)
    && forall r :: r in s.disk.records && r.Kept? ==> Top(s.acked) <= r.generation
  }

  ghost predicate ShownInv(s: Sys) {
    Above(s.disk, Top(s.shown)) && Increasing(s.shown)
  }

  lemma CrashKeepsFloor(d: Disk, floor: nat, m: Marker, r: Record)
    requires Above(d, floor) && m in d.markers && r in d.records
    ensures Above(Disk([m], [r]), floor)
  {
  }

  lemma SpoilKeepsFloor(d: Disk, floor: nat)
    requires Above(d, floor)
    ensures Above(d.(records := d.records + [BadRecord]), floor) && Above(d.(markers := d.markers + [BadMarker]), floor)
  {
  }

  lemma SavedRecords(d: Disk, token: string, kindAllowed: bool, nanos: nat, counter: Outcome, credential: Outcome, r: Record)
    requires DiskOk(d) && nanos <= MAX && r in Saved(d, token, kindAllowed, nanos, counter, credential).disk.records
    ensures r in d.records || NextGeneration(d, nanos) == Some(r.generation)
    ensures Saved(d, token, kindAllowed, nanos, counter, credential).issued.Some? ==> NextGeneration(d, nanos) == Some(r.generation)
  {
  }

  lemma NextKeepsAcked(s: Sys, step: Step, s': Sys)
    requires AckedInv(s) && Next(s, step, s') && AckedSound(s, step)
    ensures AckedInv(s')
  {
    var top := Top(s.acked);
    assert Last(s.disk.records) in s.disk.records;
    hide Above, Saved, Shown, NextGeneration;
    match step
    case SaveStep(token, kind, nanos, o1, o2) =>
      SaveRaisesFloor(s.disk, top, token, kind, nanos, o1, o2);
      forall r | r in s'.disk.records && r.Kept? ensures Top(s'.acked) <= r.generation {
        SavedRecords(s.disk, token, kind, nanos, o1, o2, r);
        IssuesAtLeast(s.disk, top, nanos);
      }
    case DeleteStep(o, unlinked) =>
      DeleteKeepsFloor(s.disk, top, o, unlinked);
    case Crash(m, r) =>
      CrashKeepsFloor(s.disk, top, m, r);
    case _ =>
      SpoilKeepsFloor(s.disk, top);
  }

  lemma IssuesAtLeast(d: Disk, floor: nat, nanos: nat)
    requires Above(d, floor) && nanos <= MAX && (ClockDecides(d) ==> floor < nanos)
    ensures NextGeneration(d, nanos).Some? ==> floor < NextGeneration(d, nanos).value
  {
    if NextGeneration(d, nanos).Some? { IssuesAboveIff(d, floor, nanos); }
  }

  lemma NextKeepsShown(s: Sys, step: Step, s': Sys)
    requires ShownInv(s) && Next(s, step, s') && ShownSound(s, step)
    ensures ShownInv(s')
  {
    var top := Top(s.shown);
    hide Above, Saved, Shown, NextGeneration, Deleted;
    match step
    case SaveStep(token, kind, nanos, o1, o2) => SaveRaisesFloor(s.disk, top, token, kind, nanos, o1, o2);
    case DeleteStep(o, unlinked) => DeleteKeepsFloor(s.disk, top, o, unlinked);
    case Crash(m, r) => CrashKeepsFloor(s.disk, top, m, r);
    case _ => SpoilKeepsFloor(s.disk, top);
  }

  ghost predicate Run(states: seq<Sys>, steps: seq<Step>) {
    && |states| == |steps| + 1
    && forall i :: 0 <= i < |steps| ==> Next(states[i], steps[i], states[i + 1])
  }

  /** A store starts empty, or as one older software left: a readable record and no counter yet. */
  predicate Init(s: Sys) {
    || s == Sys(Disk([NoMarker], [NoRecord]), [], [])
    || (&& |s.disk.records| == 1 && s.disk.records[0].Kept? && s.disk.records[0].generation < MAX
        && s.disk.markers == [NoMarker]
        && s.acked == [s.disk.records[0].generation] && s.shown == s.acked)
  }

  /** Over any run of saves, deletes, failures, crashes and corruption the acknowledged generations strictly increase. */
  lemma {:induction false} AckedGenerationsIncrease(states: seq<Sys>, steps: seq<Step>)
    requires Run(states, steps) && Init(states[0])
    requires forall i :: 0 <= i < |steps| ==> AckedSound(states[i], steps[i])
    ensures AckedInv(states[|steps|])
    ensures Increasing(states[|steps|].acked)
    decreases |steps|
  {
    if steps != [] {
      var k := |steps| - 1;
      AckedGenerationsIncrease(states[..k + 1], steps[..k]);
      NextKeepsAcked(states[k], steps[k], states[k + 1]);
    }
  }

  /** While no delete unlinks a record older than one already shown, no generation ever names two records. */
  lemma {:induction false} NoGenerationIsShownTwice(states: seq<Sys>, steps: seq<Step>)
    requires Run(states, steps) && Init(states[0])
    requires forall i :: 0 <= i < |steps| ==> ShownSound(states[i], steps[i])
    ensures ShownInv(states[|steps|])
    ensures Increasing(states[|steps|].shown)
    decreases |steps|
  {
    if steps != [] {
      var k := |steps| - 1;
      NoGenerationIsShownTwice(states[..k + 1], steps[..k]);
      NextKeepsShown(states[k], steps[k], states[k + 1]);
    }
  }

  /**
   The condition on deletes is needed: a record shown but not synced, lost in a crash, is followed by a delete that
   lowers the counter to the surviving record, and the next save gives the lost generation to another token.
   */
  lemma LostRecordThenDeleteReusesGeneration()
    ensures var d0 := Disk([Count(1)], [Kept(1, "a")]);
            var d1 := Saved(d0, "b", true, 0, Synced, NotSynced).disk;
            var d2 := Disk([Count(2)], [Kept(1, "a")]);
            var d3 := Deleted(d2, Synced, true).disk;
            && Last(d1.records) == Kept(2, "b")
            && Last(d2.markers) in d1.markers && Last(d2.records) in d1.records
            && Saved(d3, "c", true, 0, Synced, Synced).issued == Some(2)
  {
    var d0 := Disk([Count(1)], [Kept(1, "a")]);
    assert Shown(d0, "b", true, 0, Synced, NotSynced) == Some(2);
  }

  /** A spoiled record of a store without a counter, once deleted, restarts the generations at one. */
  lemma SpoiledLegacyStoreRestartsAtOne(g: nat, token: string)
    requires g < MAX && token != ""
    ensures var spoiled := Disk([NoMarker], [Kept(g, "a"), BadRecord]);
            var gone := Deleted(spoiled, Synced, true).disk;
            Saved(gone, token, true, 0, Synced, Synced).issued == Some(1)
  {
    assert Last(Deleted(Disk([NoMarker], [Kept(g, "a"), BadRecord]), Synced, true).disk.records) == NoRecord;
  }
}
