/**
 How long a journal can grow: the bound the record counter keeps over whole runs,
 and when it keeps every journal within what recovery will read.
 */
module ReplayCapacity {
  import opened Bytes
  import opened JournalCodec
  import opened ReplayStore
  import opened ReplayProtocol

  /** An append that failed may have left a frame the counter does not know of. */
  function Fails(step: Step): nat {
    if step.Append? && step.appendIO.WriteFailed? then 1 else 0
  }

  /** The failed appends since the current journals were created, after one more step. */
  function RecentAfter(s: Sys, step: Step, s': Sys, recent: nat): nat {
    if s'.mem.gen != s.mem.gen || step.StartServing? then 0 else recent + Fails(step)
  }

  function Recent(states: seq<Sys>, steps: seq<Step>, i: nat): nat
    requires |states| == |steps| + 1 && i < |states|
  {
    if i == 0 then 0 else RecentAfter(states[i - 1], steps[i - 1], states[i], Recent(states, steps, i - 1))
  }

  /** The most failed appends any one generation of journals has seen. */
  function Worst(states: seq<Sys>, steps: seq<Step>, i: nat): nat
    requires |states| == |steps| + 1 && i < |states|
  {
    if i == 0 then 0 else More(Worst(states, steps, i - 1), Recent(states, steps, i))
  }

  function More(a: nat, b: nat): nat {
    if a < b then b else a
  }

  /** The most frames one journal can hold with at most inFlight appends under way and failed failed ones in a generation. */
  function MostFrames(inFlight: nat, failed: nat): nat {
    REPLAY_JOURNAL_LIMIT - 1 + inFlight + failed
  }

  ghost predicate FilesHold(files: map<FileId, File>, frames: int) {
    forall id :: id in files ==> |files[id].recs| <= frames
  }

  /** The same of the journals of a generation above last. */
  ghost predicate NewFilesHold(files: map<FileId, File>, last: int, frames: int) {
    forall id :: id in files && id.gen > last ==> |files[id].recs| <= frames
  }

  /** The counter covers every frame a failed append did not slip in, in the journals it still counts. */
  ghost predicate Counted(s: Sys, inFlight: nat, recent: nat, worst: nat) {
    && 0 <= s.mem.records && s.mem.records + |s.appending| <= REPLAY_JOURNAL_LIMIT - 1 + inFlight
    && FilesHold(s.disk.files, s.mem.records + worst)
    && NewFilesHold(s.disk.files, s.mem.gen - 1, s.mem.records + recent)
    && match s.compaction
       case Idle => true
       case Rotated(_, last, rotated) => 0 <= rotated <= s.mem.records && NewFilesHold(s.disk.files, last, s.mem.records - rotated + recent)
       case Deleting(last, rotated) => 0 <= rotated <= s.mem.records && NewFilesHold(s.disk.files, last, s.mem.records - rotated + recent)
  }

  ghost predicate SizeInv(s: Sys, inFlight: nat, recent: nat, worst: nat) {
    && recent <= worst
    && FilesHold(s.disk.files, MostFrames(inFlight, worst)) && FilesHold(s.disk.unlinked, MostFrames(inFlight, worst))
    && (s.phase.Up? ==> Counted(s, inFlight, recent, worst))
  }

  lemma Looser(files: map<FileId, File>, few: int, many: int)
    requires FilesHold(files, few) && few <= many
    ensures FilesHold(files, many)
  {
  }

  /** No journal lost its place, and only one of generation gen may have a frame more. */
  ghost predicate Grown(before: map<FileId, File>, after: map<FileId, File>, gen: nat) {
    && after.Keys == before.Keys
    && forall id :: id in before ==> |after[id].recs| <= |before[id].recs| + (if id.gen == gen then 1 else 0)
  }

  /** An append adds at most one frame to a current journal, and counts it unless it failed. */
  lemma AppendEffect(env: Env, m: Mem, d: Disk, rec: ReplayRecord, io: AppendIO)
    ensures var (m', d', _) := AppendRecord(env, m, d, rec, io);
            && m'.gen == m.gen && d'.unlinked == d.unlinked
            && 0 <= m'.records - m.records <= 1
            && (|| (d' == d && m'.records == m.records)
                || (Grown(d.files, d'.files, m.gen) && m'.records + (if io.WriteFailed? then 1 else 0) == m.records + 1))
  {
    hide EncodeReplayRecord, ShardFor, Frame;
  }

  /** One frame more in the current journals and none in the older ones. */
  lemma GrownFilesHold(before: map<FileId, File>, after: map<FileId, File>, gen: nat, all: int, current: int, all': int)
    requires Grown(before, after, gen) && FilesHold(before, all) && NewFilesHold(before, gen - 1, current)
    requires all <= all' && current + 1 <= all'
    ensures FilesHold(after, all') && NewFilesHold(after, gen - 1, current + 1)
  {
  }

  lemma GrownByOne(before: map<FileId, File>, after: map<FileId, File>, gen: nat, last: int, frames: int)
    requires Grown(before, after, gen) && NewFilesHold(before, last, frames)
    ensures NewFilesHold(after, last, frames + 1)
  {
  }

  /** What an append may do to the counter and the journals. */
  ghost predicate Appends(s: Sys, s': Sys, fails: nat) {
    && s.phase.Up? && s'.phase.Up? && s'.mem.gen == s.mem.gen && s'.compaction == s.compaction
    && s'.disk.unlinked == s.disk.unlinked && |s'.appending| == |s.appending| - 1
    && 0 <= s'.mem.records - s.mem.records <= 1
    && (|| (s'.disk == s.disk && s'.mem.records == s.mem.records)
        || (Grown(s.disk.files, s'.disk.files, s.mem.gen) && s'.mem.records + fails == s.mem.records + 1))
  }

  lemma AppendIsCounted(env: Env, s: Sys, t: nat, io: AppendIO, s': Sys)
    requires AppendStep(env, s, t, io, s')
    ensures Appends(s, s', Fails(Append(t, io)))
  {
    AppendEffect(env, s.mem, s.disk, s.appending[t], io);
    RemovesOne(s.appending, t);
    hide AppendRecord, Grown;
  }

  lemma SizeIsLooser(s: Sys, inFlight: nat, recent: nat, worst: nat, recent': nat, worst': nat)
    requires SizeInv(s, inFlight, recent, worst) && recent <= recent' <= worst' && worst <= worst'
    ensures SizeInv(s, inFlight, recent', worst')
  {
    hide FilesHold, NewFilesHold;
    Looser(s.disk.files, MostFrames(inFlight, worst), MostFrames(inFlight, worst'));
    Looser(s.disk.unlinked, MostFrames(inFlight, worst), MostFrames(inFlight, worst'));
    if s.phase.Up? {
      Looser(s.disk.files, s.mem.records + worst, s.mem.records + worst');
      NewLooser(s.disk.files, s.mem.gen - 1, s.mem.records + recent, s.mem.records + recent');
      if !s.compaction.Idle? {
        var counted := s.mem.records - s.compaction.rotated;
        NewLooser(s.disk.files, s.compaction.last, counted + recent, counted + recent');
      }
    }
  }

  lemma AppendKeepsSize(s: Sys, s': Sys, inFlight: nat, recent: nat, worst: nat, fails: nat)
    requires Appends(s, s', fails) && SizeInv(s, inFlight, recent, worst)
    ensures SizeInv(s', inFlight, recent + fails, More(worst, recent + fails))
  {
    hide FilesHold, NewFilesHold, Grown;
    var failed := recent + fails;
    var most := More(worst, failed);
    if s'.disk == s.disk && s'.mem.records == s.mem.records {
      assert SizeInv(s', inFlight, recent, worst);
      SizeIsLooser(s', inFlight, recent, worst, failed, most);
    } else {
      var before, after := s.disk.files, s'.disk.files;
      GrownFilesHold(before, after, s.mem.gen, s.mem.records + worst, s.mem.records + recent, s'.mem.records + most);
      if !s.compaction.Idle? {
        GrownByOne(before, after, s.mem.gen, s.compaction.last, s.mem.records - s.compaction.rotated + recent);
      }
      Looser(after, s'.mem.records + most, MostFrames(inFlight, most));
      Looser(s.disk.unlinked, MostFrames(inFlight, worst), MostFrames(inFlight, most));
    }
  }

  lemma NewLooser(files: map<FileId, File>, last: int, few: int, many: int)
    requires NewFilesHold(files, last, few) && few <= many
    ensures NewFilesHold(files, last, many)
  {
  }

  lemma RemovesOne(m: map<nat, ReplayRecord>, t: nat)
    requires t in m
    ensures |m - {t}| == |m| - 1
  {
    assert (m - {t}).Keys == m.Keys - {t};
    assert |(m - {t}).Keys| == |m.Keys| - 1;
    assert |m| == |m.Keys| && |m - {t}| == |(m - {t}).Keys|;
  }

  lemma DecideKeepsSize(s: Sys, t: nat, s': Sys, inFlight: nat, recent: nat, worst: nat)
    requires DecideStep(s, t, s') && SizeInv(s, inFlight, recent, worst) && |s'.appending| <= inFlight
    ensures s'.mem.gen == s.mem.gen && SizeInv(s', inFlight, recent, worst)
  {
    hide ReplayKey, Cutoff, Unexpired;
  }

  /** A rotation adds empty journals of the next generation only. */
  lemma RotateEffect(m: Mem, d: Disk, io: CreateIO)
    ensures var (m', d') := Rotate(m, d, io);
            && m'.records == m.records && m'.gen == (if m.closed then m.gen else m.gen + 1)
            && (m.closed ==> d' == d)
            && (forall id :: id in d'.files ==> (id in d.files && d'.files[id] == d.files[id]) || (id.gen == m.gen + 1 && d'.files[id].recs == []))
            && (forall id :: id in d'.unlinked ==> id in d.unlinked && d'.unlinked[id] == d.unlinked[id])
  {
    hide EmptyShards;
  }

  lemma RotatedFilesHold(m: Mem, d: Disk, io: CreateIO, frames: nat, unlinked: int)
    requires FilesHold(d.files, frames) && FilesHold(d.unlinked, unlinked) && forall id :: id in d.files ==> id.gen <= m.gen
    ensures var (m', d') := Rotate(m, d, io);
            && m'.records == m.records && m'.gen == (if m.closed then m.gen else m.gen + 1) && (m.closed ==> d' == d)
            && FilesHold(d'.files, frames) && FilesHold(d'.unlinked, unlinked) && NewFilesHold(d'.files, m.gen, 0)
  {
    RotateEffect(m, d, io);
    hide Rotate;
  }

  /** The counter after a rotation, begun or not. */
  lemma RotationKeepsCount(s: Sys, s': Sys, inFlight: nat, recent: nat, worst: nat)
    requires SizeInv(s, inFlight, recent, worst) && s.phase.Up? && s'.phase.Up? && s'.appending == s.appending && s'.mem.records == s.mem.records
    requires s'.compaction.Idle? || (s'.compaction.Rotated? && s'.mem.gen != s.mem.gen && s'.compaction.last == s.mem.gen && s'.compaction.rotated == s.mem.records)
    requires FilesHold(s'.disk.files, s.mem.records + worst) && FilesHold(s'.disk.unlinked, MostFrames(inFlight, worst))
    requires if s'.mem.gen == s.mem.gen then s'.disk == s.disk else s'.mem.gen == s.mem.gen + 1 && NewFilesHold(s'.disk.files, s.mem.gen, 0)
    ensures SizeInv(s', inFlight, if s'.mem.gen != s.mem.gen then 0 else recent, worst)
  {
    hide FilesHold, NewFilesHold;
    Looser(s'.disk.files, s.mem.records + worst, MostFrames(inFlight, worst));
    if s'.mem.gen != s.mem.gen { NewLooser(s'.disk.files, s.mem.gen, 0, s.mem.records); }
  }

  lemma StartCompactionKeepsSize(known: set<ReplayRecord>, s: Sys, io: CreateIO, s': Sys, inFlight: nat, recent: nat, worst: nat)
    requires MemOk(known, s) && StartCompactionStep(s, io, s') && SizeInv(s, inFlight, recent, worst)
    ensures SizeInv(s', inFlight, if s'.mem.gen != s.mem.gen then 0 else recent, worst)
  {
    assert forall id :: id in s.disk.files ==> id.gen <= s.mem.gen;
    hide MemOk, Cutoff, Unexpired;
    RotatedFilesHold(s.mem, s.disk, io, s.mem.records + worst, MostFrames(inFlight, worst));
    hide Rotate, FilesHold, NewFilesHold;
    RotationKeepsCount(s, s', inFlight, recent, worst);
  }

  lemma LossKeepsSize(w: Wire, d: Disk, d': Disk, frames: nat)
    requires DiskAfterLoss(w, d, d') && FilesHold(d.files, frames) && FilesHold(d.unlinked, frames)
    ensures FilesHold(d'.files, frames) && d'.unlinked == map[]
  {
    hide CrashTail;
  }

  lemma UnlinkKeepsSize(d: Disk, id: FileId, frames: int)
    requires FilesHold(d.files, frames) && FilesHold(d.unlinked, frames)
    ensures FilesHold(Unlink(d, id).files, frames) && FilesHold(Unlink(d, id).unlinked, frames)
    ensures forall last: int, n: int :: NewFilesHold(d.files, last, n) ==> NewFilesHold(Unlink(d, id).files, last, n)
    ensures forall n: int :: FilesHold(d.files, n) ==> FilesHold(Unlink(d, id).files, n)
  {
  }

  lemma CommitKeepsFiles(d: Disk, snapshot: Ledger, io: CommitIO)
    ensures CommitSnapshot(d, snapshot, io).files == d.files
    ensures CommitSnapshot(d, snapshot, io).unlinked == d.unlinked || CommitSnapshot(d, snapshot, io).unlinked == map[]
  {
  }

  /** Once the rotated journals are gone their records need not be counted. */
  lemma EndCompactionKeepsSize(s: Sys, dirSynced: bool, s': Sys, inFlight: nat, recent: nat, worst: nat)
    requires EndCompactionStep(s, dirSynced, s') && SizeInv(s, inFlight, recent, worst)
    ensures s'.mem.gen == s.mem.gen && SizeInv(s', inFlight, recent, worst)
  {
  }

  lemma FirstShardsAreEmpty(m: Mem, d: Disk, io: CreateIO, frames: nat)
    requires d.files == map[] && FilesHold(d.unlinked, frames)
    ensures var (m', d') := CreateShards(m, d, io);
            m'.records == m.records && m'.gen == m.gen && FilesHold(d'.files, 0) && NewFilesHold(d'.files, m.gen - 1, 0) && FilesHold(d'.unlinked, frames)
  {
    hide EmptyShards;
  }

  lemma ServingStartsEmpty(known: set<ReplayRecord>, s: Sys, io: CreateIO, s': Sys, inFlight: nat, recent: nat, worst: nat)
    requires MemOk(known, s) && StartServingStep(s, io, s') && SizeInv(s, inFlight, recent, worst)
    ensures SizeInv(s', inFlight, 0, worst)
  {
    assert s.appending == map[] && s.compaction.Idle?;
    FirstShardsAreEmpty(Mem(s.phase.ledger, 1, false, false, 0), s.disk, io, MostFrames(inFlight, worst));
    hide FilesHold, NewFilesHold, CreateShards, MemOk;
    Looser(s'.disk.files, 0, MostFrames(inFlight, worst));
    Looser(s'.disk.files, 0, worst);
  }

  lemma NextKeepsSize(env: Env, known: set<ReplayRecord>, s: Sys, step: Step, s': Sys, inFlight: nat, recent: nat, worst: nat)
    requires Inv(env, known, s) && Next(env, known, s, step, s') && SizeInv(s, inFlight, recent, worst)
    requires |s'.appending| <= inFlight
    ensures var failed := RecentAfter(s, step, s', recent); SizeInv(s', inFlight, failed, More(worst, failed))
  {
    hide Inv, DecideStep, AppendStep, StartCompactionStep, EndCompactionStep, StartServingStep, DiskAfterLoss, LoadFiles,
         CommitSnapshot, Unlink, Unexpired, Cutoff, FilesHold, NewFilesHold, AdmitStep, Grown,
         WriteSnapshotStep, RemoveOldStep;
    assert MemOk(known, s) by { InvParts(env, known, s); }
    hide MemOk;
    match step
    case Admit(t, req) => AdmitChangesNothing(known, s, t, req, s');
    case Decide(t) => DecideKeepsSize(s, t, s', inFlight, recent, worst);
    case Append(t, io) =>
      AppendIsCounted(env, s, t, io, s');
      AppendKeepsSize(s, s', inFlight, recent, worst, Fails(step));
    case StartCompaction(io) => StartCompactionKeepsSize(known, s, io, s', inFlight, recent, worst);
    case WriteSnapshot(io) => SnapshotKeepsSize(s, io, s', inFlight, recent, worst);
    case RemoveOld(id) => RemovalKeepsSize(s, id, s', inFlight, recent, worst);
    case EndCompaction(dirSynced) => EndCompactionKeepsSize(s, dirSynced, s', inFlight, recent, worst);
    case PowerLoss(after) => StopKeepsSize(env, s, after, s', inFlight, recent, worst);
    case FoldJournals(io) =>
      CommitKeepsFiles(s.disk, s.phase.ledger, io);
      NoFilesHold(MostFrames(inFlight, worst));
    case RemoveFolded(id) => UnlinkKeepsSize(s.disk, id, MostFrames(inFlight, worst));
    case StartServing(io) => ServingStartsEmpty(known, s, io, s', inFlight, recent, worst);
    case _ =>
  }

  lemma SnapshotKeepsSize(s: Sys, io: CommitIO, s': Sys, inFlight: nat, recent: nat, worst: nat)
    requires WriteSnapshotStep(s, io, s') && SizeInv(s, inFlight, recent, worst)
    ensures s'.mem.gen == s.mem.gen && SizeInv(s', inFlight, recent, worst)
  {
    CommitKeepsFiles(s.disk, s.compaction.snapshot, io);
    NoFilesHold(MostFrames(inFlight, worst));
    hide CommitSnapshot, FilesHold, NewFilesHold;
  }

  lemma RemovalKeepsSize(s: Sys, id: FileId, s': Sys, inFlight: nat, recent: nat, worst: nat)
    requires RemoveOldStep(s, id, s') && SizeInv(s, inFlight, recent, worst)
    ensures s'.mem.gen == s.mem.gen && SizeInv(s', inFlight, recent, worst)
  {
    UnlinkKeepsSize(s.disk, id, MostFrames(inFlight, worst));
    hide Unlink, FilesHold, NewFilesHold;
  }

  lemma StopKeepsSize(env: Env, s: Sys, after: Disk, s': Sys, inFlight: nat, recent: nat, worst: nat)
    requires DiskAfterLoss(env.wire, s.disk, after) && s' == Stopped(s).(disk := after) && SizeInv(s, inFlight, recent, worst)
    ensures s'.mem.gen == s.mem.gen && SizeInv(s', inFlight, recent, worst)
  {
    LossKeepsSize(env.wire, s.disk, after, MostFrames(inFlight, worst));
    NoFilesHold(MostFrames(inFlight, worst));
    hide DiskAfterLoss, FilesHold, NewFilesHold;
  }

  lemma InvParts(env: Env, known: set<ReplayRecord>, s: Sys)
    requires Inv(env, known, s)
    ensures MemOk(known, s)
  {
  }

  lemma NoFilesHold(frames: int)
    ensures FilesHold(map[], frames)
  {
  }

  lemma AdmitChangesNothing(known: set<ReplayRecord>, s: Sys, t: nat, req: Request, s': Sys)
    requires AdmitStep(known, s, t, req, s')
    ensures s' == s.(admitted := s'.admitted)
  {
  }

  /** Over any run with at most inFlight appends under way, the counter and every journal stay within their bounds. */
  lemma {:induction false} JournalsStayCounted(env: Env, known: set<ReplayRecord>, states: seq<Sys>, steps: seq<Step>, i: nat, inFlight: nat)
    requires Lawful(env.wire) && ClientRecords(known) && CleanRun(env, known, states, steps) && i < |states|
    requires forall k :: 0 <= k <= i ==> |states[k].appending| <= inFlight
    ensures SizeInv(states[i], inFlight, Recent(states, steps, i), Worst(states, steps, i))
  {
    hide Next, CleanAppend, ClientRecords, SizeInv, RecentAfter;
    if i > 0 {
      JournalsStayCounted(env, known, states, steps, i - 1, inFlight);
      ReachableInv(env, known, states, steps, i - 1);
      NextKeepsSize(env, known, states[i - 1], steps[i - 1], states[i], inFlight, Recent(states, steps, i - 1), Worst(states, steps, i - 1));
    } else {
      assert SizeInv(states[0], inFlight, 0, 0) by { InitIsEmpty(known, states[0], inFlight); }
    }
  }

  lemma InitIsEmpty(known: set<ReplayRecord>, s: Sys, inFlight: nat)
    requires Init(known, s)
    ensures SizeInv(s, inFlight, 0, 0)
  {
  }

  // ---- bytes -----------------------------------------------------------------------------

  lemma {:induction false} FramesAreBounded(w: Wire, rs: seq<ReplayRecord>, size: nat)
    requires forall r :: r in rs ==> |Frame(w, r)| <= size
    ensures |Frames(w, rs)| <= size * |rs|
  {
    hide Frame;
    if rs != [] {
      var rest := rs[1..];
      assert rs[0] in rs && |Frames(w, rs)| <= size + |Frames(w, rest)|;
      FramesAreBounded(w, rest, size);
      OneMore(size, |rest|);
    }
  }

  lemma OneMore(size: nat, n: nat)
    ensures size * (n + 1) == size + size * n
  {
  }

  lemma TailIsBounded(w: Wire, tail: bytes)
    requires CrashTail(w, tail)
    ensures |tail| <= MAX_FRAME
  {
  }

  lemma ContentIsBounded(env: Env, known: set<ReplayRecord>, f: File, size: nat, frames: nat)
    requires FileOk(env, known, f) && |f.recs| <= frames && forall r :: r in known ==> |Frame(env.wire, r)| <= size
    ensures |Content(env, f)| <= size * frames + MAX_FRAME
  {
    FramesAreBounded(env.wire, f.recs, size);
    TailIsBounded(env.wire, f.torn);
    Monotone(size, |f.recs|, frames);
  }

  lemma Monotone(size: nat, a: nat, b: nat)
    requires a <= b
    ensures size * a <= size * b
  {
  }

  lemma DiskFitsReader(env: Env, known: set<ReplayRecord>, d: Disk, size: nat, frames: nat)
    requires DiskOk(env, known, d) && FilesHold(d.files, frames) && forall r :: r in known ==> |Frame(env.wire, r)| <= size
    requires size * frames + MAX_FRAME <= MAX_JOURNAL_BYTES
    ensures FitsReader(env, d)
  {
    hide Content, FileOk, WellKeyed, Frame;
    forall id | id in d.files ensures |Content(env, d.files[id])| <= MAX_JOURNAL_BYTES {
      ContentIsBounded(env, known, d.files[id], size, frames);
    }
  }

  /** Frames of at most size bytes leave room for the appends that run at once and those that fail in one generation. */
  predicate LeavesRoom(size: nat, inFlight: nat, failed: nat) {
    size * MostFrames(inFlight, failed) + MAX_FRAME <= MAX_JOURNAL_BYTES
  }

  /**
   Recovery needs no luck: where the records are small enough for the appends that run at once and fail in one generation,
   whatever a kill or a power loss leaves is read in any order, and holds every accepted unexpired request.
   */
  lemma RecoverySucceeds(
      env: Env, known: set<ReplayRecord>, states: seq<Sys>, steps: seq<Step>, i: nat, size: nat, inFlight: nat, after: Disk, order: seq<FileId>)
    requires Lawful(env.wire) && ClientRecords(known) && CleanRun(env, known, states, steps) && i < |states|
    requires forall k :: 0 <= k <= i ==> |states[k].appending| <= inFlight
    requires forall r :: r in known ==> |Frame(env.wire, r)| <= size
    requires LeavesRoom(size, inFlight, Worst(states, steps, i))
    requires (after == states[i].disk || DiskAfterLoss(env.wire, states[i].disk, after)) && Lists(order, after)
    ensures LoadFiles(env, after, order).Some?
    ensures forall r :: Pending(states[i], r) ==> Holds(Unexpired(LoadFiles(env, after, order).value, Cutoff(states[i].clock)), r)
  {
    hide Next, CleanAppend, ClientRecords, ReplayKey, Cutoff, Holds, DiskOk, LoadFiles, Frame, DiskAfterLoss, Unexpired, Recent, Worst;
    var s, frames := states[i], MostFrames(inFlight, Worst(states, steps, i));
    JournalsStayCounted(env, known, states, steps, i, inFlight);
    ReachableInv(env, known, states, steps, i);
    if after == s.disk {
      DiskFitsReader(env, known, s.disk, size, frames);
      LoadFilesSucceedsIff(env, known, s.disk, order);
      LoadFilesHolds(env, known, s.disk, order);
      forall r | Pending(s, r)
        ensures Holds(Unexpired(LoadFiles(env, after, order).value, Cutoff(s.clock)), r)
      {
        AcceptanceIsNeverForgotten(env, known, states, steps, i, r);
        StoredIsLoaded(s.disk, order, r);
        UnexpiredKeeps(LoadFiles(env, after, order).value, Cutoff(s.clock), r);
      }
    } else {
      LossKeepsSize(env.wire, s.disk, after, frames);
      DiskOkAfterLoss(env, known, s.disk, after);
      DiskFitsReader(env, known, after, size, frames);
      RecoveryLoadsEveryAcceptance(env, known, states, steps, i, after, order);
    }
  }

  lemma UnexpiredKeeps(m: Ledger, cutoff: int, r: ReplayRecord)
    requires Holds(m, r) && r.expiresAt >= cutoff
    ensures Holds(Unexpired(m, cutoff), r)
  {
    hide ReplayKey;
  }

  /** Records of half the largest size leave room for over thirty thousand appends at once or failed. */
  lemma HalfSizedRecordsLeaveRoom(inFlight: nat, failed: nat)
    requires inFlight + failed < REPLAY_JOURNAL_LIMIT
    ensures LeavesRoom(MAX_FRAME / 2, inFlight, failed)
  {
  }
}
