/**
 Every interleaving of acceptances, compaction, failures, crashes and restarts
 over the replay store, and what each of them keeps.
 */
module ReplayProtocol {
  import opened Bytes
  import opened JournalCodec
  import opened ReplayStore

  /** A signed request as the ledger sees it. */
  datatype Request = Request(boot: nat, rec: ReplayRecord, issuedAt: int)

  /** A Verify that has read the clock but not yet taken its decision. */
  datatype Admitted = Admitted(rec: ReplayRecord, now: int)

  datatype Phase = Down | Recovering(ledger: Ledger, folded: bool) | Up

  datatype Compaction = Idle | Rotated(snapshot: Ledger, last: nat, rotated: int) | Deleting(last: nat, rotated: int)

  /**
   accepted logs every acceptance a caller was told of; pruned is the highest cutoff
   the live ledger was pruned at, cutoff the highest anything was.
   */
  datatype Sys = Sys(
    mem: Mem, disk: Disk, phase: Phase, compaction: Compaction,
    admitted: map<nat, Admitted>, appending: map<nat, ReplayRecord>,
    clock: int, boot: nat, accepted: seq<ReplayRecord>, pruned: int, cutoff: int)

  datatype Step =
    | Tick(now: int)
    | Admit(thread: nat, request: Request)
    | Decide(thread: nat)
    | Append(thread: nat, appendIO: AppendIO)
    | StartCompaction(createIO: CreateIO)
    | WriteSnapshot(commitIO: CommitIO)
    | RemoveOld(id: FileId)
    | EndCompaction(dirSynced: bool)
    | FailCompaction
    | CloseJournal
    | Kill
    | PowerLoss(after: Disk)
    | LoadDisk(order: seq<FileId>)
    | FoldJournals(commitIO: CommitIO)
    | RemoveFolded(id: FileId)
    | FailRecovery
    | StartServing(createIO: CreateIO)

  function Max(a: int, b: int): int { if a < b then b else a }

  // ---- what a power loss may leave -----------------------------------------------

  /** A file keeps every synced frame; of the rest any whole frames and a crash tail. */
  ghost predicate FileAfterLoss(w: Wire, f: File, f': File) {
    && f.synced <= |f'.recs| <= |f.recs| && f'.recs == f.recs[..|f'.recs|]
    && f'.synced == |f'.recs|
    && CrashTail(w, f'.torn)
  }

  ghost predicate DiskAfterLoss(w: Wire, d: Disk, d': Disk) {
    && (d'.snapshot == d.snapshot || d.renamed == Some(d'.snapshot))
    && d'.renamed == None && d'.unlinked == map[]
    && (forall id :: id in d.files && d.files[id].synced > 0 ==> id in d'.files)
    && (forall id :: id in d'.files ==>
          || (id in d.files && FileAfterLoss(w, d.files[id], d'.files[id]))
          || (id in d.unlinked && FileAfterLoss(w, d.unlinked[id], d'.files[id])))
  }

  // ---- steps -----------------------------------------------------------------------

  ghost predicate AdmitStep(known: set<ReplayRecord>, s: Sys, t: nat, req: Request, s': Sys) {
    && s.phase.Up? && t !in s.admitted && t !in s.appending && req.rec in known
    && req.boot == s.boot && InTime(req.issuedAt, req.rec.expiresAt, s.clock)
    && s' == s.(admitted := s.admitted[t := Admitted(req.rec, s.clock)])
  }

  predicate Prunes(m: Mem, rec: ReplayRecord) {
    ReplayKey(rec) !in m.entries && |m.entries| >= MAX_REPLAY_ENTRIES
  }

  ghost predicate DecideStep(s: Sys, t: nat, s': Sys) {
    && s.phase.Up? && t in s.admitted
    && var a := s.admitted[t];
    && var (mem, decision) := DecideReplay(s.mem, a.rec, a.now);
    && var pruned := if Prunes(s.mem, a.rec) then Max(s.pruned, Cutoff(a.now)) else s.pruned;
    && s' == s.(mem := mem, admitted := s.admitted - {t},
                appending := if decision.Consumed? then s.appending[t := a.rec] else s.appending,
                pruned := pruned, cutoff := Max(s.cutoff, pruned))
  }

  ghost predicate AppendStep(env: Env, s: Sys, t: nat, io: AppendIO, s': Sys) {
    && s.phase.Up? && t in s.appending
    && var rec := s.appending[t];
    && var (mem, disk, result) := AppendRecord(env, s.mem, s.disk, rec, io);
    && s' == s.(mem := mem, disk := disk, appending := s.appending - {t},
                accepted := if result.Appended? then s.accepted + [rec] else s.accepted)
  }

  /** An append does not follow a partial write in its journal. */
  predicate CleanAppend(env: Env, s: Sys, step: Step) {
    step.Append? && step.thread in s.appending ==>
      var id := Journal(env, s.mem, s.appending[step.thread]);
      id in s.disk.files ==> s.disk.files[id].torn == []
  }

  ghost predicate StartCompactionStep(s: Sys, io: CreateIO, s': Sys) {
    && s.phase.Up? && s.compaction.Idle?
    && var (mem, disk) := Rotate(s.mem, s.disk, io);
    && var began := !s.mem.closed && io.CreateSynced?;
    && s' == s.(mem := mem, disk := disk, cutoff := Max(s.cutoff, Cutoff(s.clock)),
                compaction := if began
                              then Rotated(Unexpired(s.mem.entries, Cutoff(s.clock)), s.mem.gen, s.mem.records)
                              else Idle)
  }

  ghost predicate WriteSnapshotStep(s: Sys, io: CommitIO, s': Sys) {
    && s.phase.Up? && s.compaction.Rotated?
    && s' == s.(disk := CommitSnapshot(s.disk, s.compaction.snapshot, io),
                compaction := if io.CommitDurable? then Deleting(s.compaction.last, s.compaction.rotated) else Idle)
  }

  ghost predicate RemoveOldStep(s: Sys, id: FileId, s': Sys) {
    && s.phase.Up? && s.compaction.Deleting? && id.gen <= s.compaction.last
    && s' == s.(disk := Unlink(s.disk, id))
  }

  ghost predicate EndCompactionStep(s: Sys, dirSynced: bool, s': Sys) {
    && s.phase.Up? && s.compaction.Deleting?
    && (forall id :: id in s.disk.files ==> id.gen > s.compaction.last)
    && s' == s.(mem := s.mem.(records := s.mem.records - s.compaction.rotated), compaction := Idle,
                disk := if dirSynced then Synced(s.disk) else s.disk)
  }

  ghost predicate CloseStep(s: Sys, s': Sys) {
    && s.phase.Up? && s.compaction.Idle? && s.appending == map[] && s.admitted == map[]
    && s' == s.(mem := s.mem.(closed := true, installed := false))
  }

  /** The process is gone; the page cache and so the visible disk are not. */
  function Stopped(s: Sys): Sys {
    s.(phase := Down, compaction := Idle, admitted := map[], appending := map[])
  }

  ghost predicate LoadDiskStep(env: Env, s: Sys, order: seq<FileId>, s': Sys) {
    && s.phase.Down? && Lists(order, s.disk)
    && var loaded := LoadFiles(env, s.disk, order);
    && loaded.Some?
    && s' == s.(phase := Recovering(Unexpired(loaded.value, Cutoff(s.clock)), false),
                cutoff := Max(s.cutoff, Cutoff(s.clock)))
  }

  ghost predicate FoldStep(s: Sys, io: CommitIO, s': Sys) {
    && s.phase.Recovering? && s.disk.files != map[]
    && s' == s.(disk := CommitSnapshot(s.disk, s.phase.ledger, io),
                phase := if io.CommitDurable? then s.phase.(folded := true) else Down)
  }

  ghost predicate RemoveFoldedStep(s: Sys, id: FileId, s': Sys) {
    && s.phase.Recovering? && s.phase.folded
    && s' == s.(disk := Unlink(s.disk, id))
  }

  ghost predicate StartServingStep(s: Sys, io: CreateIO, s': Sys) {
    && s.phase.Recovering? && s.disk.files == map[]
    && var (mem, disk) := CreateShards(Mem(s.phase.ledger, 1, false, false, 0), s.disk, io);
    && s' == s.(mem := mem, disk := disk, boot := s.boot + 1, pruned := s.cutoff,
                phase := if io.CreateSynced? then Up else Down)
  }

  /** known is every record a client ever signs. */
  ghost predicate Next(env: Env, known: set<ReplayRecord>, s: Sys, step: Step, s': Sys) {
    match step
    case Tick(now) => s.clock <= now && s' == s.(clock := now)
    case Admit(t, req) => AdmitStep(known, s, t, req, s')
    case Decide(t) => DecideStep(s, t, s')
    case Append(t, io) => AppendStep(env, s, t, io, s')
    case StartCompaction(io) => StartCompactionStep(s, io, s')
    case WriteSnapshot(io) => WriteSnapshotStep(s, io, s')
    case RemoveOld(id) => RemoveOldStep(s, id, s')
    case EndCompaction(dirSynced) => EndCompactionStep(s, dirSynced, s')
    case FailCompaction => s.phase.Up? && s' == s.(compaction := Idle)
    case CloseJournal => CloseStep(s, s')
    case Kill => s' == Stopped(s)
    case PowerLoss(after) => DiskAfterLoss(env.wire, s.disk, after) && s' == Stopped(s).(disk := after)
    case LoadDisk(order) => LoadDiskStep(env, s, order, s')
    case FoldJournals(io) => FoldStep(s, io, s')
    case RemoveFolded(id) => RemoveFoldedStep(s, id, s')
    case FailRecovery => s.phase.Recovering? && s' == s.(phase := Down)
    case StartServing(io) => StartServingStep(s, io, s')
  }

  /** An empty or upgraded root before its first open. */
  ghost predicate Init(known: set<ReplayRecord>, s: Sys) {
    && s.phase.Down? && s.compaction.Idle? && s.admitted == map[] && s.appending == map[]
    && s.disk.files == map[] && s.disk.unlinked == map[] && s.disk.renamed == None
    && WellKeyed(known, s.disk.snapshot) && WellKeyed(known, s.mem.entries)
    && s.accepted == [] && s.pruned <= s.cutoff <= Cutoff(s.clock)
  }

  // ---- invariant ---------------------------------------------------------------------

  /** Verified requests name a key and an id, and a client does not reuse an id for another request. */
  ghost predicate ClientRecords(known: set<ReplayRecord>) {
    && (forall r :: r in known ==> r.keyId != "" && r.requestId != "")
    && (forall a, b :: a in known && b in known && ReplayKey(a) == ReplayKey(b) ==> a == b)
  }

  ghost predicate WellKeyed(known: set<ReplayRecord>, m: Ledger) {
    forall k :: k in m ==> m[k] in known && ReplayKey(m[k]) == k
  }

  predicate Holds(m: Ledger, r: ReplayRecord) {
    ReplayKey(r) in m && m[ReplayKey(r)] == r
  }

  function Durable(f: File): seq<ReplayRecord> {
    if f.synced <= |f.recs| then f.recs[..f.synced] else f.recs
  }

  /** r is durable in a journal of a generation above last. */
  ghost predicate OnFileAbove(d: Disk, r: ReplayRecord, last: int) {
    exists id :: id in d.files && id.gen > last && r in Durable(d.files[id])
  }

  /** r is in every replay.json a power loss could leave. */
  predicate InSnapshots(d: Disk, r: ReplayRecord) {
    Holds(d.snapshot, r) && (d.renamed.Some? ==> Holds(d.renamed.value, r))
  }

  /** r survives whatever happens next to this disk. */
  ghost predicate Stored(d: Disk, r: ReplayRecord) {
    InSnapshots(d, r) || OnFileAbove(d, r, -1)
  }

  ghost predicate FileOk(env: Env, known: set<ReplayRecord>, f: File) {
    && (forall r :: r in f.recs ==> r in known && Storable(env.wire, r))
    && f.synced <= |f.recs| && CrashTail(env.wire, f.torn)
  }

  ghost predicate DiskOk(env: Env, known: set<ReplayRecord>, d: Disk) {
    && WellKeyed(known, d.snapshot) && (d.renamed.Some? ==> WellKeyed(known, d.renamed.value))
    && (forall id :: id in d.files ==> FileOk(env, known, d.files[id]))
    && (forall id :: id in d.unlinked ==> FileOk(env, known, d.unlinked[id]))
    && (forall id :: id in d.unlinked && id in d.files ==> d.files[id].recs == [])
  }

  ghost predicate MemOk(known: set<ReplayRecord>, s: Sys) {
    && WellKeyed(known, s.mem.entries)
    && (forall t :: t in s.admitted ==> s.admitted[t].rec in known && s.admitted[t].now <= s.clock)
    && (forall t :: t in s.appending ==> s.appending[t] in known)
    && (forall r :: r in s.accepted ==> r in known)
    && s.pruned <= s.cutoff <= Cutoff(s.clock)
    && (s.phase.Up? ==> forall id :: id in s.disk.files || id in s.disk.unlinked ==> id.gen <= s.mem.gen)
    && (s.phase.Up? && s.mem.installed ==>
          && (forall id :: id in s.disk.unlinked ==> id.gen < s.mem.gen)
          && (forall shard: nat :: shard < REPLAY_SHARDS ==> FileId(s.mem.gen, shard) in s.disk.files))
    && (!s.phase.Up? ==> s.compaction.Idle? && s.admitted == map[] && s.appending == map[])
  }

  /** The live ledger holds every acceptance no prune could have dropped. */
  ghost predicate Remembered(s: Sys) {
    s.phase.Up? ==>
      && (forall r :: r in s.accepted && r.expiresAt >= s.pruned ==> Holds(s.mem.entries, r))
      && (forall t :: t in s.appending && s.appending[t].expiresAt >= s.pruned ==> Holds(s.mem.entries, s.appending[t]))
  }

  ghost predicate AcceptedStored(s: Sys) {
    forall r :: r in s.accepted && r.expiresAt >= s.cutoff ==> Stored(s.disk, r)
  }

  /** A compaction removes only journals whose acceptances its snapshot holds. */
  ghost predicate CompactionOk(known: set<ReplayRecord>, s: Sys) {
    match s.compaction
    case Idle => true
    case Rotated(snapshot, last, _) =>
      && WellKeyed(known, snapshot) && last < s.mem.gen
      && forall r :: r in s.accepted && r.expiresAt >= s.cutoff ==> Holds(snapshot, r) || OnFileAbove(s.disk, r, last)
    case Deleting(last, _) =>
      && s.disk.renamed.None? && last < s.mem.gen
      && forall r :: r in s.accepted && r.expiresAt >= s.cutoff ==> Holds(s.disk.snapshot, r) || OnFileAbove(s.disk, r, last)
  }

  ghost predicate RecoveryOk(known: set<ReplayRecord>, s: Sys) {
    s.phase.Recovering? ==>
      && WellKeyed(known, s.phase.ledger)
      && (forall r :: r in s.accepted && r.expiresAt >= s.cutoff ==> Holds(s.phase.ledger, r))
      && (s.phase.folded ==> s.disk.snapshot == s.phase.ledger && s.disk.renamed.None?)
  }

  ghost predicate Inv(env: Env, known: set<ReplayRecord>, s: Sys) {
    && DiskOk(env, known, s.disk) && MemOk(known, s)
    && Remembered(s) && AcceptedStored(s) && CompactionOk(known, s) && RecoveryOk(known, s)
  }

  // ---- steps keep the invariant --------------------------------------------------------

  lemma CutoffMonotone(a: int, b: int)
    requires a <= b
    ensures Cutoff(a) <= Cutoff(b)
  {
    var x, y := a - CLOCK_SKEW, b - CLOCK_SKEW;
    assert x == x / MILLI * MILLI + x % MILLI && y == y / MILLI * MILLI + y % MILLI;
  }

  lemma AdmitKeeps(env: Env, known: set<ReplayRecord>, s: Sys, t: nat, req: Request, s': Sys)
    requires Inv(env, known, s) && AdmitStep(known, s, t, req, s')
    ensures Inv(env, known, s')
  {
    hide ReplayKey, Cutoff, InTime, DiskOk;
  }

  lemma DecideKeeps(env: Env, known: set<ReplayRecord>, s: Sys, t: nat, s': Sys)
    requires Inv(env, known, s) && DecideStep(s, t, s')
    ensures Inv(env, known, s')
  {
    hide ReplayKey, Cutoff, DiskOk, DecideReplay, OnFileAbove, Holds, InSnapshots;
    var a := s.admitted[t];
    CutoffMonotone(a.now, s.clock);
    DecisionKeepsEntries(known, s.mem, a.rec, a.now);
  }

  /** A decision drops only entries below its own cutoff, and none unless it prunes. */
  lemma DecisionKeepsEntries(known: set<ReplayRecord>, m: Mem, rec: ReplayRecord, now: int)
    requires WellKeyed(known, m.entries) && rec in known
    ensures var (m', decision) := DecideReplay(m, rec, now);
            && WellKeyed(known, m'.entries) && m' == m.(entries := m'.entries)
            && (forall r :: Holds(m.entries, r) && r.expiresAt >= Cutoff(now) ==> Holds(m'.entries, r))
            && (!Prunes(m, rec) ==> forall r :: Holds(m.entries, r) ==> Holds(m'.entries, r))
            && (decision.Consumed? ==> ReplayKey(rec) !in m.entries && Holds(m'.entries, rec))
  {
    hide ReplayKey, Cutoff;
  }

  lemma AppendKeeps(env: Env, known: set<ReplayRecord>, s: Sys, t: nat, io: AppendIO, s': Sys)
    requires Lawful(env.wire) && ClientRecords(known) && Inv(env, known, s) && AppendStep(env, s, t, io, s') && CleanAppend(env, s, Append(t, io))
    ensures Inv(env, known, s')
  {
    hide ReplayKey, Cutoff, Holds, Frame, CrashTail, ClientRecords, AppendRecord, AfterAppend, FileOk, Durable,
         OnFileAbove, EncodeReplayRecord, WellKeyed;
    var rec, id := s.appending[t], Journal(env, s.mem, s.appending[t]);
    AppendShape(env, s.mem, s.disk, rec, io);
    if s'.disk != s.disk || s'.accepted != s.accepted {
      var f := AfterAppend(env, s.disk.files[id], rec, io);
      AppendedFileOk(env, known, s.disk.files[id], rec, io);
      FileGrew(s.disk, id, f, s'.disk);
      if s'.accepted != s.accepted {
        IsOnFile(s'.disk, id, rec);
      }
    }
  }

  lemma IsOnFile(d: Disk, id: FileId, r: ReplayRecord)
    requires id in d.files && r in Durable(d.files[id])
    ensures forall last: int :: last < id.gen ==> OnFileAbove(d, r, last)
  {
  }

  lemma AppendShape(env: Env, m: Mem, d: Disk, rec: ReplayRecord, io: AppendIO)
    ensures var (m', d', result) := AppendRecord(env, m, d, rec, io);
            var id := Journal(env, m, rec);
            && m' == m.(records := m'.records)
            && (d' == d || (&& m.installed && id in d.files && EncodeReplayRecord(env.wire, rec).Some?
                            && d' == d.(files := d.files[id := AfterAppend(env, d.files[id], rec, io)])))
            && (result.Appended? ==> && io.AppendSynced? && id in d.files && EncodeReplayRecord(env.wire, rec).Some?
                                     && d' == d.(files := d.files[id := AfterAppend(env, d.files[id], rec, io)]))
  {
    hide EncodeReplayRecord, ShardFor, AfterWrite, AfterSyncedWrite;
  }

  function AfterAppend(env: Env, f: File, rec: ReplayRecord, io: AppendIO): File {
    match io
    case WriteFailed(written) => AfterWrite(env, f, rec, written)
    case AppendSynced => AfterSyncedWrite(env, f, rec)
  }

  lemma AppendedFileOk(env: Env, known: set<ReplayRecord>, f: File, rec: ReplayRecord, io: AppendIO)
    requires Lawful(env.wire) && ClientRecords(known) && rec in known && FileOk(env, known, f) && f.torn == []
    requires EncodeReplayRecord(env.wire, rec).Some?
    ensures FileOk(env, known, AfterAppend(env, f, rec, io))
    ensures forall r :: r in Durable(f) ==> r in Durable(AfterAppend(env, f, rec, io))
    ensures io.AppendSynced? ==> rec in Durable(AfterAppend(env, f, rec, io))
  {
    var f', frame := AfterAppend(env, f, rec, io), Frame(env.wire, rec);
    assert f.synced <= |f.recs| && Durable(f) == f'.recs[..f.synced];
    if io.WriteFailed? && io.written < |frame| {
      assert f'.torn == frame[..io.written] < frame && Storable(env.wire, rec);
      PrefixIsCrashTail(env.wire, rec, f'.torn);
    }
    assert io.AppendSynced? ==> Durable(f') == f'.recs && f'.recs[|f.recs|] == rec;
  }

  lemma FileGrew(d: Disk, id: FileId, f: File, d': Disk)
    requires id in d.files && d' == d.(files := d.files[id := f])
    requires forall r :: r in Durable(d.files[id]) ==> r in Durable(f)
    ensures forall r, last :: OnFileAbove(d, r, last) ==> OnFileAbove(d', r, last)
  {
    forall r, last | OnFileAbove(d, r, last)
      ensures OnFileAbove(d', r, last)
    {
      var i :| i in d.files && i.gen > last && r in Durable(d.files[i]);
      assert i in d'.files && r in Durable(d'.files[i]);
    }
  }

  /** Adding empty files and syncing the directory lose nothing. */
  lemma CreateKeepsDisk(env: Env, known: set<ReplayRecord>, m: Mem, d: Disk, io: CreateIO)
    requires DiskOk(env, known, d) && forall id :: id in d.files ==> id.gen < m.gen
    ensures var (m', d') := CreateShards(m, d, io);
            && DiskOk(env, known, d') && m' == m.(installed := io.CreateSynced?)
            && (forall r, last :: OnFileAbove(d, r, last) ==> OnFileAbove(d', r, last))
            && (forall r :: InSnapshots(d, r) ==> InSnapshots(d', r))
            && (forall id :: id in d'.files ==> id in d.files || id.gen == m.gen)
            && (io.CreateSynced? ==> d'.unlinked == map[])
            && (io.CreateFailed? ==> d'.unlinked == d.unlinked)
            && (io.CreateSynced? ==> forall shard: nat :: shard < REPLAY_SHARDS ==> FileId(m.gen, shard) in d'.files)
  {
    hide ReplayKey, CrashTail, Holds, Storable, WellKeyed, EmptyShards;
    var d' := CreateShards(m, d, io).1;
    forall r, last | OnFileAbove(d, r, last)
      ensures OnFileAbove(d', r, last)
    {
      var id :| id in d.files && id.gen > last && r in Durable(d.files[id]);
      assert id in d'.files && d'.files[id] == d.files[id];
    }
    EmptyFileOk(env, known);
  }

  lemma EmptyFileOk(env: Env, known: set<ReplayRecord>)
    ensures FileOk(env, known, File([], 0, []))
  {
  }

  lemma StartCompactionKeeps(env: Env, known: set<ReplayRecord>, s: Sys, io: CreateIO, s': Sys)
    requires Inv(env, known, s) && StartCompactionStep(s, io, s')
    ensures Inv(env, known, s')
  {
    hide ReplayKey, Cutoff, DiskOk, OnFileAbove, CreateShards, Durable;
    if !s.mem.closed {
      CreateKeepsDisk(env, known, s.mem.(gen := s.mem.gen + 1), s.disk, io);
    }
  }

  lemma WriteSnapshotKeeps(env: Env, known: set<ReplayRecord>, s: Sys, io: CommitIO, s': Sys)
    requires Inv(env, known, s) && WriteSnapshotStep(s, io, s')
    ensures Inv(env, known, s')
  {
    hide ReplayKey, Cutoff, FileOk, Durable, Holds, WellKeyed;
    FilesSame(s.disk, s'.disk);
  }

  lemma FilesSame(d: Disk, d': Disk)
    requires d'.files == d.files
    ensures forall r, last :: OnFileAbove(d, r, last) ==> OnFileAbove(d', r, last)
  {
    hide Durable;
  }

  /** Removing a journal keeps what later generations hold. */
  lemma UnlinkKeeps(env: Env, known: set<ReplayRecord>, d: Disk, id: FileId)
    requires DiskOk(env, known, d)
    ensures DiskOk(env, known, Unlink(d, id)) && Unlink(d, id) == d.(files := Unlink(d, id).files, unlinked := Unlink(d, id).unlinked)
    ensures forall r, last: int :: id.gen <= last && OnFileAbove(d, r, last) ==> OnFileAbove(Unlink(d, id), r, last)
    ensures forall i :: i in Unlink(d, id).files <==> i in d.files && i != id
    ensures forall i :: i in Unlink(d, id).unlinked ==> i in d.unlinked || i == id
  {
    hide ReplayKey, CrashTail, FileOk, WellKeyed;
    var d' := Unlink(d, id);
    forall r, last: int | id.gen <= last && OnFileAbove(d, r, last)
      ensures OnFileAbove(d', r, last)
    {
      var i :| i in d.files && i.gen > last && r in Durable(d.files[i]);
      assert i in d'.files && d'.files[i] == d.files[i];
    }
  }

  lemma AboveIsOnFile(d: Disk, last: int)
    requires last >= -1
    ensures forall r :: OnFileAbove(d, r, last) ==> OnFileAbove(d, r, -1)
  {
    hide Durable;
  }

  lemma RemoveOldKeeps(env: Env, known: set<ReplayRecord>, s: Sys, id: FileId, s': Sys)
    requires Inv(env, known, s) && RemoveOldStep(s, id, s')
    ensures Inv(env, known, s')
  {
    hide ReplayKey, Cutoff, DiskOk, OnFileAbove, Unlink, Holds, WellKeyed;
    UnlinkKeeps(env, known, s.disk, id);
    AboveIsOnFile(s'.disk, s.compaction.last);
  }

  lemma EndCompactionKeeps(env: Env, known: set<ReplayRecord>, s: Sys, dirSynced: bool, s': Sys)
    requires Inv(env, known, s) && EndCompactionStep(s, dirSynced, s')
    ensures Inv(env, known, s')
  {
    hide ReplayKey, Cutoff, FileOk, Durable, Holds, WellKeyed;
    FilesSame(s.disk, s'.disk);
  }

  lemma StopKeeps(env: Env, known: set<ReplayRecord>, s: Sys)
    requires Inv(env, known, s)
    ensures Inv(env, known, Stopped(s))
  {
    hide ReplayKey, Cutoff, DiskOk, OnFileAbove, Holds, WellKeyed;
  }

  lemma CloseKeeps(env: Env, known: set<ReplayRecord>, s: Sys, s': Sys)
    requires Inv(env, known, s) && CloseStep(s, s')
    ensures Inv(env, known, s')
  {
    hide ReplayKey, Cutoff, DiskOk, OnFileAbove, Holds, WellKeyed;
  }

  lemma PowerLossKeeps(env: Env, known: set<ReplayRecord>, s: Sys, after: Disk, s': Sys)
    requires Inv(env, known, s) && DiskAfterLoss(env.wire, s.disk, after) && s' == Stopped(s).(disk := after)
    ensures Inv(env, known, s')
  {
    hide ReplayKey, Cutoff, Holds, WellKeyed, CrashTail, Storable, OnFileAbove;
    forall r | r in s.accepted && r.expiresAt >= s.cutoff
      ensures Stored(after, r)
    {
      StoredAfterLoss(env, known, s.disk, after, r);
    }
    DiskOkAfterLoss(env, known, s.disk, after);
  }

  lemma DiskOkAfterLoss(env: Env, known: set<ReplayRecord>, d: Disk, d': Disk)
    requires DiskOk(env, known, d) && DiskAfterLoss(env.wire, d, d')
    ensures DiskOk(env, known, d')
  {
    hide ReplayKey, WellKeyed, CrashTail, Storable;
  }

  lemma StoredAfterLoss(env: Env, known: set<ReplayRecord>, d: Disk, d': Disk, r: ReplayRecord)
    requires DiskOk(env, known, d) && DiskAfterLoss(env.wire, d, d') && Stored(d, r)
    ensures Stored(d', r)
  {
    hide ReplayKey, Holds, WellKeyed, CrashTail, Storable;
    if !InSnapshots(d, r) {
      var id :| id in d.files && id.gen > -1 && r in Durable(d.files[id]);
      var i :| 0 <= i < |Durable(d.files[id])| && Durable(d.files[id])[i] == r;
      assert d.files[id].synced > 0 && d.files[id].recs != [];
      assert FileAfterLoss(env.wire, d.files[id], d'.files[id]);
      assert Durable(d'.files[id])[i] == r;
    }
  }

  /** Entering client records keeps every one already held: no two share a key. */
  lemma {:induction false} LoadHolds(known: set<ReplayRecord>, m: Ledger, rs: seq<ReplayRecord>)
    requires ClientRecords(known) && WellKeyed(known, m) && forall r :: r in rs ==> r in known
    ensures WellKeyed(known, Load(m, rs))
    ensures forall r :: r in known && (Holds(m, r) || r in rs) ==> Holds(Load(m, rs), r)
  {
    hide ReplayKey;
    if rs != [] {
      var init, x := rs[..|rs| - 1], rs[|rs| - 1];
      LoadHolds(known, m, init);
      assert forall r :: r in rs ==> r == x || r in init;
    }
  }

  /** The bytes of any reachable journal file read back as its records. */
  lemma ReadsFile(env: Env, known: set<ReplayRecord>, f: File)
    requires Lawful(env.wire) && FileOk(env, known, f)
    ensures Parse(env.wire, Content(env, f)) == Parsed(f.recs, true)
  {
    ReadsBackJournal(env.wire, f.recs, f.torn);
  }

  ghost predicate FitsReader(env: Env, d: Disk) {
    forall id :: id in d.files ==> |Content(env, d.files[id])| <= MAX_JOURNAL_BYTES
  }

  ghost predicate InFiles(d: Disk, ids: seq<FileId>, r: ReplayRecord) {
    exists id :: id in ids && id in d.files && r in d.files[id].recs
  }

  /** Recovery, in whatever order it reads: the union of the snapshot and every journal. */
  lemma {:induction false} LoadFilesHolds(env: Env, known: set<ReplayRecord>, d: Disk, order: seq<FileId>)
    requires Lawful(env.wire) && ClientRecords(known) && DiskOk(env, known, d) && LoadFiles(env, d, order).Some?
    ensures WellKeyed(known, LoadFiles(env, d, order).value)
    ensures forall r :: r in known && (Holds(Visible(d), r) || InFiles(d, order, r)) ==> Holds(LoadFiles(env, d, order).value, r)
  {
    hide ReplayKey, ClientRecords, WellKeyed, Holds, Content, Parse, FileOk;
    if order != [] {
      var init, id := order[..|order| - 1], order[|order| - 1];
      LoadFilesHolds(env, known, d, init);
      ReadsFile(env, known, d.files[id]);
      assert forall r :: r in d.files[id].recs ==> r in known by { FileRecordsKnown(env, known, d.files[id]); }
      LoadHolds(known, LoadFiles(env, d, init).value, d.files[id].recs);
      forall r | InFiles(d, order, r)
        ensures InFiles(d, init, r) || r in d.files[id].recs
      {
        var i :| i in order && i in d.files && r in d.files[i].recs;
        assert i in init || i == id;
      }
    }
  }

  lemma FileRecordsKnown(env: Env, known: set<ReplayRecord>, f: File)
    requires FileOk(env, known, f)
    ensures forall r :: r in f.recs ==> r in known
  {
  }

  /** Recovery of a reachable disk fails exactly when a journal is larger than the reader allows. */
  lemma {:induction false} LoadFilesSucceedsIff(env: Env, known: set<ReplayRecord>, d: Disk, order: seq<FileId>)
    requires Lawful(env.wire) && DiskOk(env, known, d) && forall id :: id in order ==> id in d.files
    ensures LoadFiles(env, d, order).Some? <==> forall id :: id in order ==> |Content(env, d.files[id])| <= MAX_JOURNAL_BYTES
  {
    hide Content, Parse, FileOk, Load;
    if order != [] {
      var init, id := order[..|order| - 1], order[|order| - 1];
      LoadFilesSucceedsIff(env, known, d, init);
      ReadsFile(env, known, d.files[id]);
      assert forall i :: i in order <==> i in init || i == id;
    }
  }

  lemma LoadDiskKeeps(env: Env, known: set<ReplayRecord>, s: Sys, order: seq<FileId>, s': Sys)
    requires Lawful(env.wire) && ClientRecords(known) && Inv(env, known, s) && LoadDiskStep(env, s, order, s')
    ensures Inv(env, known, s')
  {
    hide ReplayKey, Cutoff, DiskOk, LoadFiles, ClientRecords, Durable;
    LoadFilesHolds(env, known, s.disk, order);
    forall r | r in s.accepted && r.expiresAt >= s'.cutoff
      ensures Holds(s'.phase.ledger, r)
    {
      StoredIsLoaded(s.disk, order, r);
    }
  }

  lemma StoredIsLoaded(d: Disk, order: seq<FileId>, r: ReplayRecord)
    requires Stored(d, r) && Lists(order, d)
    ensures Holds(Visible(d), r) || InFiles(d, order, r)
  {
    hide ReplayKey, Holds;
  }

  lemma FoldKeeps(env: Env, known: set<ReplayRecord>, s: Sys, io: CommitIO, s': Sys)
    requires Inv(env, known, s) && FoldStep(s, io, s')
    ensures Inv(env, known, s')
  {
    hide ReplayKey, Cutoff, FileOk, Durable, Holds, WellKeyed;
    FilesSame(s.disk, s'.disk);
  }

  lemma RemoveFoldedKeeps(env: Env, known: set<ReplayRecord>, s: Sys, id: FileId, s': Sys)
    requires Inv(env, known, s) && RemoveFoldedStep(s, id, s')
    ensures Inv(env, known, s')
  {
    hide ReplayKey, Cutoff, DiskOk, OnFileAbove, Unlink, Holds, WellKeyed;
    UnlinkKeeps(env, known, s.disk, id);
  }

  lemma StartServingKeeps(env: Env, known: set<ReplayRecord>, s: Sys, io: CreateIO, s': Sys)
    requires Inv(env, known, s) && StartServingStep(s, io, s')
    ensures Inv(env, known, s')
  {
    hide ReplayKey, Cutoff, DiskOk, OnFileAbove, CreateShards, Durable, Holds, WellKeyed;
    CreateKeepsDisk(env, known, Mem(s.phase.ledger, 1, false, false, 0), s.disk, io);
  }

  lemma NextKeeps(env: Env, known: set<ReplayRecord>, s: Sys, step: Step, s': Sys)
    requires Lawful(env.wire) && ClientRecords(known) && Inv(env, known, s) && Next(env, known, s, step, s') && CleanAppend(env, s, step)
    ensures Inv(env, known, s')
  {
    hide ReplayKey, Cutoff, DiskOk, OnFileAbove, Holds, WellKeyed, ClientRecords, DiskAfterLoss, DecideReplay,
         AdmitStep, DecideStep, AppendStep, StartCompactionStep, WriteSnapshotStep, RemoveOldStep, EndCompactionStep,
         CloseStep, LoadDiskStep, FoldStep, RemoveFoldedStep, StartServingStep;
    match step
    case Tick(now) => CutoffMonotone(s.clock, now);
    case Admit(t, req) => AdmitKeeps(env, known, s, t, req, s');
    case Decide(t) => DecideKeeps(env, known, s, t, s');
    case Append(t, io) => AppendKeeps(env, known, s, t, io, s');
    case StartCompaction(io) => StartCompactionKeeps(env, known, s, io, s');
    case WriteSnapshot(io) => WriteSnapshotKeeps(env, known, s, io, s');
    case RemoveOld(id) => RemoveOldKeeps(env, known, s, id, s');
    case EndCompaction(dirSynced) => EndCompactionKeeps(env, known, s, dirSynced, s');
    case FailCompaction =>
    case CloseJournal => CloseKeeps(env, known, s, s');
    case Kill => StopKeeps(env, known, s);
    case PowerLoss(after) => PowerLossKeeps(env, known, s, after, s');
    case LoadDisk(order) => LoadDiskKeeps(env, known, s, order, s');
    case FoldJournals(io) => FoldKeeps(env, known, s, io, s');
    case RemoveFolded(id) => RemoveFoldedKeeps(env, known, s, id, s');
    case FailRecovery =>
    case StartServing(io) => StartServingKeeps(env, known, s, io, s');
  }

  // ---- whole runs ------------------------------------------------------------------------

  ghost predicate Run(env: Env, known: set<ReplayRecord>, states: seq<Sys>, steps: seq<Step>) {
    && |states| == |steps| + 1 && Init(known, states[0])
    && forall i :: 0 <= i < |steps| ==> Next(env, known, states[i], steps[i], states[i + 1])
  }

  ghost predicate CleanRun(env: Env, known: set<ReplayRecord>, states: seq<Sys>, steps: seq<Step>) {
    Run(env, known, states, steps) && forall k :: 0 <= k < |steps| ==> CleanAppend(env, states[k], steps[k])
  }

  lemma {:induction false} ReachableInv(env: Env, known: set<ReplayRecord>, states: seq<Sys>, steps: seq<Step>, i: nat)
    requires Lawful(env.wire) && ClientRecords(known) && CleanRun(env, known, states, steps) && i < |states|
    ensures Inv(env, known, states[i])
  {
    hide Next, CleanAppend, ClientRecords, ReplayKey, Cutoff;
    if i > 0 {
      ReachableInv(env, known, states, steps, i - 1);
      NextKeeps(env, known, states[i - 1], steps[i - 1], states[i]);
    }
  }

  /** The requests a caller was told are accepted and whose replay would still be in time. */
  ghost predicate Pending(s: Sys, r: ReplayRecord) {
    r in s.accepted && r.expiresAt >= Cutoff(s.clock)
  }

  /**
   At every instant of every run, each accepted unexpired request is in the live
   ledger if there is one, and on the disk whatever a power loss takes.
   */
  lemma AcceptanceIsNeverForgotten(env: Env, known: set<ReplayRecord>, states: seq<Sys>, steps: seq<Step>, i: nat, r: ReplayRecord)
    requires Lawful(env.wire) && ClientRecords(known) && CleanRun(env, known, states, steps) && i < |states|
    requires Pending(states[i], r)
    ensures Stored(states[i].disk, r)
    ensures states[i].phase.Up? ==> Holds(states[i].mem.entries, r)
  {
    hide Next, CleanAppend, ClientRecords, ReplayKey, Cutoff, Holds, DiskOk;
    ReachableInv(env, known, states, steps, i);
  }

  /**
   Cut the power at any instant of any run: whatever is left of the disk, recovery
   reads it in any order, fails only on a journal above the reader's size limit, and
   loads every accepted unexpired request.
   */
  lemma RecoveryLoadsEveryAcceptance(
    env: Env, known: set<ReplayRecord>, states: seq<Sys>, steps: seq<Step>, i: nat, after: Disk, order: seq<FileId>)
    requires Lawful(env.wire) && ClientRecords(known) && CleanRun(env, known, states, steps) && i < |states|
    requires DiskAfterLoss(env.wire, states[i].disk, after) && Lists(order, after)
    ensures LoadFiles(env, after, order).Some? <==> FitsReader(env, after)
    ensures LoadFiles(env, after, order).Some? ==>
              forall r :: Pending(states[i], r) ==>
                Holds(Unexpired(LoadFiles(env, after, order).value, Cutoff(states[i].clock)), r)
  {
    hide Next, CleanAppend, ClientRecords, ReplayKey, Cutoff, DiskOk, LoadFiles, Content;
    var s := states[i];
    ReachableInv(env, known, states, steps, i);
    DiskOkAfterLoss(env, known, s.disk, after);
    LoadFilesSucceedsIff(env, known, after, order);
    if LoadFiles(env, after, order).Some? {
      LoadFilesHolds(env, known, after, order);
      forall r | Pending(s, r)
        ensures Holds(Unexpired(LoadFiles(env, after, order).value, Cutoff(s.clock)), r)
      {
        StoredAfterLoss(env, known, s.disk, after, r);
        StoredIsLoaded(after, order, r);
      }
    }
  }

  // ---- at most once ------------------------------------------------------------------------

  ghost predicate Taken(s: Sys, r: ReplayRecord) {
    r in s.accepted || exists t :: t in s.appending && s.appending[t] == r
  }

  /** A decision consumes a request already taken only if the ledger was pruned past it. */
  lemma ConsumedAgainOnlyIfPruned(env: Env, known: set<ReplayRecord>, s: Sys, t: nat)
    requires Inv(env, known, s) && s.phase.Up? && t in s.admitted && Taken(s, s.admitted[t].rec)
    requires DecideReplay(s.mem, s.admitted[t].rec, s.admitted[t].now).1.Consumed?
    ensures s.admitted[t].rec.expiresAt < s.pruned
  {
    hide ReplayKey, Cutoff, DiskOk;
  }

  /** The deciding Verify read its clock no earlier than any prune of this ledger did. */
  predicate FreshReading(s: Sys, step: Step) {
    step.Decide? && step.thread in s.admitted ==> Cutoff(s.admitted[step.thread].now) >= s.pruned
  }

  ghost predicate Once(s: Sys) {
    && (forall i, j :: 0 <= i < j < |s.accepted| ==> s.accepted[i] != s.accepted[j])
    && (forall t :: t in s.appending ==> s.appending[t] !in s.accepted)
    && (forall t, u :: t in s.appending && u in s.appending && t != u ==> s.appending[t] != s.appending[u])
    && (forall t :: t in s.admitted ==> !Expired(s.admitted[t].rec.expiresAt, s.admitted[t].now))
  }

  lemma InTimeIsAboveCutoff(expiresAt: int, now: int)
    requires !Expired(expiresAt, now)
    ensures expiresAt >= Cutoff(now)
  {
    if expiresAt < Cutoff(now) {
      DroppedWouldExpire(expiresAt, now, now);
    }
  }

  lemma DecideKeepsOnce(env: Env, known: set<ReplayRecord>, s: Sys, t: nat, s': Sys)
    requires Inv(env, known, s) && DecideStep(s, t, s') && FreshReading(s, Decide(t)) && Once(s)
    ensures Once(s')
  {
    hide ReplayKey, Cutoff, DiskOk, DecideReplay, Expired, Inv;
    var a := s.admitted[t];
    InTimeIsAboveCutoff(a.rec.expiresAt, a.now);
    if DecideReplay(s.mem, a.rec, a.now).1.Consumed? && Taken(s, a.rec) {
      ConsumedAgainOnlyIfPruned(env, known, s, t);
      assert false;
    }
  }

  lemma AppendKeepsOnce(env: Env, s: Sys, t: nat, io: AppendIO, s': Sys)
    requires AppendStep(env, s, t, io, s') && Once(s)
    ensures Once(s')
  {
    hide AppendRecord, Expired;
  }

  lemma NextKeepsOnce(env: Env, known: set<ReplayRecord>, s: Sys, step: Step, s': Sys)
    requires Inv(env, known, s) && Next(env, known, s, step, s') && FreshReading(s, step) && Once(s)
    ensures Once(s')
  {
    hide ReplayKey, Cutoff, DiskOk, DecideReplay, Expired, Inv, AppendRecord, LoadFiles, DecideStep, AppendStep, DiskAfterLoss;
    match step
    case Decide(t) => DecideKeepsOnce(env, known, s, t, s');
    case Append(t, io) => AppendKeepsOnce(env, s, t, io, s');
    case _ =>
  }

  /**
   Over every run, across compactions, prunes, crashes and restarts, no request is
   accepted twice, provided each decision's clock reading is as recent as every
   earlier prune of the live ledger.
   */
  lemma {:induction false} AcceptedAtMostOnce(env: Env, known: set<ReplayRecord>, states: seq<Sys>, steps: seq<Step>, i: nat)
    requires Lawful(env.wire) && ClientRecords(known) && CleanRun(env, known, states, steps) && i < |states|
    requires forall k :: 0 <= k < |steps| ==> FreshReading(states[k], steps[k])
    ensures Once(states[i])
  {
    hide Next, CleanAppend, ClientRecords, ReplayKey, Cutoff, Inv;
    if i > 0 {
      AcceptedAtMostOnce(env, known, states, steps, i - 1);
      ReachableInv(env, known, states, steps, i - 1);
      NextKeepsOnce(env, known, states[i - 1], steps[i - 1], states[i]);
    }
  }
}
