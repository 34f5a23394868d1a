/**
 Runs from an empty root in which the replay ledger does not keep its promises. The rules a
 run is reachable under say which of the protocol's conditions each of its steps still keeps.
 */
module ReplayFailures {
  import opened Bytes
  import opened JournalCodec
  import opened ReplayStore
  import opened ReplayProtocol
  import opened ReplayRuns
  import ReplayCapacity

  // ---- frames the counter does not know of -------------------------------------------------------

  /** Records of one journal shard, at least least bytes long, the k-th signed k minutes after start to live for age. */
  ghost predicate Series(env: Env, known: set<ReplayRecord>, rec: nat -> ReplayRecord, start: int, age: nat, least: nat, n: nat) {
    && age * MILLI <= MAX_REQUEST_AGE
    && (forall k: nat :: k < n ==> rec(k) in known && least <= |env.wire.marshal(rec(k))| <= MAX_REPLAY_RECORD && rec(k).expiresAt == Signed(start, k) + age)
    && (forall k: nat :: k < n ==> ShardFor(env, rec(k).keyId) == ShardFor(env, rec(0).keyId))
    && (forall j: nat, k: nat :: j < k < n ==> ReplayKey(rec(j)) != ReplayKey(rec(k)))
  }

  function Signed(start: int, k: nat): int {
    start + 60_000 * k
  }

  /** After n appends that wrote everything but whose sync failed: n frames in one journal, none counted. */
  ghost predicate Flooded(env: Env, s: Sys, rec: nat -> ReplayRecord, start: int, n: nat) {
    var id := FileId(1, ShardFor(env, rec(0).keyId));
    && Serving(s) && s.mem.gen == 1 && s.mem.records == 0 && s.clock <= Signed(start, n) * MILLI && s.accepted == []
    && s.admitted == map[] && s.appending == map[]
    && (forall k :: k in s.mem.entries ==> exists j: nat :: j < n && s.mem.entries[k] == rec(j) && k == ReplayKey(rec(j)))
    && id in s.disk.files && s.disk.files[id].torn == [] && |s.disk.files[id].recs| == n
    && forall j: nat :: j < n ==> s.disk.files[id].recs[j] == rec(j)
  }

  lemma FloodDecides(env: Env, known: set<ReplayRecord>, s: Sys, rec: nat -> ReplayRecord, start: int, age: nat, least: nat, n: nat)
    requires Series(env, known, rec, start, age, least, n + 1) && Flooded(env, s, rec, start, n)
    ensures var (m, d) := DecideReplay(s.mem, rec(n), Signed(start, n) * MILLI);
            && d.Consumed?
            && forall k :: k in m.entries ==> exists j: nat :: j < n + 1 && m.entries[k] == rec(j) && k == ReplayKey(rec(j))
  {
    var now := Signed(start, n) * MILLI;
    SignedInTime(Signed(start, n), age);
    hide ReplayKey, Cutoff, InTime, Unexpired;
    if |s.mem.entries| >= MAX_REPLAY_ENTRIES {
      forall k | k in s.mem.entries ensures s.mem.entries[k].expiresAt < Cutoff(now) {
        var j: nat :| j < n && s.mem.entries[k] == rec(j) && k == ReplayKey(rec(j));
      }
      AllPruned(s.mem.entries, Cutoff(now));
    }
  }

  lemma FloodStarts(env: Env, rec: nat -> ReplayRecord, start: int)
    ensures Flooded(env, Served(start * MILLI), rec, start, 0)
  {
    ServedIsServing(start * MILLI);
    hide Serving, Cutoff, EmptyShards;
  }

  /** The journal after one more such append. */
  lemma FloodedFile(env: Env, f: File, r: ReplayRecord)
    requires f.torn == []
    ensures Written(env, f, r, WriteFailed(|Frame(env.wire, r)|)) == f.(recs := f.recs + [r])
  {
    hide Frame;
  }

  lemma FloodGrows(env: Env, known: set<ReplayRecord>, rules: Rules, s: Sys, rec: nat -> ReplayRecord, start: int, age: nat, least: nat, n: nat)
    returns (s': Sys)
    requires Series(env, known, rec, start, age, least, n + 1) && Reachable(env, known, rules, s) && Flooded(env, s, rec, start, n)
    ensures Reachable(env, known, rules, s') && Flooded(env, s', rec, start, n + 1)
  {
    FloodDecides(env, known, s, rec, start, age, least, n);
    var signed := Signed(start, n);
    SignedInTime(signed, age);
    var id := FileId(1, ShardFor(env, rec(0).keyId));
    FloodedFile(env, s.disk.files[id], rec(n));
    assert EncodeReplayRecord(env.wire, rec(n)).Some? && Journal(env, s.mem, rec(n)) == id;
    hide ReplayKey, Cutoff, InTime, DecideReplay, Reachable, Written, EncodeReplayRecord, ShardFor, Serving, Frame;
    s' := RoundReaches(env, known, rules, s, rec(n), signed, signed * MILLI, WriteFailed(|Frame(env.wire, rec(n))|));
    assert s'.disk.files[id] == s.disk.files[id].(recs := s.disk.files[id].recs + [rec(n)]);
  }

  lemma {:induction false} FloodReaches(env: Env, known: set<ReplayRecord>, rules: Rules, rec: nat -> ReplayRecord, start: int, age: nat, least: nat, n: nat)
    returns (s: Sys)
    requires Series(env, known, rec, start, age, least, n)
    ensures Reachable(env, known, rules, s) && Flooded(env, s, rec, start, n)
  {
    hide Reachable, Flooded, Served, ReplayKey, ShardFor;
    if n == 0 {
      s := Served(start * MILLI);
      ServedIsReachable(env, known, rules, start * MILLI);
      FloodStarts(env, rec, start);
    } else {
      var s0 := FloodReaches(env, known, rules, rec, start, age, least, n - 1);
      s := FloodGrows(env, known, rules, s0, rec, start, age, least, n - 1);
    }
  }

  lemma {:induction false} FramesAreAtLeast(w: Wire, rs: seq<ReplayRecord>, size: nat)
    requires forall r :: r in rs ==> size <= |Frame(w, r)|
    ensures |Frames(w, rs)| >= size * |rs|
  {
    hide Frame;
    if rs != [] {
      FramesAreAtLeast(w, rs[1..], size);
      ReplayCapacity.OneMore(size, |rs| - 1);
    }
  }

  lemma {:induction false} TooLongFailsLoad(env: Env, d: Disk, order: seq<FileId>, id: FileId)
    requires id in order && id in d.files && |Content(env, d.files[id])| > MAX_JOURNAL_BYTES
    ensures LoadFiles(env, d, order).None?
  {
    hide Content, Parse;
    var k := |order| - 1;
    if id in order[..k] { TooLongFailsLoad(env, d, order[..k], id); }
    else { assert order == order[..k] + [order[k]]; }
  }

  lemma FloodIsTooLong(env: Env, known: set<ReplayRecord>, s: Sys, rec: nat -> ReplayRecord, start: int, age: nat, least: nat, n: nat)
    requires Series(env, known, rec, start, age, least, n) && Flooded(env, s, rec, start, n) && (REPLAY_HEADER + least) * n > MAX_JOURNAL_BYTES
    ensures var id := FileId(1, ShardFor(env, rec(0).keyId)); id in s.disk.files && |Content(env, s.disk.files[id])| > MAX_JOURNAL_BYTES
  {
    hide ReplayKey, Serving, ShardFor;
    var recs := s.disk.files[FileId(1, ShardFor(env, rec(0).keyId))].recs;
    forall r | r in recs ensures REPLAY_HEADER + least <= |Frame(env.wire, r)| {
      var j: nat :| j < |recs| && recs[j] == r;
    }
    FramesAreAtLeast(env.wire, recs, REPLAY_HEADER + least);
  }

  /**
   The counter bounds the journals only as long as appends do not fail. Records of any size
   will do: once enough appends have failed, the counter stands at zero and no restart can
   read the journal, though every step appended behind whole frames and decided on a fresh reading.
   */
  lemma UncountedFramesBlockRecovery(env: Env, known: set<ReplayRecord>, rec: nat -> ReplayRecord, start: int, age: nat, least: nat, n: nat)
    returns (s: Sys)
    requires Series(env, known, rec, start, age, least, n) && (REPLAY_HEADER + least) * n > MAX_JOURNAL_BYTES
    ensures Reachable(env, known, Rules(true, true), s) && s.mem.records == 0 && s.accepted == []
    ensures forall order :: Lists(order, s.disk) ==> LoadFiles(env, s.disk, order).None?
  {
    s := FloodReaches(env, known, Rules(true, true), rec, start, age, least, n);
    FloodIsTooLong(env, known, s, rec, start, age, least, n);
    hide Reachable, Content, Series, LoadFiles, ShardFor;
    var id := FileId(1, ShardFor(env, rec(0).keyId));
    forall order | Lists(order, s.disk) ensures LoadFiles(env, s.disk, order).None? {
      TooLongFailsLoad(env, s.disk, order, id);
    }
  }

  // ---- an append behind a partial write --------------------------------------------------------

  /** Journals that yield no record load as the snapshot alone, or not at all. */
  lemma {:induction false} NothingLoads(env: Env, d: Disk, order: seq<FileId>)
    requires forall id :: id in order ==> id in d.files && Parse(env.wire, Content(env, d.files[id])).recs == []
    ensures LoadFiles(env, d, order) == None || LoadFiles(env, d, order) == Some(Visible(d))
  {
    hide Content, Parse;
    if order != [] { NothingLoads(env, d, order[..|order| - 1]); }
  }

  lemma EmptyFileReadsNothing(env: Env)
    ensures Content(env, File([], 0, [])) == [] && Parse(env.wire, []) == Parsed([], true)
  {
  }

  /** What the journal holds after a write cut short and a whole one behind it. */
  lemma SplicedContent(env: Env, failed: ReplayRecord, cut: nat, acked: ReplayRecord)
    requires cut < |Frame(env.wire, failed)|
    ensures var f := AfterSyncedWrite(env, AfterWrite(env, File([], 0, []), failed, cut), acked);
            Content(env, f) == Frame(env.wire, failed)[..cut] + Frame(env.wire, acked)
  {
    EmptyFileReadsNothing(env);
    WriteAppendsBytes(env, File([], 0, []), failed, cut);
    WriteAppendsBytes(env, AfterWrite(env, File([], 0, []), failed, cut), acked, 0);
    hide Frame, AfterWrite, AfterSyncedWrite, Content;
    assert [] + Frame(env.wire, failed)[..cut] == Frame(env.wire, failed)[..cut];
  }

  lemma SplicedFile(env: Env, failed: ReplayRecord, cut: nat, acked: ReplayRecord)
    requires Lawful(env.wire) && Storable(env.wire, failed) && Storable(env.wire, acked) && 0 < cut < |Frame(env.wire, failed)|
    requires !ReadFrame(env.wire, Frame(env.wire, failed)[..cut] + Frame(env.wire, acked)).Intact?
    ensures var f := AfterSyncedWrite(env, AfterWrite(env, File([], 0, []), failed, cut), acked);
            Parse(env.wire, Content(env, f)).recs == []
  {
    SplicedContent(env, failed, cut, acked);
    hide Parse, Frame, AfterWrite, AfterSyncedWrite, Content, ReadFrame;
    var part := Frame(env.wire, failed)[..cut];
    assert part < Frame(env.wire, failed);
    PrefixIsCrashTail(env.wire, failed, part);
    hide CrashTail;
    OneFrame(env.wire, acked);
    RecoversAfterTearIffNothingFollows(env.wire, [], part, [acked]);
    assert Frames(env.wire, []) + part + Frames(env.wire, [acked]) == part + Frame(env.wire, acked);
  }

  lemma OneFrame(w: Wire, r: ReplayRecord)
    ensures Frames(w, [r]) == Frame(w, r)
  {
    assert [r][1..] == [];
  }

  /** Two fresh requests at the same moment are both consumed. */
  lemma TwoAreConsumed(first: ReplayRecord, second: ReplayRecord, now: int)
    requires ReplayKey(first) != ReplayKey(second)
    ensures DecideReplay(Served(now).mem, first, now).1.Consumed?
    ensures forall m: Mem :: m.entries == DecideReplay(Served(now).mem, first, now).0.entries && m.records == 0 ==>
              DecideReplay(m, second, now).1.Consumed?
  {
    hide ReplayKey, Cutoff, EmptyShards, Unexpired;
  }

  lemma NothingLoadsFrom(env: Env, d: Disk, order: seq<FileId>)
    requires Lists(order, d) && Visible(d) == map[]
    requires forall id :: id in d.files ==> Parse(env.wire, Content(env, d.files[id])).recs == []
    ensures LoadFiles(env, d, order) == None || LoadFiles(env, d, order) == Some(map[])
  {
    hide Content, Parse, LoadFiles;
    NothingLoads(env, d, order);
  }

  /**
   Two records of one journal, signed at start to live for age, such that part of the first's frame and
   the second's do not happen to form a third.
   */
  ghost predicate Torn(env: Env, known: set<ReplayRecord>, failed: ReplayRecord, cut: nat, acked: ReplayRecord, start: int, age: nat) {
    && Storable(env.wire, failed) && Storable(env.wire, acked) && failed in known && acked in known
    && ReplayKey(failed) != ReplayKey(acked) && ShardFor(env, failed.keyId) == ShardFor(env, acked.keyId)
    && age * MILLI <= MAX_REQUEST_AGE && failed.expiresAt == acked.expiresAt == start + age
    && 0 < cut < |Frame(env.wire, failed)|
    && !ReadFrame(env.wire, Frame(env.wire, failed)[..cut] + Frame(env.wire, acked)).Intact?
  }

  lemma TornRun(env: Env, known: set<ReplayRecord>, rules: Rules, failed: ReplayRecord, cut: nat, acked: ReplayRecord, start: int, age: nat)
    returns (s: Sys)
    requires Torn(env, known, failed, cut, acked, start, age) && !rules.clean
    ensures Reachable(env, known, rules, s) && s.accepted == [acked] && s.clock == start * MILLI
    ensures var disk := Served(start * MILLI).disk;
            s.disk == disk.(files := disk.files[FileId(1, ShardFor(env, acked.keyId)) :=
                        AfterSyncedWrite(env, AfterWrite(env, File([], 0, []), failed, cut), acked)])
  {
    hide EmptyShards, Cutoff, ReplayKey, DecideReplay, Serving, Reachable, InTime;
    var now := start * MILLI;
    SignedInTime(start, age);
    ServedIsReachable(env, known, rules, now);
    TwoAreConsumed(failed, acked, now);
    assert EncodeReplayRecord(env.wire, failed).Some? && EncodeReplayRecord(env.wire, acked).Some?;
    var s0 := Served(now);
    assert s0.accepted == [] && s0.clock == now && s0.mem.gen == 1 && s0.mem.records == 0 && s0.admitted == map[] && s0.appending == map[];
    assert s0.disk.files[FileId(1, ShardFor(env, acked.keyId))] == File([], 0, []) by { ServedFilesAreEmpty(now); }
    hide Served, AfterWrite, AfterSyncedWrite, Frame, ShardFor, EncodeReplayRecord, Storable;
    s := TwoRounds(env, known, rules, s0, failed, cut, acked, start);
  }

  lemma TwoRounds(env: Env, known: set<ReplayRecord>, rules: Rules, s0: Sys, failed: ReplayRecord, cut: nat, acked: ReplayRecord, start: int)
    returns (s: Sys)
    requires Reachable(env, known, rules, s0) && Serving(s0) && s0.clock == start * MILLI && s0.mem.records == 0 && s0.admitted == map[] && s0.appending == map[]
    requires failed in known && acked in known && !rules.clean
    requires EncodeReplayRecord(env.wire, failed).Some? && EncodeReplayRecord(env.wire, acked).Some?
    requires InTime(start, failed.expiresAt, s0.clock) && InTime(start, acked.expiresAt, s0.clock) && ShardFor(env, failed.keyId) == ShardFor(env, acked.keyId)
    requires DecideReplay(s0.mem, failed, s0.clock).1.Consumed?
    requires forall m: Mem :: m.entries == DecideReplay(s0.mem, failed, s0.clock).0.entries && m.records == 0 ==> DecideReplay(m, acked, s0.clock).1.Consumed?
    ensures Reachable(env, known, rules, s) && s.accepted == s0.accepted + [acked] && s.clock == s0.clock
    ensures var id := FileId(s0.mem.gen, ShardFor(env, acked.keyId));
            && id in s0.disk.files
            && s.disk == s0.disk.(files := s0.disk.files[id := AfterSyncedWrite(env, AfterWrite(env, s0.disk.files[id], failed, cut), acked)])
  {
    hide Reachable, Serving, InTime, AfterWrite, AfterSyncedWrite, ShardFor, DecideReplay, EncodeReplayRecord;
    var s1 := RoundReaches(env, known, rules, s0, failed, start, s0.clock, WriteFailed(cut));
    s := RoundReaches(env, known, rules, s1, acked, start, s0.clock, AppendSynced);
    var id := FileId(s0.mem.gen, ShardFor(env, acked.keyId));
    var f, g := AfterWrite(env, s0.disk.files[id], failed, cut), AfterSyncedWrite(env, AfterWrite(env, s0.disk.files[id], failed, cut), acked);
    assert s0.disk.files[id := f][id := g] == s0.disk.files[id := g];
  }

  /**
   append does not cut a partial write back: this run, every decision of it on a fresh reading, tells a
   caller that a request is accepted, and every restart fails or loads a ledger without it.
   */
  lemma TornAppendIsForgotten(env: Env, known: set<ReplayRecord>, failed: ReplayRecord, cut: nat, acked: ReplayRecord, start: int, age: nat)
    returns (s: Sys)
    requires Lawful(env.wire) && Torn(env, known, failed, cut, acked, start, age)
    ensures Reachable(env, known, Rules(false, true), s) && s.accepted == [acked] && Pending(s, acked)
    ensures forall order :: Lists(order, s.disk) ==> LoadFiles(env, s.disk, order) == None || LoadFiles(env, s.disk, order) == Some(map[])
  {
    hide EmptyShards, Reachable, ReplayKey, Served, LoadFiles;
    SignedInTime(start, age);
    ServedFilesAreEmpty(start * MILLI);
    SplicedFile(env, failed, cut, acked);
    EmptyFileReadsNothing(env);
    s := TornRun(env, known, Rules(false, true), failed, cut, acked, start, age);
    hide AfterWrite, AfterSyncedWrite, Content, Parse, Frame, ShardFor, Storable, Lawful, Cutoff;
    forall order | Lists(order, s.disk) ensures LoadFiles(env, s.disk, order) == None || LoadFiles(env, s.disk, order) == Some(map[]) {
      NothingLoadsFrom(env, s.disk, order);
    }
  }

  // ---- a reading older than a prune ------------------------------------------------------------

  /** A ledger pruned down to one entry takes a request it held before. */
  lemma StaleDecides(r: ReplayRecord, late: ReplayRecord, now: int)
    requires ReplayKey(r) != ReplayKey(late)
    ensures forall m: Mem :: m.entries == map[ReplayKey(late) := late] && m.records <= MAX_REPLAY_ENTRIES + 1 ==> DecideReplay(m, r, now).1.Consumed?
  {
    hide ReplayKey, Cutoff, Unexpired;
  }

  /**
   Verify reads its clock before it decides. In this run the ledger is full, a copy of the first request reads the clock
   and waits, a request a minute later prunes the ledger, and the waiting copy is accepted a second time. Every append
   of it is behind whole frames.
   */
  lemma StaleReadingAcceptsTwice(env: Env, known: set<ReplayRecord>, rec: nat -> ReplayRecord, late: ReplayRecord, start: int, age: nat)
    returns (s: Sys)
    requires Burst(env, known, rec, late, start, age, MAX_REPLAY_ENTRIES)
    ensures Reachable(env, known, Rules(true, false), s)
    ensures |s.accepted| == MAX_REPLAY_ENTRIES + 2 && s.accepted[0] == s.accepted[MAX_REPLAY_ENTRIES + 1] == rec(0)
  {
    var all := MAX_REPLAY_ENTRIES;
    hide Reachable, Serving, ReplayKey, InTime, DecideReplay, Cutoff;
    var s0 := FillReaches(env, known, Rules(true, false), rec, late, start, age, all, all);
    FillIsNew(env, known, s0, rec, late, start, age, all, all);
    PruneDecides(s0.mem, late, start, age);
    SignedInTime(start, age);
    SignedInTime(start + 60_000, age);
    var r := rec(0);
    StaleDecides(r, late, s0.clock);
    assert EncodeReplayRecord(env.wire, r).Some? && EncodeReplayRecord(env.wire, late).Some? && Whole(s0.disk);
    assert |s0.accepted| == all && s0.accepted[0] == r;
    hide Filled, Burst, EncodeReplayRecord;
    s := StaleRun(env, known, Rules(true, false), s0, r, late, start);
  }

  lemma StaleRun(env: Env, known: set<ReplayRecord>, rules: Rules, s0: Sys, r: ReplayRecord, late: ReplayRecord, start: int) returns (s: Sys)
    requires Reachable(env, known, rules, s0) && Serving(s0) && s0.clock == start * MILLI && s0.admitted == map[] && s0.appending == map[]
    requires !rules.timely && Whole(s0.disk) && r in known && late in known
    requires EncodeReplayRecord(env.wire, r).Some? && EncodeReplayRecord(env.wire, late).Some?
    requires InTime(start, r.expiresAt, s0.clock) && InTime(start + 60_000, late.expiresAt, (start + 60_000) * MILLI)
    requires DecideReplay(s0.mem, late, (start + 60_000) * MILLI) == (s0.mem.(entries := map[ReplayKey(late) := late]), Consumed)
    requires forall m: Mem :: m.entries == map[ReplayKey(late) := late] && m.records == s0.mem.records + 1 ==> DecideReplay(m, r, s0.clock).1.Consumed?
    ensures Reachable(env, known, rules, s) && s.accepted == s0.accepted + [late, r]
  {
    hide Reachable, ReplayKey, InTime, DecideReplay, EncodeReplayRecord, AfterSyncedWrite, Serving, ShardFor;
    var now := (start + 60_000) * MILLI;
    var s1 := AdmitReaches(env, known, rules, s0, 1, r, start);
    var s2 := RoundReaches(env, known, rules, s1, late, start + 60_000, now, AppendSynced);
    WholeAfter(env, s0.disk, Journal(env, s0.mem, late), late);
    var s3 := DecideReaches(env, known, rules, s2, 1);
    s := AppendReaches(env, known, rules, s3, 1, AppendSynced);
  }

  // ---- a request id used again --------------------------------------------------------------------

  /**
   Records that fill the ledger but for one entry, first signed with them, and again: another request under
   first's id, signed a minute later like late.
   */
  ghost predicate Reuse(env: Env, known: set<ReplayRecord>, rec: nat -> ReplayRecord, late: ReplayRecord, first: ReplayRecord, again: ReplayRecord, start: int, age: nat) {
    && Burst(env, known, rec, late, start, age, MAX_REPLAY_ENTRIES - 1)
    && first in known && Storable(env.wire, first) && first.expiresAt == start + age
    && again in known && Storable(env.wire, again) && again.expiresAt == start + 60_000 + age
    && again.keyId == first.keyId && again.generation == first.generation && again.requestId == first.requestId
    && ReplayKey(first) != ReplayKey(late)
    && forall k: nat :: k < MAX_REPLAY_ENTRIES - 1 ==> ReplayKey(rec(k)) != ReplayKey(first)
  }

  function Extended(env: Env, files: map<FileId, File>, id: FileId, r: ReplayRecord): map<FileId, File>
    requires id in files
  {
    files[id := AfterSyncedWrite(env, files[id], r)]
  }

  /** One request accepted while thread 1 still has its own record to append. */
  lemma RoundExtends(env: Env, known: set<ReplayRecord>, rules: Rules, s: Sys, rec: ReplayRecord, issuedAt: int, now: int) returns (s': Sys)
    requires Reachable(env, known, rules, s) && Serving(s) && 0 !in s.admitted && 0 !in s.appending && Whole(s.disk)
    requires s.clock <= now && rec in known && InTime(issuedAt, rec.expiresAt, now)
    requires DecideReplay(s.mem, rec, now).1.Consumed? && EncodeReplayRecord(env.wire, rec).Some?
    ensures Reachable(env, known, rules, s') && Serving(s') && Whole(s'.disk) && s'.clock == now
    ensures s'.admitted == s.admitted && s'.appending == s.appending && s'.accepted == s.accepted + [rec]
    ensures s'.mem == s.mem.(entries := DecideReplay(s.mem, rec, now).0.entries, records := s.mem.records + 1)
    ensures var id := Journal(env, s.mem, rec); id in s.disk.files && s'.disk == s.disk.(files := Extended(env, s.disk.files, id, rec))
  {
    hide Reachable, InTime, DecideReplay, EncodeReplayRecord, AfterSyncedWrite, Serving, ShardFor;
    s' := RoundReaches(env, known, rules, s, rec, issuedAt, now, AppendSynced);
    WholeAfter(env, s.disk, Journal(env, s.mem, rec), rec);
  }

  /** first is decided, late and again are accepted a minute later, and only then is first appended. */
  lemma StalledAppend(env: Env, known: set<ReplayRecord>, rules: Rules, s: Sys, late: ReplayRecord, first: ReplayRecord, again: ReplayRecord, signed: int)
    returns (s': Sys)
    requires Reachable(env, known, rules, s) && Serving(s) && s.clock <= signed * MILLI && s.admitted == map[] && s.appending == map[1 := first]
    requires Whole(s.disk) && late in known && again in known && again.keyId == first.keyId
    requires EncodeReplayRecord(env.wire, late).Some? && EncodeReplayRecord(env.wire, first).Some? && EncodeReplayRecord(env.wire, again).Some?
    requires InTime(signed, late.expiresAt, signed * MILLI) && InTime(signed, again.expiresAt, signed * MILLI)
    requires DecideReplay(s.mem, late, signed * MILLI) == (s.mem.(entries := map[ReplayKey(late) := late]), Consumed)
    requires DecideReplay(s.mem.(entries := map[ReplayKey(late) := late], records := s.mem.records + 1), again, signed * MILLI).1.Consumed?
    ensures Reachable(env, known, rules, s') && s'.accepted == s.accepted + [late, again, first] && s'.clock == signed * MILLI
    ensures var files, id, id' := s.disk.files, Journal(env, s.mem, late), Journal(env, s.mem, first);
            && id in files && id' in files
            && s'.disk == s.disk.(files := Extended(env, Extended(env, Extended(env, files, id, late), id', again), id', first))
  {
    hide Reachable, ReplayKey, InTime, DecideReplay, EncodeReplayRecord, AfterSyncedWrite, Serving, ShardFor;
    var s1 := RoundExtends(env, known, rules, s, late, signed, signed * MILLI);
    var s2 := RoundExtends(env, known, rules, s1, again, signed, signed * MILLI);
    s' := AppendReaches(env, known, rules, s2, 1, AppendSynced);
    assert s'.disk.files == Extended(env, s2.disk.files, Journal(env, s.mem, first), first);
  }

  lemma FirstIsDecided(env: Env, known: set<ReplayRecord>, rules: Rules, s: Sys, first: ReplayRecord, issuedAt: int) returns (s': Sys)
    requires Reachable(env, known, rules, s) && Serving(s) && s.admitted == map[] && s.appending == map[]
    requires first in known && InTime(issuedAt, first.expiresAt, s.clock) && DecideReplay(s.mem, first, s.clock).1.Consumed?
    ensures Reachable(env, known, rules, s') && Serving(s') && s'.clock == s.clock && s'.disk == s.disk && s'.accepted == s.accepted
    ensures s'.admitted == map[] && s'.appending == map[1 := first] && s'.mem == DecideReplay(s.mem, first, s.clock).0 && s'.mem.gen == s.mem.gen
  {
    assert s.pruned <= Cutoff(s.clock);
    hide Reachable, InTime, DecideReplay, Serving, Cutoff;
    var s1 := AdmitReaches(env, known, rules, s, 1, first, issuedAt);
    s' := DecideReaches(env, known, rules, s1, 1);
  }

  // What the journals then hold.

  /** Whole frames of storable records, at most most of them, none under key. */
  ghost predicate Avoiding(env: Env, files: map<FileId, File>, key: string, most: nat) {
    forall id :: id in files ==> && files[id].torn == [] && |files[id].recs| <= most
                                 && forall r :: r in files[id].recs ==> Storable(env.wire, r) && ReplayKey(r) != key
  }

  lemma JournalsAvoid(env: Env, files: map<FileId, File>, rec: nat -> ReplayRecord, n: nat, key: string)
    requires Journals(files, rec, n) && forall k: nat :: k < n ==> Storable(env.wire, rec(k)) && ReplayKey(rec(k)) != key
    ensures Avoiding(env, files, key, n)
  {
    hide ReplayKey, Storable;
  }

  lemma AvoidingMore(env: Env, files: map<FileId, File>, id: FileId, r: ReplayRecord, key: string, most: nat)
    requires Avoiding(env, files, key, most) && id in files && Storable(env.wire, r) && ReplayKey(r) != key
    ensures Avoiding(env, Extended(env, files, id, r), key, most + 1)
  {
    WholeWrite(env, files[id], r);
    hide ReplayKey, Storable, AfterSyncedWrite;
  }

  ghost predicate Readable(env: Env, f: File) {
    Parse(env.wire, Content(env, f)) == Parsed(f.recs, true) && |Content(env, f)| <= MAX_JOURNAL_BYTES
  }

  lemma FrameFits(w: Wire, r: ReplayRecord)
    requires Storable(w, r)
    ensures |Frame(w, r)| <= MAX_FRAME
  {
  }

  lemma NoTail(w: Wire)
    ensures CrashTail(w, [])
  {
    hide ReadFrame, Frame;
  }

  lemma WholeIsReadable(env: Env, f: File)
    requires Lawful(env.wire) && f.torn == [] && AllStorable(env.wire, f.recs) && |f.recs| <= REPLAY_JOURNAL_LIMIT
    ensures Readable(env, f)
  {
    hide Parse, CrashTail, Frames, Frame, Storable, Lawful;
    forall r | r in f.recs ensures |Frame(env.wire, r)| <= MAX_FRAME { FrameFits(env.wire, r); }
    NoTail(env.wire);
    ReadsBackJournal(env.wire, f.recs, []);
    ReplayCapacity.FramesAreBounded(env.wire, f.recs, MAX_FRAME);
  }

  /** The journal of key holds last behind everything else of that key, and no other journal holds the key. */
  ghost predicate LastOf(env: Env, d: Disk, id: FileId, last: ReplayRecord) {
    && id in d.files && d.files[id].recs != [] && d.files[id].recs[|d.files[id].recs| - 1] == last
    && (forall i :: i in d.files ==> Readable(env, d.files[i]))
    && (forall i :: i in d.files && i != id ==> forall r :: r in d.files[i].recs ==> ReplayKey(r) != ReplayKey(last))
  }

  /** The journals of the run keep first last. */
  lemma FirstIsLast(env: Env, files: map<FileId, File>, id: FileId, again: ReplayRecord, first: ReplayRecord, most: nat)
    requires Lawful(env.wire) && Avoiding(env, files, ReplayKey(first), most) && most + 2 <= REPLAY_JOURNAL_LIMIT && id in files
    requires Storable(env.wire, again) && Storable(env.wire, first)
    ensures LastOf(env, EMPTY_DISK.(files := Extended(env, Extended(env, files, id, again), id, first)), id, first)
  {
    WholeWrite(env, files[id], again);
    WholeWrite(env, Extended(env, files, id, again)[id], first);
    hide ReplayKey, Storable, AfterSyncedWrite, Readable, Lawful;
    var files' := Extended(env, Extended(env, files, id, again), id, first);
    assert files'[id].recs == files[id].recs + [again] + [first];
    forall i | i in files' ensures Readable(env, files'[i]) {
      assert i in files && (i != id ==> files'[i] == files[i]);
      WholeIsReadable(env, files'[i]);
    }
  }

  lemma {:induction false} LoadElsewhere(m: Ledger, rs: seq<ReplayRecord>, key: string)
    requires forall r :: r in rs ==> ReplayKey(r) != key
    ensures key in Load(m, rs) <==> key in m
    ensures key in m ==> Load(m, rs)[key] == m[key]
  {
    hide ReplayKey;
    if rs != [] { LoadElsewhere(m, rs[..|rs| - 1], key); }
  }

  /** Whatever the order the journals are read in, the last record of the key is what a restart holds. */
  lemma {:induction false} LastWins(env: Env, d: Disk, order: seq<FileId>, id: FileId, last: ReplayRecord)
    requires LastOf(env, d, id, last) && forall i :: i in order ==> i in d.files
    ensures LoadFiles(env, d, order).Some?
    ensures id in order ==> var m := LoadFiles(env, d, order).value; ReplayKey(last) in m && m[ReplayKey(last)] == last
  {
    hide ReplayKey, Content, Parse;
    if order != [] {
      var init, i := order[..|order| - 1], order[|order| - 1];
      LastWins(env, d, init, id, last);
      assert Readable(env, d.files[i]);
      if i != id { LoadElsewhere(LoadFiles(env, d, init).value, d.files[i].recs, ReplayKey(last)); }
    }
  }

  lemma ReuseDecides(env: Env, known: set<ReplayRecord>, s: Sys, rec: nat -> ReplayRecord, late: ReplayRecord, first: ReplayRecord, again: ReplayRecord, start: int, age: nat)
    requires Reuse(env, known, rec, late, first, again, start, age) && Filled(s, rec, start, age, MAX_REPLAY_ENTRIES - 1)
    ensures DecideReplay(s.mem, first, s.clock).1.Consumed?
    ensures var now, m := (start + 60_000) * MILLI, DecideReplay(s.mem, first, s.clock).0;
            && DecideReplay(m, late, now) == (m.(entries := map[ReplayKey(late) := late]), Consumed)
            && DecideReplay(m.(entries := map[ReplayKey(late) := late], records := m.records + 1), again, now).1.Consumed?
  {
    assert ReplayKey(again) == ReplayKey(first);
    FillIsNew(env, known, s, rec, late, start, age, MAX_REPLAY_ENTRIES - 1, MAX_REPLAY_ENTRIES - 1);
    hide ReplayKey, Serving, Journals, Storable, Cutoff;
    assert ReplayKey(first) !in s.mem.entries;
    FillDecides(s.mem, first, s.clock);
    PruneDecides(s.mem.(entries := s.mem.entries[ReplayKey(first) := first]), late, start, age);
    StaleDecides(again, late, (start + 60_000) * MILLI);
  }

  lemma ReuseRun(env: Env, known: set<ReplayRecord>, rules: Rules, s0: Sys, rec: nat -> ReplayRecord, late: ReplayRecord, first: ReplayRecord, again: ReplayRecord, start: int, age: nat)
    returns (s: Sys)
    requires Reuse(env, known, rec, late, first, again, start, age) && Reachable(env, known, rules, s0) && Filled(s0, rec, start, age, MAX_REPLAY_ENTRIES - 1)
    ensures Reachable(env, known, rules, s) && s.accepted == s0.accepted + [late, again, first] && s.clock == (start + 60_000) * MILLI
    ensures var files, id, id' := s0.disk.files, Journal(env, s0.mem, late), Journal(env, s0.mem, first);
            && id in files && id' in files
            && s.disk == EMPTY_DISK.(files := Extended(env, Extended(env, Extended(env, files, id, late), id', again), id', first))
  {
    ReuseIsAllowed(env, known, s0, rec, late, first, again, start, age);
    ReuseDecides(env, known, s0, rec, late, first, again, start, age);
    hide Reachable, ReplayKey, InTime, DecideReplay, EncodeReplayRecord, Extended, Serving, Journal, Whole, Reuse, Filled;
    var s1 := FirstIsDecided(env, known, rules, s0, first, start);
    SameJournal(env, s0.mem, s1.mem, late);
    SameJournal(env, s0.mem, s1.mem, first);
    s := StalledAppend(env, known, rules, s1, late, first, again, start + 60_000);
  }

  lemma ReuseIsAllowed(env: Env, known: set<ReplayRecord>, s: Sys, rec: nat -> ReplayRecord, late: ReplayRecord, first: ReplayRecord, again: ReplayRecord, start: int, age: nat)
    requires Reuse(env, known, rec, late, first, again, start, age) && Filled(s, rec, start, age, MAX_REPLAY_ENTRIES - 1)
    ensures Serving(s) && s.clock == start * MILLI && s.admitted == map[] && s.appending == map[] && Whole(s.disk) && s.disk == EMPTY_DISK.(files := s.disk.files)
    ensures late in known && first in known && again in known && again.keyId == first.keyId
    ensures EncodeReplayRecord(env.wire, late).Some? && EncodeReplayRecord(env.wire, first).Some? && EncodeReplayRecord(env.wire, again).Some?
    ensures var now := (start + 60_000) * MILLI;
            InTime(start, first.expiresAt, s.clock) && InTime(start + 60_000, late.expiresAt, now) && InTime(start + 60_000, again.expiresAt, now)
  {
    SignedInTime(start, age);
    SignedInTime(start + 60_000, age);
    hide ReplayKey, InTime, Serving, Cutoff;
  }

  /** The journals of the run, read back in any order. */
  lemma FirstIsLoaded(env: Env, files: map<FileId, File>, rec: nat -> ReplayRecord, n: nat, late: ReplayRecord, id: FileId, again: ReplayRecord, first: ReplayRecord, id': FileId)
    requires Lawful(env.wire) && Journals(files, rec, n) && n + 3 <= REPLAY_JOURNAL_LIMIT && id in files && id' in files
    requires forall k: nat :: k < n ==> Storable(env.wire, rec(k)) && ReplayKey(rec(k)) != ReplayKey(first)
    requires Storable(env.wire, late) && Storable(env.wire, again) && Storable(env.wire, first) && ReplayKey(late) != ReplayKey(first)
    ensures LastOf(env, EMPTY_DISK.(files := Extended(env, Extended(env, Extended(env, files, id, late), id', again), id', first)), id', first)
  {
    JournalsAvoid(env, files, rec, n, ReplayKey(first));
    AvoidingMore(env, files, id, late, ReplayKey(first), n);
    hide Avoiding, Journals, ReplayKey, Storable, Lawful, LastOf, AfterSyncedWrite;
    FirstIsLast(env, Extended(env, files, id, late), id', again, first, n + 1);
  }

  /**
   A client that uses a request id again can have the second request forgotten: the first, decided before the ledger was
   pruned, is appended behind it, and every restart loads the first and drops it as expired. Every append of the run is
   behind whole frames and every decision on a fresh reading.
   */
  lemma ReusedIdIsForgotten(env: Env, known: set<ReplayRecord>, rec: nat -> ReplayRecord, late: ReplayRecord, first: ReplayRecord, again: ReplayRecord, start: int, age: nat)
    returns (s: Sys)
    requires Lawful(env.wire) && Reuse(env, known, rec, late, first, again, start, age)
    ensures Reachable(env, known, Rules(true, true), s) && Pending(s, again)
    ensures forall order :: Lists(order, s.disk) ==>
              var loaded := LoadFiles(env, s.disk, order);
              loaded.Some? && ReplayKey(again) !in Unexpired(loaded.value, Cutoff(s.clock))
  {
    var n := MAX_REPLAY_ENTRIES - 1;
    SignedInTime(start + 60_000, age);
    assert ReplayKey(again) == ReplayKey(first);
    hide Reachable, ReplayKey, InTime, Extended, ShardFor, Cutoff, Storable, LoadFiles, Lawful, LastOf, Journals, Serving;
    var s0 := FillReaches(env, known, Rules(true, true), rec, late, start, age, n, n);
    s := ReuseRun(env, known, Rules(true, true), s0, rec, late, first, again, start, age);
    var id, id' := Journal(env, s0.mem, late), Journal(env, s0.mem, first);
    FirstIsLoaded(env, s0.disk.files, rec, n, late, id, again, first, id');
    ForgetsOnLoad(env, s.disk, id', first, Cutoff(s.clock));
  }

  lemma ForgetsOnLoad(env: Env, d: Disk, id: FileId, last: ReplayRecord, cutoff: int)
    requires LastOf(env, d, id, last) && last.expiresAt < cutoff
    ensures forall order :: Lists(order, d) ==>
              var loaded := LoadFiles(env, d, order);
              loaded.Some? && ReplayKey(last) !in Unexpired(loaded.value, cutoff)
  {
    hide ReplayKey, LoadFiles, Readable;
    forall order | Lists(order, d)
      ensures var loaded := LoadFiles(env, d, order); loaded.Some? && ReplayKey(last) !in Unexpired(loaded.value, cutoff)
    {
      LastWins(env, d, order, id, last);
    }
  }
}
