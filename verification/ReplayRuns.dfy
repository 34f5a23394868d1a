/**
 Building runs of the replay ledger from an empty root, step by step and under
 whichever of the protocol's conditions the run is to keep.
 */
module ReplayRuns {
  import opened Bytes
  import opened JournalCodec
  import opened ReplayStore
  import opened ReplayProtocol

  // ---- reachability ------------------------------------------------------------------------

  /** Which conditions every step of a run keeps: appends behind whole frames only, decisions on fresh readings only. */
  datatype Rules = Rules(clean: bool, timely: bool)

  predicate Obeys(env: Env, rules: Rules, s: Sys, step: Step) {
    (rules.clean ==> CleanAppend(env, s, step)) && (rules.timely ==> FreshReading(s, step))
  }

  ghost predicate Path(env: Env, known: set<ReplayRecord>, rules: Rules, states: seq<Sys>, steps: seq<Step>) {
    && |states| == |steps| + 1
    && forall i :: 0 <= i < |steps| ==> Next(env, known, states[i], steps[i], states[i + 1]) && Obeys(env, rules, states[i], steps[i])
  }

  ghost predicate Leads(env: Env, known: set<ReplayRecord>, rules: Rules, a: Sys, b: Sys) {
    exists states, steps :: Path(env, known, rules, states, steps) && states[0] == a && states[|steps|] == b
  }

  ghost predicate Reachable(env: Env, known: set<ReplayRecord>, rules: Rules, s: Sys) {
    exists s0 :: Init(known, s0) && Leads(env, known, rules, s0, s)
  }

  /** A reachable state is one that some run under the rules ends in. */
  lemma ReachableByRun(env: Env, known: set<ReplayRecord>, rules: Rules, s: Sys)
    ensures Reachable(env, known, rules, s) <==>
              exists states, steps :: && Run(env, known, states, steps) && states[|steps|] == s
                                      && forall k :: 0 <= k < |steps| ==> Obeys(env, rules, states[k], steps[k])
  {
    hide Next, Init, Obeys;
    if Reachable(env, known, rules, s) {
      var s0 :| Init(known, s0) && Leads(env, known, rules, s0, s);
      var states, steps :| Path(env, known, rules, states, steps) && states[0] == s0 && states[|steps|] == s;
      assert Run(env, known, states, steps);
    }
    if exists states, steps :: && Run(env, known, states, steps) && states[|steps|] == s
                               && forall k :: 0 <= k < |steps| ==> Obeys(env, rules, states[k], steps[k]) {
      var states, steps :| && Run(env, known, states, steps) && states[|steps|] == s
                           && forall k :: 0 <= k < |steps| ==> Obeys(env, rules, states[k], steps[k]);
      assert Path(env, known, rules, states, steps);
      assert Leads(env, known, rules, states[0], s);
    }
  }

  lemma StepLeads(env: Env, known: set<ReplayRecord>, rules: Rules, a: Sys, step: Step, b: Sys)
    requires Next(env, known, a, step, b) && Obeys(env, rules, a, step)
    ensures Leads(env, known, rules, a, b)
  {
    hide Next, Obeys;
    var states, steps := [a, b], [step];
    assert Path(env, known, rules, states, steps) && states[0] == a && states[|steps|] == b;
  }

  lemma LeadsOn(env: Env, known: set<ReplayRecord>, rules: Rules, a: Sys, b: Sys, c: Sys)
    requires Leads(env, known, rules, a, b) && Leads(env, known, rules, b, c)
    ensures Leads(env, known, rules, a, c)
  {
    hide Next, Obeys;
    var s1, t1 :| Path(env, known, rules, s1, t1) && s1[0] == a && s1[|t1|] == b;
    var s2, t2 :| Path(env, known, rules, s2, t2) && s2[0] == b && s2[|t2|] == c;
    var states, steps := s1 + s2[1..], t1 + t2;
    forall i | 0 <= i < |steps| ensures Next(env, known, states[i], steps[i], states[i + 1]) && Obeys(env, rules, states[i], steps[i]) {
      if i < |t1| {
        assert states[i] == s1[i] && states[i + 1] == s1[i + 1] && steps[i] == t1[i];
      } else {
        var j := i - |t1|;
        assert states[i] == s2[j] && states[i + 1] == s2[j + 1] && steps[i] == t2[j];
      }
    }
    assert Path(env, known, rules, states, steps) && states[0] == a && states[|steps|] == c;
  }

  lemma StepReaches(env: Env, known: set<ReplayRecord>, rules: Rules, a: Sys, step: Step, b: Sys)
    requires Reachable(env, known, rules, a) && Next(env, known, a, step, b) && Obeys(env, rules, a, step)
    ensures Reachable(env, known, rules, b)
  {
    hide Next, Obeys, Init, Leads;
    StepLeads(env, known, rules, a, step, b);
    var s0 :| Init(known, s0) && Leads(env, known, rules, s0, a);
    LeadsOn(env, known, rules, s0, a, b);
  }

  // ---- a daemon opened on an empty root ---------------------------------------------------------

  const EMPTY_DISK := Disk(map[], None, map[], map[])

  /** Serving its first requests at clock now. */
  function Served(now: int): Sys {
    Sys(Mem(map[], 1, true, false, 0), EMPTY_DISK.(files := EmptyShards(1, REPLAY_SHARDS)),
        Up, Idle, map[], map[], now, 1, [], Cutoff(now), Cutoff(now))
  }

  /** An empty root before, and after, its snapshot and journals were read. */
  function Unopened(now: int): Sys {
    Sys(Mem(map[], 0, false, false, 0), EMPTY_DISK, Down, Idle, map[], map[], now, 0, [], Cutoff(now), Cutoff(now))
  }

  function Opening(now: int): Sys {
    Unopened(now).(phase := Recovering(map[], false))
  }

  lemma EmptyRootLoads(env: Env, known: set<ReplayRecord>, now: int)
    ensures Init(known, Unopened(now)) && LoadDiskStep(env, Unopened(now), [], Opening(now))
  {
    hide Cutoff;
    assert Unexpired(map[], Cutoff(now)) == map[];
  }

  lemma EmptyRootServes(now: int)
    ensures StartServingStep(Opening(now), CreateSynced, Served(now))
  {
    hide Cutoff, EmptyShards;
    var files := EmptyShards(1, REPLAY_SHARDS);
    assert map[] + files == files;
  }

  lemma ServedIsReachable(env: Env, known: set<ReplayRecord>, rules: Rules, now: int)
    ensures Reachable(env, known, rules, Served(now)) && Serving(Served(now))
  {
    EmptyRootLoads(env, known, now);
    EmptyRootServes(now);
    hide LoadDiskStep, StartServingStep, Init, Served, Unopened, Opening, EmptyShards;
    StepLeads(env, known, rules, Unopened(now), LoadDisk([]), Opening(now));
    StepLeads(env, known, rules, Opening(now), StartServing(CreateSynced), Served(now));
    hide Leads;
    LeadsOn(env, known, rules, Unopened(now), Opening(now), Served(now));
    assert Serving(Served(now)) by { ServedIsServing(now); }
  }

  lemma ServedIsServing(now: int)
    ensures Serving(Served(now))
  {
    hide EmptyShards;
  }

  lemma ServedFilesAreEmpty(now: int)
    ensures forall id :: id in Served(now).disk.files ==> Served(now).disk.files[id] == File([], 0, [])
    ensures Visible(Served(now).disk) == map[]
  {
    hide EmptyShards, Cutoff;
  }

  /** Serving with every journal in place and no prune ahead of the clock. */
  predicate Serving(s: Sys) {
    && s.phase.Up? && s.compaction.Idle? && s.mem.installed && s.pruned <= Cutoff(s.clock)
    && forall shard: nat :: shard < REPLAY_SHARDS ==> FileId(s.mem.gen, shard) in s.disk.files
  }

  // ---- the steps of one request --------------------------------------------------------------

  lemma TickReaches(env: Env, known: set<ReplayRecord>, rules: Rules, s: Sys, now: int)
    requires Reachable(env, known, rules, s) && Serving(s) && s.clock <= now
    ensures Reachable(env, known, rules, s.(clock := now)) && Serving(s.(clock := now))
  {
    CutoffMonotone(s.clock, now);
    hide Reachable, Cutoff;
    StepReaches(env, known, rules, s, Tick(now), s.(clock := now));
  }

  lemma AdmitReaches(env: Env, known: set<ReplayRecord>, rules: Rules, s: Sys, t: nat, rec: ReplayRecord, issuedAt: int) returns (s': Sys)
    requires Reachable(env, known, rules, s) && Serving(s) && t !in s.admitted && t !in s.appending
    requires rec in known && InTime(issuedAt, rec.expiresAt, s.clock)
    ensures Reachable(env, known, rules, s') && Serving(s') && s' == s.(admitted := s.admitted[t := Admitted(rec, s.clock)])
  {
    hide Reachable, InTime, Cutoff;
    s' := s.(admitted := s.admitted[t := Admitted(rec, s.clock)]);
    StepReaches(env, known, rules, s, Admit(t, Request(s.boot, rec, issuedAt)), s');
  }

  lemma DecideReaches(env: Env, known: set<ReplayRecord>, rules: Rules, s: Sys, t: nat) returns (s': Sys)
    requires Reachable(env, known, rules, s) && Serving(s) && t in s.admitted && s.admitted[t].now <= s.clock
    requires rules.timely ==> Cutoff(s.admitted[t].now) >= s.pruned
    requires DecideReplay(s.mem, s.admitted[t].rec, s.admitted[t].now).1.Consumed?
    ensures Reachable(env, known, rules, s') && Serving(s')
    ensures var a := s.admitted[t];
            s' == s.(mem := DecideReplay(s.mem, a.rec, a.now).0, admitted := s.admitted - {t}, appending := s.appending[t := a.rec],
                     pruned := s'.pruned, cutoff := s'.cutoff)
    ensures s'.mem == s.mem.(entries := s'.mem.entries)
  {
    var a := s.admitted[t];
    CutoffMonotone(a.now, s.clock);
    DecideChangesEntries(s.mem, a.rec, a.now);
    hide Reachable, Cutoff, DecideReplay;
    var pruned := if Prunes(s.mem, a.rec) then Max(s.pruned, Cutoff(a.now)) else s.pruned;
    s' := s.(mem := DecideReplay(s.mem, a.rec, a.now).0, admitted := s.admitted - {t}, appending := s.appending[t := a.rec],
             pruned := pruned, cutoff := Max(s.cutoff, pruned));
    StepReaches(env, known, rules, s, Decide(t), s');
  }

  lemma DecideChangesEntries(m: Mem, r: ReplayRecord, now: int)
    ensures DecideReplay(m, r, now).0 == m.(entries := DecideReplay(m, r, now).0.entries)
  {
  }

  /** The journal of rec after an append to it. */
  function Written(env: Env, f: File, rec: ReplayRecord, io: AppendIO): File {
    if io.AppendSynced? then AfterSyncedWrite(env, f, rec) else AfterWrite(env, f, rec, io.written)
  }

  lemma AppendReaches(env: Env, known: set<ReplayRecord>, rules: Rules, s: Sys, t: nat, io: AppendIO) returns (s': Sys)
    requires Reachable(env, known, rules, s) && Serving(s) && t in s.appending && EncodeReplayRecord(env.wire, s.appending[t]).Some?
    requires rules.clean ==> var id := Journal(env, s.mem, s.appending[t]); id in s.disk.files ==> s.disk.files[id].torn == []
    ensures Reachable(env, known, rules, s') && Serving(s')
    ensures var rec := s.appending[t]; var id := Journal(env, s.mem, rec);
            && id in s.disk.files
            && s' == s.(mem := s.mem.(records := s.mem.records + (if io.AppendSynced? then 1 else 0)),
                        disk := s.disk.(files := s.disk.files[id := Written(env, s.disk.files[id], rec, io)]),
                        appending := s.appending - {t}, accepted := if io.AppendSynced? then s.accepted + [rec] else s.accepted)
  {
    hide Reachable, EncodeReplayRecord, AfterSyncedWrite, AfterWrite, Cutoff;
    var rec := s.appending[t];
    assert Journal(env, s.mem, rec) in s.disk.files;
    var (mem, disk, result) := AppendRecord(env, s.mem, s.disk, rec, io);
    s' := s.(mem := mem, disk := disk, appending := s.appending - {t}, accepted := if result.Appended? then s.accepted + [rec] else s.accepted);
    StepReaches(env, known, rules, s, Append(t, io), s');
  }

  /** One request admitted and decided by thread 0 with nothing in between. */
  lemma DecidedReaches(env: Env, known: set<ReplayRecord>, rules: Rules, s: Sys, rec: ReplayRecord, issuedAt: int, now: int) returns (s': Sys)
    requires Reachable(env, known, rules, s) && Serving(s) && 0 !in s.admitted && 0 !in s.appending
    requires s.clock <= now && rec in known && InTime(issuedAt, rec.expiresAt, now) && DecideReplay(s.mem, rec, now).1.Consumed?
    ensures Reachable(env, known, rules, s') && Serving(s')
    ensures s' == s.(clock := now, pruned := s'.pruned, cutoff := s'.cutoff, appending := s.appending[0 := rec],
                     mem := s.mem.(entries := DecideReplay(s.mem, rec, now).0.entries))
  {
    TickReaches(env, known, rules, s, now);
    var s1 := s.(clock := now);
    assert s1.pruned <= Cutoff(now);
    hide Cutoff, InTime, Reachable, DecideReplay, Serving;
    var s2 := AdmitReaches(env, known, rules, s1, 0, rec, issuedAt);
    s' := DecideReaches(env, known, rules, s2, 0);
    assert s2.admitted - {0} == s.admitted;
  }

  /** One request admitted, decided and appended. */
  lemma RoundReaches(env: Env, known: set<ReplayRecord>, rules: Rules, s: Sys, rec: ReplayRecord, issuedAt: int, now: int, io: AppendIO)
    returns (s': Sys)
    requires Reachable(env, known, rules, s) && Serving(s) && 0 !in s.admitted && 0 !in s.appending
    requires s.clock <= now && rec in known && InTime(issuedAt, rec.expiresAt, now)
    requires DecideReplay(s.mem, rec, now).1.Consumed? && EncodeReplayRecord(env.wire, rec).Some?
    requires rules.clean ==> var id := Journal(env, s.mem, rec); id in s.disk.files ==> s.disk.files[id].torn == []
    ensures Reachable(env, known, rules, s') && Serving(s')
    ensures var id := Journal(env, s.mem, rec);
            && id in s.disk.files
            && s' == s.(clock := now, pruned := s'.pruned, cutoff := s'.cutoff,
                        mem := s.mem.(entries := DecideReplay(s.mem, rec, now).0.entries, records := s.mem.records + (if io.AppendSynced? then 1 else 0)),
                        disk := s.disk.(files := s.disk.files[id := Written(env, s.disk.files[id], rec, io)]),
                        accepted := if io.AppendSynced? then s.accepted + [rec] else s.accepted)
  {
    hide InTime, EncodeReplayRecord, Reachable, DecideReplay, Journal, Written, Serving;
    var s1 := DecidedReaches(env, known, rules, s, rec, issuedAt, now);
    SameJournal(env, s.mem, s1.mem, rec);
    s' := AppendReaches(env, known, rules, s1, 0, io);
    assert s1.appending - {0} == s.appending;
  }

  lemma SameJournal(env: Env, m: Mem, m': Mem, rec: ReplayRecord)
    requires m'.gen == m.gen
    ensures Journal(env, m', rec) == Journal(env, m, rec)
  {
  }

  // ---- times -------------------------------------------------------------------------------------

  /** A request lives for age milliseconds, at most MAX_REQUEST_AGE, and is served the moment it is signed. */
  lemma SignedInTime(signed: int, age: nat)
    requires age * MILLI <= MAX_REQUEST_AGE
    ensures InTime(signed, signed + age, signed * MILLI) && Cutoff(signed * MILLI) == signed - 5_000
  {
    assert signed * MILLI - CLOCK_SKEW == (signed - 5_000) * MILLI;
  }

  /** Entries whose records all expired before now are all dropped by a prune. */
  lemma AllPruned(m: Ledger, cutoff: int)
    requires forall k :: k in m ==> m[k].expiresAt < cutoff
    ensures Unexpired(m, cutoff) == map[]
  {
  }

  // ---- a ledger filled with records of one expiry --------------------------------------------------

  /** Distinct records, signed at start to live for age, and one more signed a minute later. */
  ghost predicate Burst(env: Env, known: set<ReplayRecord>, rec: nat -> ReplayRecord, late: ReplayRecord, start: int, age: nat, n: nat) {
    && age * MILLI <= MAX_REQUEST_AGE
    && (forall k: nat :: k < n ==> rec(k) in known && Storable(env.wire, rec(k)) && rec(k).expiresAt == start + age)
    && (forall j: nat, k: nat :: j < k < n ==> ReplayKey(rec(j)) != ReplayKey(rec(k)))
    && late in known && Storable(env.wire, late) && late.expiresAt == start + 60_000 + age
    && forall k: nat :: k < n ==> ReplayKey(rec(k)) != ReplayKey(late)
  }

  /** Every journal holds whole frames of the first n records only, no more than n. */
  ghost predicate Journals(files: map<FileId, File>, rec: nat -> ReplayRecord, n: nat) {
    forall id :: id in files ==> && files[id].torn == [] && |files[id].recs| <= n
                                 && forall r :: r in files[id].recs ==> exists j: nat :: j < n && r == rec(j)
  }

  ghost predicate Filled(s: Sys, rec: nat -> ReplayRecord, start: int, age: nat, n: nat) {
    && Serving(s) && s.clock == start * MILLI && s.admitted == map[] && s.appending == map[]
    && s.mem.records == n && |s.mem.entries| == n
    && (forall k :: k in s.mem.entries ==> s.mem.entries[k].expiresAt == start + age && exists j: nat :: j < n && k == ReplayKey(rec(j)))
    && |s.accepted| == n && (forall j: nat :: j < n ==> s.accepted[j] == rec(j))
    && s.disk == EMPTY_DISK.(files := s.disk.files) && Journals(s.disk.files, rec, n)
  }

  lemma FillStarts(rec: nat -> ReplayRecord, start: int, age: nat)
    ensures Filled(Served(start * MILLI), rec, start, age, 0)
  {
    ServedIsServing(start * MILLI);
    ServedFilesAreEmpty(start * MILLI);
    hide Serving, Cutoff, EmptyShards;
  }

  /** A ledger not yet full takes any new key. */
  lemma FillDecides(m: Mem, r: ReplayRecord, now: int)
    requires ReplayKey(r) !in m.entries && |m.entries| < MAX_REPLAY_ENTRIES && m.records < REPLAY_JOURNAL_LIMIT
    ensures DecideReplay(m, r, now) == (m.(entries := m.entries[ReplayKey(r) := r]), Consumed)
    ensures |m.entries[ReplayKey(r) := r]| == |m.entries| + 1
  {
    hide ReplayKey;
  }

  /** A full ledger whose entries have all expired keeps the new one alone. */
  lemma PruneDecides(m: Mem, late: ReplayRecord, start: int, age: nat)
    requires |m.entries| == MAX_REPLAY_ENTRIES && m.records < REPLAY_JOURNAL_LIMIT && ReplayKey(late) !in m.entries
    requires age * MILLI <= MAX_REQUEST_AGE && forall k :: k in m.entries ==> m.entries[k].expiresAt == start + age
    ensures DecideReplay(m, late, (start + 60_000) * MILLI) == (m.(entries := map[ReplayKey(late) := late]), Consumed)
  {
    SignedInTime(start + 60_000, age);
    AllPruned(m.entries, Cutoff((start + 60_000) * MILLI));
    hide ReplayKey, Cutoff, InTime, Unexpired;
  }

  lemma WholeWrite(env: Env, f: File, r: ReplayRecord)
    requires f.torn == []
    ensures AfterSyncedWrite(env, f, r) == File(f.recs + [r], |f.recs| + 1, [])
  {
    hide Frame;
  }

  /** Every journal ends in a whole frame. */
  predicate Whole(d: Disk) {
    forall id :: id in d.files ==> d.files[id].torn == []
  }

  lemma WholeAfter(env: Env, d: Disk, id: FileId, r: ReplayRecord)
    requires Whole(d) && id in d.files
    ensures Whole(d.(files := d.files[id := AfterSyncedWrite(env, d.files[id], r)]))
  {
    WholeWrite(env, d.files[id], r);
    hide AfterSyncedWrite;
  }

  lemma JournalsMore(env: Env, files: map<FileId, File>, id: FileId, rec: nat -> ReplayRecord, n: nat)
    requires Journals(files, rec, n) && id in files
    ensures Journals(files[id := AfterSyncedWrite(env, files[id], rec(n))], rec, n + 1)
  {
    WholeWrite(env, files[id], rec(n));
    hide AfterSyncedWrite;
  }

  lemma FilledMore(s: Sys, s': Sys, rec: nat -> ReplayRecord, start: int, age: nat, n: nat)
    requires Filled(s, rec, start, age, n) && rec(n).expiresAt == start + age && ReplayKey(rec(n)) !in s.mem.entries
    requires Serving(s') && s'.clock == s.clock && s'.admitted == map[] && s'.appending == map[] && s'.mem.records == n + 1
    requires s'.mem.entries == s.mem.entries[ReplayKey(rec(n)) := rec(n)] && s'.accepted == s.accepted + [rec(n)]
    requires s'.disk == EMPTY_DISK.(files := s'.disk.files) && Journals(s'.disk.files, rec, n + 1)
    ensures Filled(s', rec, start, age, n + 1)
  {
    hide ReplayKey, Serving, Journals;
  }

  lemma FillIsNew(env: Env, known: set<ReplayRecord>, s: Sys, rec: nat -> ReplayRecord, late: ReplayRecord, start: int, age: nat, n: nat, all: nat)
    requires Burst(env, known, rec, late, start, age, all) && Filled(s, rec, start, age, n) && n <= all
    ensures n < all ==> ReplayKey(rec(n)) !in s.mem.entries
    ensures ReplayKey(late) !in s.mem.entries
  {
    hide ReplayKey, Serving, Storable, Journals;
  }

  lemma FillGrows(env: Env, known: set<ReplayRecord>, rules: Rules, s: Sys, rec: nat -> ReplayRecord, late: ReplayRecord, start: int, age: nat, n: nat, all: nat)
    returns (s': Sys)
    requires Burst(env, known, rec, late, start, age, all) && n < all <= MAX_REPLAY_ENTRIES
    requires Reachable(env, known, rules, s) && Filled(s, rec, start, age, n)
    ensures Reachable(env, known, rules, s') && Filled(s', rec, start, age, n + 1)
  {
    SignedInTime(start, age);
    FillIsNew(env, known, s, rec, late, start, age, n, all);
    FillDecides(s.mem, rec(n), s.clock);
    assert EncodeReplayRecord(env.wire, rec(n)).Some? && rec(n) in known && rec(n).expiresAt == start + age;
    var id := Journal(env, s.mem, rec(n));
    assert id in s.disk.files ==> s.disk.files[id].torn == [];
    hide Burst, ReplayKey, Cutoff, InTime, DecideReplay, Reachable, AfterSyncedWrite, EncodeReplayRecord, ShardFor, Serving, Journals;
    s' := RoundReaches(env, known, rules, s, rec(n), start, s.clock, AppendSynced);
    JournalsMore(env, s.disk.files, id, rec, n);
    FilledMore(s, s', rec, start, age, n);
  }

  lemma {:induction false} FillReaches(env: Env, known: set<ReplayRecord>, rules: Rules, rec: nat -> ReplayRecord, late: ReplayRecord, start: int, age: nat, n: nat, all: nat)
    returns (s: Sys)
    requires Burst(env, known, rec, late, start, age, all) && n <= all <= MAX_REPLAY_ENTRIES
    ensures Reachable(env, known, rules, s) && Filled(s, rec, start, age, n)
  {
    hide Reachable, Filled, Served, Burst;
    if n == 0 {
      s := Served(start * MILLI);
      ServedIsReachable(env, known, rules, start * MILLI);
      FillStarts(rec, start, age);
    } else {
      var s0 := FillReaches(env, known, rules, rec, late, start, age, n - 1, all);
      s := FillGrows(env, known, rules, s0, rec, late, start, age, n - 1, all);
    }
  }
}
