/**
 The replay ledger and its durable form: the in-memory ledger, the sharded
 journals, the snapshot, and the critical sections that change them. Each I/O
 outcome is a parameter; what a power loss may undo is part of the disk state.
 */
module ReplayStore {
  import opened Bytes
  import opened JournalCodec

  const REPLAY_SHARDS := 8
  const CLOCK_SKEW := 5_000_000_000       // nanoseconds
  const MAX_REQUEST_AGE := 30_000_000_000 // nanoseconds
  const MILLI := 1_000_000

  /** JSON, CRC-32C and the FNV hash of a key id. */
  datatype Env = Env(wire: Wire, hash: string -> nat)

  function ShardFor(env: Env, keyId: string): nat {
    env.hash(keyId) % REPLAY_SHARDS
  }

  // ---- time -------------------------------------------------------------------

  /** now.Add(-clockSkew).UnixMilli(): entries that expire earlier may be dropped. */
  function Cutoff(now: int): int {
    (now - CLOCK_SKEW) / MILLI
  }

  /** Verify's first expiry test, on the clock's own resolution. */
  predicate Expired(expiresAt: int, now: int) {
    expiresAt * MILLI < now - CLOCK_SKEW
  }

  /** The times Verify admits. */
  predicate InTime(issuedAt: int, expiresAt: int, now: int) {
    && !Expired(expiresAt, now)
    && issuedAt * MILLI <= now + CLOCK_SKEW
    && issuedAt <= expiresAt
    && (expiresAt - issuedAt) * MILLI <= MAX_REQUEST_AGE
  }

  /** What a prune at now drops would fail the expiry test at now and ever after. */
  lemma DroppedWouldExpire(expiresAt: int, now: int, later: int)
    requires expiresAt < Cutoff(now) && now <= later
    ensures Expired(expiresAt, later) && Cutoff(now) <= Cutoff(later)
  {
    var x, y := now - CLOCK_SKEW, later - CLOCK_SKEW;
    assert x / MILLI * MILLI <= x;
    assert y == y / MILLI * MILLI + y % MILLI && x == x / MILLI * MILLI + x % MILLI;
  }

  // ---- state ------------------------------------------------------------------

  /** Whole frames, how many of them a returned sync covers, and the bytes of a failed write after them. */
  datatype File = File(recs: seq<ReplayRecord>, synced: nat, torn: bytes)

  datatype FileId = FileId(gen: nat, shard: nat)

  /**
   snapshot is durable; renamed is a newer replay.json whose directory sync has not
   returned; unlinked are removed journals whose removal is not yet durable.
   */
  datatype Disk = Disk(
    snapshot: Ledger, renamed: Option<Ledger>, files: map<FileId, File>, unlinked: map<FileId, File>)

  datatype Mem = Mem(entries: Ledger, gen: nat, installed: bool, closed: bool, records: int)

  function Visible(d: Disk): Ledger {
    if d.renamed.Some? then d.renamed.value else d.snapshot
  }

  /** A directory sync returned: every rename and removal so far is durable. */
  function Synced(d: Disk): Disk {
    d.(snapshot := Visible(d), renamed := None, unlinked := map[])
  }

  function Content(env: Env, f: File): bytes {
    Frames(env.wire, f.recs) + f.torn
  }

  function Unexpired(entries: Ledger, cutoff: int): Ledger {
    map k | k in entries && entries[k].expiresAt >= cutoff :: entries[k]
  }

  // ---- acceptReplay: the decision ----------------------------------------------

  datatype Decision = Consumed | DeniedReplay | DeniedCapacity

  function Pruned(m: Mem, now: int): Ledger {
    if |m.entries| >= MAX_REPLAY_ENTRIES then Unexpired(m.entries, Cutoff(now)) else m.entries
  }

  function DecideReplay(m: Mem, rec: ReplayRecord, now: int): (Mem, Decision) {
    var key := ReplayKey(rec);
    if key in m.entries then (m, DeniedReplay)
    else
      var kept := Pruned(m, now);
      if |kept| >= MAX_REPLAY_ENTRIES || m.records >= REPLAY_JOURNAL_LIMIT then (m.(entries := kept), DeniedCapacity)
      else (m.(entries := kept[key := rec]), Consumed)
  }

  // ---- append -------------------------------------------------------------------

  /** How the write and the sync went; written counts the bytes that reached the file. */
  datatype AppendIO = AppendSynced | WriteFailed(written: nat)

  datatype AppendResult = Appended | AppendTooLarge | AppendUnavailable | AppendFailed

  function Journal(env: Env, m: Mem, rec: ReplayRecord): FileId {
    FileId(m.gen, ShardFor(env, rec.keyId))
  }

  /** The file after the first written bytes of rec's frame reached it; behind torn bytes no frame can be read. */
  function AfterWrite(env: Env, f: File, rec: ReplayRecord, written: nat): File {
    var frame := Frame(env.wire, rec);
    if f.torn == [] && written >= |frame| then f.(recs := f.recs + [rec])
    else f.(torn := f.torn + (if written >= |frame| then frame else frame[..written]))
  }

  /** A write whose sync returned. */
  function AfterSyncedWrite(env: Env, f: File, rec: ReplayRecord): File {
    var g := AfterWrite(env, f, rec, |Frame(env.wire, rec)|);
    g.(synced := |g.recs|)
  }

  lemma {:induction false} FramesOfLast(w: Wire, rs: seq<ReplayRecord>, r: ReplayRecord)
    ensures Frames(w, rs + [r]) == Frames(w, rs) + Frame(w, r)
  {
    if rs == [] {
      assert [r][1..] == [] && rs + [r] == [r];
    } else {
      assert (rs + [r])[1..] == rs[1..] + [r];
      FramesOfLast(w, rs[1..], r);
    }
  }

  /** A write adds to the file exactly the bytes of the frame that reached it, whether or not they can be read back. */
  lemma WriteAppendsBytes(env: Env, f: File, rec: ReplayRecord, written: nat)
    ensures var frame := Frame(env.wire, rec);
            Content(env, AfterWrite(env, f, rec, written)) == Content(env, f) + (if written >= |frame| then frame else frame[..written])
    ensures Content(env, AfterSyncedWrite(env, f, rec)) == Content(env, f) + Frame(env.wire, rec)
  {
    hide Frame;
    FramesOfLast(env.wire, f.recs, rec);
  }

  function AppendRecord(env: Env, m: Mem, d: Disk, rec: ReplayRecord, io: AppendIO): (Mem, Disk, AppendResult) {
    var id := Journal(env, m, rec);
    if EncodeReplayRecord(env.wire, rec).None? then (m, d, AppendTooLarge)
    else if !m.installed || id !in d.files then (m, d, AppendUnavailable)
    else
      var f := d.files[id];
      match io
      case WriteFailed(written) =>
        (m, d.(files := d.files[id := AfterWrite(env, f, rec, written)]), AppendFailed)
      case AppendSynced =>
        (m.(records := m.records + 1), d.(files := d.files[id := AfterSyncedWrite(env, f, rec)]), Appended)
  }

  // ---- rotation and compaction ----------------------------------------------------

  /** createShards: every shard and the directory sync, or the first few empty files only. */
  datatype CreateIO = CreateSynced | CreateFailed(created: nat)

  function EmptyShards(gen: nat, n: nat): (files: map<FileId, File>)
    ensures forall id :: id in files <==> id.gen == gen && id.shard < n
    ensures forall id :: id in files ==> files[id] == File([], 0, [])
  {
    if n == 0 then map[] else EmptyShards(gen, n - 1)[FileId(gen, n - 1) := File([], 0, [])]
  }

  function CreateShards(m: Mem, d: Disk, io: CreateIO): (Mem, Disk) {
    match io
    case CreateSynced =>
      (m.(installed := true), Synced(d.(files := d.files + EmptyShards(m.gen, REPLAY_SHARDS))))
    case CreateFailed(created) =>
      var n := if created <= REPLAY_SHARDS then created else REPLAY_SHARDS;
      (m.(installed := false), d.(files := d.files + EmptyShards(m.gen, n)))
  }

  /** The part of compactReplay under every lock; a closed journal is left alone. */
  function Rotate(m: Mem, d: Disk, io: CreateIO): (Mem, Disk) {
    if m.closed then (m, d) else CreateShards(m.(gen := m.gen + 1), d, io)
  }

  /** atomicJSONCommit: not renamed, renamed without the directory sync, or durable. */
  datatype CommitIO = NotRenamed | RenamedOnly | CommitDurable

  function CommitSnapshot(d: Disk, snapshot: Ledger, io: CommitIO): Disk {
    match io
    case NotRenamed => d
    case RenamedOnly => d.(renamed := Some(snapshot))
    case CommitDurable => Synced(d.(renamed := Some(snapshot)))
  }

  function Unlink(d: Disk, id: FileId): Disk {
    if id in d.files then d.(files := d.files - {id}, unlinked := d.unlinked[id := d.files[id]]) else d
  }

  // ---- recovery -------------------------------------------------------------------

  /** The journals read one after another into the snapshot; None when one is too large or corrupt. */
  function LoadFiles(env: Env, d: Disk, order: seq<FileId>): Option<Ledger> {
    if order == [] then Some(Visible(d))
    else
      var before := LoadFiles(env, d, order[..|order| - 1]);
      var id := order[|order| - 1];
      if before.None? || id !in d.files then None
      else
        var data := Content(env, d.files[id]);
        var p := Parse(env.wire, data);
        if |data| <= MAX_JOURNAL_BYTES && p.ok then Some(Load(before.value, p.recs)) else None
  }

  ghost predicate Lists(order: seq<FileId>, d: Disk) {
    forall id :: id in order <==> id in d.files
  }
}
