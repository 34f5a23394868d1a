/**
 The replay half of FileAuthority as the code runs it: each method is one critical
 section, proved against the step of ReplayStore the protocol interleaves.
 */
module ReplayLedger {
  import opened Bytes
  import opened JournalCodec
  import opened ReplayStore

  /** The journal id grew by exactly b; nothing else on the disk changed. */
  ghost predicate WroteBytes(env: Env, before: Disk, after: Disk, id: FileId, b: bytes) {
    && id in before.files && id in after.files
    && after == before.(files := before.files[id := after.files[id]])
    && Content(env, after.files[id]) == Content(env, before.files[id]) + b
  }

  class FileAuthority {
    var entries: Ledger
    var gen: nat
    var installed: bool
    var closed: bool
    var records: int
    var disk: Disk

    function State(): Mem
      reads this
    {
      Mem(entries, gen, installed, closed, records)
    }

    /** The decision of acceptReplay, under replayMu; a full ledger is pruned entry by entry. */
    method Decide(rec: ReplayRecord, now: int) returns (decision: Decision)
      modifies this
      ensures (State(), decision) == DecideReplay(old(State()), rec, now)
      ensures disk == old(disk)
    {
      var key := ReplayKey(rec);
      if key in entries {
        return DeniedReplay;
      }
      if |entries| >= MAX_REPLAY_ENTRIES {
        var cutoff := Cutoff(now);
        ghost var before := entries;
        var todo := entries.Keys;
        while todo != {}
          invariant todo <= before.Keys && todo <= entries.Keys <= before.Keys
          invariant forall k :: k in entries ==> entries[k] == before[k]
          invariant forall k :: k in before && k !in todo ==> (k in entries <==> before[k].expiresAt >= cutoff)
          invariant Mem(before, gen, installed, closed, records) == old(State()) && disk == old(disk)
          decreases |todo|
        {
          var k :| k in todo;
          todo := todo - {k};
          if entries[k].expiresAt < cutoff {
            entries := entries - {k};
          }
        }
        assert entries == Unexpired(before, cutoff);
      }
      if |entries| >= MAX_REPLAY_ENTRIES || records >= REPLAY_JOURNAL_LIMIT {
        return DeniedCapacity;
      }
      entries := entries[key := rec];
      return Consumed;
    }

    /** unexpiredReplay: a copy of the ledger without entries no request could still match. */
    method UnexpiredReplay(now: int) returns (out: Ledger)
      ensures out == Unexpired(entries, Cutoff(now))
    {
      out := map[];
      var todo := entries.Keys;
      while todo != {}
        invariant todo <= entries.Keys
        invariant forall k :: k in out <==> k in entries && k !in todo && entries[k].expiresAt >= Cutoff(now)
        invariant forall k :: k in out ==> out[k] == entries[k]
        decreases |todo|
      {
        var k :| k in todo;
        todo := todo - {k};
        if entries[k].expiresAt >= Cutoff(now) {
          out := out[k := entries[k]];
        }
      }
    }

    /** append, under its shard's lock. */
    method Append(env: Env, rec: ReplayRecord, io: AppendIO) returns (result: AppendResult)
      modifies this
      ensures (State(), disk, result) == AppendRecord(env, old(State()), old(disk), rec, io)
      ensures result.Appended? ==> WroteBytes(env, old(disk), disk, Journal(env, old(State()), rec), Frame(env.wire, rec))
      ensures result.AppendFailed? ==> exists n :: 0 <= n <= |Frame(env.wire, rec)| && WroteBytes(env, old(disk), disk, Journal(env, old(State()), rec), Frame(env.wire, rec)[..n])
      ensures result.AppendTooLarge? || result.AppendUnavailable? ==> disk == old(disk)
      ensures result.AppendTooLarge? <==> |env.wire.marshal(rec)| > MAX_REPLAY_RECORD
    {
      hide Frame;
      var id := Journal(env, State(), rec);
      if EncodeReplayRecord(env.wire, rec).None? {
        return AppendTooLarge;
      }
      if !installed || id !in disk.files {
        return AppendUnavailable;
      }
      var f := disk.files[id];
      match io
      case WriteFailed(written) =>
        WriteAppendsBytes(env, f, rec, written);
        ghost var frame := Frame(env.wire, rec);
        ghost var n := if written >= |frame| then |frame| else written;
        assert frame[..|frame|] == frame && WroteBytes(env, disk, disk.(files := disk.files[id := AfterWrite(env, f, rec, written)]), id, frame[..n]);
        disk := disk.(files := disk.files[id := AfterWrite(env, f, rec, written)]);
        return AppendFailed;
      case AppendSynced =>
        WriteAppendsBytes(env, f, rec, |Frame(env.wire, rec)|);
        disk := disk.(files := disk.files[id := AfterSyncedWrite(env, f, rec)]);
        records := records + 1;
        return Appended;
    }

    /** The rotation at the start of compactReplay, with the ledger and every shard locked. */
    method BeginCompaction(now: int, io: CreateIO) returns (snapshot: Ledger, rotated: int, last: nat, ok: bool)
      modifies this
      ensures snapshot == Unexpired(old(entries), Cutoff(now)) && rotated == old(records) && last == old(gen)
      ensures ok <==> !old(closed) && io.CreateSynced?
      ensures (State(), disk) == Rotate(old(State()), old(disk), io)
    {
      snapshot := UnexpiredReplay(now);
      rotated, last, ok := records, gen, false;
      if !closed {
        installed := false;
        gen := gen + 1;
        match io
        case CreateSynced =>
          disk := Synced(disk.(files := disk.files + EmptyShards(gen, REPLAY_SHARDS)));
          installed, ok := true, true;
        case CreateFailed(created) =>
          var n := if created <= REPLAY_SHARDS then created else REPLAY_SHARDS;
          disk := disk.(files := disk.files + EmptyShards(gen, n));
      }
    }

    /** The removal loop of compactReplay; it stops at the first removal that fails. */
    method RemoveOld(listing: seq<FileId>, last: nat, failing: set<FileId>) returns (n: nat, ok: bool)
      modifies `disk
      ensures n <= |listing| && (ok <==> n == |listing|)
      ensures disk == RemovedOld(old(disk), listing[..n], last)
    {
      hide Unlink;
      n := 0;
      assert listing[..0] == [];
      while n < |listing|
        invariant n <= |listing|
        invariant disk == RemovedOld(old(disk), listing[..n], last)
      {
        var id := listing[n];
        assert listing[..n + 1][..n] == listing[..n];
        if id.gen <= last {
          if id in failing {
            return n, false;
          }
          disk := Unlink(disk, id);
        }
        n := n + 1;
      }
      return n, true;
    }

    /** The reading loop of recoverReplay, then the expiry filter. */
    method LoadJournals(env: Env, order: seq<FileId>, now: int) returns (ok: bool)
      requires forall id :: id in order ==> id in disk.files
      modifies `entries
      ensures ok <==> LoadFiles(env, disk, order).Some?
      ensures ok ==> entries == Unexpired(LoadFiles(env, disk, order).value, Cutoff(now))
    {
      hide Parse, Content, Load;
      entries := Visible(disk);
      var i := 0;
      assert order[..0] == [];
      while i < |order|
        invariant 0 <= i <= |order|
        invariant LoadFiles(env, disk, order[..i]) == Some(entries)
      {
        var id := order[i];
        var ledger, n, result := ReadJournal(env.wire, Content(env, disk.files[id]), entries);
        assert order[..i + 1][..i] == order[..i];
        if result != ReadOk {
          NoneStays(env, disk, order, i + 1);
          return false;
        }
        entries := ledger;
        i := i + 1;
      }
      assert order[..i] == order;
      entries := UnexpiredReplay(now);
      return true;
    }
  }

  function RemovedOld(d: Disk, ids: seq<FileId>, last: nat): Disk {
    if ids == [] then d
    else
      var before, id := RemovedOld(d, ids[..|ids| - 1], last), ids[|ids| - 1];
      if id.gen <= last then Unlink(before, id) else before
  }

  /** Removal takes exactly the listed journals of the rotated generations and nothing else. */
  lemma {:induction false} RemovesExactlyOld(d: Disk, ids: seq<FileId>, last: nat)
    ensures var d' := RemovedOld(d, ids, last);
            && d'.snapshot == d.snapshot && d'.renamed == d.renamed
            && (forall id :: id in d'.files <==> id in d.files && !(id in ids && id.gen <= last))
            && (forall id :: id in d'.files ==> d'.files[id] == d.files[id])
  {
    if ids != [] {
      var init, x := ids[..|ids| - 1], ids[|ids| - 1];
      RemovesExactlyOld(d, init, last);
      assert forall id :: id in ids <==> id in init || id == x;
    }
  }

  lemma {:induction false} NoneStays(env: Env, d: Disk, order: seq<FileId>, i: nat)
    requires i <= |order| && LoadFiles(env, d, order[..i]).None?
    ensures LoadFiles(env, d, order).None?
    decreases |order| - i
  {
    hide Parse, Content, Load;
    if i == |order| {
      assert order[..i] == order;
    } else {
      assert order[..i + 1][..i] == order[..i];
      NoneStays(env, d, order, i + 1);
    }
  }
}
