/**
 FileAuthority's registry writers as the code runs them under writeMu: each method
 is proved to do exactly what its operation does in Authority.Apply.
 */
module RegistryWriters {
  import opened Bytes
  import opened Registry
  import opened Authority

  /** subjectWasIssuedLocked */
  method SubjectWasIssued(r: Reg, s: Subject) returns (issued: bool)
    ensures issued <==> WasIssued(r, s)
  {
    var todo := r.records.Keys;
    while todo != {}
      invariant todo <= r.records.Keys
      invariant forall k :: k in r.records && k !in todo ==> r.records[k].subject != s
      decreases |todo|
    {
      var k :| k in todo;
      if r.records[k].subject == s {
        return true;
      }
      todo := todo - {k};
    }
    return false;
  }

  /**
   lastRecordLocked: a map scan in whatever order, keeping the newest record. It fails
   only on a registry that keys a record wrongly or gives a generation two keys.
   */
  method LastRecordLocked(r: Reg, s: Subject) returns (last: Result<CredentialRecord>)
    ensures last.Ok? ==> last.value.keyId in r.records && r.records[last.value.keyId] == last.value && IsLast(r, s, last.value.keyId)
    ensures last == Err(ErrNotProvisioned) <==> !WasIssued(r, s)
    ensures last.Err? && last.error != ErrNotProvisioned ==> !WellFormed(r) || !OneKeyPerGeneration(r)
  {
    var todo := r.records.Keys;
    var found := false;
    var best := CredentialRecord("", s, 0, 0, 0, 0);
    while todo != {}
      invariant todo <= r.records.Keys
      invariant !found ==> forall k :: k in r.records && k !in todo ==> r.records[k].subject != s
      invariant found ==> OfSubject(r, s, best.keyId) && r.records[best.keyId] == best
      invariant found ==> forall k :: k !in todo && OfSubject(r, s, k) ==> r.records[k].generation <= best.generation
      decreases |todo|
    {
      var k :| k in todo;
      todo := todo - {k};
      var rec := r.records[k];
      if rec.subject == s {
        assert OfSubject(r, s, k);
        if rec.keyId != k {
          return Err(ErrInvalidCredential);
        }
        if !found || rec.generation > best.generation {
          best, found := rec, true;
        } else if rec.generation == best.generation && rec.keyId != best.keyId {
          return Err(ErrInvalidCredential);
        }
      }
    }
    return if found then Ok(best) else Err(ErrNotProvisioned);
  }

  class FileAuthority {
    var versions: seq<Reg>
    var dirs: map<Subject, seq<CredDir>>

    function State(): Auth
      reads this
    {
      Auth(versions, dirs)
    }

    ghost predicate Valid()
      reads this
    {
      RegistriesOk(State())
    }

    method Issue(s: Subject, oldKey: string, newKey: string, now: int, io: IssueIO) returns (result: Result<()>)
      requires versions != []
      modifies this
      ensures (State(), result) == IssueLocked(old(State()), s, oldKey, newKey, now, io)
    {
      hide Issued;
      var next := Issued(versions[|versions| - 1], s, oldKey, newKey, now);
      if next.Err? {
        return Err(next.error);
      }
      if io == StageFails {
        return Err(ErrIO);
      }
      // stage the key in the subject's directory
      var before := DirVersions(State(), s);
      var top := Top(before);
      var staged := top.(staged := top.staged[newKey := CredentialFor(next.value.records[newKey])]);
      if io == StageUnsynced {
        dirs := dirs[s := before + [staged, top]];
        return Err(ErrIO);
      }
      dirs := dirs[s := [staged]];
      if io == TooLarge || io == CommitFails {
        assert dirs[s := [staged, top]] == old(dirs)[s := [staged, top]];
        dirs := dirs[s := [staged, top]];
        return Err(ErrIO);
      }
      // commit the registry
      if io == CommitUnsynced {
        versions := versions + [next.value];
        return Err(ErrIO);
      }
      versions := [next.value];
      if io == PublishFails {
        return Err(ErrIO);
      }
      // publish the credential
      if io == PublishUnsynced {
        assert dirs[s := [staged, Renamed(staged, newKey)]] == old(dirs)[s := [staged, Renamed(staged, newKey)]];
        dirs := dirs[s := [staged, Renamed(staged, newKey)]];
        return Err(ErrIO);
      }
      assert dirs[s := [Renamed(staged, newKey)]] == old(dirs)[s := [Renamed(staged, newKey)]];
      dirs := dirs[s := [Renamed(staged, newKey)]];
      return Ok(());
    }

    method Ensure(s: Subject, newKey: string, now: int, io: IssueIO, rio: RenameIO) returns (result: Result<()>)
      requires versions != []
      modifies this
      ensures (State(), result) == Apply(old(State()), Op.Ensure(s, newKey, io, rio), now)
    {
      hide IssueLocked, CurrentRecord, EnsurePublished;
      if !ValidSubject(s) {
        return Err(ErrInvalidSubject);
      }
      var r := Memory(State());
      if CurrentKey(r, s) == "" {
        var issued := SubjectWasIssued(r, s);
        if issued {
          return Err(ErrRevoked);
        }
        result := Issue(s, "", newKey, now, io);
      } else {
        var rec := CurrentRecord(r, s, now);
        if rec.Err? {
          return Err(rec.error);
        }
        result := Publish(rec.value, rio);
      }
    }

    /** ensureCredentialPublished tries `current`, then the staged file. */
    method Publish(rec: CredentialRecord, io: RenameIO) returns (result: Result<()>)
      modifies `dirs
      ensures (State(), result) == EnsurePublished(old(State()), rec, io)
      ensures result.Ok? ==> InCurrent(Top(DirVersions(State(), rec.subject)), rec)
      ensures result == Err(ErrInvalidCredential) <==> !HasCredential(Top(old(DirVersions(State(), rec.subject))), rec)
      ensures HasCredential(Top(old(DirVersions(State(), rec.subject))), rec) <==> HasCredential(Top(DirVersions(State(), rec.subject)), rec)
      ensures forall t :: t != rec.subject ==> DirVersions(State(), t) == old(DirVersions(State(), t))
    {
      var before := DirVersions(State(), rec.subject);
      var top := Top(before);
      if top.current.Some? && Matches(top.current.value, rec) {
        return Ok(());
      }
      if rec.keyId in top.staged && Matches(top.staged[rec.keyId], rec) {
        match io
        case RenameFails => return Err(ErrIO);
        case RenameUnsynced =>
          dirs := dirs[rec.subject := before + [Renamed(top, rec.keyId)]];
          return Err(ErrIO);
        case RenameDone =>
          dirs := dirs[rec.subject := [Renamed(top, rec.keyId)]];
          return Ok(());
      }
      return Err(ErrInvalidCredential);
    }

    method Rotate(s: Subject, newKey: string, now: int, io: IssueIO) returns (result: Result<()>)
      requires versions != []
      modifies this
      ensures (State(), result) == Apply(old(State()), Op.Rotate(s, newKey, io), now)
      ensures result.Ok? && old(Valid()) && now != 0 && FreshKey(old(State()), Op.Rotate(s, newKey, io)) ==>
                && RevokedEverywhere(State(), old(CurrentKey(Memory(State()), s)))
                && |versions| == 1 && CurrentKey(Memory(State()), s) == newKey != old(CurrentKey(Memory(State()), s))
    {
      hide IssueLocked, CurrentRecord;
      if !ValidSubject(s) {
        return Err(ErrInvalidSubject);
      }
      var rec := CurrentRecord(Memory(State()), s, now);
      if rec.Err? {
        return Err(rec.error);
      }
      result := Issue(s, rec.value.keyId, newKey, now, io);
      if result.Ok? && old(Valid()) && now != 0 && FreshKey(old(State()), Op.Rotate(s, newKey, io)) {
        RotationSupersedes(old(State()), s, newKey, now, io);
      }
    }

    method Regrant(s: Subject, expected: nat, newKey: string, now: int, io: IssueIO) returns (result: Result<()>)
      requires Valid()
      modifies this
      ensures (State(), result) == Apply(old(State()), Op.Regrant(s, expected, newKey, io), now)
    {
      hide IssueLocked, NoGaps, OlderRevoked, CurrentIsLive;
      if !ValidSubject(s) {
        return Err(ErrInvalidSubject);
      }
      var r := Memory(State());
      if expected == 0 || CurrentKey(r, s) != "" {
        return Err(ErrGenerationChanged);
      }
      var last := LastRecordLocked(r, s);
      LastIsUnique(r, s, last);
      if last.Err? {
        return Err(last.error);
      }
      if last.value.revokedAt == 0 || last.value.generation != expected {
        return Err(ErrGenerationChanged);
      }
      result := Issue(s, last.value.keyId, newKey, now, io);
    }

    method Revoke(s: Subject, expectedKey: string, now: int, io: CommitIO) returns (result: Result<()>)
      requires versions != []
      modifies `versions
      ensures (State(), result) == RevokeLocked(old(State()), s, expectedKey, now, io)
      ensures result.Ok? && old(Valid()) && old(CurrentKey(Memory(State()), s)) != "" ==> NoCurrentAnywhere(State(), s)
      ensures result.Ok? && expectedKey != "" ==> old(CurrentKey(Memory(State()), s)) == expectedKey
      ensures versions != [] && forall t :: t != s ==> CurrentKey(Memory(State()), t) == old(CurrentKey(Memory(State()), t))
    {
      hide Withdrawn;
      var r := Memory(State());
      var k := CurrentKey(r, s);
      if k == "" {
        return if expectedKey != "" then Err(ErrGenerationChanged) else Ok(());
      }
      if expectedKey != "" && k != expectedKey {
        return Err(ErrGenerationChanged);
      }
      if k !in r.records || r.records[k].subject != s {
        return Err(ErrInvalidCredential);
      }
      WithdrawnLeaves(r, s, now);
      match io
      case NotCommitted => return Err(ErrIO);
      case CommittedUnsynced =>
        versions := versions + [Withdrawn(r, s, now)];
        return Err(ErrIO);
      case CommittedDurable =>
        versions := [Withdrawn(r, s, now)];
        return Ok(());
    }
  }

  /** Revoking one subject's key leaves the others theirs. */
  lemma WithdrawnLeaves(r: Reg, s: Subject, now: int)
    requires s in r.current && r.current[s] in r.records
    ensures s !in Withdrawn(r, s, now).current
    ensures forall t :: t != s ==> CurrentKey(Withdrawn(r, s, now), t) == CurrentKey(r, t)
  {
  }

  /** What a rotation that succeeded leaves: one registry, the new key current in it, the old one revoked. */
  lemma RotationSupersedes(a: Auth, s: Subject, newKey: string, now: int, io: IssueIO)
    requires RegistriesOk(a) && now != 0 && FreshKey(a, Op.Rotate(s, newKey, io)) && Apply(a, Op.Rotate(s, newKey, io), now).1.Ok?
    ensures var a' := Apply(a, Op.Rotate(s, newKey, io), now).0;
            && RevokedEverywhere(a', CurrentKey(Memory(a), s))
            && |a'.versions| == 1 && CurrentKey(Memory(a'), s) == newKey != CurrentKey(Memory(a), s)
  {
    hide NoGaps, OneKeyPerGeneration, OlderRevoked;
    IssuesFromLast(Memory(a), s, now);
    SuccessRevokesEverywhere(a, Op.Rotate(s, newKey, io), now);
    assert Memory(a) in a.versions;
  }

  lemma SameLast(r: Reg, s: Subject, j: string, k: string)
    requires OneKeyPerGeneration(r) && IsLast(r, s, j) && IsLast(r, s, k)
    ensures j == k
  {
    assert OfSubject(r, s, j) && OfSubject(r, s, k);
  }

  /** On a well-kept registry the scan's answer is the newest record, whatever the order. */
  lemma LastIsUnique(r: Reg, s: Subject, last: Result<CredentialRecord>)
    requires WellFormed(r) && OneKeyPerGeneration(r)
    requires last.Ok? ==> last.value.keyId in r.records && r.records[last.value.keyId] == last.value && IsLast(r, s, last.value.keyId)
    requires last == Err(ErrNotProvisioned) <==> !WasIssued(r, s)
    requires last.Err? ==> last.error == ErrNotProvisioned
    ensures LastRecord(r, s) == if last.Ok? then Some(last.value) else None
  {
    if last.Ok? {
      assert IsLast(r, s, last.value.keyId);
      LastIsOf(r, s);
      var k :| IsLast(r, s, k) && LastRecord(r, s) == Some(r.records[k]);
      SameLast(r, s, k, last.value.keyId);
    } else {
      assert forall k :: !OfSubject(r, s, k);
    }
  }
}
