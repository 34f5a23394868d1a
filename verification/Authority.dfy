/**
 The registry writers of FileAuthority over memory, registry.json and the subjects'
 credential directories, with every failure and crash point of each.
 */
module Authority {
  import opened Bytes
  import opened Registry

  /** The private half as written to a subject's directory. */
  datatype Credential = Credential(keyId: string, subject: Subject, generation: nat, notAfter: int)

  /** A subject's directory: the `current` file and the staged `.current.<key>.next` files. */
  datatype CredDir = CredDir(current: Option<Credential>, staged: map<string, Credential>)

  /**
   versions are the registry.json contents a power loss could leave, the last one
   visible and equal to the registry in memory; dirs likewise per subject.
   */
  datatype Auth = Auth(versions: seq<Reg>, dirs: map<Subject, seq<CredDir>>)

  function Memory(a: Auth): Reg
    requires a.versions != []
  {
    a.versions[|a.versions| - 1]
  }

  function DirVersions(a: Auth, s: Subject): seq<CredDir> {
    if s in a.dirs then a.dirs[s] else [CredDir(None, map[])]
  }

  function Top(vs: seq<CredDir>): CredDir {
    if vs == [] then CredDir(None, map[]) else vs[|vs| - 1]
  }

  /** validatePublishedCredential, without the key-pair and issuer comparisons. */
  predicate Matches(c: Credential, rec: CredentialRecord) {
    c == Credential(rec.keyId, rec.subject, rec.generation, rec.notAfter)
  }

  function CredentialFor(rec: CredentialRecord): Credential {
    Credential(rec.keyId, rec.subject, rec.generation, rec.notAfter)
  }

  predicate InCurrent(d: CredDir, rec: CredentialRecord) {
    d.current.Some? && Matches(d.current.value, rec)
  }

  predicate InStaged(d: CredDir, rec: CredentialRecord) {
    rec.keyId in d.staged && Matches(d.staged[rec.keyId], rec)
  }

  function Renamed(d: CredDir, k: string): CredDir {
    if k in d.staged then CredDir(Some(d.staged[k]), d.staged - {k}) else d
  }

  // ---- operations --------------------------------------------------------------------

  /** How far issueLocked got. */
  datatype IssueIO =
    | StageFails | StageUnsynced | TooLarge | CommitFails | CommitUnsynced | PublishFails | PublishUnsynced | PublishDone

  function IssueLocked(a: Auth, s: Subject, oldKey: string, newKey: string, now: int, io: IssueIO): (Auth, Result<()>)
    requires a.versions != []
  {
    var next := Issued(Memory(a), s, oldKey, newKey, now);
    if next.Err? then (a, Err(next.error))
    else
      var reg := next.value;
      var vs := DirVersions(a, s);
      var top := Top(vs);
      var staged := top.(staged := top.staged[newKey := CredentialFor(reg.records[newKey])]);
      match io
      case StageFails => (a, Err(ErrIO))
      case StageUnsynced => (a.(dirs := a.dirs[s := vs + [staged, top]]), Err(ErrIO))
      case TooLarge => (a.(dirs := a.dirs[s := [staged, top]]), Err(ErrIO))
      case CommitFails => (a.(dirs := a.dirs[s := [staged, top]]), Err(ErrIO))
      case CommitUnsynced => (Auth(a.versions + [reg], a.dirs[s := [staged]]), Err(ErrIO))
      case PublishFails => (Auth([reg], a.dirs[s := [staged]]), Err(ErrIO))
      case PublishUnsynced => (Auth([reg], a.dirs[s := [staged, Renamed(staged, newKey)]]), Err(ErrIO))
      case PublishDone => (Auth([reg], a.dirs[s := [Renamed(staged, newKey)]]), Ok(()))
  }

  datatype RenameIO = RenameFails | RenameUnsynced | RenameDone

  /** ensureCredentialPublished: `current` already matches, or the staged file is renamed over it. */
  function EnsurePublished(a: Auth, rec: CredentialRecord, io: RenameIO): (Auth, Result<()>) {
    var vs := DirVersions(a, rec.subject);
    var top := Top(vs);
    if InCurrent(top, rec) then (a, Ok(()))
    else if !InStaged(top, rec) then (a, Err(ErrInvalidCredential))
    else
      var renamed := Renamed(top, rec.keyId);
      match io
      case RenameFails => (a, Err(ErrIO))
      case RenameUnsynced => (a.(dirs := a.dirs[rec.subject := vs + [renamed]]), Err(ErrIO))
      case RenameDone => (a.(dirs := a.dirs[rec.subject := [renamed]]), Ok(()))
  }

  datatype CommitIO = NotCommitted | CommittedUnsynced | CommittedDurable

  /** revokeLocked; expectedKey "" revokes whatever is current. */
  function RevokeLocked(a: Auth, s: Subject, expectedKey: string, now: int, io: CommitIO): (Auth, Result<()>)
    requires a.versions != []
  {
    var r := Memory(a);
    var k := CurrentKey(r, s);
    if k == "" then (a, if expectedKey != "" then Err(ErrGenerationChanged) else Ok(()))
    else if expectedKey != "" && k != expectedKey then (a, Err(ErrGenerationChanged))
    else if k !in r.records || r.records[k].subject != s then (a, Err(ErrInvalidCredential))
    else match io
      case NotCommitted => (a, Err(ErrIO))
      case CommittedUnsynced => (a.(versions := a.versions + [Withdrawn(r, s, now)]), Err(ErrIO))
      case CommittedDurable => (a.(versions := [Withdrawn(r, s, now)]), Ok(()))
  }

  datatype Op =
    | Ensure(s: Subject, newKey: string, issueIO: IssueIO, renameIO: RenameIO)
    | Current(s: Subject, renameIO: RenameIO)
    | Rotate(s: Subject, newKey: string, issueIO: IssueIO)
    | Regrant(s: Subject, expectedGeneration: nat, newKey: string, issueIO: IssueIO)
    | RenewExpired(s: Subject, expectedKey: string, newKey: string, issueIO: IssueIO)
    | Revoke(s: Subject, commitIO: CommitIO)
    | RevokeCurrent(s: Subject, key: string, generation: nat, commitIO: CommitIO)
    | Crash(registry: nat, directory: Subject -> nat)

  ghost function LastRecord(r: Reg, s: Subject): Option<CredentialRecord> {
    if exists k :: IsLast(r, s, k) then
      var k :| IsLast(r, s, k);
      Some(r.records[k])
    else None
  }

  /** One operation at clock reading now (milliseconds). */
  ghost function Apply(a: Auth, op: Op, now: int): (Auth, Result<()>)
    requires a.versions != []
  {
    var r := Memory(a);
    if !op.Crash? && !ValidSubject(op.s) then (a, Err(ErrInvalidSubject))
    else match op
      case Ensure(s, newKey, io, rio) =>
        if CurrentKey(r, s) == "" then
          if WasIssued(r, s) then (a, Err(ErrRevoked)) else IssueLocked(a, s, "", newKey, now, io)
        else
          var rec := CurrentRecord(r, s, now);
          if rec.Err? then (a, Err(rec.error)) else EnsurePublished(a, rec.value, rio)
      case Current(s, rio) =>
        var rec := CurrentRecord(r, s, now);
        if rec.Err? then (a, Err(rec.error)) else EnsurePublished(a, rec.value, rio)
      case Rotate(s, newKey, io) =>
        var rec := CurrentRecord(r, s, now);
        if rec.Err? then (a, Err(rec.error)) else IssueLocked(a, s, rec.value.keyId, newKey, now, io)
      case Regrant(s, expected, newKey, io) =>
        if expected == 0 || CurrentKey(r, s) != "" then (a, Err(ErrGenerationChanged))
        else
          var last := LastRecord(r, s);
          if last.None? then (a, Err(ErrNotProvisioned))
          else if last.value.revokedAt == 0 || last.value.generation != expected then (a, Err(ErrGenerationChanged))
          else IssueLocked(a, s, last.value.keyId, newKey, now, io)
      case RenewExpired(s, expectedKey, newKey, io) =>
        var k := CurrentKey(r, s);
        if expectedKey == "" then (a, Err(ErrGenerationChanged))
        else if k == "" then (a, Err(if WasIssued(r, s) then ErrRevoked else ErrNotProvisioned))
        else if k != expectedKey then (a, Err(ErrGenerationChanged))
        else if k !in r.records || r.records[k].keyId != k || r.records[k].subject != s then (a, Err(ErrInvalidCredential))
        else if r.records[k].revokedAt != 0 then (a, Err(ErrRevoked))
        else if r.records[k].notAfter > now then (a, Err(ErrGenerationChanged))
        else IssueLocked(a, s, k, newKey, now, io)
      case Revoke(s, io) => RevokeLocked(a, s, "", now, io)
      case RevokeCurrent(s, key, generation, io) =>
        var k := CurrentKey(r, s);
        if k == "" || k != key || k !in r.records || r.records[k].generation != generation || r.records[k].subject != s then
          (a, Err(ErrGenerationChanged))
        else RevokeLocked(a, s, k, now, io)
      case Crash(pick, directory) =>
        (Auth([a.versions[pick % |a.versions|]],
              map s | s in a.dirs :: if a.dirs[s] == [] then [] else [a.dirs[s][directory(s) % |a.dirs[s]|]]),
         Ok(()))
  }

  /** A new key's id is not one any registry on disk has seen. */
  ghost predicate FreshKey(a: Auth, op: Op) {
    (op.Ensure? || op.Rotate? || op.Regrant? || op.RenewExpired?) ==>
      && op.newKey != ""
      && (forall i :: 0 <= i < |a.versions| ==> op.newKey !in a.versions[i].records)
      && (forall s, i :: s in a.dirs && 0 <= i < |a.dirs[s]| ==> op.newKey !in a.dirs[s][i].staged)
  }

  // ---- the registry over whole runs ---------------------------------------------------------

  ghost predicate RegistriesOk(a: Auth) {
    a.versions != [] && forall i :: 0 <= i < |a.versions| ==> RegOk(a.versions[i])
  }

  lemma LastIsOf(r: Reg, s: Subject)
    ensures LastRecord(r, s).Some? ==> exists k :: IsLast(r, s, k) && LastRecord(r, s) == Some(r.records[k])
  {
  }

  lemma CurrentIsLast(r: Reg, s: Subject)
    requires RegOk(r) && s in r.current
    ensures IsLast(r, s, r.current[s]) && r.current[s] != "" && r.records[r.current[s]].keyId == r.current[s]
  {
    hide NoGaps;
    assert OfSubject(r, s, r.current[s]);
  }

  /** Every key an operation hands issueLocked is the newest of its subject. */
  lemma IssuesFromLast(r: Reg, s: Subject, now: int)
    requires RegOk(r)
    ensures CurrentKey(r, s) != "" ==> s in r.current && IsLast(r, s, CurrentKey(r, s))
    ensures CurrentRecord(r, s, now).Ok? ==> CurrentRecord(r, s, now).value.keyId == CurrentKey(r, s) != ""
    ensures LastRecord(r, s).Some? ==> IsLast(r, s, LastRecord(r, s).value.keyId) && LastRecord(r, s).value.keyId != ""
  {
    hide NoGaps, OneKeyPerGeneration, OlderRevoked;
    if s in r.current {
      CurrentIsLast(r, s);
    }
    LastIsOf(r, s);
  }

  lemma IssueKeepsRegistries(a: Auth, s: Subject, oldKey: string, newKey: string, now: int, io: IssueIO)
    requires RegistriesOk(a) && now != 0 && newKey != "" && newKey !in Memory(a).records
    requires if oldKey == "" then !WasIssued(Memory(a), s) else IsLast(Memory(a), s, oldKey)
    ensures RegistriesOk(IssueLocked(a, s, oldKey, newKey, now, io).0)
  {
    hide RegOk, Issued, IsLast;
    if Issued(Memory(a), s, oldKey, newKey, now).Ok? {
      IssuedKeeps(Memory(a), s, oldKey, newKey, now);
    }
  }

  lemma RevokeKeepsRegistries(a: Auth, s: Subject, expectedKey: string, now: int, io: CommitIO)
    requires RegistriesOk(a) && now != 0
    ensures RegistriesOk(RevokeLocked(a, s, expectedKey, now, io).0)
  {
    hide RegOk;
    if s in Memory(a).current {
      WithdrawnKeeps(Memory(a), s, now);
    }
  }

  lemma ApplyKeepsRegistries(a: Auth, op: Op, now: int)
    requires RegistriesOk(a) && now != 0 && FreshKey(a, op)
    ensures RegistriesOk(Apply(a, op, now).0)
  {
    hide RegOk, IssueLocked, RevokeLocked, EnsurePublished, IsLast, CurrentRecord, LastRecord, Issued;
    var r := Memory(a);
    match op
    case Ensure(s, newKey, io, rio) =>
      IssuesFromLast(r, s, now);
      if !WasIssued(r, s) { IssueKeepsRegistries(a, s, "", newKey, now, io); }
      if CurrentRecord(r, s, now).Ok? { PublishKeepsVersions(a, CurrentRecord(r, s, now).value, rio); }
    case Current(s, rio) =>
      if CurrentRecord(r, s, now).Ok? { PublishKeepsVersions(a, CurrentRecord(r, s, now).value, rio); }
    case Rotate(s, newKey, io) =>
      IssuesFromLast(r, s, now);
      if CurrentRecord(r, s, now).Ok? { IssueKeepsRegistries(a, s, CurrentKey(r, s), newKey, now, io); }
    case Regrant(s, expected, newKey, io) =>
      IssuesFromLast(r, s, now);
      if LastRecord(r, s).Some? { IssueKeepsRegistries(a, s, LastRecord(r, s).value.keyId, newKey, now, io); }
    case RenewExpired(s, expectedKey, newKey, io) =>
      IssuesFromLast(r, s, now);
      if CurrentKey(r, s) != "" { IssueKeepsRegistries(a, s, CurrentKey(r, s), newKey, now, io); }
    case Revoke(s, io) => RevokeKeepsRegistries(a, s, "", now, io);
    case RevokeCurrent(s, key, generation, io) => RevokeKeepsRegistries(a, s, CurrentKey(r, s), now, io);
    case Crash(pick, directory) =>
  }

  lemma PublishKeepsVersions(a: Auth, rec: CredentialRecord, io: RenameIO)
    ensures EnsurePublished(a, rec, io).0.versions == a.versions
  {
  }

  datatype Event = Event(op: Op, now: int)

  ghost predicate Run(states: seq<Auth>, events: seq<Event>) {
    && |states| == |events| + 1 && RegistriesOk(states[0])
    && forall i :: 0 <= i < |events| ==>
         && states[i].versions != [] && events[i].now > 0 && FreshKey(states[i], events[i].op)
         && states[i + 1] == Apply(states[i], events[i].op, events[i].now).0
  }

  /** Every registry of every run, in memory and as any crash could leave it, has each subject's generations 1..n. */
  lemma {:induction false} EveryRegistryIsOk(states: seq<Auth>, events: seq<Event>, i: nat)
    requires Run(states, events) && i < |states|
    ensures RegistriesOk(states[i])
  {
    hide Apply, RegOk, FreshKey;
    if i > 0 {
      EveryRegistryIsOk(states, events, i - 1);
      ApplyKeepsRegistries(states[i - 1], events[i - 1].op, events[i - 1].now);
    }
  }

  // ---- revocation ---------------------------------------------------------------------------

  predicate RevokedIn(r: Reg, k: string) {
    k in r.records && r.records[k].revokedAt != 0
  }

  /** k is revoked in memory and in every registry.json a crash could leave. */
  ghost predicate RevokedEverywhere(a: Auth, k: string) {
    a.versions != [] && forall i :: 0 <= i < |a.versions| ==> RevokedIn(a.versions[i], k)
  }

  lemma IssuedKeepsRevoked(r: Reg, s: Subject, oldKey: string, newKey: string, now: int, k: string)
    requires Issued(r, s, oldKey, newKey, now).Ok? && newKey !in r.records && now != 0
    ensures RevokedIn(r, k) ==> RevokedIn(Issued(r, s, oldKey, newKey, now).value, k)
    ensures oldKey != "" ==> RevokedIn(Issued(r, s, oldKey, newKey, now).value, oldKey)
  {
  }

  lemma WithdrawnKeepsRevoked(r: Reg, s: Subject, now: int, k: string)
    requires s in r.current && r.current[s] in r.records && now != 0
    ensures RevokedIn(r, k) ==> RevokedIn(Withdrawn(r, s, now), k)
    ensures RevokedIn(Withdrawn(r, s, now), r.current[s])
  {
  }

  /** What issueLocked makes of the registries on disk. */
  lemma IssueVersions(a: Auth, s: Subject, oldKey: string, newKey: string, now: int, io: IssueIO)
    requires a.versions != []
    ensures var next := Issued(Memory(a), s, oldKey, newKey, now);
            var (a', result) := IssueLocked(a, s, oldKey, newKey, now, io);
            && (a'.versions == a.versions || (next.Ok? && (a'.versions == a.versions + [next.value] || a'.versions == [next.value])))
            && (result.Ok? ==> next.Ok? && a'.versions == [next.value])
  {
    hide Issued, Renamed;
  }

  lemma RevokeVersions(a: Auth, s: Subject, expectedKey: string, now: int, io: CommitIO)
    requires a.versions != []
    ensures var r := Memory(a);
            var (a', result) := RevokeLocked(a, s, expectedKey, now, io);
            && (a'.versions == a.versions
                || (s in r.current && r.current[s] in r.records
                    && (a'.versions == a.versions + [Withdrawn(r, s, now)] || a'.versions == [Withdrawn(r, s, now)])))
            && (result.Ok? && CurrentKey(r, s) != "" ==>
                  s in r.current && r.current[s] in r.records && a'.versions == [Withdrawn(r, s, now)])
  {
    hide Withdrawn;
  }

  ghost predicate Grows(a: Auth, a': Auth, r': Reg) {
    a'.versions == a.versions || a'.versions == a.versions + [r'] || a'.versions == [r']
  }

  lemma GrowsKeepsRevoked(a: Auth, a': Auth, r': Reg, k: string)
    requires RevokedEverywhere(a, k) && Grows(a, a', r') && (a'.versions != a.versions ==> RevokedIn(r', k))
    ensures RevokedEverywhere(a', k)
  {
  }

  lemma IssueKeepsRevoked(a: Auth, s: Subject, oldKey: string, newKey: string, now: int, io: IssueIO, k: string)
    requires RevokedEverywhere(a, k) && newKey !in Memory(a).records && now != 0
    ensures RevokedEverywhere(IssueLocked(a, s, oldKey, newKey, now, io).0, k)
  {
    hide IssueLocked, Issued, RevokedIn;
    IssueVersions(a, s, oldKey, newKey, now, io);
    var next := Issued(Memory(a), s, oldKey, newKey, now);
    var a' := IssueLocked(a, s, oldKey, newKey, now, io).0;
    if next.Ok? {
      IssuedKeepsRevoked(Memory(a), s, oldKey, newKey, now, k);
      GrowsKeepsRevoked(a, a', next.value, k);
    }
  }

  lemma RevokeKeepsRevoked(a: Auth, s: Subject, expectedKey: string, now: int, io: CommitIO, k: string)
    requires RevokedEverywhere(a, k) && now != 0
    ensures RevokedEverywhere(RevokeLocked(a, s, expectedKey, now, io).0, k)
  {
    hide RevokeLocked, RevokedIn, Withdrawn;
    RevokeVersions(a, s, expectedKey, now, io);
    var r, a' := Memory(a), RevokeLocked(a, s, expectedKey, now, io).0;
    if s in r.current && r.current[s] in r.records {
      WithdrawnKeepsRevoked(r, s, now, k);
      GrowsKeepsRevoked(a, a', Withdrawn(r, s, now), k);
    }
  }

  lemma ApplyKeepsRevoked(a: Auth, op: Op, now: int, k: string)
    requires RevokedEverywhere(a, k) && now != 0 && FreshKey(a, op)
    ensures RevokedEverywhere(Apply(a, op, now).0, k)
  {
    hide IssueLocked, RevokeLocked, EnsurePublished, IsLast, CurrentRecord, LastRecord, RevokedIn;
    var r := Memory(a);
    match op
    case Ensure(s, newKey, io, rio) =>
      IssueKeepsRevoked(a, s, "", newKey, now, io, k);
      if CurrentRecord(r, s, now).Ok? { PublishKeepsVersions(a, CurrentRecord(r, s, now).value, rio); }
    case Current(s, rio) =>
      if CurrentRecord(r, s, now).Ok? { PublishKeepsVersions(a, CurrentRecord(r, s, now).value, rio); }
    case Rotate(s, newKey, io) =>
      if CurrentRecord(r, s, now).Ok? { IssueKeepsRevoked(a, s, CurrentRecord(r, s, now).value.keyId, newKey, now, io, k); }
    case Regrant(s, expected, newKey, io) =>
      if LastRecord(r, s).Some? { IssueKeepsRevoked(a, s, LastRecord(r, s).value.keyId, newKey, now, io, k); }
    case RenewExpired(s, expectedKey, newKey, io) =>
      IssueKeepsRevoked(a, s, CurrentKey(r, s), newKey, now, io, k);
    case Revoke(s, io) => RevokeKeepsRevoked(a, s, "", now, io, k);
    case RevokeCurrent(s, key, generation, io) => RevokeKeepsRevoked(a, s, CurrentKey(r, s), now, io, k);
    case Crash(pick, directory) =>
  }

  /**
   A revocation, rotation or renewal that reported success is permanent: the key it
   took out of use is revoked in every registry any crash could bring back.
   */
  lemma SuccessRevokesEverywhere(a: Auth, op: Op, now: int)
    requires RegistriesOk(a) && now != 0 && FreshKey(a, op)
    requires op.Revoke? || op.RevokeCurrent? || op.Rotate? || op.RenewExpired?
    requires Apply(a, op, now).1.Ok? && CurrentKey(Memory(a), op.s) != ""
    ensures RevokedEverywhere(Apply(a, op, now).0, CurrentKey(Memory(a), op.s))
  {
    hide IssueLocked, RevokeLocked, IsLast, RegOk, CurrentRecord;
    var r, k := Memory(a), CurrentKey(Memory(a), op.s);
    IssuesFromLast(r, op.s, now);
    if op.Revoke? || op.RevokeCurrent? {
      var expected := if op.Revoke? then "" else k;
      RevokeVersions(a, op.s, expected, now, op.commitIO);
      WithdrawnKeepsRevoked(r, op.s, now, k);
    } else {
      IssueVersions(a, op.s, k, op.newKey, now, op.issueIO);
      IssuedKeepsRevoked(r, op.s, k, op.newKey, now, k);
    }
  }

  /** No registry a crash could leave gives s a current key. */
  ghost predicate NoCurrentAnywhere(a: Auth, s: Subject) {
    forall v :: v in a.versions ==> s !in v.current
  }

  /** An operation leaves the registries as they were, adds one whose sync failed, or leaves a single durable one. */
  lemma ApplyVersions(a: Auth, op: Op, now: int)
    requires a.versions != []
    ensures var vs := Apply(a, op, now).0.versions;
            vs == a.versions || |vs| == 1 || (|vs| == |a.versions| + 1 && vs[..|a.versions|] == a.versions)
  {
    hide Issued, Withdrawn, CurrentRecord, LastRecord, WasIssued, ValidSubject, EnsurePublished;
    if !op.Crash? && !op.Revoke? && !op.RevokeCurrent? {
      var rec := CurrentRecord(Memory(a), op.s, now);
      if (op.Ensure? || op.Current?) && rec.Ok? { PublishKeepsVersions(a, rec.value, op.renameIO); }
    }
  }

  /** s left the registry in memory in a commit that no synced commit and no crash has followed yet. */
  ghost predicate Loose(states: seq<Auth>, s: Subject, i: nat)
    requires i < |states| && forall k :: 0 <= k <= i ==> states[k].versions != []
  {
    i > 0 && |states[i].versions| > 1 && (Loose(states, s, i - 1) || (s in Memory(states[i - 1]).current && s !in Memory(states[i]).current))
  }

  lemma RunVersions(states: seq<Auth>, events: seq<Event>, i: nat)
    requires Run(states, events) && i < |states|
    ensures forall k :: 0 <= k <= i ==> states[k].versions != []
  {
    hide Apply, FreshKey, RegOk;
    forall k | 0 <= k <= i ensures states[k].versions != [] { EveryRegistryIsOk(states, events, k); }
  }

  /**
   Over any run that starts with one registry: a crash could leave s a current key exactly when memory has one, or s
   left memory in a commit whose sync failed and nothing durable followed it.
   */
  lemma {:induction false} CurrentSomewhereIff(states: seq<Auth>, events: seq<Event>, s: Subject, i: nat)
    requires Run(states, events) && i < |states| && |states[0].versions| == 1
    ensures forall k :: 0 <= k <= i ==> states[k].versions != []
    ensures !NoCurrentAnywhere(states[i], s) <==> s in Memory(states[i]).current || Loose(states, s, i)
  {
    hide Apply, FreshKey, RegOk;
    RunVersions(states, events, i);
    var vs := states[i].versions;
    if i == 0 {
      assert vs == [vs[0]];
    } else {
      var before := states[i - 1].versions;
      CurrentSomewhereIff(states, events, s, i - 1);
      ApplyVersions(states[i - 1], events[i - 1].op, events[i - 1].now);
      if |vs| == 1 {
        assert vs == [vs[0]];
      } else if vs != before {
        assert vs == before + [Memory(states[i])];
      }
    }
  }

  /** So a revocation that reported success is permanent exactly when no such commit is outstanding after it. */
  lemma RevokeIsPermanentIff(states: seq<Auth>, events: seq<Event>, i: nat)
    requires Run(states, events) && i < |events| && |states[0].versions| == 1 && events[i].op.Revoke?
    requires states[i].versions != [] && Apply(states[i], events[i].op, events[i].now).1.Ok?
    ensures forall k :: 0 <= k <= i + 1 ==> states[k].versions != []
    ensures NoCurrentAnywhere(states[i + 1], events[i].op.s) <==> !Loose(states, events[i].op.s, i + 1)
    ensures KeyFound(states[i], events[i].op.s) ==> NoCurrentAnywhere(states[i + 1], events[i].op.s)
  {
    var s := events[i].op.s;
    CurrentSomewhereIff(states, events, s, i + 1);
    EveryRegistryIsOk(states, events, i);
    RevokeTakesOut(states[i], s, events[i].now, events[i].op.commitIO);
    hide RegOk, FreshKey, Withdrawn;
  }

  /** Memory has a key to revoke. */
  predicate KeyFound(a: Auth, s: Subject)
    requires a.versions != []
  {
    CurrentKey(Memory(a), s) != ""
  }

  lemma RevokeTakesOut(a: Auth, s: Subject, now: int, io: CommitIO)
    requires RegistriesOk(a) && RevokeLocked(a, s, "", now, io).1.Ok?
    ensures var a' := RevokeLocked(a, s, "", now, io).0;
            a'.versions != [] && s !in Memory(a').current && (CurrentKey(Memory(a), s) != "" ==> NoCurrentAnywhere(a', s))
  {
    hide NoGaps, OneKeyPerGeneration, OlderRevoked;
    assert Memory(a) in a.versions;
  }

  /**
   That exception is real: a revocation whose rename was not synced fails, its retry
   reports success, and a crash brings the key back.
   */
  lemma RetriedRevokeIsUndone(a: Auth, s: Subject, now: int, retry: CommitIO) returns (end: Auth)
    requires RegistriesOk(a) && |a.versions| == 1 && ValidSubject(s) && now > 0 && s in Memory(a).current
    ensures var (a1, first) := Apply(a, Revoke(s, CommittedUnsynced), now);
            && first.Err? && a1.versions != []
            && var (a2, second) := Apply(a1, Revoke(s, retry), now);
            && second.Ok? && a2.versions != []
            && end == Apply(a2, Crash(0, _ => 0), now).0
    ensures end.versions == a.versions
  {
    hide NoGaps, OneKeyPerGeneration, OlderRevoked;
    var r := Memory(a);
    CurrentIsLast(r, s);
    var w := Withdrawn(r, s, now);
    assert s !in w.current;
    var a1 := Apply(a, Revoke(s, CommittedUnsynced), now).0;
    assert a1.versions == a.versions + [w];
    var a2 := Apply(a1, Revoke(s, retry), now).0;
    end := Apply(a2, Crash(0, _ => 0), now).0;
    assert a.versions == [a.versions[0]];
  }

  /** Once revoked everywhere, a key never becomes current again, in any later state of any run. */
  lemma {:induction false} RevokedNeverCurrentAgain(states: seq<Auth>, events: seq<Event>, i: nat, j: nat, k: string)
    requires Run(states, events) && i <= j < |states| && RevokedEverywhere(states[i], k)
    ensures RevokedEverywhere(states[j], k)
    ensures forall v, s :: v in states[j].versions && s in v.current ==> v.current[s] != k
  {
    hide Apply, FreshKey;
    if i < j {
      RevokedNeverCurrentAgain(states, events, i, j - 1, k);
      ApplyKeepsRevoked(states[j - 1], events[j - 1].op, events[j - 1].now, k);
    }
    EveryRegistryIsOk(states, events, j);
  }

  // ---- publication --------------------------------------------------------------------------

  predicate HasCredential(d: CredDir, rec: CredentialRecord) {
    InCurrent(d, rec) || InStaged(d, rec)
  }

  predicate Serves(v: Reg, s: Subject, d: CredDir) {
    s in v.current && v.current[s] in v.records ==> HasCredential(d, v.records[v.current[s]])
  }

  /**
   In whatever state a crash leaves the registry and the directories, each subject's
   current key has its credential in `current` or in its staged file.
   */
  ghost predicate PublicationOk(a: Auth) {
    && (forall s :: s in a.dirs ==> a.dirs[s] != [])
    && forall v, s, d :: v in a.versions && d in DirVersions(a, s) ==> Serves(v, s, d)
  }

  /** Every registry a crash could leave names this subject's key in memory, or none. */
  ghost predicate Agreed(a: Auth, s: Subject)
    requires a.versions != []
  {
    forall v :: v in a.versions && s in v.current ==> v.current[s] == CurrentKey(Memory(a), s)
  }

  /** Staging a new key hides no other credential. */
  lemma StagingServes(v: Reg, s: Subject, d: CredDir, k: string, c: Credential)
    requires WellFormed(v) && k !in v.records && Serves(v, s, d)
    ensures Serves(v, s, d.(staged := d.staged[k := c]))
  {
  }

  /** Issuing to s leaves every other subject's key and credential as they were. */
  lemma IssuedServesOthers(r: Reg, s: Subject, oldKey: string, newKey: string, now: int, t: Subject, d: CredDir)
    requires WellFormed(r) && CurrentIsLive(r) && newKey !in r.records && t != s && Serves(r, t, d)
    requires Issued(r, s, oldKey, newKey, now).Ok?
    ensures Serves(Issued(r, s, oldKey, newKey, now).value, t, d)
  {
    var r' := Issued(r, s, oldKey, newKey, now).value;
    if t in r.current {
      assert OfSubject(r, t, r.current[t]);
      assert r'.records[r.current[t]].(revokedAt := 0) == r.records[r.current[t]].(revokedAt := 0);
    }
  }

  lemma IssuedServesStaged(r: Reg, s: Subject, oldKey: string, newKey: string, now: int, d: CredDir)
    requires Issued(r, s, oldKey, newKey, now).Ok?
    ensures var r' := Issued(r, s, oldKey, newKey, now).value;
            && newKey in r'.records
            && var staged := d.(staged := d.staged[newKey := CredentialFor(r'.records[newKey])]);
            && Serves(r', s, staged) && Serves(r', s, Renamed(staged, newKey))
  {
  }

  lemma IssueKeepsPublication(a: Auth, s: Subject, oldKey: string, newKey: string, now: int, io: IssueIO)
    requires RegistriesOk(a) && PublicationOk(a)
    requires forall v :: v in a.versions ==> newKey !in v.records
    ensures PublicationOk(IssueLocked(a, s, oldKey, newKey, now, io).0)
  {
    hide Issued, Serves, Renamed, RegOk, CredentialFor;
    var next := Issued(Memory(a), s, oldKey, newKey, now);
    var a' := IssueLocked(a, s, oldKey, newKey, now, io).0;
    if next.Ok? {
      var reg, vs := next.value, DirVersions(a, s);
      var top := Top(vs);
      IssuedServesStaged(Memory(a), s, oldKey, newKey, now, top);
      var staged := top.(staged := top.staged[newKey := CredentialFor(reg.records[newKey])]);
      assert top in vs;
      forall v, t, d | v in a'.versions && d in DirVersions(a', t)
        ensures Serves(v, t, d)
      {
        assert v in a.versions || v == reg;
        if v in a.versions && v != reg {
          assert RegOk(v) && WellFormed(v) by { assert exists i :: 0 <= i < |a.versions| && a.versions[i] == v; WellFormedOf(v); }
          if t == s {
            assert Serves(v, s, top);
            StagingServes(v, s, top, newKey, CredentialFor(reg.records[newKey]));
          }
        } else if t != s {
          assert Memory(a) in a.versions && Serves(Memory(a), t, d);
          WellFormedOf(Memory(a));
          IssuedServesOthers(Memory(a), s, oldKey, newKey, now, t, d);
        } else {
          assert newKey in reg.records && reg !in a.versions;
          assert d == staged || d == Renamed(staged, newKey);
        }
      }
    }
  }

  lemma WellFormedOf(v: Reg)
    requires RegOk(v)
    ensures WellFormed(v) && CurrentIsLive(v)
  {
  }

  lemma RevokeKeepsPublication(a: Auth, s: Subject, expectedKey: string, now: int, io: CommitIO)
    requires RegistriesOk(a) && PublicationOk(a)
    ensures PublicationOk(RevokeLocked(a, s, expectedKey, now, io).0)
  {
    hide RevokeLocked, Withdrawn, RegOk, Serves;
    RevokeVersions(a, s, expectedKey, now, io);
    RevokeKeepsDirs(a, s, expectedKey, now, io);
    var r, a' := Memory(a), RevokeLocked(a, s, expectedKey, now, io).0;
    forall v, t, d | v in a'.versions && d in DirVersions(a', t)
      ensures Serves(v, t, d)
    {
      if v !in a.versions {
        assert r in a.versions && Serves(r, t, d);
        WellFormedOf(r);
        WithdrawnServes(r, s, now, t, d);
      }
    }
  }

  lemma RevokeKeepsDirs(a: Auth, s: Subject, expectedKey: string, now: int, io: CommitIO)
    requires a.versions != []
    ensures RevokeLocked(a, s, expectedKey, now, io).0.dirs == a.dirs
  {
  }

  lemma WithdrawnServes(r: Reg, s: Subject, now: int, t: Subject, d: CredDir)
    requires CurrentIsLive(r) && s in r.current && r.current[s] in r.records && Serves(r, t, d)
    ensures Serves(Withdrawn(r, s, now), t, d)
  {
    if t in r.current {
      assert OfSubject(r, t, r.current[t]);
    }
  }

  /** Registries a crash could leave agree on what each key they share was issued as. */
  ghost predicate SameKeys(v: Reg, w: Reg) {
    forall k :: k in v.records && k in w.records ==> CredentialFor(v.records[k]) == CredentialFor(w.records[k])
  }

  ghost predicate VersionsAgree(a: Auth) {
    forall v, w :: v in a.versions && w in a.versions ==> SameKeys(v, w)
  }

  /**
   Publishing memory's key is safe against a crash exactly when every other key a
   surviving registry.json could still name has its own staged file: the rename
   replaces `current`, the only other place it could be.
   */
  lemma PublishIsSafeIff(a: Auth, rec: CredentialRecord)
    requires RegistriesOk(a) && PublicationOk(a) && VersionsAgree(a)
    requires var s, r := rec.subject, Memory(a); s in r.current && r.current[s] in r.records && r.records[r.current[s]] == rec
    requires !InCurrent(Top(DirVersions(a, rec.subject)), rec)
    ensures EnsurePublished(a, rec, RenameDone).1.Ok?
    ensures PublicationOk(EnsurePublished(a, rec, RenameDone).0) <==>
              forall v :: v in a.versions && rec.subject in v.current && v.current[rec.subject] != rec.keyId ==>
                v.current[rec.subject] in v.records && InStaged(Top(DirVersions(a, rec.subject)), v.records[v.current[rec.subject]])
  {
    hide NoGaps, OneKeyPerGeneration, OlderRevoked;
    var s, r := rec.subject, Memory(a);
    var top := Top(DirVersions(a, s));
    assert r in a.versions && top in DirVersions(a, s) && Serves(r, s, top);
    var a' := EnsurePublished(a, rec, RenameDone).0;
    var renamed := Renamed(top, rec.keyId);
    assert DirVersions(a', s) == [renamed];
    forall v | v in a.versions
      ensures s in v.current && v.current[s] in v.records
              ==> (Serves(v, s, renamed) <==> v.current[s] == rec.keyId || InStaged(top, v.records[v.current[s]]))
      ensures s in v.current ==> v.current[s] in v.records
    {
      WellFormedOf(v);
      assert SameKeys(v, r);
    }
    if forall v :: v in a.versions && s in v.current && v.current[s] != rec.keyId ==> v.current[s] in v.records && InStaged(top, v.records[v.current[s]]) {
      forall v, t, d | v in a'.versions && d in DirVersions(a', t)
        ensures Serves(v, t, d)
      {
        if t != s {
          assert d in DirVersions(a, t);
        }
      }
    } else {
      assert renamed in DirVersions(a', s);
    }
  }

  lemma IssueKeepsAgreement(a: Auth, s: Subject, oldKey: string, newKey: string, now: int, io: IssueIO)
    requires a.versions != [] && VersionsAgree(a) && forall v :: v in a.versions ==> newKey !in v.records
    ensures VersionsAgree(IssueLocked(a, s, oldKey, newKey, now, io).0)
  {
    hide IssueLocked, Issued, SameKeys;
    IssueVersions(a, s, oldKey, newKey, now, io);
    var next, a' := Issued(Memory(a), s, oldKey, newKey, now), IssueLocked(a, s, oldKey, newKey, now, io).0;
    forall v, w | v in a'.versions && w in a'.versions
      ensures SameKeys(v, w)
    {
      assert Memory(a) in a.versions;
      if v !in a.versions { IssuedSameKeys(Memory(a), s, oldKey, newKey, now, w); }
      if w !in a.versions { IssuedSameKeys(Memory(a), s, oldKey, newKey, now, v); }
    }
  }

  lemma IssuedSameKeys(r: Reg, s: Subject, oldKey: string, newKey: string, now: int, w: Reg)
    requires Issued(r, s, oldKey, newKey, now).Ok? && newKey !in r.records
    ensures SameKeys(r, w) && newKey !in w.records ==>
              SameKeys(Issued(r, s, oldKey, newKey, now).value, w) && SameKeys(w, Issued(r, s, oldKey, newKey, now).value)
    ensures SameKeys(w, w)
  {
  }

  lemma RevokeKeepsAgreement(a: Auth, s: Subject, expectedKey: string, now: int, io: CommitIO)
    requires a.versions != [] && VersionsAgree(a)
    ensures VersionsAgree(RevokeLocked(a, s, expectedKey, now, io).0)
  {
    hide RevokeLocked, Withdrawn;
    RevokeVersions(a, s, expectedKey, now, io);
    var r, a' := Memory(a), RevokeLocked(a, s, expectedKey, now, io).0;
    assert r in a.versions;
    if s in r.current && r.current[s] in r.records {
      WithdrawnSameKeys(r, s, now);
    }
  }

  lemma WithdrawnSameKeys(r: Reg, s: Subject, now: int)
    requires s in r.current && r.current[s] in r.records
    ensures Withdrawn(r, s, now).records.Keys == r.records.Keys
    ensures forall k :: k in r.records ==> CredentialFor(Withdrawn(r, s, now).records[k]) == CredentialFor(r.records[k])
  {
  }

  lemma PublishKeepsPublication(a: Auth, s: Subject, now: int, io: RenameIO)
    requires RegistriesOk(a) && PublicationOk(a) && VersionsAgree(a) && Agreed(a, s)
    requires CurrentRecord(Memory(a), s, now).Ok?
    ensures PublicationOk(EnsurePublished(a, CurrentRecord(Memory(a), s, now).value, io).0)
    ensures var (a', result) := EnsurePublished(a, CurrentRecord(Memory(a), s, now).value, RenameDone);
            result.Ok? && InCurrent(Top(DirVersions(a', s)), CurrentRecord(Memory(a), s, now).value)
  {
    hide RegOk;
    var r, rec := Memory(a), CurrentRecord(Memory(a), s, now).value;
    var vs := DirVersions(a, s);
    assert r in a.versions && Top(vs) in vs && Serves(r, s, Top(vs));
    if !InCurrent(Top(vs), rec) {
      PublishIsSafeIff(a, rec);
      var a' := EnsurePublished(a, rec, io).0;
      var safe := EnsurePublished(a, rec, RenameDone).0;
      assert DirVersions(safe, s) == [Renamed(Top(vs), rec.keyId)];
      assert forall t, d :: d in DirVersions(a', t) ==> d in DirVersions(a, t) || d in DirVersions(safe, t);
    }
  }

  /** Operations that may rename a staged file over `current` on the strength of memory alone. */
  ghost predicate PublishesAgreed(a: Auth, op: Op)
    requires a.versions != []
  {
    op.Ensure? || op.Current? ==> Agreed(a, op.s)
  }

  lemma CrashKeeps(a: Auth, pick: nat, directory: Subject -> nat, now: int)
    requires RegistriesOk(a) && PublicationOk(a) && VersionsAgree(a)
    ensures var a' := Apply(a, Crash(pick, directory), now).0; PublicationOk(a') && VersionsAgree(a')
  {
    hide RegOk, Serves, SameKeys;
    var a' := Apply(a, Crash(pick, directory), now).0;
    assert a.versions[pick % |a.versions|] in a.versions;
    forall s, d | d in DirVersions(a', s)
      ensures d in DirVersions(a, s)
    {
      if s in a.dirs {
        assert a.dirs[s][directory(s) % |a.dirs[s]|] in a.dirs[s];
      }
    }
  }

  lemma ApplyKeepsPublication(a: Auth, op: Op, now: int)
    requires RegistriesOk(a) && PublicationOk(a) && VersionsAgree(a) && FreshKey(a, op) && PublishesAgreed(a, op)
    ensures PublicationOk(Apply(a, op, now).0) && VersionsAgree(Apply(a, op, now).0)
  {
    hide RegOk, IssueLocked, RevokeLocked, EnsurePublished, PublicationOk, CurrentRecord, LastRecord, SameKeys, Agreed;
    var r := Memory(a);
    assert a.versions != [];
    if op.Ensure? || op.Rotate? || op.Regrant? || op.RenewExpired? {
      forall v | v in a.versions ensures op.newKey !in v.records {
        var i :| 0 <= i < |a.versions| && a.versions[i] == v;
      }
    }
    match op
    case Ensure(s, newKey, io, rio) =>
      IssueKeepsPublication(a, s, "", newKey, now, io);
      IssueKeepsAgreement(a, s, "", newKey, now, io);
      if CurrentRecord(r, s, now).Ok? {
        PublishKeepsPublication(a, s, now, rio);
        PublishKeepsVersions(a, CurrentRecord(r, s, now).value, rio);
      }
    case Current(s, rio) =>
      if CurrentRecord(r, s, now).Ok? {
        PublishKeepsPublication(a, s, now, rio);
        PublishKeepsVersions(a, CurrentRecord(r, s, now).value, rio);
      }
    case Rotate(s, newKey, io) =>
      if CurrentRecord(r, s, now).Ok? {
        IssueKeepsPublication(a, s, CurrentRecord(r, s, now).value.keyId, newKey, now, io);
        IssueKeepsAgreement(a, s, CurrentRecord(r, s, now).value.keyId, newKey, now, io);
      }
    case Regrant(s, expected, newKey, io) =>
      if LastRecord(r, s).Some? {
        IssueKeepsPublication(a, s, LastRecord(r, s).value.keyId, newKey, now, io);
        IssueKeepsAgreement(a, s, LastRecord(r, s).value.keyId, newKey, now, io);
      }
    case RenewExpired(s, expectedKey, newKey, io) =>
      IssueKeepsPublication(a, s, CurrentKey(r, s), newKey, now, io);
      IssueKeepsAgreement(a, s, CurrentKey(r, s), newKey, now, io);
    case Revoke(s, io) =>
      RevokeKeepsPublication(a, s, "", now, io);
      RevokeKeepsAgreement(a, s, "", now, io);
    case RevokeCurrent(s, key, generation, io) =>
      RevokeKeepsPublication(a, s, CurrentKey(r, s), now, io);
      RevokeKeepsAgreement(a, s, CurrentKey(r, s), now, io);
    case Crash(pick, directory) => CrashKeeps(a, pick, directory, now);
  }

  /**
   At every failure and crash point of every run, each subject's current key has its
   credential on disk, as long as no Current or Ensure publishes a key that some
   registry.json a crash could leave does not name yet.
   */
  lemma {:induction false} CurrentKeyIsAlwaysPublished(states: seq<Auth>, events: seq<Event>, i: nat)
    requires Run(states, events) && i < |states| && PublicationOk(states[0]) && VersionsAgree(states[0])
    requires forall k :: 0 <= k < |events| ==> PublishesAgreed(states[k], events[k].op)
    ensures PublicationOk(states[i]) && VersionsAgree(states[i])
  {
    hide Apply, FreshKey, RegOk, PublicationOk, VersionsAgree, PublishesAgreed;
    if i > 0 {
      CurrentKeyIsAlwaysPublished(states, events, i - 1);
      EveryRegistryIsOk(states, events, i - 1);
      ApplyKeepsPublication(states[i - 1], events[i - 1].op, events[i - 1].now);
    }
  }

  /** issueLocked replaces `current` only once the registry naming the new key is durable. */
  lemma CurrentReplacedOnlyAfterCommit(a: Auth, s: Subject, oldKey: string, newKey: string, now: int, io: IssueIO)
    requires a.versions != [] && Issued(Memory(a), s, oldKey, newKey, now).Ok?
    requires forall d :: d in DirVersions(a, s) ==> newKey !in d.staged && (d.current.Some? ==> d.current.value.keyId != newKey)
    ensures var a' := IssueLocked(a, s, oldKey, newKey, now, io).0;
            (exists d :: d in DirVersions(a', s) && d.current.Some? && d.current.value.keyId == newKey) ==>
              a'.versions == [Issued(Memory(a), s, oldKey, newKey, now).value]
  {
    hide Issued;
    var vs := DirVersions(a, s);
    if vs != [] {
      assert Top(vs) in vs;
    }
  }

  /**
   The proviso is needed. A rotation's rename reaches registry.json but its directory
   sync fails; a Current then publishes the new key; the crash that drops the rename
   leaves the old key current and its credential gone.
   */
  lemma UnsyncedRotationThenPublishLosesTheOldKey(a: Auth, s: Subject, newKey: string, now: int) returns (end: Auth)
    requires RegistriesOk(a) && |a.versions| == 1 && ValidSubject(s) && now > 0
    requires CurrentRecord(Memory(a), s, now).Ok? && CurrentRecord(Memory(a), s, now).value.generation < MAX_GENERATION
    requires newKey != "" && newKey !in Memory(a).records
    requires s in a.dirs && a.dirs[s] == [CredDir(Some(CredentialFor(CurrentRecord(Memory(a), s, now).value)), map[])]
    ensures var a1 := Apply(a, Rotate(s, newKey, CommitUnsynced), now).0;
            && a1.versions != []
            && var a2 := Apply(a1, Current(s, RenameDone), now).0;
            && a2.versions != []
            && end == Apply(a2, Crash(0, _ => 0), now).0
    ensures end.versions == a.versions
    ensures forall d :: d in DirVersions(end, s) ==> !HasCredential(d, CurrentRecord(Memory(a), s, now).value)
  {
    hide NoGaps, OneKeyPerGeneration, OlderRevoked, LastRecord;
    var rec := CurrentRecord(Memory(a), s, now).value;
    var a1 := Apply(a, Rotate(s, newKey, CommitUnsynced), now).0;
    assert rec.keyId == CurrentKey(Memory(a), s);
    var reg := Issued(Memory(a), s, rec.keyId, newKey, now).value;
    assert a1.versions == [Memory(a), reg];
    var cred := CredentialFor(reg.records[newKey]);
    assert DirVersions(a1, s) == [CredDir(Some(CredentialFor(rec)), map[newKey := cred])];
    var a2 := Apply(a1, Current(s, RenameDone), now).0;
    assert CurrentRecord(reg, s, now) == Ok(reg.records[newKey]);
    assert DirVersions(a2, s) == [CredDir(Some(cred), map[newKey := cred] - {newKey})];
    end := Apply(a2, Crash(0, _ => 0), now).0;
    assert a2.versions == a1.versions && end.versions == [Memory(a)];
  }
}
