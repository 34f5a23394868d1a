/**
 The credential registry: which key each subject holds, in which generation, and
 the credential files that publish it. Every writer runs under one lock, so a run
 is a sequence of operations; each I/O outcome and each crash is a parameter.
 */
module Registry {
  import opened Bytes
  import opened Text

  const MAX_GENERATION := 0xFFFF_FFFF_FFFF_FFFF

  datatype Subject = Subject(kind: string, id: string)

  predicate ValidSubject(s: Subject) {
    s.kind in {"host", "provider", "session"} && !Blank(s.id) && '\0' !in s.id
  }

  /** revokedAt is 0 until the key is revoked. */
  datatype CredentialRecord = CredentialRecord(
    keyId: string, subject: Subject, generation: nat, issuedAt: int, notAfter: int, revokedAt: int)

  datatype Reg = Reg(current: map<Subject, string>, records: map<string, CredentialRecord>)

  datatype Error = ErrInvalidSubject | ErrInvalidCredential | ErrRevoked | ErrExpired | ErrNotProvisioned | ErrGenerationChanged | ErrIO

  datatype Result<+T> = Ok(value: T) | Err(error: Error)

  // ---- registry values ------------------------------------------------------------

  function CurrentKey(r: Reg, s: Subject): string {
    if s in r.current then r.current[s] else ""
  }

  predicate OfSubject(r: Reg, s: Subject, k: string) {
    k in r.records && r.records[k].subject == s
  }

  predicate WasIssued(r: Reg, s: Subject) {
    exists k :: k in r.records && r.records[k].subject == s
  }

  ghost predicate IsLast(r: Reg, s: Subject, k: string) {
    OfSubject(r, s, k) && forall j :: OfSubject(r, s, j) ==> r.records[j].generation <= r.records[k].generation
  }

  /** currentRecordLocked */
  function CurrentRecord(r: Reg, s: Subject, now: int): Result<CredentialRecord> {
    var k := CurrentKey(r, s);
    if k == "" then (if WasIssued(r, s) then Err(ErrRevoked) else Err(ErrNotProvisioned))
    else if k !in r.records || r.records[k].keyId != k || r.records[k].subject != s then Err(ErrInvalidCredential)
    else if r.records[k].revokedAt != 0 then Err(ErrRevoked)
    else if r.records[k].notAfter <= now then Err(ErrExpired)
    else Ok(r.records[k])
  }

  const LIFETIME := 30 * 24 * 60 * 60 * 1000 // milliseconds

  /** The registry issueLocked commits: oldKey revoked, newKey current one generation on. */
  function Issued(r: Reg, s: Subject, oldKey: string, newKey: string, now: int): (next: Result<Reg>)
    ensures next.Ok? ==> newKey in next.value.records
  {
    var cur := CurrentKey(r, s);
    if (oldKey == "" && cur != "") || (oldKey != "" && cur != "" && cur != oldKey) then Err(ErrGenerationChanged)
    else if oldKey == "" then Ok(WithKey(r, s, newKey, 1, now))
    else if oldKey !in r.records || r.records[oldKey].subject != s || r.records[oldKey].generation == MAX_GENERATION then
      Err(ErrInvalidCredential)
    else Ok(WithKey(RevokedAt(r, oldKey, now), s, newKey, r.records[oldKey].generation + 1, now))
  }

  function RevokedAt(r: Reg, k: string, now: int): Reg
    requires k in r.records
  {
    if r.records[k].revokedAt == 0 then r.(records := r.records[k := r.records[k].(revokedAt := now)]) else r
  }

  function WithKey(r: Reg, s: Subject, k: string, generation: nat, now: int): Reg {
    Reg(r.current[s := k], r.records[k := CredentialRecord(k, s, generation, now, now + LIFETIME, 0)])
  }

  /** The registry revokeLocked commits for the subject's current key. */
  function Withdrawn(r: Reg, s: Subject, now: int): Reg
    requires s in r.current && r.current[s] in r.records
  {
    var r' := RevokedAt(r, r.current[s], now);
    r'.(current := r'.current - {s})
  }

  // ---- what every operation keeps -----------------------------------------------------

  predicate Live(r: Reg, k: string) {
    k in r.records && r.records[k].revokedAt == 0
  }

  ghost predicate WellFormed(r: Reg) {
    forall k :: k in r.records ==> k != "" && r.records[k].keyId == k && 1 <= r.records[k].generation <= MAX_GENERATION
  }

  ghost predicate OneKeyPerGeneration(r: Reg) {
    forall s, j, k :: OfSubject(r, s, j) && OfSubject(r, s, k) && r.records[j].generation == r.records[k].generation ==> j == k
  }

  ghost predicate HasGeneration(r: Reg, s: Subject, g: nat) {
    exists k :: OfSubject(r, s, k) && r.records[k].generation == g
  }

  ghost predicate NoGaps(r: Reg) {
    forall s, k, g: nat :: OfSubject(r, s, k) && 1 <= g <= r.records[k].generation ==> HasGeneration(r, s, g)
  }

  ghost predicate OlderRevoked(r: Reg) {
    forall s, j, k :: OfSubject(r, s, j) && OfSubject(r, s, k) && r.records[j].generation < r.records[k].generation ==> !Live(r, j)
  }

  ghost predicate CurrentIsLive(r: Reg) {
    && (forall s :: s in r.current ==> Live(r, r.current[s]) && OfSubject(r, s, r.current[s]))
    && (forall s, k :: OfSubject(r, s, k) && Live(r, k) ==> s in r.current && r.current[s] == k)
  }

  /**
   Per subject: one key per generation, no gaps, every generation but the newest
   revoked; and the current key is the one unrevoked key.
   */
  ghost predicate RegOk(r: Reg) {
    WellFormed(r) && OneKeyPerGeneration(r) && NoGaps(r) && OlderRevoked(r) && CurrentIsLive(r)
  }

  lemma {:induction false} LastExists(r: Reg, s: Subject, seen: set<string>) returns (last: string)
    requires seen <= r.records.Keys && exists k :: k in seen && OfSubject(r, s, k)
    ensures last in seen && OfSubject(r, s, last)
    ensures forall j :: j in seen && OfSubject(r, s, j) ==> r.records[j].generation <= r.records[last].generation
    decreases |seen|
  {
    var k :| k in seen && OfSubject(r, s, k);
    if exists j :: j in seen - {k} && OfSubject(r, s, j) {
      last := LastExists(r, s, seen - {k});
      if r.records[last].generation < r.records[k].generation {
        last := k;
      }
    } else {
      last := k;
    }
  }

  /**
   A subject's generations are exactly 1..n with one key each; all but the newest are
   revoked, and the subject has a current key iff the newest is not, and then it is that key.
   */
  lemma GenerationsAreOneToN(r: Reg, s: Subject) returns (n: nat)
    requires RegOk(r)
    ensures forall g: nat :: HasGeneration(r, s, g) <==> 1 <= g <= n
    ensures forall j, k :: OfSubject(r, s, j) && OfSubject(r, s, k) && r.records[j].generation == r.records[k].generation ==> j == k
    ensures forall k :: OfSubject(r, s, k) && r.records[k].generation < n ==> r.records[k].revokedAt != 0
    ensures s in r.current <==> exists k :: OfSubject(r, s, k) && r.records[k].generation == n && r.records[k].revokedAt == 0
    ensures s in r.current ==> OfSubject(r, s, r.current[s]) && r.records[r.current[s]].generation == n
  {
    n := 0;
    if WasIssued(r, s) {
      var k :| k in r.records && r.records[k].subject == s;
      assert k in r.records.Keys && OfSubject(r, s, k);
      var last := LastExists(r, s, r.records.Keys);
      n := r.records[last].generation;
      assert OfSubject(r, s, last);
      assert forall j :: OfSubject(r, s, j) ==> j in r.records.Keys;
    }
  }

  /** r' is r with newKey as the one live key of s, a generation above oldKey's. */
  ghost predicate AddsGeneration(r: Reg, r': Reg, s: Subject, oldKey: string, newKey: string) {
    && OfSubject(r', s, newKey) && r'.current == r.current[s := newKey]
    && (forall t, k :: OfSubject(r', t, k) <==> OfSubject(r, t, k) || (t == s && k == newKey))
    && (forall k :: k in r.records ==> k in r'.records && r'.records[k].generation == r.records[k].generation)
    && (oldKey in r.records ==> OfSubject(r, s, oldKey))
    && (forall k :: OfSubject(r, s, k) ==> r.records[k].generation < r'.records[newKey].generation)
    && (r'.records[newKey].generation > 1 ==> OfSubject(r, s, oldKey) && r.records[oldKey].generation == r'.records[newKey].generation - 1)
    && (forall k :: Live(r', k) <==> k == newKey || (Live(r, k) && k != oldKey))
    && (forall k :: OfSubject(r, s, k) && Live(r, k) ==> k == oldKey)
  }

  lemma IssuedAdds(r: Reg, s: Subject, oldKey: string, newKey: string, now: int)
    requires RegOk(r) && now != 0 && newKey != "" && newKey !in r.records
    requires if oldKey == "" then !WasIssued(r, s) else IsLast(r, s, oldKey)
    requires Issued(r, s, oldKey, newKey, now).Ok?
    ensures AddsGeneration(r, Issued(r, s, oldKey, newKey, now).value, s, oldKey, newKey)
  {
    hide NoGaps, OneKeyPerGeneration, OlderRevoked, CurrentIsLive, AddsGeneration, WithKey, RevokedAt, Live, IsLast, WasIssued, OfSubject;
    OnlyLiveIsOld(r, s, oldKey);
    if oldKey == "" {
      FirstAdds(r, s, newKey, now);
    } else {
      SuccessorAdds(r, s, oldKey, newKey, now);
    }
  }

  lemma FirstAdds(r: Reg, s: Subject, newKey: string, now: int)
    requires WellFormed(r) && newKey !in r.records && !WasIssued(r, s)
    ensures AddsGeneration(r, WithKey(r, s, newKey, 1, now), s, "", newKey)
  {
    hide AddsGeneration, WithKey;
    assert forall k :: !OfSubject(r, s, k);
    WithKeyAdds(r, r, s, "", newKey, 1, now);
  }

  lemma SuccessorAdds(r: Reg, s: Subject, oldKey: string, newKey: string, now: int)
    requires now != 0 && newKey !in r.records && IsLast(r, s, oldKey)
    requires forall k :: OfSubject(r, s, k) && Live(r, k) ==> k == oldKey
    ensures AddsGeneration(r, WithKey(RevokedAt(r, oldKey, now), s, newKey, r.records[oldKey].generation + 1, now), s, oldKey, newKey)
  {
    hide AddsGeneration, WithKey, RevokedAt, Live;
    RevokedAtShape(r, oldKey, now);
    WithKeyAdds(r, RevokedAt(r, oldKey, now), s, oldKey, newKey, r.records[oldKey].generation + 1, now);
  }

  /** A revocation changes one record's revokedAt and nothing else. */
  lemma RevokedAtShape(r: Reg, key: string, now: int)
    requires key in r.records && now != 0
    ensures var r1 := RevokedAt(r, key, now);
            && r1.current == r.current && r1.records.Keys == r.records.Keys
            && (forall k :: k in r.records ==> r1.records[k] == r.records[k].(revokedAt := r1.records[k].revokedAt))
            && (forall k :: k in r.records ==> Live(r1, k) == (Live(r, k) && k != key))
            && (forall k :: k in r.records && !Live(r, k) ==> r1.records[k] == r.records[k])
  {
  }

  lemma WithKeyAdds(r: Reg, r1: Reg, s: Subject, oldKey: string, newKey: string, g: nat, now: int)
    requires newKey !in r.records && r1.current == r.current && r1.records.Keys == r.records.Keys
    requires forall k :: k in r.records ==> r1.records[k] == r.records[k].(revokedAt := r1.records[k].revokedAt)
    requires forall k :: k in r.records ==> Live(r1, k) == (Live(r, k) && k != oldKey)
    requires oldKey in r.records ==> OfSubject(r, s, oldKey)
    requires forall k :: OfSubject(r, s, k) ==> r.records[k].generation < g && (Live(r, k) ==> k == oldKey)
    requires g > 1 ==> oldKey in r.records && r.records[oldKey].generation == g - 1
    ensures AddsGeneration(r, WithKey(r1, s, newKey, g, now), s, oldKey, newKey)
  {
    var r' := WithKey(r1, s, newKey, g, now);
    assert forall k :: k in r'.records <==> k in r.records.Keys || k == newKey;
    assert forall k :: k in r.records.Keys ==> r'.records[k] == r1.records[k];
  }

  lemma OnlyLiveIsOld(r: Reg, s: Subject, oldKey: string)
    requires RegOk(r) && if oldKey == "" then !WasIssued(r, s) else IsLast(r, s, oldKey)
    ensures forall k :: OfSubject(r, s, k) && Live(r, k) ==> k == oldKey
  {
    hide NoGaps;
  }

  lemma IssuedKeeps(r: Reg, s: Subject, oldKey: string, newKey: string, now: int)
    requires RegOk(r) && now != 0 && newKey != "" && newKey !in r.records
    requires if oldKey == "" then !WasIssued(r, s) else IsLast(r, s, oldKey)
    requires Issued(r, s, oldKey, newKey, now).Ok?
    ensures RegOk(Issued(r, s, oldKey, newKey, now).value)
  {
    hide NoGaps, AddsGeneration, OneKeyPerGeneration, OlderRevoked, CurrentIsLive, IsLast;
    var r' := Issued(r, s, oldKey, newKey, now).value;
    IssuedAdds(r, s, oldKey, newKey, now);
    AddedKeepsOrder(r, r', s, oldKey, newKey);
    AddedKeepsNoGaps(r, r', s, oldKey, newKey);
    AddedKeepsCurrent(r, r', s, oldKey, newKey);
  }

  lemma AddedKeepsOrder(r: Reg, r': Reg, s: Subject, oldKey: string, newKey: string)
    requires OneKeyPerGeneration(r) && OlderRevoked(r) && newKey !in r.records && AddsGeneration(r, r', s, oldKey, newKey)
    ensures OneKeyPerGeneration(r') && OlderRevoked(r')
  {
  }

  lemma AddedKeepsNoGaps(r: Reg, r': Reg, s: Subject, oldKey: string, newKey: string)
    requires NoGaps(r) && newKey !in r.records && AddsGeneration(r, r', s, oldKey, newKey)
    ensures NoGaps(r')
  {
    GenerationsKept(r, r');
    forall t, k, h: nat | OfSubject(r', t, k) && 1 <= h <= r'.records[k].generation
      ensures HasGeneration(r', t, h)
    {
      if k != newKey {
        assert HasGeneration(r, t, h);
      } else if h < r'.records[newKey].generation {
        assert OfSubject(r, s, oldKey) && HasGeneration(r, s, h);
      }
    }
  }

  lemma AddedKeepsCurrent(r: Reg, r': Reg, s: Subject, oldKey: string, newKey: string)
    requires CurrentIsLive(r) && newKey !in r.records && AddsGeneration(r, r', s, oldKey, newKey)
    ensures CurrentIsLive(r')
  {
    forall t | t in r'.current && t != s
      ensures Live(r', r'.current[t]) && OfSubject(r', t, r'.current[t])
    {
      assert OfSubject(r, t, r.current[t]);
    }
  }

  lemma GenerationsKept(r: Reg, r': Reg)
    requires forall k :: k in r.records ==> k in r'.records && r'.records[k].generation == r.records[k].generation
    requires forall s, k :: OfSubject(r, s, k) ==> OfSubject(r', s, k)
    ensures forall s, g :: HasGeneration(r, s, g) ==> HasGeneration(r', s, g)
  {
    forall s, g | HasGeneration(r, s, g)
      ensures HasGeneration(r', s, g)
    {
      var k :| OfSubject(r, s, k) && r.records[k].generation == g;
      assert OfSubject(r', s, k);
    }
  }

  lemma WithdrawnKeeps(r: Reg, s: Subject, now: int)
    requires RegOk(r) && now != 0 && s in r.current
    ensures RegOk(Withdrawn(r, s, now))
  {
    var r' := Withdrawn(r, s, now);
    assert OfSubject(r, s, r.current[s]);
    assert forall t, k :: OfSubject(r', t, k) <==> OfSubject(r, t, k);
    assert forall k :: k in r.records ==> r'.records[k].generation == r.records[k].generation;
    assert forall k :: Live(r', k) <==> Live(r, k) && k != r.current[s];
    GenerationsKept(r, r');
  }
}
