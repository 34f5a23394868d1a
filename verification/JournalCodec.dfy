/**
 The byte format of one replay journal file: a sequence of frames, each a
 big-endian payload length, a CRC-32C of the payload, and the JSON payload.
 JSON and CRC-32C are parameters (Wire); only decode-after-encode is assumed.
 */
module JournalCodec {
  import opened Bytes
  import opened Text

  const MAX_REPLAY_ENTRIES := 4096
  const REPLAY_JOURNAL_LIMIT := 8 * MAX_REPLAY_ENTRIES
  const MAX_REPLAY_RECORD := 1024
  const REPLAY_HEADER := 8
  const MAX_FRAME := REPLAY_HEADER + MAX_REPLAY_RECORD
  const MAX_JOURNAL_BYTES := REPLAY_JOURNAL_LIMIT * MAX_FRAME

  datatype ReplayRecord = ReplayRecord(
    keyId: string, generation: nat, requestId: string, bodyDigest: string, expiresAt: int)

  datatype Wire = Wire(
    marshal: ReplayRecord -> bytes,
    unmarshal: bytes -> Option<ReplayRecord>,
    checksum: bytes -> nat)

  ghost predicate Lawful(w: Wire) {
    && (forall r: ReplayRecord :: w.unmarshal(w.marshal(r)) == Some(r) && w.marshal(r) != [])
    && (forall p: bytes :: w.checksum(p) < 0x1_0000_0000)
  }

  /** The ledger key: the request's credential generation and its id. */
  function ReplayKey(r: ReplayRecord): string {
    r.keyId + [':'] + Decimal(r.generation) + [':'] + r.requestId
  }

  /** Distinct requests never share a ledger key, whatever their key id holds. */
  lemma ReplayKeyInjective(a: ReplayRecord, b: ReplayRecord)
    requires ':' !in a.requestId && ':' !in b.requestId
    requires ReplayKey(a) == ReplayKey(b)
    ensures a.keyId == b.keyId && a.generation == b.generation && a.requestId == b.requestId
  {
    LastCutUnique(a.keyId + [':'] + Decimal(a.generation), b.keyId + [':'] + Decimal(b.generation),
                  a.requestId, b.requestId, ':');
    LastCutUnique(a.keyId, b.keyId, Decimal(a.generation), Decimal(b.generation), ':');
    DecimalInjective(a.generation, b.generation);
  }

  // ---- encoding -------------------------------------------------------------

  function RawFrame(w: Wire, payload: bytes): bytes {
    BigEndian(|payload|, 4) + BigEndian(w.checksum(payload), 4) + payload
  }

  /** encodeReplayRecord; None is ErrCapacity. */
  function EncodeReplayRecord(w: Wire, r: ReplayRecord): Option<bytes> {
    var payload := w.marshal(r);
    if |payload| > MAX_REPLAY_RECORD then None else Some(RawFrame(w, payload))
  }

  /** A record append can store and readJournal accepts: it fits and names its request. */
  predicate Storable(w: Wire, r: ReplayRecord) {
    |w.marshal(r)| <= MAX_REPLAY_RECORD && r.keyId != "" && r.requestId != ""
  }

  function Frame(w: Wire, r: ReplayRecord): bytes {
    RawFrame(w, w.marshal(r))
  }

  function Frames(w: Wire, rs: seq<ReplayRecord>): bytes {
    if rs == [] then [] else Frame(w, rs[0]) + Frames(w, rs[1..])
  }

  // ---- decoding -------------------------------------------------------------

  predicate AllZero(b: bytes) {
    forall i :: 0 <= i < |b| ==> b[i] == 0
  }

  /** What stands at the start of the unread bytes. */
  datatype Reading = Torn | Corrupt | Intact(rec: ReplayRecord, size: nat)

  function TornUnlessLong(rest: bytes): Reading {
    if |rest| > MAX_FRAME then Corrupt else Torn
  }

  function ReadFrame(w: Wire, rest: bytes): (out: Reading)
    ensures out.Intact? ==> REPLAY_HEADER < out.size <= |rest|
    ensures out.Torn? ==> |rest| <= MAX_FRAME
  {
    if |rest| < REPLAY_HEADER then TornUnlessLong(rest)
    else
      var length := Value(rest[..4]);
      if length == 0 && AllZero(rest) then TornUnlessLong(rest)
      else if length == 0 || length > MAX_REPLAY_RECORD then Corrupt
      else if REPLAY_HEADER + length > |rest| then TornUnlessLong(rest)
      else
        var payload := rest[REPLAY_HEADER..REPLAY_HEADER + length];
        var rec := w.unmarshal(payload);
        if w.checksum(payload) != Value(rest[4..8]) || rec.None? || rec.value.keyId == "" || rec.value.requestId == "" then
          if REPLAY_HEADER + length == |rest| then Torn else Corrupt
        else Intact(rec.value, REPLAY_HEADER + length)
  }

  /** The records read and whether the file was accepted as a whole. */
  datatype Parsed = Parsed(recs: seq<ReplayRecord>, ok: bool)

  function Parse(w: Wire, data: bytes): Parsed {
    if data == [] then Parsed([], true)
    else match ReadFrame(w, data)
      case Torn => Parsed([], true)
      case Corrupt => Parsed([], false)
      case Intact(rec, size) =>
        var tail := Parse(w, data[size..]);
        Parsed([rec] + tail.recs, tail.ok)
  }

  type Ledger = map<string, ReplayRecord>

  /** Records entered in order; a later record of the same key replaces an earlier one. */
  function Load(entries: Ledger, rs: seq<ReplayRecord>): Ledger {
    if rs == [] then entries else Load(entries, rs[..|rs| - 1])[ReplayKey(rs[|rs| - 1]) := rs[|rs| - 1]]
  }

  datatype ReadResult = ReadOk | ErrCapacity | ErrCorrupt

  /**
   readJournal: one pass over the file by offset. Every intact record before the
   first unreadable frame is entered, also when the read then fails.
   */
  method ReadJournal(w: Wire, data: bytes, entries: Ledger) returns (ledger: Ledger, n: nat, result: ReadResult)
    ensures |data| > MAX_JOURNAL_BYTES ==> ledger == entries && n == 0 && result == ErrCapacity
    ensures |data| <= MAX_JOURNAL_BYTES ==>
              var p := Parse(w, data);
              ledger == Load(entries, p.recs) && n == |p.recs| && result == if p.ok then ReadOk else ErrCorrupt
  {
    hide ReadFrame, ReplayKey;
    if |data| > MAX_JOURNAL_BYTES {
      return entries, 0, ErrCapacity;
    }
    ledger, n := entries, 0;
    var off := 0;
    ghost var done: seq<ReplayRecord> := [];
    assert data[0..] == data;
    assert [] + Parse(w, data).recs == Parse(w, data).recs;
    assert ReadUpTo(w, data, 0, []);
    hide Parse, ReadUpTo;
    while off < |data|
      invariant 0 <= off <= |data|
      invariant n == |done| && ledger == Load(entries, done)
      invariant ReadUpTo(w, data, off, done)
    {
      match ReadFrame(w, data[off..])
      case Torn =>
        Finish(w, data, off, done);
        return ledger, n, ReadOk;
      case Corrupt =>
        Finish(w, data, off, done);
        return ledger, n, ErrCorrupt;
      case Intact(rec, size) =>
        Advance(w, data, off, done, rec, size);
        LoadOne(entries, done, rec);
        ledger := ledger[ReplayKey(rec) := rec];
        n := n + 1;
        done := done + [rec];
        off := off + size;
    }
    Finish(w, data, off, done);
    return ledger, n, ReadOk;
  }

  /** The reader's progress: done was read from the first off bytes. */
  ghost predicate ReadUpTo(w: Wire, data: bytes, off: nat, done: seq<ReplayRecord>)
    requires off <= |data|
  {
    var rest := Parse(w, data[off..]);
    Parse(w, data) == Parsed(done + rest.recs, rest.ok)
  }

  lemma Finish(w: Wire, data: bytes, off: nat, done: seq<ReplayRecord>)
    requires off <= |data| && ReadUpTo(w, data, off, done)
    requires off < |data| ==> !ReadFrame(w, data[off..]).Intact?
    ensures Parse(w, data) == Parsed(done, off == |data| || ReadFrame(w, data[off..]).Torn?)
  {
    hide ReadFrame;
    assert done + [] == done;
  }

  lemma Advance(w: Wire, data: bytes, off: nat, done: seq<ReplayRecord>, rec: ReplayRecord, size: nat)
    requires off < |data| && ReadUpTo(w, data, off, done) && ReadFrame(w, data[off..]) == Intact(rec, size)
    ensures ReadUpTo(w, data, off + size, done + [rec])
  {
    hide ReadFrame;
    assert data[off..][size..] == data[off + size..];
    var rest := Parse(w, data[off + size..]).recs;
    assert done + ([rec] + rest) == (done + [rec]) + rest;
  }

  lemma LoadOne(entries: Ledger, done: seq<ReplayRecord>, rec: ReplayRecord)
    ensures Load(entries, done + [rec]) == Load(entries, done)[ReplayKey(rec) := rec]
  {
    assert (done + [rec])[..|done|] == done;
  }

  // ---- what a read recovers ---------------------------------------------------

  /** An intact frame at the front is read whole. */
  lemma ReadsFrame(w: Wire, r: ReplayRecord, rest: bytes)
    requires Lawful(w) && Storable(w, r)
    ensures |Frame(w, r)| == REPLAY_HEADER + |w.marshal(r)|
    ensures ReadFrame(w, Frame(w, r) + rest) == Intact(r, |Frame(w, r)|)
  {
    var payload := w.marshal(r);
    var data := Frame(w, r) + rest;
    HeaderOf(w, r);
    assert data[..4] == BigEndian(|payload|, 4);
    assert data[4..8] == BigEndian(w.checksum(payload), 4);
    assert data[8..8 + |payload|] == payload;
  }

  lemma HeaderOf(w: Wire, r: ReplayRecord)
    requires Lawful(w) && Storable(w, r)
    ensures Value(BigEndian(|w.marshal(r)|, 4)) == |w.marshal(r)|
    ensures Value(BigEndian(w.checksum(w.marshal(r)), 4)) == w.checksum(w.marshal(r))
  {
    WordSizes();
    ValueOfBigEndian(|w.marshal(r)|, 4);
    ValueOfBigEndian(w.checksum(w.marshal(r)), 4);
  }

  ghost predicate AllStorable(w: Wire, rs: seq<ReplayRecord>) {
    forall r :: r in rs ==> Storable(w, r)
  }

  /** Reading goes through any run of intact frames unchanged. */
  lemma {:induction false} ParseFrames(w: Wire, rs: seq<ReplayRecord>, rest: bytes)
    requires Lawful(w) && AllStorable(w, rs)
    ensures Parse(w, Frames(w, rs) + rest) == Parsed(rs + Parse(w, rest).recs, Parse(w, rest).ok)
  {
    hide ReadFrame, RawFrame;
    if rs == [] {
      assert Frames(w, rs) + rest == rest;
    } else {
      var tail := Frames(w, rs[1..]) + rest;
      assert Frames(w, rs) + rest == Frame(w, rs[0]) + tail;
      ParseFrame(w, rs[0], tail);
      ParseFrames(w, rs[1..], rest);
      assert [rs[0]] + (rs[1..] + Parse(w, rest).recs) == rs + Parse(w, rest).recs;
    }
  }

  lemma ParseFrame(w: Wire, r: ReplayRecord, rest: bytes)
    requires Lawful(w) && Storable(w, r)
    ensures Parse(w, Frame(w, r) + rest) == Parsed([r] + Parse(w, rest).recs, Parse(w, rest).ok)
  {
    ReadsFrame(w, r, rest);
    assert (Frame(w, r) + rest)[|Frame(w, r)|..] == rest;
  }

  /** The file grew to hold tail; each byte of the frame was written or still reads as zero. */
  predicate PartlyWritten(frame: bytes, tail: bytes) {
    |tail| <= |frame| && forall i :: 0 <= i < |tail| ==> tail[i] == frame[i] || tail[i] == 0
  }

  /** Too short for a header, nothing but zeros, or a length that reaches the end of the file. */
  predicate LengthReaches(tail: bytes) {
    |tail| < REPLAY_HEADER || AllZero(tail) || (Value(tail[..4]) > 0 && REPLAY_HEADER + Value(tail[..4]) >= |tail|)
  }

  /** What a power loss leaves of the one append in flight, whichever bytes landed, as long as its length did or none did. */
  ghost predicate CrashTail(w: Wire, tail: bytes) {
    || (AllZero(tail) && |tail| <= MAX_FRAME)
    || exists r :: Storable(w, r) && PartlyWritten(Frame(w, r), tail) && LengthReaches(tail) && !ReadFrame(w, tail).Intact?
  }

  lemma {:induction false} ValueIsMonotone(a: bytes, b: bytes)
    requires |a| == |b| && forall i :: 0 <= i < |a| ==> a[i] <= b[i]
    ensures Value(a) <= Value(b)
  {
    if a != [] { ValueIsMonotone(a[..|a| - 1], b[..|b| - 1]); }
  }

  lemma PartlyWrittenLength(w: Wire, r: ReplayRecord, tail: bytes)
    requires Lawful(w) && Storable(w, r) && PartlyWritten(Frame(w, r), tail) && |tail| >= REPLAY_HEADER
    ensures Value(tail[..4]) <= |w.marshal(r)| <= MAX_REPLAY_RECORD
  {
    HeaderOf(w, r);
    assert Frame(w, r)[..4] == BigEndian(|w.marshal(r)|, 4);
    ValueIsMonotone(tail[..4], Frame(w, r)[..4]);
  }

  /**
   A partly written frame that does not happen to hold a record is dropped exactly when its length reaches the end of
   the file or nothing landed; otherwise the journal is reported corrupt.
   */
  lemma PartlyWrittenIsDroppedIff(w: Wire, rs: seq<ReplayRecord>, r: ReplayRecord, tail: bytes)
    requires Lawful(w) && AllStorable(w, rs) && Storable(w, r) && PartlyWritten(Frame(w, r), tail) && !ReadFrame(w, tail).Intact?
    ensures Parse(w, Frames(w, rs) + tail) == Parsed(rs, LengthReaches(tail))
  {
    ParseFrames(w, rs, tail);
    assert rs + [] == rs;
    assert |Frame(w, r)| <= MAX_FRAME;
    if |tail| >= REPLAY_HEADER {
      PartlyWrittenLength(w, r, tail);
      if AllZero(tail) { ValueOfZeros(tail[..4]); }
      hide Frame, Frames;
    }
  }

  /** A frame whose length bytes landed last, cut off before they did: the daemon does not open. */
  lemma LateLengthIsCorrupt(w: Wire, rs: seq<ReplayRecord>, r: ReplayRecord)
    requires Lawful(w) && AllStorable(w, rs) && Storable(w, r) && !AllZero(Frame(w, r)[4..])
    ensures var tail := [0, 0, 0, 0] + Frame(w, r)[4..];
            PartlyWritten(Frame(w, r), tail) && Parse(w, Frames(w, rs) + tail) == Parsed(rs, false)
  {
    var frame := Frame(w, r);
    var tail := [0, 0, 0, 0] + frame[4..];
    assert |frame| >= REPLAY_HEADER && tail[4..] == frame[4..];
    assert forall i :: 4 <= i < |tail| ==> tail[i] == tail[4..][i - 4] == frame[4..][i - 4] == frame[i];
    assert tail[..4] == [0, 0, 0, 0];
    ValueOfZeros(tail[..4]);
    var i :| 0 <= i < |frame[4..]| && frame[4..][i] != 0;
    assert tail[i + 4] != 0;
    hide Frame, Frames, Parse;
    PartlyWrittenIsDroppedIff(w, rs, r, tail);
  }

  /** A write cut short leaves such a tail. */
  lemma PrefixIsCrashTail(w: Wire, r: ReplayRecord, tail: bytes)
    requires Lawful(w) && Storable(w, r) && tail < Frame(w, r)
    ensures CrashTail(w, tail)
  {
    HeaderOf(w, r);
    assert w.marshal(r) != [];
    if |tail| >= REPLAY_HEADER {
      assert tail[..4] == Frame(w, r)[..4] == BigEndian(|w.marshal(r)|, 4);
    }
    assert PartlyWritten(Frame(w, r), tail) && LengthReaches(tail) && !ReadFrame(w, tail).Intact?;
  }

  lemma CrashTailIsDropped(w: Wire, tail: bytes)
    requires Lawful(w) && CrashTail(w, tail)
    ensures Parse(w, tail) == Parsed([], true)
  {
    if !(AllZero(tail) && |tail| <= MAX_FRAME) {
      var r :| Storable(w, r) && PartlyWritten(Frame(w, r), tail) && LengthReaches(tail) && !ReadFrame(w, tail).Intact?;
      PartlyWrittenIsDroppedIff(w, [], r, tail);
      assert Frames(w, []) + tail == tail;
    } else if |tail| >= REPLAY_HEADER {
      ValueOfZeros(tail[..4]);
    }
  }

  lemma {:induction false} ValueOfZeros(b: bytes)
    requires AllZero(b)
    ensures Value(b) == 0
  {
    if b != [] {
      ValueOfZeros(b[..|b| - 1]);
    }
  }

  /** A journal of whole frames and at most one crash tail reads back as exactly its records. */
  lemma ReadsBackJournal(w: Wire, rs: seq<ReplayRecord>, tail: bytes)
    requires Lawful(w) && AllStorable(w, rs) && CrashTail(w, tail)
    ensures Parse(w, Frames(w, rs) + tail) == Parsed(rs, true)
  {
    ParseFrames(w, rs, tail);
    CrashTailIsDropped(w, tail);
  }

  ghost predicate IntactPayload(w: Wire, payload: bytes, r: ReplayRecord) {
    && 0 < |payload| <= MAX_REPLAY_RECORD
    && w.unmarshal(payload) == Some(r)
    && r.keyId != "" && r.requestId != ""
  }

  function RawFrames(w: Wire, payloads: seq<bytes>): bytes {
    if payloads == [] then [] else RawFrame(w, payloads[0]) + RawFrames(w, payloads[1..])
  }

  ghost predicate Decode(w: Wire, payloads: seq<bytes>, rs: seq<ReplayRecord>) {
    |payloads| == |rs| && forall i :: 0 <= i < |rs| ==> IntactPayload(w, payloads[i], rs[i])
  }

  /**
   Whenever a read succeeds, the file is intact frames holding exactly the records
   returned, then at most one maximum-size frame of bytes that are not an intact frame.
   */
  lemma {:induction false} AcceptedJournalShape(w: Wire, data: bytes) returns (payloads: seq<bytes>, tail: bytes)
    requires Parse(w, data).ok
    ensures data == RawFrames(w, payloads) + tail
    ensures Decode(w, payloads, Parse(w, data).recs)
    ensures |tail| <= MAX_FRAME && (tail != [] ==> ReadFrame(w, tail) == Torn)
  {
    hide ReadFrame, RawFrame, IntactPayload;
    payloads, tail := [], data;
    if data != [] && ReadFrame(w, data).Intact? {
      var Intact(rec, size) := ReadFrame(w, data);
      var rest;
      rest, tail := AcceptedJournalShape(w, data[size..]);
      payloads := [data[REPLAY_HEADER..size]] + rest;
      RebuildsFrame(w, data, payloads[0]);
      PrependFrame(w, data, size, payloads, tail);
      assert Parse(w, data).recs == [rec] + Parse(w, data[size..]).recs;
    }
  }

  lemma PrependFrame(w: Wire, data: bytes, size: nat, payloads: seq<bytes>, tail: bytes)
    requires payloads != [] && size <= |data| && data[..size] == RawFrame(w, payloads[0])
    requires data[size..] == RawFrames(w, payloads[1..]) + tail
    ensures data == RawFrames(w, payloads) + tail
  {
    hide RawFrame;
    assert data == data[..size] + data[size..];
  }

  lemma RebuildsFrame(w: Wire, data: bytes, payload: bytes)
    requires ReadFrame(w, data).Intact? && payload == data[REPLAY_HEADER..ReadFrame(w, data).size]
    ensures RawFrame(w, payload) == data[..ReadFrame(w, data).size]
    ensures IntactPayload(w, payload, ReadFrame(w, data).rec)
  {
    BigEndianOfValue(data[..4]);
    BigEndianOfValue(data[4..8]);
  }

  lemma {:induction false} BigEndianOfValue(b: bytes)
    ensures BigEndian(Value(b), |b|) == b
  {
    if b != [] {
      BigEndianOfValue(b[..|b| - 1]);
    }
  }

  // ---- an append after a failed one -------------------------------------------

  /**
   append does not cut a partial write back, so a later append follows it. Unless
   the spliced bytes happen to form a record of their own, the read stops at the
   tear: the records acknowledged after it come back exactly when there are none.
   */
  lemma RecoversAfterTearIffNothingFollows(w: Wire, rs: seq<ReplayRecord>, part: bytes, later: seq<ReplayRecord>)
    requires Lawful(w) && AllStorable(w, rs) && AllStorable(w, later)
    requires part != [] && CrashTail(w, part)
    requires !ReadFrame(w, part + Frames(w, later)).Intact?
    ensures Parse(w, Frames(w, rs) + part + Frames(w, later)).recs == rs
    ensures Parse(w, Frames(w, rs) + part + Frames(w, later)).recs == rs + later <==> later == []
  {
    var rest := part + Frames(w, later);
    assert Frames(w, rs) + part + Frames(w, later) == Frames(w, rs) + rest;
    ParseFrames(w, rs, rest);
  }

  /**
   When the splice is still shorter than the frame whose write failed, the read
   succeeds and the acknowledged record is silently gone.
   */
  lemma AcknowledgedAfterTearIsLost(w: Wire, rs: seq<ReplayRecord>, failed: ReplayRecord, cut: nat, acked: ReplayRecord)
    requires Lawful(w) && AllStorable(w, rs) && Storable(w, failed) && Storable(w, acked)
    requires REPLAY_HEADER <= cut && cut + |Frame(w, acked)| < |Frame(w, failed)|
    ensures Parse(w, Frames(w, rs) + Frame(w, failed)[..cut] + Frame(w, acked)) == Parsed(rs, true)
  {
    var part := Frame(w, failed)[..cut];
    var rest := part + Frame(w, acked);
    HeaderOf(w, failed);
    assert rest[..4] == Frame(w, failed)[..4] == BigEndian(|w.marshal(failed)|, 4);
    assert Frames(w, rs) + part + Frame(w, acked) == Frames(w, rs) + rest;
    ParseFrames(w, rs, rest);
  }
}
