/** What the access protocol signs: length-framed parts under a tag, and time-ordered request ids. */
module Framing {
  import opened Bytes
  import opened Text

  const WORD := 0x1_0000_0000_0000_0000

  /** Each part behind its 8-byte length. */
  function Framed(parts: seq<bytes>): bytes {
    if parts == [] then [] else BigEndian(|parts[0]|, 8) + parts[0] + Framed(parts[1..])
  }

  /** framed and signingBytes, part by part. */
  method Frame(parts: seq<bytes>) returns (out: bytes)
    ensures out == Framed(parts)
  {
    hide BigEndian;
    out := [];
    for i := 0 to |parts|
      invariant out + Framed(parts[i..]) == Framed(parts)
    {
      assert parts[i..][1..] == parts[i + 1..];
      var size := BigEndian(|parts[i]|, 8);
      out := out + size + parts[i];
    }
  }

  /** Every length fits the 64-bit word it is written as. */
  ghost predicate Fits(parts: seq<bytes>) {
    forall p :: p in parts ==> |p| < WORD
  }

  /** Framing is injective on lists of any length: no two part lists share an encoding. */
  lemma {:induction false} FramedInjective(ps: seq<bytes>, qs: seq<bytes>)
    requires Fits(ps) && Fits(qs) && Framed(ps) == Framed(qs)
    ensures ps == qs
    decreases |ps|
  {
    assert (ps != [] ==> |Framed(ps)| >= 8) && (qs != [] ==> |Framed(qs)| >= 8);
    if ps != [] {
      assert ps[0] in ps && qs[0] in qs;
      FirstPart(ps);
      FirstPart(qs);
      assert Fits(ps[1..]) && Fits(qs[1..]);
      FramedInjective(ps[1..], qs[1..]);
      assert ps == [ps[0]] + ps[1..] && qs == [qs[0]] + qs[1..];
    }
  }

  lemma FirstPart(ps: seq<bytes>)
    requires ps != [] && |ps[0]| < WORD
    ensures |Framed(ps)| >= 8 + |ps[0]| && Value(Framed(ps)[..8]) == |ps[0]|
    ensures Framed(ps)[8..8 + |ps[0]|] == ps[0] && Framed(ps)[8 + |ps[0]|..] == Framed(ps[1..])
  {
    WordSizes();
    ValueOfBigEndian(|ps[0]|, 8);
    assert Framed(ps)[..8] == BigEndian(|ps[0]|, 8);
  }

  // ---- messages -----------------------------------------------------------------------------

  ghost predicate IsAscii(s: string) {
    forall i :: 0 <= i < |s| ==> s[i] as int < 128
  }

  function Code(c: char): byte {
    if c as int < 128 then c as int else 0
  }

  /** The bytes of an ASCII string. */
  function Ascii(s: string): (b: bytes)
    ensures |b| == |s| && forall i :: 0 <= i < |s| ==> b[i] == Code(s[i])
  {
    seq(|s|, i requires 0 <= i < |s| => Code(s[i]))
  }

  lemma AsciiInjective(s: string, t: string)
    requires IsAscii(s) && IsAscii(t) && Ascii(s) == Ascii(t)
    ensures s == t
  {
    assert |s| == |Ascii(s)| == |Ascii(t)| == |t|;
    forall i | 0 <= i < |s| ensures s[i] == t[i] {
      assert Ascii(s)[i] == Code(s[i]) && Ascii(t)[i] == Code(t[i]);
    }
  }

  lemma DecimalIsAscii(n: nat)
    ensures IsAscii(Decimal(n))
  {
    assert forall i :: 0 <= i < |Decimal(n)| ==> Decimal(n)[i] in Decimal(n);
  }

  lemma NumbersAreAscii(i: int)
    ensures IsAscii(SignedDecimal(i)) && (i >= 0 ==> IsAscii(Decimal(i)))
  {
    DecimalIsAscii(if i < 0 then -i else i);
  }

  /** fmt.Sprint of an integer. */
  function Number(i: int): bytes {
    Ascii(SignedDecimal(i))
  }

  lemma NumberInjective(i: int, j: int)
    requires Number(i) == Number(j)
    ensures i == j
  {
    NumbersAreAscii(i);
    NumbersAreAscii(j);
    AsciiInjective(SignedDecimal(i), SignedDecimal(j));
    SignedDecimalInjective(i, j);
  }

  const REQUEST_TAG := "amux-access-request-v1"
  const CHALLENGE_TAG := "amux-daemon-challenge-v1"
  const PROOF_TAG := "amux-daemon-client-proof-v1"

  datatype SignedRequest = SignedRequest(
    bootId: bytes, keyId: bytes, generation: nat, requestId: bytes, issuedAt: int, expiresAt: int, body: bytes)

  datatype Challenge = Challenge(bootId: bytes, nonce: bytes, issuerKeyId: bytes)

  datatype Proof = Proof(keyId: bytes, generation: nat, clientNonce: bytes)

  /** sha stands for SHA-256. */
  function RequestParts(r: SignedRequest, sha: bytes -> bytes): seq<bytes> {
    [Ascii(REQUEST_TAG), r.bootId, r.keyId, Number(r.generation), r.requestId, Number(r.issuedAt), Number(r.expiresAt), sha(r.body)]
  }

  function ChallengeParts(c: Challenge): seq<bytes> {
    [Ascii(CHALLENGE_TAG), c.bootId, c.nonce, c.issuerKeyId]
  }

  function ProofParts(c: Challenge, p: Proof, sha: bytes -> bytes): seq<bytes> {
    [Ascii(PROOF_TAG), HexBytes(sha(Framed(ChallengeParts(c)))), p.keyId, Number(p.generation), p.clientNonce]
  }

  /** Two requests with the same signing bytes are the same request, up to bodies with the same digest. */
  lemma SignatureBindsRequest(r: SignedRequest, s: SignedRequest, sha: bytes -> bytes)
    requires Fits(RequestParts(r, sha)) && Fits(RequestParts(s, sha))
    requires Framed(RequestParts(r, sha)) == Framed(RequestParts(s, sha))
    ensures s == r.(body := s.body) && sha(r.body) == sha(s.body)
  {
    var ps, qs := RequestParts(r, sha), RequestParts(s, sha);
    FramedInjective(ps, qs);
    assert ps[1] == qs[1] && ps[2] == qs[2] && ps[3] == qs[3] && ps[4] == qs[4] && ps[5] == qs[5] && ps[6] == qs[6] && ps[7] == qs[7];
    NumberInjective(r.generation, s.generation);
    NumberInjective(r.issuedAt, s.issuedAt);
    NumberInjective(r.expiresAt, s.expiresAt);
  }

  /** Two proofs with the same signing bytes prove the same key, generation and nonces. */
  lemma SignatureBindsProof(c: Challenge, p: Proof, d: Challenge, q: Proof, sha: bytes -> bytes)
    requires Fits(ProofParts(c, p, sha)) && Fits(ProofParts(d, q, sha)) && Fits(ChallengeParts(c)) && Fits(ChallengeParts(d))
    requires Framed(ProofParts(c, p, sha)) == Framed(ProofParts(d, q, sha))
    ensures p == q && sha(Framed(ChallengeParts(c))) == sha(Framed(ChallengeParts(d)))
    ensures c == d || Framed(ChallengeParts(c)) != Framed(ChallengeParts(d))
  {
    hide Framed, Fits, Number, Ascii, HexBytes;
    var ps, qs := ProofParts(c, p, sha), ProofParts(d, q, sha);
    FramedInjective(ps, qs);
    assert ps[1] == qs[1] && ps[2] == qs[2] && ps[3] == qs[3] && ps[4] == qs[4];
    NumberInjective(p.generation, q.generation);
    HexBytesInjective(sha(Framed(ChallengeParts(c))), sha(Framed(ChallengeParts(d))));
    if Framed(ChallengeParts(c)) == Framed(ChallengeParts(d)) {
      var us, vs := ChallengeParts(c), ChallengeParts(d);
      FramedInjective(us, vs);
      assert us[1] == vs[1] && us[2] == vs[2] && us[3] == vs[3];
    }
  }

  /** A signature for one kind of message is never one for another. */
  lemma KindsNeverCollide(r: SignedRequest, c: Challenge, d: Challenge, p: Proof, sha: bytes -> bytes)
    requires Fits(RequestParts(r, sha)) && Fits(ChallengeParts(c)) && Fits(ProofParts(d, p, sha))
    ensures Framed(RequestParts(r, sha)) != Framed(ChallengeParts(c))
    ensures Framed(RequestParts(r, sha)) != Framed(ProofParts(d, p, sha))
    ensures Framed(ChallengeParts(c)) != Framed(ProofParts(d, p, sha))
  {
    hide Framed, Fits, Ascii, Number, HexBytes;
    CountsSeparate(RequestParts(r, sha), ChallengeParts(c));
    CountsSeparate(RequestParts(r, sha), ProofParts(d, p, sha));
    CountsSeparate(ChallengeParts(c), ProofParts(d, p, sha));
  }

  lemma CountsSeparate(ps: seq<bytes>, qs: seq<bytes>)
    requires Fits(ps) && Fits(qs) && |ps| != |qs|
    ensures Framed(ps) != Framed(qs)
  {
    if Framed(ps) == Framed(qs) { FramedInjective(ps, qs); }
  }

  // ---- request ids ----------------------------------------------------------------------------

  const DIGITS := "0123456789abcdef"

  function HexDigit(n: nat): (c: char)
    requires n < 16
    ensures c as int < 128
  {
    DIGITS[n]
  }

  lemma HexDigitsAreOrdered(m: nat, n: nat)
    requires m < 16 && n < 16
    ensures HexDigit(m) < HexDigit(n) <==> m < n
    ensures HexDigit(m) == HexDigit(n) <==> m == n
  {
  }

  /** hex.EncodeToString */
  function Hex(b: bytes): (s: string)
    ensures |s| == 2 * |b| && IsAscii(s)
  {
    if b == [] then "" else [HexDigit(b[0] / 16), HexDigit(b[0] % 16)] + Hex(b[1..])
  }

  function HexBytes(b: bytes): bytes {
    Ascii(Hex(b))
  }

  lemma HexBytesInjective(a: bytes, b: bytes)
    requires HexBytes(a) == HexBytes(b)
    ensures a == b
  {
    AsciiInjective(Hex(a), Hex(b));
    HexInjective(a, b);
  }

  lemma HexHead(b: bytes)
    requires b != []
    ensures Hex(b)[0] == HexDigit(b[0] / 16) && Hex(b)[1] == HexDigit(b[0] % 16) && Hex(b)[2..] == Hex(b[1..])
  {
  }

  lemma {:induction false} HexInjective(a: bytes, b: bytes)
    requires Hex(a) == Hex(b)
    ensures a == b
  {
    assert |a| == |b|;
    hide Hex, HexDigit, IsAscii;
    if a != [] {
      HexHead(a);
      HexHead(b);
      HexDigitsAreOrdered(a[0] / 16, b[0] / 16);
      HexDigitsAreOrdered(a[0] % 16, b[0] % 16);
      HexInjective(a[1..], b[1..]);
      assert a == [a[0]] + a[1..] && b == [b[0]] + b[1..];
    }
  }

  /** The first place the two differ, a is the smaller. */
  ghost predicate Lower(a: bytes, b: bytes) {
    exists i: nat :: LowerAt(a, b, i)
  }

  predicate LowerAt(a: bytes, b: bytes, i: nat) {
    i < |a| && i < |b| && a[..i] == b[..i] && a[i] < b[i]
  }

  lemma {:induction false} HexKeepsOrder(a: bytes, b: bytes, i: nat)
    requires LowerAt(a, b, i)
    ensures Before(Hex(a), Hex(b))
    decreases i
  {
    HexDigitsAreOrdered(a[0] / 16, b[0] / 16);
    HexDigitsAreOrdered(a[0] % 16, b[0] % 16);
    var head := [HexDigit(a[0] / 16), HexDigit(a[0] % 16)];
    if i == 0 {
      assert Hex(a)[1..][0] == HexDigit(a[0] % 16) && Hex(b)[1..][0] == HexDigit(b[0] % 16);
    } else {
      assert a[0] == a[..i][0] == b[..i][0] == b[0];
      assert a[1..][..i - 1] == a[..i][1..] && b[1..][..i - 1] == b[..i][1..];
      HexKeepsOrder(a[1..], b[1..], i - 1);
      BeforeAfterPrefix(head, Hex(a[1..]), Hex(b[1..]));
    }
  }

  lemma LowerExtends(a: bytes, b: bytes, x: bytes, y: bytes)
    requires Lower(a, b)
    ensures Lower(a + x, b + y)
  {
    var i: nat :| LowerAt(a, b, i);
    assert (a + x)[..i] == a[..i] && (b + y)[..i] == b[..i];
    assert LowerAt(a + x, b + y, i);
  }

  lemma {:induction false} BigEndianKeepsOrder(m: nat, n: nat, k: nat)
    requires m < n < Pow256(k)
    ensures Lower(BigEndian(m, k), BigEndian(n, k))
    decreases k
  {
    var p, q := BigEndian(m / 256, k - 1), BigEndian(n / 256, k - 1);
    if m / 256 < n / 256 {
      BigEndianKeepsOrder(m / 256, n / 256, k - 1);
      LowerExtends(p, q, [m % 256], [n % 256]);
    } else {
      var a, b := BigEndian(m, k), BigEndian(n, k);
      assert a[..k - 1] == p && b[..k - 1] == q;
      assert LowerAt(a, b, k - 1);
    }
  }

  const TIME := 0x1_0000_0000_0000

  /** The low 48 bits of a 64-bit millisecond count. */
  function IssueTime(ms: int): nat {
    ms % TIME
  }

  /** The id SignRequest gives a request issued at ms with ten random bytes. */
  function RequestId(ms: int, random: bytes): string
    requires |random| == 10
  {
    Hex(BigEndian(IssueTime(ms), 6) + random)
  }

  /** SignRequest's nonce, filled from its last time byte backwards. */
  method NewRequestId(ms: int, random: bytes) returns (id: string)
    requires |random| == 10
    ensures id == RequestId(ms, random) && |id| == 32
  {
    var nonce := new byte[16](_ => 0);
    forall i | 0 <= i < 10 { nonce[6 + i] := random[i]; }
    var issued: nat := ms % WORD;
    assert issued % TIME == IssueTime(ms) by { WordResidue(ms); }
    ghost var whole := issued;
    LowBytes(whole, 6);
    var i := 6;
    while i > 0
      invariant 0 <= i <= 6
      invariant nonce[6..] == random
      invariant BigEndian(issued, i) + nonce[i..6] == BigEndian(whole, 6)
    {
      i := i - 1;
      ghost var tail := nonce[i + 1..6];
      nonce[i] := issued % 256;
      assert nonce[i..6] == [issued % 256] + tail;
      issued := issued / 256;
    }
    assert nonce[0..6] == BigEndian(whole, 6);
    assert nonce[..] == nonce[0..6] + nonce[6..] == BigEndian(IssueTime(ms), 6) + random;
    id := Hex(nonce[..]);
  }

  lemma WordResidue(ms: int)
    ensures (ms % WORD) % TIME == ms % TIME
  {
    var q, r := ms / WORD, ms % WORD;
    assert ms == (q * 0x1_0000) * TIME + r;
    ResidueAfter(q * 0x1_0000, r);
  }

  lemma ResidueAfter(q: int, r: int)
    ensures (q * TIME + r) % TIME == r % TIME
  {
    var x := q * TIME + r;
    assert x == (q + r / TIME) * TIME + r % TIME;
  }

  /** The k low-order bytes see only the residue. */
  lemma LowBytes(n: nat, k: nat)
    requires k == 6
    ensures BigEndian(n, 6) == BigEndian(n % TIME, 6)
  {
    WordSizes();
    LowBytesOf(n, n % TIME, 6);
  }

  lemma {:induction false} LowBytesOf(n: nat, m: nat, k: nat)
    requires n % Pow256(k) == m % Pow256(k)
    ensures BigEndian(n, k) == BigEndian(m, k)
    decreases k
  {
    if k > 0 {
      Quotients(n, Pow256(k - 1));
      Quotients(m, Pow256(k - 1));
      LowBytesOf(n / 256, m / 256, k - 1);
    }
  }

  lemma Quotients(n: nat, p: nat)
    requires p > 0
    ensures n % (256 * p) == ((n / 256) % p) * 256 + n % 256
  {
    var q, r := n / 256, n % 256;
    var a, b := q / p, q % p;
    assert q == a * p + b;
    assert n == 256 * (a * p + b) + r == a * (256 * p) + (b * 256 + r);
    assert 0 <= b * 256 + r < 256 * p;
    DivisionIsUnique(n, 256 * p, a, b * 256 + r);
  }

  lemma DivisionIsUnique(n: int, d: int, q: int, r: int)
    requires d > 0 && 0 <= r < d && n == q * d + r
    ensures n % d == r
  {
    var k := q - n / d;
    assert n == d * (n / d) + n % d;
    assert k * d == n % d - r;
    MultiplesAreFar(k, d);
  }

  lemma MultiplesAreFar(k: int, d: int)
    requires d > 0
    ensures k >= 1 ==> k * d >= d
    ensures k <= -1 ==> k * d <= -d
    ensures k == 0 ==> k * d == 0
  {
  }

  /** Ids sort by the 48-bit issue time, whatever their random parts. */
  lemma IdsSortByIssueTime(a: int, b: int, ra: bytes, rb: bytes)
    requires |ra| == 10 && |rb| == 10 && IssueTime(a) != IssueTime(b)
    ensures Before(RequestId(a, ra), RequestId(b, rb)) <==> IssueTime(a) < IssueTime(b)
  {
    if IssueTime(a) < IssueTime(b) {
      LaterSortsAfter(a, b, ra, rb);
    } else {
      LaterSortsAfter(b, a, rb, ra);
      BeforeTotal(RequestId(a, ra), RequestId(b, rb));
    }
  }

  lemma LaterSortsAfter(a: int, b: int, ra: bytes, rb: bytes)
    requires |ra| == 10 && |rb| == 10 && IssueTime(a) < IssueTime(b)
    ensures Before(RequestId(a, ra), RequestId(b, rb))
  {
    WordSizes();
    var x, y := BigEndian(IssueTime(a), 6), BigEndian(IssueTime(b), 6);
    BigEndianKeepsOrder(IssueTime(a), IssueTime(b), 6);
    LowerExtends(x, y, ra, rb);
    var i: nat :| LowerAt(x + ra, y + rb, i);
    HexKeepsOrder(x + ra, y + rb, i);
  }

  /** So requests issued at increasing times before the count overflows 48 bits are served first in, first out. */
  lemma IdsAreFifo(a: int, b: int, ra: bytes, rb: bytes)
    requires |ra| == 10 && |rb| == 10 && 0 <= a < b < TIME
    ensures Before(RequestId(a, ra), RequestId(b, rb))
  {
    LaterSortsAfter(a, b, ra, rb);
  }
}
