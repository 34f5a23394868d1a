/** Unpadded base64url, section 5 of RFC 4648. */
module Base64 {
  import opened Bytes

  function Letter(v: nat): (c: char)
    requires v < 64
    ensures Rank(c) == Some(v)
  {
    if v < 26 then 'A' + v as char
    else if v < 52 then 'a' + (v - 26) as char
    else if v < 62 then '0' + (v - 52) as char
    else if v == 62 then '-' else '_'
  }

  function Rank(c: char): (r: Option<nat>)
    ensures r.Some? ==> r.value < 64
  {
    if 'A' <= c <= 'Z' then Some((c - 'A') as int)
    else if 'a' <= c <= 'z' then Some((c - 'a') as int + 26)
    else if '0' <= c <= '9' then Some((c - '0') as int + 52)
    else if c == '-' then Some(62)
    else if c == '_' then Some(63)
    else None
  }

  /** The four six-bit groups of three octets; a missing octet counts as zero. */
  function S0(x: byte): (v: nat) ensures v < 64 { x / 4 }
  function S1(x: byte, y: byte): (v: nat) ensures v < 64 { x % 4 * 16 + y / 16 }
  function S2(y: byte, z: byte): (v: nat) ensures v < 64 { y % 16 * 4 + z / 64 }
  function S3(z: byte): (v: nat) ensures v < 64 { z % 64 }

  function Encode(b: bytes): string {
    if |b| == 0 then ""
    else if |b| == 1 then [Letter(S0(b[0])), Letter(S1(b[0], 0))]
    else if |b| == 2 then [Letter(S0(b[0])), Letter(S1(b[0], b[1])), Letter(S2(b[1], 0))]
    else [Letter(S0(b[0])), Letter(S1(b[0], b[1])), Letter(S2(b[1], b[2])), Letter(S3(b[2]))] + Encode(b[3..])
  }

  /** The three octets of four six-bit groups. */
  function O0(v0: nat, v1: nat): byte requires v0 < 64 && v1 < 64 { v0 * 4 + v1 / 16 }
  function O1(v1: nat, v2: nat): byte requires v1 < 64 && v2 < 64 { v1 % 16 * 16 + v2 / 4 }
  function O2(v2: nat, v3: nat): byte requires v2 < 64 && v3 < 64 { v2 % 4 * 64 + v3 }

  lemma OctetsOfGroups(x: byte, y: byte, z: byte)
    ensures O0(S0(x), S1(x, y)) == x && O1(S1(x, y), S2(y, z)) == y && O2(S2(y, z), S3(z)) == z
  {
  }

  /** None for a letter outside the alphabet or a length no encoding has. */
  function Decode(s: string): Option<bytes> {
    if exists c :: c in s && Rank(c).None? then None else DecodeLetters(s)
  }

  function DecodeLetters(s: string): Option<bytes>
    requires forall c :: c in s ==> Rank(c).Some?
  {
    if |s| == 0 then Some([])
    else if |s| == 1 then None
    else
      var v0, v1 := Rank(s[0]).value, Rank(s[1]).value;
      if |s| == 2 then Some([O0(v0, v1)])
      else
        var v2 := Rank(s[2]).value;
        if |s| == 3 then Some([O0(v0, v1), O1(v1, v2)])
        else
          var v3 := Rank(s[3]).value;
          var rest := DecodeLetters(s[4..]);
          if rest.None? then None else Some([O0(v0, v1), O1(v1, v2), O2(v2, v3)] + rest.value)
  }

  lemma {:induction false} EncodesLetters(b: bytes)
    ensures forall c :: c in Encode(b) ==> Rank(c).Some?
  {
    if |b| >= 3 { EncodesLetters(b[3..]); }
  }

  lemma {:induction false} DecodesLetters(b: bytes)
    requires forall c :: c in Encode(b) ==> Rank(c).Some?
    ensures DecodeLetters(Encode(b)) == Some(b)
  {
    hide Letter, Rank, S0, S1, S2, S3, O0, O1, O2;
    if |b| == 1 {
      OctetsOfGroups(b[0], 0, 0);
      assert b == [b[0]];
    } else if |b| == 2 {
      OctetsOfGroups(b[0], b[1], 0);
      assert b == [b[0], b[1]];
    } else if |b| >= 3 {
      assert Encode(b)[4..] == Encode(b[3..]);
      assert forall c :: c in Encode(b[3..]) ==> c in Encode(b);
      DecodesLetters(b[3..]);
      OctetsOfGroups(b[0], b[1], b[2]);
      assert b == [b[0], b[1], b[2]] + b[3..];
    }
  }

  /** Decoding an encoding gives the bytes back. */
  lemma DecodeUndoesEncode(b: bytes)
    ensures Decode(Encode(b)) == Some(b)
  {
    EncodesLetters(b);
    DecodesLetters(b);
  }
}
