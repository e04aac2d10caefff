/**
 Unpadded base64url (section 5 of RFC 4648) as Go's encoding/base64 has it: the decoder skips line breaks and does not
 look at the unused low bits of the last character.
 */
module Base64Url {
  import opened Prelude

  type Byte = b: nat | b < 256
  type Sextet = v: nat | v < 64

  function Letter(v: Sextet): char {
    if v < 26 then 'A' + v as char
    else if v < 52 then 'a' + (v - 26) as char
    else if v < 62 then '0' + (v - 52) as char
    else if v == 62 then '-' else '_'
  }

  function Value(c: char): Option<Sextet> {
    if 'A' <= c <= 'Z' then Some((c - 'A') as nat)
    else if 'a' <= c <= 'z' then Some((c - 'a') as nat + 26)
    else if '0' <= c <= '9' then Some((c - '0') as nat + 52)
    else if c == '-' then Some(62)
    else if c == '_' then Some(63)
    else None
  }

  lemma LettersAreValues(v: Sextet, c: char)
    ensures Value(Letter(v)) == Some(v)
    ensures Value(c).Some? ==> Letter(Value(c).value) == c
  {}

  // ---- bytes to sextets and back ----

  function S0(b0: Byte): Sextet { b0 / 4 }
  function S1(b0: Byte, b1: Byte): Sextet { b0 % 4 * 16 + b1 / 16 }
  function S2(b1: Byte, b2: Byte): Sextet { b1 % 16 * 4 + b2 / 64 }
  function S3(b2: Byte): Sextet { b2 % 64 }

  function B0(v0: Sextet, v1: Sextet): Byte { v0 * 4 + v1 / 16 }
  function B1(v1: Sextet, v2: Sextet): Byte { v1 % 16 * 16 + v2 / 4 }
  function B2(v2: Sextet, v3: Sextet): Byte { v2 % 4 * 64 + v3 }

  lemma BytesBack(b0: Byte, b1: Byte, b2: Byte)
    ensures B0(S0(b0), S1(b0, b1)) == b0
    ensures B1(S1(b0, b1), S2(b1, b2)) == b1
    ensures B2(S2(b1, b2), S3(b2)) == b2
  {}

  lemma SextetsBack(v0: Sextet, v1: Sextet, v2: Sextet, v3: Sextet)
    ensures S0(B0(v0, v1)) == v0
    ensures S1(B0(v0, v1), B1(v1, v2)) == v1
    ensures S2(B1(v1, v2), B2(v2, v3)) == v2
    ensures S3(B2(v2, v3)) == v3
  {}

  lemma LastSextet(v0: Sextet, v1: Sextet, v2: Sextet)
    ensures S1(B0(v0, v1), 0) == v1 - v1 % 16
    ensures S2(B1(v1, v2), 0) == v2 - v2 % 4
  {}

  function Pack(b: seq<Byte>): seq<Sextet> {
    if |b| == 0 then []
    else if |b| == 1 then [S0(b[0]), S1(b[0], 0)]
    else if |b| == 2 then [S0(b[0]), S1(b[0], b[1]), S2(b[1], 0)]
    else [S0(b[0]), S1(b[0], b[1]), S2(b[1], b[2]), S3(b[2])] + Pack(b[3..])
  }

  function ByteAt(b: seq<Byte>, k: nat): Byte {
    if k < |b| then b[k] else 0
  }

  function SextetAt(v: seq<Sextet>, k: nat): Sextet {
    if k < |v| then v[k] else 0
  }

  lemma SameNumber(b0: Byte, b1: Byte, b2: Byte)
    ensures b0 * 0x1_0000 + b1 * 0x100 + b2
            == S0(b0) * 0x4_0000 + S1(b0, b1) * 0x1000 + S2(b1, b2) * 0x40 + S3(b2)
  {}

  /** Each three bytes and their four sextets are the same 24 bits, with zeros where either run out. */
  lemma {:induction false} SameBits(b: seq<Byte>, i: nat)
    requires 3 * i < |b|
    ensures var v, j, k := Pack(b), 3 * i, 4 * i;
            ByteAt(b, j) * 0x1_0000 + ByteAt(b, j + 1) * 0x100 + ByteAt(b, j + 2)
            == SextetAt(v, k) * 0x4_0000 + SextetAt(v, k + 1) * 0x1000 + SextetAt(v, k + 2) * 0x40 + SextetAt(v, k + 3)
  {
    hide S0, S1, S2, S3;
    SameNumber(ByteAt(b, 0), ByteAt(b, 1), ByteAt(b, 2));
    NothingLeft();
    if i > 0 {
      SameBits(b[3..], i - 1);
      assert Pack(b)[4..] == Pack(b[3..]);
    }
  }

  lemma NothingLeft()
    ensures S2(0, 0) == 0 && S3(0) == 0
  {}

  function Unpack(v: seq<Sextet>): Option<seq<Byte>> {
    if |v| == 0 then Some([])
    else if |v| == 1 then None
    else if |v| == 2 then Some([B0(v[0], v[1])])
    else if |v| == 3 then Some([B0(v[0], v[1]), B1(v[1], v[2])])
    else match Unpack(v[4..])
      case None => None
      case Some(rest) => Some([B0(v[0], v[1]), B1(v[1], v[2]), B2(v[2], v[3])] + rest)
  }

  lemma {:induction false} UnpackPack(b: seq<Byte>)
    ensures Unpack(Pack(b)) == Some(b)
  {
    hide S0, S1, S2, S3, B0, B1, B2;
    if |b| == 1 {
      BytesBack(b[0], 0, 0);
      assert b == [b[0]];
    } else if |b| == 2 {
      BytesBack(b[0], b[1], 0);
      assert b == [b[0], b[1]];
    } else if |b| >= 3 {
      UnpackPack(b[3..]);
      BytesBack(b[0], b[1], b[2]);
      assert Pack(b)[4..] == Pack(b[3..]);
      assert b == [b[0], b[1], b[2]] + b[3..];
    }
  }

  /** The unused low bits of the last sextet are zero. */
  predicate Canonical(v: seq<Sextet>) {
    match |v| % 4
    case 2 => v[|v| - 1] % 16 == 0
    case 3 => v[|v| - 1] % 4 == 0
    case _ => true
  }

  lemma CanonicalTail(v: seq<Sextet>)
    requires |v| >= 4
    ensures Canonical(v[4..]) == Canonical(v)
  {
    FourLess(|v|);
  }

  lemma FourLess(n: nat)
    requires n >= 4
    ensures (n - 4) % 4 == n % 4
  {}

  lemma {:induction false} UnpackFails(v: seq<Sextet>)
    ensures Unpack(v).None? <==> |v| % 4 == 1
  {
    hide B0, B1, B2;
    if |v| >= 4 {
      var tail := v[4..];
      UnpackFails(tail);
      FourLess(|v|);
      assert Unpack(v).None? == Unpack(tail).None?;
    }
  }

  lemma UnpackGroup(v: seq<Sextet>)
    requires |v| >= 4 && Unpack(v).Some?
    ensures Unpack(v[4..]).Some?
    ensures Pack(Unpack(v).value) == [v[0], v[1], v[2], v[3]] + Pack(Unpack(v[4..]).value)
  {
    hide S0, S1, S2, S3, B0, B1, B2;
    SextetsBack(v[0], v[1], v[2], v[3]);
    assert Unpack(v).value[3..] == Unpack(v[4..]).value;
  }

  lemma {:induction false} PackUnpack(v: seq<Sextet>)
    requires Unpack(v).Some?
    ensures Pack(Unpack(v).value) == v <==> Canonical(v)
    decreases |v|, 1
  {
    hide S0, S1, S2, S3, B0, B1, B2;
    if |v| == 2 {
      SextetsBack(v[0], v[1], 0, 0);
      LastSextet(v[0], v[1], 0);
    } else if |v| == 3 {
      SextetsBack(v[0], v[1], v[2], 0);
      LastSextet(v[0], v[1], v[2]);
    } else if |v| >= 4 {
      PackUnpackGroup(v);
    }
  }

  lemma PackUnpackGroup(v: seq<Sextet>)
    requires |v| >= 4 && Unpack(v).Some?
    ensures Pack(Unpack(v).value) == v <==> Canonical(v)
    decreases |v|, 0
  {
    hide Pack, Unpack, Canonical;
    var head, tail := [v[0], v[1], v[2], v[3]], v[4..];
    UnpackGroup(v);
    PackUnpack(tail);
    CanonicalTail(v);
    SameTail(head, Pack(Unpack(tail).value), tail);
    assert v == head + tail;
  }

  // ---- text ----

  function Letters(v: seq<Sextet>): string {
    seq(|v|, i requires 0 <= i < |v| => Letter(v[i]))
  }

  function Values(s: string): Option<seq<Sextet>> {
    if s == [] then Some([])
    else if Value(s[0]).None? then None
    else match Values(s[1..])
      case None => None
      case Some(rest) => Some([Value(s[0]).value] + rest)
  }

  function WithoutBreaks(s: string): string {
    if s == [] then [] else (if s[0] in {'\r', '\n'} then [] else [s[0]]) + WithoutBreaks(s[1..])
  }

  function Encode(b: seq<Byte>): string {
    Letters(Pack(b))
  }

  function Decode(s: string): Option<seq<Byte>> {
    match Values(WithoutBreaks(s))
    case None => None
    case Some(v) => Unpack(v)
  }

  lemma {:induction false} ValuesOfLetters(v: seq<Sextet>)
    ensures WithoutBreaks(Letters(v)) == Letters(v) && Values(Letters(v)) == Some(v)
  {
    if v != [] {
      ValuesOfLetters(v[1..]);
      LettersAreValues(v[0], 'A');
      assert Letters(v) == [Letter(v[0])] + Letters(v[1..]);
      assert v == [v[0]] + v[1..];
    }
  }

  lemma {:induction false} LettersOfValues(s: string)
    requires Values(s).Some?
    ensures |Values(s).value| == |s| && Letters(Values(s).value) == s
  {
    if s != [] {
      LettersOfValues(s[1..]);
      LettersAreValues(0, s[0]);
    }
  }

  lemma RoundTrip(b: seq<Byte>)
    ensures Decode(Encode(b)) == Some(b)
  {
    ValuesOfLetters(Pack(b));
    UnpackPack(b);
  }

  lemma EncodeInjective(a: seq<Byte>, b: seq<Byte>)
    requires Encode(a) == Encode(b)
    ensures a == b
  {
    RoundTrip(a);
    RoundTrip(b);
  }

  lemma {:induction false} BreaksGoAway(s: string)
    ensures WithoutBreaks(s) == s <==> '\r' !in s && '\n' !in s
    ensures |WithoutBreaks(s)| <= |s|
  {
    if s != [] { BreaksGoAway(s[1..]); }
  }

  /** A text that decodes is the encoding of what it decodes to exactly when it has no line break and no stray bits. */
  lemma CanonicalIff(s: string)
    requires Decode(s).Some?
    ensures Encode(Decode(s).value) == s
            <==> '\r' !in s && '\n' !in s && Canonical(Values(WithoutBreaks(s)).value)
  {
    var v := Values(WithoutBreaks(s)).value;
    PackUnpack(v);
    LettersOfValues(WithoutBreaks(s));
    BreaksGoAway(s);
    ValuesOfLetters(Pack(Decode(s).value));
  }

  /** No separator of any token format occurs in an encoding, but for the underscore. */
  lemma EncodingIsClean(b: seq<Byte>)
    ensures forall c <- Encode(b) :: Value(c).Some?
    ensures '.' !in Encode(b) && '|' !in Encode(b)
  {
    forall i | 0 <= i < |Pack(b)| ensures Value(Encode(b)[i]).Some? { LettersAreValues(Pack(b)[i], 'A'); }
  }

  lemma {:induction false} EncodedLength(b: seq<Byte>)
    ensures |Encode(b)| == (|b| * 4 + 2) / 3
  {
    if |b| >= 3 { EncodedLength(b[3..]); }
  }
}
