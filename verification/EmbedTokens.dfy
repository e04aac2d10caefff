/**
 The embed token: a JSON Web Token (section 7.1 of RFC 7515 for the three segments, section 7 of RFC 7519 for the
 claims) signed and checked by hand. The MAC and the JSON encoding are parameters.
 */
module EmbedTokens {
  import opened Prelude
  import opened Base64Url
  import opened Splitting

  const DEFAULT_TTL := 300
  const CUBE_AUDIENCE := "cube"

  /** The nil workspace id is 0, an unset time is 0. */
  datatype Claims = Claims(workspaceId: nat, audience: string, issuedAt: int, expiresAt: int)

  datatype Error = WorkspaceRequired | SecretTooShort | TooManySegments | ThreeSegmentsRequired
                 | SignatureMismatch | PayloadNotBase64 | PayloadNotJson | Expired

  type Secret = seq<Byte>

  datatype Library = Library(mac: (Secret, string) -> seq<Byte>, marshal: Claims -> seq<Byte>,
                             unmarshal: seq<Byte> -> Option<Claims>, header: seq<Byte>)
  {
    /** JSON decoding undoes encoding. */
    ghost predicate DecodesJson() {
      forall c :: unmarshal(marshal(c)) == Some(c)
    }

    /** Different keys or messages have different MACs. */
    ghost predicate IdealMac() {
      forall k, m, k', m' :: mac(k, m) == mac(k', m') ==> k == k' && m == m'
    }
  }

  // ---- the segments ----

  datatype Segments = Segments(header: string, payload: string, signature: string)

  function Join(s: Segments): string {
    s.header + "." + s.payload + "." + s.signature
  }

  function Dots(s: string): nat {
    if s == [] then 0 else Dots(s[..|s| - 1]) + if s[|s| - 1] == '.' then 1 else 0
  }

  lemma {:induction false} NoDots(s: string)
    ensures Dots(s) == 0 <==> '.' !in s
  {
    if s != [] {
      NoDots(s[..|s| - 1]);
      assert s == s[..|s| - 1] + [s[|s| - 1]];
    }
  }

  lemma {:induction false} DotsOfJoin(a: string, b: string)
    ensures Dots(a + b) == Dots(a) + Dots(b)
  {
    if b == [] {
      assert a + b == a;
    } else {
      var front := b[..|b| - 1];
      assert (a + b)[..|a + b| - 1] == a + front;
      DotsOfJoin(a, front);
    }
  }

  lemma {:induction false} MoreDots(s: string, i: nat)
    requires i <= |s|
    ensures Dots(s[..i]) <= Dots(s)
  {
    assert s == s[..i] + s[i..];
    DotsOfJoin(s[..i], s[i..]);
  }

  lemma OneMore(s: string, i: nat)
    requires i < |s|
    ensures Dots(s[..i + 1]) == Dots(s[..i]) + if s[i] == '.' then 1 else 0
  {
    assert s[..i + 1][..i] == s[..i];
  }

  /**
   The hand-written splitter accepts exactly the texts with two dots, and its three parts rejoin to the text and hold
   no dot.
   */
  method Split(token: string) returns (r: Result<Segments, Error>)
    ensures r.Ok? <==> Dots(token) == 2
    ensures r.Ok? ==> Join(r.value) == token
    ensures r.Ok? ==> '.' !in r.value.header && '.' !in r.value.payload && '.' !in r.value.signature
    ensures r == Err(TooManySegments) <==> Dots(token) > 2
    ensures r == Err(ThreeSegmentsRequired) <==> Dots(token) < 2
  {
    var header, payload := "", "";
    var parts, last := 0, 0;
    for i := 0 to |token|
      invariant parts == Dots(token[..i]) <= 2 && last <= i
      invariant '.' !in token[last..i] && '.' !in header && '.' !in payload
      invariant parts == 0 ==> last == 0
      invariant parts == 1 ==> token[..last] == header + "."
      invariant parts == 2 ==> token[..last] == header + "." + payload + "."
    {
      OneMore(token, i);
      MoreDots(token, i + 1);
      if token[i] == '.' {
        match parts {
          case 0 => header := token[last..i];
          case 1 => payload := token[last..i];
          case _ => return Err(TooManySegments);
        }
        assert token[..i + 1] == token[..last] + token[last..i] + ".";
        parts := parts + 1;
        last := i + 1;
      }
    }
    assert token[..|token|] == token;
    if parts != 2 { return Err(ThreeSegmentsRequired); }
    assert token == token[..last] + token[last..];
    return Ok(Segments(header, payload, token[last..]));
  }

  /** A text is a join of three dot-free segments in one way, and has two dots. */
  lemma JoinHasTwoDots(s: Segments)
    requires '.' !in s.header && '.' !in s.payload && '.' !in s.signature
    ensures Dots(Join(s)) == 2
  {
    NoDots(s.header); NoDots(s.payload); NoDots(s.signature);
    assert Dots(".") == 1 by { assert ['.'][..0] == []; }
    DotsOfJoin(s.header, ".");
    DotsOfJoin(s.header + ".", s.payload);
    DotsOfJoin(s.header + "." + s.payload, ".");
    DotsOfJoin(s.header + "." + s.payload + ".", s.signature);
  }

  lemma JoinIsUnique(s: Segments, t: Segments)
    requires '.' !in s.header && '.' !in s.payload && '.' !in t.header && '.' !in t.payload
    requires Join(s) == Join(t)
    ensures s == t
  {
    assert Join(s) == s.header + ['.'] + (s.payload + ['.'] + s.signature);
    assert Join(t) == t.header + ['.'] + (t.payload + ['.'] + t.signature);
    JoinInjective(s.header, s.payload + ['.'] + s.signature, t.header, t.payload + ['.'] + t.signature, '.');
    JoinInjective(s.payload, s.signature, t.payload, t.signature, '.');
  }

  // ---- sign and verify ----

  function Filled(c: Claims, now: int): Claims {
    c.(audience := if c.audience == "" then CUBE_AUDIENCE else c.audience,
       issuedAt := if c.issuedAt == 0 then now else c.issuedAt,
       expiresAt := if c.expiresAt == 0 then now + DEFAULT_TTL else c.expiresAt)
  }

  function Signed(lib: Library, c: Claims, secret: Secret): Segments {
    var header, payload := Encode(lib.header), Encode(lib.marshal(c));
    Segments(header, payload, Encode(lib.mac(secret, header + "." + payload)))
  }

  function Sign(lib: Library, c: Claims, secret: Secret, now: int): Result<string, Error> {
    if c.workspaceId == 0 then Err(WorkspaceRequired)
    else if |secret| < 32 then Err(SecretTooShort)
    else Ok(Join(Signed(lib, Filled(c, now), secret)))
  }

  method Verify(lib: Library, token: string, secret: Secret, now: int) returns (r: Result<Claims, Error>)
    ensures r.Ok? ==> Authentic(lib, token, secret, r.value) && !(r.value.expiresAt > 0 && now > r.value.expiresAt)
    ensures r == Err(Expired) ==> exists c :: Authentic(lib, token, secret, c) && c.expiresAt > 0 && now > c.expiresAt
    ensures forall c :: Authentic(lib, token, secret, c) ==>
                          r == if c.expiresAt > 0 && now > c.expiresAt then Err(Expired) else Ok(c)
    ensures r == Err(TooManySegments) <==> Dots(token) > 2
    ensures r == Err(ThreeSegmentsRequired) <==> Dots(token) < 2
  {
    forall c | Authentic(lib, token, secret, c) { AuthenticHasTwoDots(lib, token, secret, c); }
    var split := Split(token);
    if split.Err? { return Err(split.error); }
    var s := split.value;
    forall c, t | SealedBy(lib, t, secret, c) && Join(t) == token ensures t == s { JoinIsUnique(s, t); }
    var expected := Encode(lib.mac(secret, s.header + "." + s.payload));
    if expected != s.signature { return Err(SignatureMismatch); }
    var payload := Decode(s.payload);
    if payload.None? { return Err(PayloadNotBase64); }
    var c := lib.unmarshal(payload.value);
    if c.None? { return Err(PayloadNotJson); }
    assert SealedBy(lib, s, secret, c.value);
    if c.value.expiresAt > 0 && now > c.value.expiresAt { return Err(Expired); }
    return Ok(c.value);
  }

  /** The segments carry these claims under a right signature; the header is not looked at. */
  ghost predicate SealedBy(lib: Library, s: Segments, secret: Secret, c: Claims) {
    && '.' !in s.header && '.' !in s.payload
    && s.signature == Encode(lib.mac(secret, s.header + "." + s.payload))
    && Decode(s.payload).Some?
    && lib.unmarshal(Decode(s.payload).value) == Some(c)
  }

  ghost predicate Authentic(lib: Library, token: string, secret: Secret, c: Claims) {
    exists s :: SealedBy(lib, s, secret, c) && Join(s) == token
  }

  lemma AuthenticHasTwoDots(lib: Library, token: string, secret: Secret, c: Claims)
    requires Authentic(lib, token, secret, c)
    ensures Dots(token) == 2
  {
    var s :| SealedBy(lib, s, secret, c) && Join(s) == token;
    EncodingIsClean(lib.mac(secret, s.header + "." + s.payload));
    JoinHasTwoDots(s);
  }

  /**
   Sign needs a workspace and a secret of 32 bytes. What it makes is authentic for the same secret and carries the
   claims with the workspace as given and, where they are unset, the audience `cube`, the time of the call and five
   minutes later, and no others; with an ideal MAC it is authentic for no other secret.
   */
  lemma SignedIsAuthentic(lib: Library, c: Claims, secret: Secret, now: int, other: Secret, d: Claims)
    requires lib.DecodesJson()
    ensures Sign(lib, c, secret, now) == Err(WorkspaceRequired) <==> c.workspaceId == 0
    ensures Sign(lib, c, secret, now) == Err(SecretTooShort) <==> c.workspaceId != 0 && |secret| < 32
    ensures Sign(lib, c, secret, now).Ok? <==> c.workspaceId != 0 && |secret| >= 32
    ensures Sign(lib, c, secret, now).Ok? ==>
              && (Authentic(lib, Sign(lib, c, secret, now).value, secret, d) <==>
                    d == Claims(c.workspaceId, if c.audience == "" then "cube" else c.audience,
                                if c.issuedAt == 0 then now else c.issuedAt,
                                if c.expiresAt == 0 then now + 300 else c.expiresAt))
              && (lib.IdealMac() && Authentic(lib, Sign(lib, c, secret, now).value, other, d) ==> other == secret)
              && Encode(lib.header) + "." <= Sign(lib, c, secret, now).value
  {
    if Sign(lib, c, secret, now).Err? { return; }
    hide Encode, Decode;
    var filled := Filled(c, now);
    var s := Signed(lib, filled, secret);
    assert Join(s) == Encode(lib.header) + "." + (s.payload + "." + s.signature);
    EncodingIsClean(lib.header);
    EncodingIsClean(lib.marshal(filled));
    RoundTrip(lib.marshal(filled));
    assert SealedBy(lib, s, secret, filled);
    if Authentic(lib, Join(s), secret, d) {
      var t :| SealedBy(lib, t, secret, d) && Join(t) == Join(s);
      JoinIsUnique(s, t);
    }
    if lib.IdealMac() && Authentic(lib, Join(s), other, d) {
      var t :| SealedBy(lib, t, other, d) && Join(t) == Join(s);
      JoinIsUnique(s, t);
      EncodeInjective(lib.mac(secret, s.header + "." + s.payload), lib.mac(other, s.header + "." + s.payload));
    }
  }
}
