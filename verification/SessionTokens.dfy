/**
 The two-layer session token `v2.<outer>|<inner>.<mac>`: signed outer claims, and an inner session encrypted under a
 key derived for the workspace, framed by its length. Hash, MAC, key derivation, cipher and JSON are parameters.
 */
module SessionTokens {
  import opened Prelude
  import opened Base64Url
  import opened Splitting

  const V2_PREFIX := "v2."
  /** Seconds. */
  const MAX_AGE := 12 * 3600
  const NONCE_SIZE := 12

  type Bytes = seq<Byte>

  /** Nil ids are 0, unset times are 0. */
  datatype Session = Session(userId: nat, workspaceId: nat, jti: nat, issuedAt: int, expiresAt: int)

  datatype Outer = Outer(slug: string, expiresAt: int, innerHash: string)

  datatype Error = IdsRequired | SlugRequired | NotV2 | BadFormat | SignatureInvalid | BadPayload | OuterNotBase64
                 | OuterNotJson | WorkspaceMismatch | Expired | InnerNotBase64 | HashMismatch | TooShort
                 | DecryptFailed | LengthMismatch | InnerNotJson

  datatype Library = Library(
    hash: Bytes -> Bytes,
    mac: (Bytes, string) -> Bytes,
    derive: (Bytes, string) -> Bytes,
    /** key, nonce, plaintext, associated data */
    seal: (Bytes, Bytes, Bytes, Bytes) -> Bytes,
    open: (Bytes, Bytes, Bytes, Bytes) -> Option<Bytes>,
    marshalInner: Session -> Bytes,
    unmarshalInner: Bytes -> Option<Session>,
    marshalOuter: Outer -> Bytes,
    unmarshalOuter: Bytes -> Option<Outer>)
  {
    /** Decoding undoes encoding and opening undoes sealing. */
    ghost predicate Inverts() {
      && (forall s :: unmarshalInner(marshalInner(s)) == Some(s))
      && (forall o :: unmarshalOuter(marshalOuter(o)) == Some(o))
      && (forall key, nonce, plain, aad :: open(key, nonce, seal(key, nonce, plain, aad), aad) == Some(plain))
    }

    /** Different keys or messages have different MACs. */
    ghost predicate IdealMac() {
      forall k, m, k', m' :: mac(k, m) == mac(k', m') ==> k == k' && m == m'
    }
  }

  // ---- the length frame ----

  const LENGTHS := 0x1_0000_0000

  /** The length of a text as four bytes, big-endian, cut to 32 bits. */
  function LengthBytes(n: nat): (b: Bytes)
    ensures |b| == 4
  {
    var m := n % LENGTHS;
    [m / 0x100_0000, m / 0x1_0000 % 256, m / 0x100 % 256, m % 256]
  }

  function LengthOf(b: Bytes): nat
    requires |b| == 4
  {
    b[0] as int * 0x100_0000 + b[1] as int * 0x1_0000 + b[2] as int * 0x100 + b[3] as int
  }

  lemma LengthRoundTrip(n: nat)
    ensures LengthOf(LengthBytes(n)) == n % LENGTHS
  {
    Places(n % LENGTHS);
  }

  lemma Places(m: nat)
    requires m < LENGTHS
    ensures m / 0x1_0000 == m / 0x100_0000 * 256 + m / 0x1_0000 % 256
    ensures m / 0x100 == m / 0x1_0000 * 256 + m / 0x100 % 256
    ensures m == m / 0x100 * 256 + m % 256
  {
    DivDiv(m, 0x1_0000);
    DivDiv(m, 0x100);
  }

  lemma DivDiv(m: nat, d: nat)
    requires d in {0x100, 0x1_0000}
    ensures m / d / 256 == m / (d * 256)
  {}

  /** The nonce is drawn at random. */
  function Encrypt(lib: Library, key: Bytes, nonce: Bytes, plain: Bytes): Bytes {
    var aad := LengthBytes(|plain|);
    aad + nonce + lib.seal(key, nonce, plain, aad)
  }

  function Decrypt(lib: Library, key: Bytes, data: Bytes): Result<Bytes, Error> {
    if |data| < 4 then Err(TooShort)
    else
      var aad, rest := data[..4], data[4..];
      if |rest| < NONCE_SIZE then Err(TooShort)
      else
        match lib.open(key, rest[..NONCE_SIZE], rest[NONCE_SIZE..], aad)
        case None => Err(DecryptFailed)
        case Some(plain) => if |plain| % LENGTHS != LengthOf(aad) then Err(LengthMismatch) else Ok(plain)
  }

  lemma DecryptEncrypt(lib: Library, key: Bytes, nonce: Bytes, plain: Bytes)
    requires lib.Inverts() && |nonce| == 12
    ensures Decrypt(lib, key, Encrypt(lib, key, nonce, plain)) == Ok(plain)
  {
    var aad := LengthBytes(|plain|);
    var box := lib.seal(key, nonce, plain, aad);
    var data := aad + nonce + box;
    LengthRoundTrip(|plain|);
    hide LengthBytes, LengthOf;
    assert data[..4] == aad && data[4..] == nonce + box;
    assert data[4..][..NONCE_SIZE] == nonce && data[4..][NONCE_SIZE..] == box;
  }

  // ---- encode and decode ----

  /** What the clock and the random source provide to one call. */
  datatype Fresh = Fresh(now: int, jti: nat, nonce: Bytes) {
    ghost predicate Valid() {
      jti != 0 && |nonce| == NONCE_SIZE
    }
  }

  function Filled(s: Session, f: Fresh): Session {
    s.(issuedAt := if s.issuedAt == 0 then f.now else s.issuedAt,
       expiresAt := if s.expiresAt == 0 then f.now + MAX_AGE else s.expiresAt,
       jti := if s.jti == 0 then f.jti else s.jti)
  }

  function EncodeSession(lib: Library, s: Session, slug: string, secret: Bytes, f: Fresh): Result<string, Error> {
    if s.userId == 0 || s.workspaceId == 0 then Err(IdsRequired)
    else if slug == "" then Err(SlugRequired)
    else
      var payload := Payload(lib, Filled(s, f), slug, secret, f.nonce);
      Ok(V2_PREFIX + payload + "." + Encode(lib.mac(secret, payload)))
  }

  function Payload(lib: Library, s: Session, slug: string, secret: Bytes, nonce: Bytes): string {
    var box := Encrypt(lib, lib.derive(secret, slug), nonce, lib.marshalInner(s));
    Encode(lib.marshalOuter(Outer(slug, s.expiresAt, Encode(lib.hash(box))))) + "|" + Encode(box)
  }

  function DecodeSession(lib: Library, token: string, slug: string, secret: Bytes, now: int): Result<Session, Error> {
    if !(V2_PREFIX <= token) then Err(NotV2)
    else
      match Cut(token[|V2_PREFIX|..], '.')
      case None => Err(BadFormat)
      case Some((payload, sig)) =>
        if Encode(lib.mac(secret, payload)) != sig then Err(SignatureInvalid)
        else DecodePayload(lib, payload, slug, secret, now)
  }

  function DecodePayload(lib: Library, payload: string, slug: string, secret: Bytes, now: int): Result<Session, Error> {
    match Cut(payload, '|')
    case None => Err(BadPayload)
    case Some((encodedOuter, encodedInner)) =>
      match Decode(encodedOuter)
      case None => Err(OuterNotBase64)
      case Some(outerJson) =>
        match lib.unmarshalOuter(outerJson)
        case None => Err(OuterNotJson)
        case Some(outer) =>
          if outer.slug != slug then Err(WorkspaceMismatch)
          else if now > outer.expiresAt then Err(Expired)
          else DecodeInner(lib, outer, encodedInner, slug, secret)
  }

  function DecodeInner(lib: Library, outer: Outer, encodedInner: string, slug: string, secret: Bytes)
      : Result<Session, Error> {
    match Decode(encodedInner)
    case None => Err(InnerNotBase64)
    case Some(box) =>
      if outer.innerHash != Encode(lib.hash(box)) then Err(HashMismatch)
      else
        match Decrypt(lib, lib.derive(secret, slug), box)
        case Err(e) => Err(e)
        case Ok(plain) =>
          match lib.unmarshalInner(plain)
          case None => Err(InnerNotJson)
          case Some(s) => Ok(s)
  }

  lemma PayloadRoundTrip(lib: Library, s: Session, slug: string, secret: Bytes, nonce: Bytes, slug': string, now: int)
    requires lib.Inverts() && |nonce| == NONCE_SIZE
    ensures DecodePayload(lib, Payload(lib, s, slug, secret, nonce), slug', secret, now)
            == if slug' != slug then Err(WorkspaceMismatch)
               else if now > s.expiresAt then Err(Expired)
               else Ok(s)
  {
    hide Encode, Decode, Encrypt, Decrypt, Cut;
    var key, plain := lib.derive(secret, slug), lib.marshalInner(s);
    var box := Encrypt(lib, key, nonce, plain);
    var outerJson := lib.marshalOuter(Outer(slug, s.expiresAt, Encode(lib.hash(box))));
    DecryptEncrypt(lib, key, nonce, plain);
    RoundTrip(box);
    RoundTrip(outerJson);
    EncodingIsClean(outerJson);
    CutJoined(Encode(outerJson), '|', Encode(box));
    assert Payload(lib, s, slug, secret, nonce) == Encode(outerJson) + ['|'] + Encode(box);
  }

  lemma PayloadHasNoDot(lib: Library, s: Session, slug: string, secret: Bytes, nonce: Bytes)
    ensures '.' !in Payload(lib, s, slug, secret, nonce)
  {
    hide Encode, Encrypt;
    var box := Encrypt(lib, lib.derive(secret, slug), nonce, lib.marshalInner(s));
    EncodingIsClean(box);
    EncodingIsClean(lib.marshalOuter(Outer(slug, s.expiresAt, Encode(lib.hash(box)))));
  }

  /**
   Encoding needs both ids and a slug. Decoding an encoded session under the same secret: another slug is refused; the
   same slug gives back the session's own ids, and its own times and token id or, where these are unset, the time of
   the call, twelve hours later and the fresh id; up to and including its expiry and never after. Under another secret
   an ideal MAC refuses it.
   */
  lemma DecodeEncode(lib: Library, s: Session, slug: string, secret: Bytes, f: Fresh, slug': string, secret': Bytes, now: int)
    requires lib.Inverts() && f.Valid()
    ensures EncodeSession(lib, s, slug, secret, f).Ok? <==> s.userId != 0 && s.workspaceId != 0 && slug != ""
    ensures EncodeSession(lib, s, slug, secret, f) == Err(IdsRequired) <==> s.userId == 0 || s.workspaceId == 0
    ensures EncodeSession(lib, s, slug, secret, f) == Err(SlugRequired) <==> s.userId != 0 && s.workspaceId != 0 && slug == ""
    ensures EncodeSession(lib, s, slug, secret, f).Ok? && secret' == secret ==>
              var expiry := if s.expiresAt == 0 then f.now + 43200 else s.expiresAt;
              DecodeSession(lib, EncodeSession(lib, s, slug, secret, f).value, slug', secret', now)
              == if slug' != slug then Err(WorkspaceMismatch)
                 else if now > expiry then Err(Expired)
                 else Ok(Session(s.userId, s.workspaceId,
                                 if s.jti == 0 then f.jti else s.jti,
                                 if s.issuedAt == 0 then f.now else s.issuedAt,
                                 expiry))
    ensures EncodeSession(lib, s, slug, secret, f).Ok? && secret' != secret && lib.IdealMac() ==>
              DecodeSession(lib, EncodeSession(lib, s, slug, secret, f).value, slug', secret', now) == Err(SignatureInvalid)
  {
    hide Encode, Payload, DecodePayload, Cut;
    if EncodeSession(lib, s, slug, secret, f).Ok? {
      var payload := Payload(lib, Filled(s, f), slug, secret, f.nonce);
      var sig := Encode(lib.mac(secret, payload));
      var token := V2_PREFIX + payload + "." + sig;
      PayloadHasNoDot(lib, Filled(s, f), slug, secret, f.nonce);
      PayloadRoundTrip(lib, Filled(s, f), slug, secret, f.nonce, slug', now);
      assert token[|V2_PREFIX|..] == payload + ['.'] + sig;
      CutJoined(payload, '.', sig);
      if secret' != secret && lib.IdealMac() && Encode(lib.mac(secret', payload)) == sig {
        EncodeInjective(lib.mac(secret', payload), lib.mac(secret, payload));
      }
    }
  }

  /**
   Every accepted token carries the one right spelling of the MAC of its payload; its outer claims are for this slug,
   not expired, and hold the hash of the box, which opens under the workspace's key to the session returned.
   */
  lemma AcceptedIsSigned(lib: Library, token: string, slug: string, secret: Bytes, now: int)
    requires DecodeSession(lib, token, slug, secret, now).Ok?
    ensures exists payload, outer: Outer, box: Bytes ::
              && token == "v2." + payload + "." + Encode(lib.mac(secret, payload)) && '.' !in payload
              && Carries(lib, payload, outer, box) && outer.slug == slug && now <= outer.expiresAt
              && OpensTo(lib, lib.derive(secret, slug), box, DecodeSession(lib, token, slug, secret, now).value)
  {
    hide Encode, Decode, DecodeInner, Cut, OpensTo;
    var rest := token[|V2_PREFIX|..];
    CutIff(rest, '.');
    var (payload, sig) := Cut(rest, '.').value;
    assert token == V2_PREFIX + rest;
    assert token == V2_PREFIX + payload + "." + Encode(lib.mac(secret, payload));
    var (encodedOuter, encodedInner) := Cut(payload, '|').value;
    var outer := lib.unmarshalOuter(Decode(encodedOuter).value).value;
    var box := InnerOpens(lib, outer, encodedInner, slug, secret);
    assert Carries(lib, payload, outer, box);
  }

  lemma InnerOpens(lib: Library, outer: Outer, encodedInner: string, slug: string, secret: Bytes) returns (box: Bytes)
    requires DecodeInner(lib, outer, encodedInner, slug, secret).Ok?
    ensures Decode(encodedInner) == Some(box) && outer.innerHash == Encode(lib.hash(box))
    ensures OpensTo(lib, lib.derive(secret, slug), box, DecodeInner(lib, outer, encodedInner, slug, secret).value)
  {
    hide Encode, Decode, LengthOf;
    box := Decode(encodedInner).value;
    var plain := Decrypt(lib, lib.derive(secret, slug), box).value;
    assert box == box[..4] + box[4..][..NONCE_SIZE] + box[4..][NONCE_SIZE..];
    assert Framed(lib, lib.derive(secret, slug), box, plain, box[..4], box[4..][..NONCE_SIZE], box[4..][NONCE_SIZE..]);
  }

  /** The payload is the outer claims and the box, which the claims hold the hash of. */
  ghost predicate Carries(lib: Library, payload: string, outer: Outer, box: Bytes) {
    && Cut(payload, '|').Some?
    && var (encodedOuter, encodedInner) := Cut(payload, '|').value;
    && Decode(encodedOuter).Some? && lib.unmarshalOuter(Decode(encodedOuter).value) == Some(outer)
    && Decode(encodedInner) == Some(box) && outer.innerHash == Encode(lib.hash(box))
  }

  /** The box is a length, a nonce and a sealed text of that length, sealed with the length as associated data. */
  ghost predicate Framed(lib: Library, key: Bytes, box: Bytes, plain: Bytes, length: Bytes, nonce: Bytes, sealed: Bytes) {
    && box == length + nonce + sealed && |length| == 4 && |nonce| == 12
    && lib.open(key, nonce, sealed, length) == Some(plain) && LengthOf(length) == |plain| % LENGTHS
  }

  ghost predicate OpensTo(lib: Library, key: Bytes, box: Bytes, s: Session) {
    exists plain, length, nonce, sealed ::
      Framed(lib, key, box, plain, length, nonce, sealed) && lib.unmarshalInner(plain) == Some(s)
  }
}
