/** Service tokens `lecrm_<slug>_<random>`: reading the slug and the fingerprint back out of the text. */
module ServiceTokens {
  import opened Prelude
  import opened Base64Url
  import opened Splitting

  const TOKEN_PREFIX := "lecrm_"
  const RANDOM_BYTES := 32
  const MAX_SLUG := 63

  datatype Error = SlugRequired | InvalidTokenFormat

  function Generate(slug: string, random: seq<Byte>): Result<string, Error>
    requires |random| == RANDOM_BYTES
  {
    if slug == "" then Err(SlugRequired) else Ok(TOKEN_PREFIX + slug + "_" + Encode(random))
  }

  predicate SlugLetter(c: char) {
    'a' <= c <= 'z' || '0' <= c <= '9' || c == '-'
  }

  function WorkspaceSlug(token: string): Result<string, Error> {
    if !(TOKEN_PREFIX <= token) then Err(InvalidTokenFormat)
    else
      match Cut(token[|TOKEN_PREFIX|..], '_')
      case None => Err(InvalidTokenFormat)
      case Some((slug, suffix)) =>
        if slug == "" || suffix == "" then Err(InvalidTokenFormat)
        else if exists c <- slug :: !SlugLetter(c) then Err(InvalidTokenFormat)
        else if |slug| > MAX_SLUG then Err(InvalidTokenFormat)
        else Ok(slug)
  }

  /** The first eight bytes of the random suffix, or nothing. */
  function Fingerprint(token: string): Option<seq<Byte>> {
    if !(TOKEN_PREFIX <= token) then None
    else
      match Cut(token[|TOKEN_PREFIX|..], '_')
      case None => None
      case Some((slug, suffix)) =>
        if slug == "" || suffix == "" then None else HeadOf(Decode(suffix))
  }

  function HeadOf(raw: Option<seq<Byte>>): Option<seq<Byte>> {
    if raw.None? || |raw.value| < 8 then None else Some(raw.value[..8])
  }

  /** The slugs a subdomain can have. */
  ghost predicate SlugShape(slug: string) {
    && 0 < |slug| < 64
    && forall c <- slug :: c == '-' || 0 <= c as int - 'a' as int < 26 || 0 <= c as int - '0' as int < 10
  }

  ghost predicate Parts(token: string, slug: string, suffix: string) {
    token == "lecrm_" + slug + "_" + suffix && '_' !in slug && suffix != ""
  }

  lemma PartsAreCut(token: string, slug: string, suffix: string)
    ensures Parts(token, slug, suffix) <==>
            TOKEN_PREFIX <= token && Cut(token[|TOKEN_PREFIX|..], '_') == Some((slug, suffix)) && suffix != ""
  {
    hide Cut;
    if TOKEN_PREFIX <= token {
      var rest := token[|TOKEN_PREFIX|..];
      assert token == TOKEN_PREFIX + rest;
      CutIff(rest, '_');
      if '_' !in slug { CutJoined(slug, '_', suffix); }
    }
    if Parts(token, slug, suffix) {
      assert token[|TOKEN_PREFIX|..] == slug + ['_'] + suffix;
    }
  }

  /** The texts a slug is read from, and the slug: exactly those with the prefix, that slug, a separator and more. */
  lemma SlugReadIff(token: string, slug: string)
    ensures WorkspaceSlug(token) == Ok(slug) <==> SlugShape(slug) && exists suffix :: Parts(token, slug, suffix)
    ensures WorkspaceSlug(token).Err? ==> WorkspaceSlug(token).error == InvalidTokenFormat
  {
    if WorkspaceSlug(token).Ok? {
      var (front, suffix) := Cut(token[|TOKEN_PREFIX|..], '_').value;
      PartsAreCut(token, front, suffix);
    }
    forall suffix | Parts(token, slug, suffix) && SlugShape(slug) ensures WorkspaceSlug(token) == Ok(slug) {
      PartsAreCut(token, slug, suffix);
    }
  }

  /** A fingerprint is read exactly from a suffix that decodes to eight bytes or more, and is the first eight. */
  lemma FingerprintIff(token: string, b: seq<Byte>)
    ensures Fingerprint(token) == Some(b) <==>
            exists slug, suffix :: Parts(token, slug, suffix) && slug != "" && Decode(suffix).Some?
                                   && |b| == 8 && b <= Decode(suffix).value
  {
    hide Decode, Cut;
    if Fingerprint(token) == Some(b) {
      var (slug, suffix) := Cut(token[|TOKEN_PREFIX|..], '_').value;
      PartsAreCut(token, slug, suffix);
    }
    forall slug, suffix |
      Parts(token, slug, suffix) && slug != "" && Decode(suffix).Some? && |b| == 8 && b <= Decode(suffix).value
      ensures Fingerprint(token) == Some(b)
    {
      PartsAreCut(token, slug, suffix);
      var raw := Decode(suffix).value;
      assert raw[..8] == b;
    }
  }

  lemma GeneratedCut(slug: string, random: seq<Byte>)
    requires slug != "" && |random| == RANDOM_BYTES && '_' !in slug
    ensures var token := Generate(slug, random).value;
            && TOKEN_PREFIX <= token && Encode(random) != ""
            && Cut(token[|TOKEN_PREFIX|..], '_') == Some((slug, Encode(random)))
  {
    var token := TOKEN_PREFIX + slug + "_" + Encode(random);
    assert token[|TOKEN_PREFIX|..] == slug + ['_'] + Encode(random);
    CutJoined(slug, '_', Encode(random));
    EncodedLength(random);
  }

  /**
   The slug read from a token is the slug it was made with exactly when the slug has the shape of a subdomain, though
   the random part may contain the separator.
   */
  lemma SlugReadBackIff(slug: string, random: seq<Byte>)
    requires |random| == 32
    ensures Generate(slug, random).Err? <==> slug == ""
    ensures slug != "" ==> (WorkspaceSlug(Generate(slug, random).value) == Ok(slug) <==> SlugShape(slug))
  {
    hide Encode;
    if slug != "" {
      var token := Generate(slug, random).value;
      if '_' !in slug {
        GeneratedCut(slug, random);
      } else {
        CutIff(token[|TOKEN_PREFIX|..], '_');
      }
    }
  }

  /** Whatever text is read, the answer has the shape of a subdomain and stands at the front of the token. */
  lemma OnlyShapedSlugs(token: string)
    requires WorkspaceSlug(token).Ok?
    ensures SlugShape(WorkspaceSlug(token).value)
    ensures "lecrm_" + WorkspaceSlug(token).value + "_" <= token
  {
    CutIff(token[|TOKEN_PREFIX|..], '_');
    var (slug, suffix) := Cut(token[|TOKEN_PREFIX|..], '_').value;
    assert token == TOKEN_PREFIX + token[|TOKEN_PREFIX|..];
    assert token == (TOKEN_PREFIX + slug + "_") + suffix;
  }

  /**
   The fingerprint of a generated token is the head of its random bytes. Of a slug with an underscore only what comes
   before the first one counts as the slug: the fingerprint is then read from the rest of it and the suffix together,
   and there is none if nothing comes before.
   */
  lemma FingerprintIs(slug: string, random: seq<Byte>)
    requires slug != "" && |random| == RANDOM_BYTES
    ensures Fingerprint(Generate(slug, random).value) ==
            match Cut(slug, '_') {
              case None => Some(random[..8])
              case Some((front, rest)) => if front == "" then None else HeadOf(Decode(rest + "_" + Encode(random)))
            }
  {
    hide Decode, Encode, Cut;
    CutIff(slug, '_');
    match Cut(slug, '_')
    case None =>
      GeneratedCut(slug, random);
      RoundTrip(random);
    case Some((front, rest)) =>
      var token := Generate(slug, random).value;
      var suffix := rest + "_" + Encode(random);
      assert token[|TOKEN_PREFIX|..] == front + ['_'] + suffix;
      CutJoined(front, '_', suffix);
  }
}
