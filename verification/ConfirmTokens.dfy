/**
 The text of a confirmation token, `v1.<expiry>.<mac>`, and the text its MAC covers: the handshake's model takes a
 token as its fields, which is right only if no text can be read as two sets of fields.
 */
module ConfirmTokens {
  import opened Prelude
  import opened Base64Url
  import opened Splitting
  import GuardedWrites

  const VERSION := "v1"
  const INT64_MAX := 0x7fff_ffff_ffff_ffff
  const NUL := '\0'

  type Bytes = seq<Byte>

  // ---- decimal numbers, as strconv writes and reads them ----

  function Digit(n: nat): char
    requires n < 10
  {
    '0' + n as char
  }

  function Digits(n: nat): string {
    if n < 10 then [Digit(n)] else Digits(n / 10) + [Digit(n % 10)]
  }

  function FormatInt(n: int): string {
    if n < 0 then "-" + Digits(-n) else Digits(n)
  }

  function DigitsValue(s: string): Option<nat> {
    if s == [] then Some(0)
    else
      var last := s[|s| - 1];
      match DigitsValue(s[..|s| - 1])
      case None => None
      case Some(front) => if '0' <= last <= '9' then Some(front * 10 + (last - '0') as nat) else None
  }

  /** A sign is allowed, at least one digit is required, and the number has to fit 64 bits. */
  function ParseInt(s: string): Option<int> {
    var signed := s != [] && s[0] in {'-', '+'};
    var digits := if signed then s[1..] else s;
    if digits == [] then None
    else
      match DigitsValue(digits)
      case None => None
      case Some(v) =>
        var n: int := if signed && s[0] == '-' then -(v as int) else v as int;
        if -INT64_MAX - 1 <= n <= INT64_MAX then Some(n) else None
  }

  lemma {:induction false} DigitsRead(n: nat)
    ensures DigitsValue(Digits(n)) == Some(n)
    ensures forall c <- Digits(n) :: '0' <= c <= '9'
    ensures Digits(n) != []
  {
    if n < 10 {
      assert Digits(n)[..0] == [];
    } else {
      DigitsRead(n / 10);
      assert Digits(n)[..|Digits(n)| - 1] == Digits(n / 10);
    }
  }

  lemma ParseFormat(n: int)
    requires -INT64_MAX - 1 <= n <= INT64_MAX
    ensures ParseInt(FormatInt(n)) == Some(n)
    ensures forall c <- FormatInt(n) :: c == '-' || '0' <= c <= '9'
  {
    hide Digits, DigitsValue;
    DigitsRead(if n < 0 then -n else n);
    if n < 0 {
      assert FormatInt(n)[1..] == Digits(-n);
    } else {
      assert FormatInt(n)[0] in Digits(n);
    }
  }

  /** Decimal digits, with or without a sign, read as their number if that fits 64 bits. */
  lemma ParseSigned(digits: string, v: nat)
    requires digits != [] && DigitsValue(digits) == Some(v)
    ensures ParseInt(digits) == if v < 0x8000_0000_0000_0000 then Some(v as int) else None
    ensures ParseInt("+" + digits) == if v < 0x8000_0000_0000_0000 then Some(v as int) else None
    ensures ParseInt("-" + digits) == if v <= 0x8000_0000_0000_0000 then Some(-(v as int)) else None
  {
    DigitsOnly(digits);
    assert digits[0] in digits;
    hide DigitsValue;
    var plus, minus := "+" + digits, "-" + digits;
    assert plus[1..] == digits && plus[0] == '+';
    assert minus[1..] == digits && minus[0] == '-';
  }

  lemma {:induction false} DigitsOnly(s: string)
    requires DigitsValue(s).Some?
    ensures forall c <- s :: '0' <= c <= '9'
  {
    if s != [] {
      DigitsOnly(s[..|s| - 1]);
      assert s == s[..|s| - 1] + [s[|s| - 1]];
    }
  }

  // ---- what the MAC covers ----

  datatype Binding = Binding(workspace: string, operation: string, digest: string) {
    /** No field holds a NUL: ids and digests are hexadecimal, operations are fixed names. */
    predicate Valid() {
      NUL !in workspace && NUL !in operation && NUL !in digest
    }
  }

  function MacInput(e: Binding, exp: int): string {
    VERSION + [NUL] + (e.workspace + [NUL] + (e.operation + [NUL] + (e.digest + [NUL] + FormatInt(exp))))
  }

  lemma MacInputInjective(e: Binding, exp: int, e': Binding, exp': int)
    requires e.Valid() && e'.Valid() && MacInput(e, exp) == MacInput(e', exp')
    requires -INT64_MAX - 1 <= exp <= INT64_MAX && -INT64_MAX - 1 <= exp' <= INT64_MAX
    ensures e == e' && exp == exp'
  {
    hide FormatInt, ParseInt;
    var t, t' := FormatInt(exp), FormatInt(exp');
    var d, d' := e.digest + [NUL] + t, e'.digest + [NUL] + t';
    var o, o' := e.operation + [NUL] + d, e'.operation + [NUL] + d';
    JoinInjective(VERSION, e.workspace + [NUL] + o, VERSION, e'.workspace + [NUL] + o', NUL);
    JoinInjective(e.workspace, o, e'.workspace, o', NUL);
    JoinInjective(e.operation, d, e'.operation, d', NUL);
    JoinInjective(e.digest, t, e'.digest, t', NUL);
    ParseFormat(exp);
    ParseFormat(exp');
  }

  // ---- issue and verify ----

  function SplitAll(s: string, sep: char): (parts: seq<string>)
    ensures parts != []
    decreases |s|
  {
    match Cut(s, sep)
    case None => [s]
    case Some((a, b)) => CutIff(s, sep); [a] + SplitAll(b, sep)
  }

  function Issue(mac: string -> Bytes, e: Binding, now: int): string {
    var exp := now + GuardedWrites.CONFIRM_TOKEN_TTL;
    VERSION + "." + FormatInt(exp) + "." + Encode(mac(MacInput(e, exp)))
  }

  predicate Verify(mac: string -> Bytes, token: string, e: Binding, now: int) {
    var parts := SplitAll(token, '.');
    && |parts| == 3 && parts[0] == VERSION
    && var exp := ParseInt(parts[1]);
    && exp.Some? && now <= exp.value
    && Decode(parts[2]) == Some(mac(MacInput(e, exp.value)))
  }

  lemma ThreeParts(a: string, b: string, c: string)
    requires '.' !in a && '.' !in b && '.' !in c
    ensures SplitAll(a + "." + b + "." + c, '.') == [a, b, c]
  {
    hide Cut;
    var bc := b + ['.'] + c;
    assert a + "." + b + "." + c == a + ['.'] + bc;
    CutJoined(a, '.', bc);
    CutJoined(b, '.', c);
    CutIff(c, '.');
    assert SplitAll(bc, '.') == [b] + SplitAll(c, '.') == [b, c];
  }

  /**
   With an injective MAC an issued token is accepted exactly for the workspace, operation and effects it was issued
   for, and exactly until its expiry.
   */
  lemma VerifyIssuedIff(mac: string -> Bytes, e: Binding, issued: int, e': Binding, now: int)
    requires forall m, m' :: mac(m) == mac(m') ==> m == m'
    requires e.Valid() && e'.Valid()
    requires -INT64_MAX - 1 <= issued + 600 <= INT64_MAX
    ensures Verify(mac, Issue(mac, e, issued), e', now) <==> e == e' && now <= issued + 600
  {
    hide FormatInt, ParseInt, Encode, Decode, MacInput;
    var exp := issued + GuardedWrites.CONFIRM_TOKEN_TTL;
    var sig := Encode(mac(MacInput(e, exp)));
    ParseFormat(exp);
    EncodingIsClean(mac(MacInput(e, exp)));
    RoundTrip(mac(MacInput(e, exp)));
    ThreeParts(VERSION, FormatInt(exp), sig);
    if mac(MacInput(e, exp)) == mac(MacInput(e', exp)) {
      MacInputInjective(e, exp, e', exp);
    }
  }

  lemma ThreePartsBack(s: string)
    requires |SplitAll(s, '.')| == 3
    ensures var parts := SplitAll(s, '.'); s == parts[0] + "." + parts[1] + "." + parts[2]
  {
    hide Cut;
    CutIff(s, '.');
    var (a, rest) := Cut(s, '.').value;
    CutIff(rest, '.');
    var (b, c) := Cut(rest, '.').value;
    CutIff(c, '.');
    assert SplitAll(s, '.') == [a] + ([b] + SplitAll(c, '.'));
    assert s == a + "." + (b + "." + c);
  }

  /** Whatever text is accepted has the version, an expiry not yet past, and the MAC of just this binding and expiry. */
  lemma AcceptedIsSigned(mac: string -> Bytes, token: string, e: Binding, now: int)
    requires Verify(mac, token, e, now)
    ensures exists t, sig :: token == "v1." + t + "." + sig && ParseInt(t).Some? && now <= ParseInt(t).value
                             && Decode(sig) == Some(mac(MacInput(e, ParseInt(t).value)))
  {
    hide ParseInt, Decode, SplitAll, MacInput;
    ThreePartsBack(token);
    var parts := SplitAll(token, '.');
    assert token == "v1." + parts[1] + "." + parts[2];
  }
}
