/**
 Guarded writes: authorize, preview, replay, confirm, apply, in that order. Signatures and digests are ideal: a
 signature is the tuple that was signed, a digest the operation and effects it was computed from.
 */
module GuardedWrites {
  import opened Prelude

  const CONFIRM_TOKEN_TTL := 600
  const IDEMPOTENCY_TTL := 86400

  datatype Role = NoRole | Member | Admin | Owner

  function Rank(r: Role): nat {
    match r
    case NoRole => 0
    case Member => 1
    case Admin => 2
    case Owner => 3
  }

  predicate AtLeast(r: Role, min: Role) {
    Rank(r) >= Rank(min) && r != NoRole
  }

  /** `scopes` are trimmed and lower-cased. */
  datatype Principal = Principal(ws: string, role: Role, scopes: seq<string>)

  predicate Contains(s: string, part: string) {
    part <= s || (s != "" && Contains(s[1..], part))
  }

  function RoleFromScopes(scopes: seq<string>): Role {
    if scopes == [] then Member
    else if scopes[0] == "*" || Contains(scopes[0], "write") then Admin
    else RoleFromScopes(scopes[1..])
  }

  datatype Error =
    | Unauthenticated
    | ReadOnlyScope
    | Forbidden
    | NoConfirmer
    | PlanFailed
    | ConfirmationRequired
    | ConfirmationInvalid
    | ApplyFailed

  function AuthorizeWrite(p: Principal): Option<Error> {
    if p.role == NoRole then Some(Unauthenticated)
    else if p.scopes != [] && !AtLeast(RoleFromScopes(p.scopes), Admin) then Some(ReadOnlyScope)
    else if !AtLeast(p.role, Admin) then Some(Forbidden)
    else None
  }

  /** Delegated principals write only with a write scope, whatever their role says. */
  lemma {:induction false} RoleFromScopesIff(scopes: seq<string>)
    ensures AtLeast(RoleFromScopes(scopes), Admin) <==>
            exists i :: 0 <= i < |scopes| && (scopes[i] == "*" || Contains(scopes[i], "write"))
  {
    hide Contains;
    if scopes != [] {
      RoleFromScopesIff(scopes[1..]);
      if AtLeast(RoleFromScopes(scopes[1..]), Admin) {
        var i :| 0 <= i < |scopes[1..]| && (scopes[1..][i] == "*" || Contains(scopes[1..][i], "write"));
        assert scopes[i + 1] == scopes[1..][i];
      }
      if i :| 0 <= i < |scopes| && (scopes[i] == "*" || Contains(scopes[i], "write")) {
        if i > 0 { assert scopes[1..][i - 1] == scopes[i]; }
      }
    }
  }

  /** `part` stands somewhere in `s`. */
  ghost predicate HasPart(s: string, part: string) {
    exists before: string, after: string :: s == before + part + after
  }

  lemma {:induction false} ContainsIff(s: string, part: string)
    ensures Contains(s, part) <==> HasPart(s, part)
  {
    if part <= s {
      assert s == [] + part + s[|part|..];
    } else if s == [] {
      assert part != [];
    } else {
      ContainsIff(s[1..], part);
      if HasPart(s[1..], part) {
        var before, after :| s[1..] == before + part + after;
        assert s == [s[0]] + before + part + after;
      }
      if HasPart(s, part) {
        var before, after :| s == before + part + after;
        assert s[1..] == before[1..] + part + after;
      }
    }
  }

  /** The caller delegates no scopes, or one that lets it write. */
  ghost predicate ScopesWrite(scopes: seq<string>) {
    scopes == [] || exists i :: 0 <= i < |scopes| && (scopes[i] == "*" || HasPart(scopes[i], "write"))
  }

  /** An admin or owner, acting with scopes that let it write. */
  ghost predicate MayWrite(p: Principal) {
    p.role in {Admin, Owner} && ScopesWrite(p.scopes)
  }

  /** Who is refused, and how: no role, then scopes that only read, then a role below admin. */
  lemma AuthorizeWriteIs(p: Principal)
    ensures AuthorizeWrite(p).None? <==> MayWrite(p)
    ensures AuthorizeWrite(p).Some? ==>
              AuthorizeWrite(p).value == if p.role == NoRole then Unauthenticated
                                         else if !ScopesWrite(p.scopes) then ReadOnlyScope
                                         else Forbidden
  {
    hide Contains, HasPart;
    RoleFromScopesIff(p.scopes);
    forall i | 0 <= i < |p.scopes| { ContainsIff(p.scopes[i], "write"); }
  }

  // ---- effects and tokens ----

  datatype Effect = Effect(action: string, entityType: string, entityId: string,
                           before: map<string, string>, after: map<string, string>)

  datatype Digest = Digest(operation: string, effects: seq<Effect>)

  /** What the MAC covers, or a string of the caller's own making. */
  datatype Signature = Mac(ws: string, operation: string, digest: Digest, exp: int) | Junk(text: string)

  /** A token split at its dots; `exp` is missing when it does not parse. */
  datatype Token = Token(version: string, exp: Option<int>, signature: Signature) | Malformed

  function Issue(ws: string, operation: string, digest: Digest, now: int): Token {
    var exp := now + CONFIRM_TOKEN_TTL;
    Token("v1", Some(exp), Mac(ws, operation, digest, exp))
  }

  predicate Verify(t: Token, ws: string, operation: string, digest: Digest, now: int) {
    && t.Token? && t.version == "v1" && t.exp.Some?
    && now <= t.exp.value
    && t.signature == Mac(ws, operation, digest, t.exp.value)
  }

  /** A token verifies exactly when it was issued for the same workspace, operation and effects, at most ten minutes ago. */
  lemma VerifyIff(t: Token, ws: string, operation: string, digest: Digest, now: int)
    ensures Verify(t, ws, operation, digest, now) <==>
            exists issuedAt: int :: t == Issue(ws, operation, digest, issuedAt) && now - issuedAt <= 600
  {
    if Verify(t, ws, operation, digest, now) {
      assert t == Issue(ws, operation, digest, t.exp.value - CONFIRM_TOKEN_TTL);
    }
  }

  // ---- tools, calls and the service's state ----

  /** A write tool with its arguments: what it would do to a workspace, and doing it. Neither reads the clock. */
  datatype Tool<!S> = Tool(
    operation: string, destructive: bool,
    plan: S -> Option<seq<Effect>>, apply: S -> Option<(S, nat, string)>)

  datatype Call<!S> = Call(p: Principal, tool: Tool<S>, dryRun: bool, key: string, token: Option<Token>, confirmer: bool)

  datatype Stored = Stored(status: nat, body: string, expiresAt: int)

  datatype Entry =
    | Previewed(ws: string, operation: string, effects: seq<Effect>, at: int)
    | Applied(actor: Principal, ws: string, operation: string, planned: Option<seq<Effect>>, destructive: bool, at: int)

  /** `log` records previews and applied writes; `signed` the signatures handed out so far. */
  datatype World<S> = World(
    now: int, states: map<string, S>, idempotency: map<(string, string), Stored>,
    signed: set<Signature>, log: seq<Entry>)

  datatype Answer =
    | Refused(error: Error)
    | Preview(effects: seq<Effect>, token: Option<Token>)
    | Done(status: nat, body: string, replayed: bool)

  predicate Hit<S>(w: World<S>, ws: string, key: string) {
    key != "" && (ws, key) in w.idempotency && w.idempotency[(ws, key)].expiresAt > w.now
  }

  /** The first committer of a key wins: an existing row, expired or not, is left as it is. */
  function Remember<S>(w: World<S>, ws: string, key: string, status: nat, body: string): map<(string, string), Stored> {
    if key == "" || (ws, key) in w.idempotency then w.idempotency
    else w.idempotency[(ws, key) := Stored(status, body, w.now + IDEMPOTENCY_TTL)]
  }

  predicate Confirmed<S>(w: World<S>, c: Call<S>)
    requires c.p.ws in w.states
  {
    c.tool.destructive ==>
      && c.token.Some?
      && var planned := c.tool.plan(w.states[c.p.ws]);
         planned.Some? && Verify(c.token.value, c.p.ws, c.tool.operation, Digest(c.tool.operation, planned.value), w.now)
  }

  function Apply<S>(w: World<S>, c: Call<S>): (World<S>, Answer)
    requires c.p.ws in w.states
  {
    var ws := c.p.ws;
    match c.tool.apply(w.states[ws])
    case None => (w, Refused(ApplyFailed))
    case Some((state, status, body)) =>
      (w.(states := w.states[ws := state],
          idempotency := Remember(w, ws, c.key, status, body),
          log := w.log + [Applied(c.p, ws, c.tool.operation, c.tool.plan(w.states[ws]), c.tool.destructive, w.now)]),
       Done(status, body, false))
  }

  /** One call as a whole. */
  function Serve<S>(w: World<S>, c: Call<S>): (World<S>, Answer)
    requires c.p.ws in w.states
  {
    var ws, op := c.p.ws, c.tool.operation;
    var planned := c.tool.plan(w.states[ws]);
    if AuthorizeWrite(c.p).Some? then (w, Refused(AuthorizeWrite(c.p).value))
    else if c.tool.destructive && !c.confirmer then (w, Refused(NoConfirmer))
    else if c.dryRun then
      if planned.None? then (w, Refused(PlanFailed))
      else
        var log := w.log + [Previewed(ws, op, planned.value, w.now)];
        if c.tool.destructive then
          var token := Issue(ws, op, Digest(op, planned.value), w.now);
          (w.(signed := w.signed + {token.signature}, log := log), Preview(planned.value, Some(token)))
        else (w.(log := log), Preview(planned.value, None))
    else if Hit(w, ws, c.key) then
      (w, Done(w.idempotency[(ws, c.key)].status, w.idempotency[(ws, c.key)].body, true))
    else if Confirmed(w, c) then Apply(w, c)
    else if c.token.None? then (w, Refused(ConfirmationRequired))
    else if planned.None? then (w, Refused(PlanFailed))
    else (w, Refused(ConfirmationInvalid))
  }

  /** The service, whose state a call changes in place. */
  class Service<S> {
    var w: World<S>

    constructor (w: World<S>)
      ensures this.w == w
    {
      this.w := w;
    }

    /** The fixed order of the controls. */
    method Run(c: Call<S>) returns (a: Answer)
      requires c.p.ws in w.states
      modifies this
      ensures (w, a) == Serve(old(w), c)
      ensures a.Done? || a.Preview? ==> c.p.role in {Admin, Owner} && ScopesWrite(c.p.scopes)
      ensures a == Refused(Unauthenticated) <==> c.p.role == NoRole
      ensures a == Refused(ReadOnlyScope) <==> c.p.role != NoRole && !ScopesWrite(c.p.scopes)
      ensures a == Refused(Forbidden) <==> c.p.role == Member && ScopesWrite(c.p.scopes)
      ensures a.Refused? ==> w == old(w)
      ensures a.Done? && a.replayed ==>
                && c.key != "" && (c.p.ws, c.key) in old(w).idempotency && w == old(w)
                && var row := w.idempotency[(c.p.ws, c.key)];
                   row.expiresAt > w.now && a.status == row.status && a.body == row.body
      ensures a.Done? && !a.replayed ==>
                && (c.key != "" && (c.p.ws, c.key) in old(w).idempotency ==>
                      old(w).idempotency[(c.p.ws, c.key)].expiresAt <= old(w).now)
                && c.tool.apply(old(w).states[c.p.ws]) == Some((w.states[c.p.ws], a.status, a.body))
                && w.idempotency == if c.key == "" || (c.p.ws, c.key) in old(w).idempotency then old(w).idempotency
                                    else old(w).idempotency[(c.p.ws, c.key) := Stored(a.status, a.body, w.now + 86400)]
      ensures forall ws :: ws != c.p.ws ==> (ws in w.states <==> ws in old(w).states)
      ensures forall ws :: ws != c.p.ws && ws in w.states ==> w.states[ws] == old(w).states[ws]
    {
      hide AuthorizeWrite, ScopesWrite;
      AuthorizeWriteIs(c.p);
      var denied := AuthorizeWrite(c.p);
      if denied.Some? { return Refused(denied.value); }
      if c.tool.destructive && !c.confirmer { return Refused(NoConfirmer); }
      var ws, op := c.p.ws, c.tool.operation;

      if c.dryRun {
        var planned := c.tool.plan(w.states[ws]);
        if planned.None? { return Refused(PlanFailed); }
        var token: Option<Token> := None;
        if c.tool.destructive {
          var issued := Issue(ws, op, Digest(op, planned.value), w.now);
          token := Some(issued);
          w := w.(signed := w.signed + {issued.signature});
        }
        w := w.(log := w.log + [Previewed(ws, op, planned.value, w.now)]);
        return Preview(planned.value, token);
      }

      if c.key != "" && Hit(w, ws, c.key) {
        var stored := w.idempotency[(ws, c.key)];
        return Done(stored.status, stored.body, true);
      }

      if c.tool.destructive {
        if c.token.None? { return Refused(ConfirmationRequired); }
        var planned := c.tool.plan(w.states[ws]);
        if planned.None? { return Refused(PlanFailed); }
        if !Verify(c.token.value, ws, op, Digest(op, planned.value), w.now) { return Refused(ConfirmationInvalid); }
      }

      var applied := c.tool.apply(w.states[ws]);
      if applied.None? { return Refused(ApplyFailed); }
      var (state, status, body) := applied.value;
      w := w.(states := w.states[ws := state],
              idempotency := Remember(w, ws, c.key, status, body),
              log := w.log + [Applied(c.p, ws, op, c.tool.plan(w.states[ws]), c.tool.destructive, w.now)]);
      return Done(status, body, false);
    }
  }

  // ---- one call ----

  /** A dry run changes no workspace and stores no response. */
  lemma DryRunChangesNothing<S>(w: World<S>, c: Call<S>)
    requires c.p.ws in w.states && c.dryRun
    ensures Serve(w, c).0.states == w.states && Serve(w, c).0.idempotency == w.idempotency
    ensures !Serve(w, c).1.Done?
  {}

  /** Confirming with the token of a preview, in time and with the plan unchanged, reaches the write. */
  lemma ConfirmAfterPreview<S>(w: World<S>, dry: Call<S>, later: World<S>, c: Call<S>)
    requires dry.p.ws in w.states && dry.dryRun && dry.tool.destructive && Serve(w, dry).1.Preview?
    requires c.p.ws == dry.p.ws && c.p.ws in later.states && c.tool == dry.tool && !c.dryRun && c.confirmer
    requires MayWrite(c.p) && !Hit(later, c.p.ws, c.key)
    requires c.token == Serve(w, dry).1.token
    requires later.now - w.now <= 600
    requires c.tool.plan(later.states[c.p.ws]) == c.tool.plan(w.states[c.p.ws])
    ensures Serve(later, c) == Apply(later, c)
  {
    var planned := c.tool.plan(w.states[c.p.ws]);
    var digest := Digest(c.tool.operation, planned.value);
    assert c.token == Some(Issue(c.p.ws, c.tool.operation, digest, w.now));
    VerifyIff(c.token.value, c.p.ws, c.tool.operation, digest, later.now);
    assert Confirmed(later, c);
    AuthorizeWriteIs(c.p);
  }

  /**
   After a keyed write that was not a replay, the key replays at once exactly if it had no row before: an expired
   row is not refreshed, so from then on every repeat of that key writes again.
   */
  lemma ReplayedNextIff<S>(w: World<S>, c: Call<S>)
    requires c.p.ws in w.states && c.key != ""
    requires Serve(w, c).1.Done? && !Serve(w, c).1.replayed
    ensures Hit(Serve(w, c).0, c.p.ws, c.key) <==> (c.p.ws, c.key) !in w.idempotency
  {
    assert !Hit(w, c.p.ws, c.key);
  }

  // ---- runs ----

  datatype Action<!S> = Wait(seconds: nat) | Sweep | Request(call: Call<S>)

  /** A caller can present a signature only if it was handed out before. */
  predicate Unforged<S>(w: World<S>, c: Call<S>) {
    c.token.Some? && c.token.value.Token? && c.token.value.signature.Mac? ==> c.token.value.signature in w.signed
  }

  predicate Allowed<S>(w: World<S>, a: Action<S>) {
    a.Request? ==> a.call.p.ws in w.states && Unforged(w, a.call)
  }

  /** The sweep deletes idempotency rows that have expired. */
  function Next<S>(w: World<S>, a: Action<S>): World<S>
    requires Allowed(w, a)
  {
    match a
    case Wait(seconds) => w.(now := w.now + seconds)
    case Sweep => w.(idempotency := map k | k in w.idempotency && w.idempotency[k].expiresAt >= w.now :: w.idempotency[k])
    case Request(call) => Serve(w, call).0
  }

  /** As events: a preview, a wait of up to ten minutes and a confirmation with its token make the write. */
  lemma PreviewedThenConfirmed<S>(w: World<S>, dry: Call<S>, seconds: nat, c: Call<S>)
    requires Allowed(w, Request(dry)) && dry.dryRun && dry.tool.destructive && Serve(w, dry).1.Preview?
    requires c.p.ws == dry.p.ws && c.tool == dry.tool && !c.dryRun && c.confirmer && MayWrite(c.p)
    requires c.token == Serve(w, dry).1.token && seconds <= 600
    ensures var w2 := Next(Next(w, Request(dry)), Wait(seconds));
            && Allowed(w2, Request(c)) && w2.states == w.states
            && (!Hit(w2, c.p.ws, c.key) ==> Next(w2, Request(c)) == Apply(w2, c).0)
  {
    hide MayWrite, Hit;
    var w2 := Next(Next(w, Request(dry)), Wait(seconds));
    if !Hit(w2, c.p.ws, c.key) { ConfirmAfterPreview(w, dry, w2, c); }
  }

  /** A sweep after a while forgets exactly the keys whose row has expired by then, and neither changes anything else. */
  lemma SweptKeys<S>(w: World<S>, seconds: nat, k: (string, string))
    ensures var w' := Next(Next(w, Wait(seconds)), Sweep);
            && (k in w'.idempotency <==> k in w.idempotency && w.now + seconds <= w.idempotency[k].expiresAt)
            && (k in w'.idempotency ==> w'.idempotency[k] == w.idempotency[k])
            && w'.states == w.states && w'.signed == w.signed && w'.log == w.log && w'.now == w.now + seconds
  {}

  /** `w` leads to `w'` by the listed actions. */
  ghost predicate Leads<S>(w: World<S>, actions: seq<Action<S>>, w': World<S>)
    decreases |actions|
  {
    if actions == [] then w' == w
    else Allowed(w, actions[0]) && Leads(Next(w, actions[0]), actions[1..], w')
  }

  /** An earlier preview at position `i` covers the applied write at position `j`. */
  predicate Covers(log: seq<Entry>, i: int, j: int)
    requires 0 <= i < j < |log|
  {
    && log[i].Previewed? && log[j].Applied?
    && log[i].ws == log[j].ws && log[i].operation == log[j].operation && log[j].planned == Some(log[i].effects)
    && 0 <= log[j].at - log[i].at <= 600
  }

  ghost predicate Backed(log: seq<Entry>, s: Signature) {
    s.Mac? ==> exists i :: 0 <= i < |log| && log[i] == Previewed(s.ws, s.operation, s.digest.effects, s.exp - CONFIRM_TOKEN_TTL)
  }

  ghost predicate Honest<S>(w: World<S>) {
    && (forall i :: 0 <= i < |w.log| ==> w.log[i].at <= w.now)
    && (forall s <- w.signed :: Backed(w.log, s))
    && (forall j :: 0 <= j < |w.log| && w.log[j].Applied? ==> MayWrite(w.log[j].actor))
    && (forall j :: 0 <= j < |w.log| && w.log[j].Applied? && w.log[j].destructive ==>
          exists i :: 0 <= i < j && Covers(w.log, i, j))
  }

  lemma BackedGrows(log: seq<Entry>, e: Entry, s: Signature)
    requires Backed(log, s)
    ensures Backed(log + [e], s)
  {
    if s.Mac? {
      var i :| 0 <= i < |log| && log[i] == Previewed(s.ws, s.operation, s.digest.effects, s.exp - CONFIRM_TOKEN_TTL);
      assert (log + [e])[i] == log[i];
    }
  }

  lemma CoverageGrows(log: seq<Entry>, e: Entry)
    requires forall j :: 0 <= j < |log| && log[j].Applied? && log[j].destructive ==> exists i :: 0 <= i < j && Covers(log, i, j)
    requires e.Applied? && e.destructive ==> exists i :: 0 <= i < |log| && Covers(log + [e], i, |log|)
    ensures var l := log + [e];
            forall j :: 0 <= j < |l| && l[j].Applied? && l[j].destructive ==> exists i :: 0 <= i < j && Covers(l, i, j)
  {
    var l := log + [e];
    forall j | 0 <= j < |l| && l[j].Applied? && l[j].destructive ensures exists i :: 0 <= i < j && Covers(l, i, j) {
      if j < |log| {
        var i :| 0 <= i < j && Covers(log, i, j);
        assert Covers(l, i, j);
      }
    }
  }

  lemma DryRunKeeps<S>(w: World<S>, c: Call<S>)
    requires c.p.ws in w.states && c.dryRun && Honest(w)
    ensures Honest(Serve(w, c).0)
  {
    var (w', a) := Serve(w, c);
    if a.Preview? {
      var e := Previewed(c.p.ws, c.tool.operation, a.effects, w.now);
      assert w'.log == w.log + [e];
      CoverageGrows(w.log, e);
      forall s | s in w'.signed ensures Backed(w'.log, s) {
        if s in w.signed { BackedGrows(w.log, e, s); } else { assert w'.log[|w.log|] == e; }
      }
    }
  }

  lemma ApplyKeeps<S>(w: World<S>, c: Call<S>)
    requires c.p.ws in w.states && Honest(w) && Unforged(w, c) && Confirmed(w, c) && MayWrite(c.p)
    ensures Honest(Apply(w, c).0)
  {
    var (w', a) := Apply(w, c);
    if a.Done? {
      var planned := c.tool.plan(w.states[c.p.ws]);
      var e := Applied(c.p, c.p.ws, c.tool.operation, planned, c.tool.destructive, w.now);
      if c.tool.destructive {
        var s := c.token.value.signature;
        assert Backed(w.log, s);
        var i :| 0 <= i < |w.log| && w.log[i] == Previewed(s.ws, s.operation, s.digest.effects, s.exp - CONFIRM_TOKEN_TTL);
        assert Covers(w.log + [e], i, |w.log|);
      }
      CoverageGrows(w.log, e);
      forall s | s in w'.signed ensures Backed(w'.log, s) { BackedGrows(w.log, e, s); }
    }
  }

  lemma NextKeeps<S>(w: World<S>, a: Action<S>)
    requires Allowed(w, a) && Honest(w)
    ensures Honest(Next(w, a))
  {
    match a
    case Request(c) =>
      if c.dryRun { DryRunKeeps(w, c); }
      else if AuthorizeWrite(c.p).None? && Serve(w, c) == Apply(w, c) && Confirmed(w, c) {
        AuthorizeWriteIs(c.p);
        ApplyKeeps(w, c);
      }
    case _ =>
  }

  lemma {:induction false} LeadsKeeps<S>(w: World<S>, actions: seq<Action<S>>, w': World<S>)
    requires Leads(w, actions, w') && Honest(w)
    ensures Honest(w')
    decreases |actions|
  {
    if actions != [] {
      NextKeeps(w, actions[0]);
      LeadsKeeps(Next(w, actions[0]), actions[1..], w');
    }
  }

  /**
   Over every run from a fresh service: each write was made by an admin or owner acting with scopes that let it
   write, and each destructive one is preceded, within ten minutes, by a dry run in the same workspace and operation
   with the very effects planned when it was applied.
   */
  lemma DestructiveWritesWerePreviewed<S>(w: World<S>, actions: seq<Action<S>>, w': World<S>, j: nat)
    requires w.log == [] && w.signed == {} && Leads(w, actions, w')
    requires j < |w'.log| && w'.log[j].Applied?
    ensures w'.log[j].actor.role in {Admin, Owner} && ScopesWrite(w'.log[j].actor.scopes)
    ensures w'.log[j].destructive ==> exists i :: 0 <= i < j && Covers(w'.log, i, j)
  {
    LeadsKeeps(w, actions, w');
  }

  /** While a stored response has not expired, nothing changes or removes it. */
  lemma {:induction false} StoredResponseStays<S>(w: World<S>, actions: seq<Action<S>>, w': World<S>, k: (string, string))
    requires Leads(w, actions, w') && k in w.idempotency
    ensures w.now <= w'.now
    ensures w.idempotency[k].expiresAt > w'.now ==> k in w'.idempotency && w'.idempotency[k] == w.idempotency[k]
    decreases |actions|
  {
    if actions != [] {
      var w1 := Next(w, actions[0]);
      LeadsForward(w1, actions[1..], w');
      if k in w1.idempotency { StoredResponseStays(w1, actions[1..], w', k); }
    }
  }

  lemma {:induction false} LeadsForward<S>(w: World<S>, actions: seq<Action<S>>, w': World<S>)
    requires Leads(w, actions, w')
    ensures w.now <= w'.now
    decreases |actions|
  {
    if actions != [] { LeadsForward(Next(w, actions[0]), actions[1..], w'); }
  }

  /**
   After a write under a fresh key, for a day every authorized repeat of that key, whatever happened in between,
   returns the same status and body and changes nothing.
   */
  lemma RepeatsReplay<S>(w: World<S>, c: Call<S>, actions: seq<Action<S>>, w': World<S>, again: Call<S>)
    requires c.p.ws in w.states && c.key != "" && (c.p.ws, c.key) !in w.idempotency
    requires Serve(w, c).1.Done? && Leads(Serve(w, c).0, actions, w')
    requires again.p.ws == c.p.ws && c.p.ws in w'.states && again.key == c.key && !again.dryRun
    requires MayWrite(again.p) && (again.tool.destructive ==> again.confirmer)
    requires w'.now < w.now + 86400
    ensures Serve(w', again) == (w', Done(Serve(w, c).1.status, Serve(w, c).1.body, true))
  {
    var w1 := Serve(w, c).0;
    var k := (c.p.ws, c.key);
    assert w1.idempotency[k] == Stored(Serve(w, c).1.status, Serve(w, c).1.body, w.now + IDEMPOTENCY_TTL);
    StoredResponseStays(w1, actions, w', k);
    AuthorizeWriteIs(again.p);
  }
}
