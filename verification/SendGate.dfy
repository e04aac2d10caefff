/**
 The gate before every sequence send: suppression, then the monthly cap, then the per-recipient throttle. `Preflight`
 only reads; the runs below record a send exactly when it answers Allow.
 */
module SendGate {
  import opened Prelude
  import opened Calendar

  const DEFAULT_THROTTLE_WINDOW := 24 * 3600
  const DEFAULT_SOFT_BOUNCE_THRESHOLD := 3

  datatype Limits = Limits(monthlySendCap: int, throttleWindow: int, softBounceThreshold: int)

  function WithDefaults(l: Limits): Limits {
    l.(throttleWindow := if l.throttleWindow <= 0 then DEFAULT_THROTTLE_WINDOW else l.throttleWindow,
       softBounceThreshold := if l.softBounceThreshold <= 0 then DEFAULT_SOFT_BOUNCE_THRESHOLD else l.softBounceThreshold)
  }

  /** The window and the threshold in force: the given number where it is positive, else a day and three bounces. */
  function ThrottleWindow(limits: Limits): (w: nat)
    ensures w == if limits.throttleWindow > 0 then limits.throttleWindow else 86400
  {
    WithDefaults(limits).throttleWindow
  }

  function SoftBounceThreshold(limits: Limits): (n: nat)
    ensures n == if limits.softBounceThreshold > 0 then limits.softBounceThreshold else 3
  {
    WithDefaults(limits).softBounceThreshold
  }

  /** A row of the step ledger; rows that were never sent have no time. */
  datatype Step = Step(enrollment: nat, sentAt: Option<int>)

  /** `enrollments` maps an enrollment to its contact, `contacts` a contact to its (nullable) address. */
  datatype Db = Db(enrollments: map<nat, nat>, contacts: map<nat, Option<string>>, steps: seq<Step>,
                   suppression: map<string, string>)

  datatype Decision =
    | Allow(email: string)
    | Suppressed(email: string, reason: string)
    | Capped(email: string, retryAfter: int)
    | Throttled(email: string, retryAfter: int)

  datatype Failure = EnrollmentNotFound | NoRecipientEmail

  // ---- the queries ----

  function SentSince(steps: seq<Step>, from: int): nat {
    if steps == [] then 0
    else
      SentSince(steps[..|steps| - 1], from) +
      if steps[|steps| - 1].sentAt.Some? && steps[|steps| - 1].sentAt.value >= from then 1 else 0
  }

  predicate SentTo(db: Db, s: Step, contact: nat) {
    s.sentAt.Some? && s.enrollment in db.enrollments && db.enrollments[s.enrollment] == contact
  }

  /** The latest send to the contact after `cutoff`, if there is one. */
  function LastSentAfter(db: Db, steps: seq<Step>, contact: nat, cutoff: int): Option<int> {
    if steps == [] then None
    else
      var earlier := LastSentAfter(db, steps[..|steps| - 1], contact, cutoff);
      var s := steps[|steps| - 1];
      if SentTo(db, s, contact) && s.sentAt.value > cutoff && (earlier.None? || s.sentAt.value > earlier.value)
      then s.sentAt else earlier
  }

  lemma {:induction false} LastSentIsLatest(db: Db, steps: seq<Step>, contact: nat, cutoff: int)
    ensures var last := LastSentAfter(db, steps, contact, cutoff);
            && (last.Some? ==> exists i :: 0 <= i < |steps| && SentTo(db, steps[i], contact) && steps[i].sentAt == last
                                           && last.value > cutoff)
            && (forall i :: 0 <= i < |steps| && SentTo(db, steps[i], contact) && steps[i].sentAt.value > cutoff ==>
                              last.Some? && steps[i].sentAt.value <= last.value)
  {
    if steps != [] {
      var n := |steps| - 1;
      LastSentIsLatest(db, steps[..n], contact, cutoff);
      var earlier := LastSentAfter(db, steps[..n], contact, cutoff);
      if earlier.Some? {
        var i :| 0 <= i < n && SentTo(db, steps[..n][i], contact) && steps[..n][i].sentAt == earlier;
        assert steps[i].sentAt == earlier;
      }
      forall i | 0 <= i < n ensures steps[..n][i] == steps[i] {}
    }
  }

  predicate CapBlocks(db: Db, now: int, l: Limits) {
    l.monthlySendCap > 0 && SentSince(db.steps, StartOf(MonthOf(now))) >= l.monthlySendCap
  }

  function Preflight(db: Db, now: int, enrollment: nat, limits: Limits): Result<Decision, Failure> {
    var l := WithDefaults(limits);
    if enrollment !in db.enrollments || db.enrollments[enrollment] !in db.contacts then Err(EnrollmentNotFound)
    else
      var contact := db.enrollments[enrollment];
      var email := db.contacts[contact];
      if email.None? || email.value == "" then Err(NoRecipientEmail)
      else if email.value in db.suppression then Ok(Suppressed(email.value, db.suppression[email.value]))
      else if CapBlocks(db, now, l) then Ok(Capped(email.value, StartOfNextMonth(now)))
      else
        var last := LastSentAfter(db, db.steps, contact, now - l.throttleWindow);
        if last.Some? then Ok(Throttled(email.value, last.value + l.throttleWindow))
        else Ok(Allow(email.value))
  }

  // ---- what the verdicts mean ----

  /** The steps of the workspace sent since an instant. */
  function SentSteps(steps: seq<Step>, from: int): set<nat> {
    set k | 0 <= k < |steps| && steps[k].sentAt.Some? && steps[k].sentAt.value >= from
  }

  lemma {:induction false} SentSinceCounts(steps: seq<Step>, from: int)
    ensures SentSince(steps, from) == |SentSteps(steps, from)|
  {
    if steps != [] {
      var n := |steps| - 1;
      SentSinceCounts(steps[..n], from);
      var before := SentSteps(steps[..n], from);
      if steps[n].sentAt.Some? && steps[n].sentAt.value >= from {
        assert SentSteps(steps, from) == before + {n};
      } else {
        assert SentSteps(steps, from) == before;
      }
    }
  }

  /** The month's cap is used up: it is positive and as many steps were sent since the month began. */
  predicate CapUsedUp(db: Db, now: int, limits: Limits) {
    limits.monthlySendCap > 0 && |SentSteps(db.steps, StartOf(MonthOf(now)))| >= limits.monthlySendCap
  }

  /** A step to the contact was sent less than the window ago. */
  ghost predicate SentWithin(db: Db, contact: nat, now: int, window: int) {
    exists k :: 0 <= k < |db.steps| && SentTo(db, db.steps[k], contact) && db.steps[k].sentAt.value > now - window
  }

  /** `t` is when a step to the contact was last sent. */
  ghost predicate LastSent(db: Db, contact: nat, t: int) {
    && (exists k :: 0 <= k < |db.steps| && SentTo(db, db.steps[k], contact) && db.steps[k].sentAt.value == t)
    && (forall k :: 0 <= k < |db.steps| && SentTo(db, db.steps[k], contact) ==> db.steps[k].sentAt.value <= t)
  }

  lemma CapBlocksIs(db: Db, now: int, limits: Limits)
    ensures CapBlocks(db, now, WithDefaults(limits)) <==> CapUsedUp(db, now, limits)
  {
    hide StartOf, MonthOf, SentSteps;
    SentSinceCounts(db.steps, StartOf(MonthOf(now)));
  }

  /**
   The gate's answer, exactly: refused without an enrollment or an address; else suppressed, capped, throttled or
   allowed, the first that applies, with the retry times that belong to it.
   */
  lemma PreflightIs(db: Db, now: int, enrollment: nat, limits: Limits)
    ensures var r := Preflight(db, now, enrollment, limits);
            var window := if limits.throttleWindow > 0 then limits.throttleWindow else 86400;
            if enrollment !in db.enrollments || db.enrollments[enrollment] !in db.contacts
            then r == Err(EnrollmentNotFound)
            else
              var contact := db.enrollments[enrollment];
              var address := db.contacts[contact];
              if address.None? || address.value == "" then r == Err(NoRecipientEmail)
              else if address.value in db.suppression
              then r == Ok(Suppressed(address.value, db.suppression[address.value]))
              else if CapUsedUp(db, now, limits) then r == Ok(Capped(address.value, StartOf(MonthOf(now) + 1)))
              else if SentWithin(db, contact, now, window)
              then r.Ok? && r.value.Throttled? && r.value.email == address.value
                   && LastSent(db, contact, r.value.retryAfter - window)
              else r == Ok(Allow(address.value))
  {
    hide StartOf, MonthOf, CapBlocks, CapUsedUp, LastSentAfter;
    CapBlocksIs(db, now, limits);
    if enrollment in db.enrollments {
      var contact, l := db.enrollments[enrollment], WithDefaults(limits);
      LastSentIsLatest(db, db.steps, contact, now - l.throttleWindow);
      assert ThrottleWindow(limits) == l.throttleWindow;
      var last := LastSentAfter(db, db.steps, contact, now - l.throttleWindow);
      if last.Some? {
        assert LastSent(db, contact, last.value);
      }
    }
  }

  // ---- when a deferred verdict clears ----

  predicate NothingLaterThan(steps: seq<Step>, now: int) {
    forall i :: 0 <= i < |steps| && steps[i].sentAt.Some? ==> steps[i].sentAt.value <= now
  }

  lemma {:induction false} SentSinceFuture(steps: seq<Step>, now: int, from: int)
    requires NothingLaterThan(steps, now) && now < from
    ensures SentSince(steps, from) == 0
  {
    if steps != [] {
      var prefix := steps[..|steps| - 1];
      assert forall i :: 0 <= i < |prefix| ==> prefix[i] == steps[i];
      SentSinceFuture(prefix, now, from);
    }
  }

  lemma {:induction false} SentSinceShrinks(steps: seq<Step>, from: int, later: int)
    requires from <= later
    ensures SentSince(steps, later) <= SentSince(steps, from)
  {
    if steps != [] { SentSinceShrinks(steps[..|steps| - 1], from, later); }
  }

  /** Later instants have a later month, or the same one. */
  lemma MonthOfMonotone(s: int, t: int)
    requires s <= t
    ensures MonthOf(s) <= MonthOf(t) && StartOf(MonthOf(s)) <= StartOf(MonthOf(t))
    ensures t < StartOfNextMonth(s) ==> MonthOf(t) == MonthOf(s)
    ensures t >= StartOfNextMonth(s) ==> StartOf(MonthOf(t)) >= StartOfNextMonth(s)
  {
    hide StartOf, MonthOf;
    MonthsOrdered(MonthOf(s), MonthOf(t));
    MonthsOrdered(MonthOf(s), MonthOf(t) + 1);
    MonthsOrdered(MonthOf(t) + 1, MonthOf(s));
    MonthsOrdered(MonthOf(s) + 1, MonthOf(t));
    MonthsOrdered(MonthOf(t) + 1, MonthOf(s) + 1);
    if t < StartOfNextMonth(s) { MonthOfUnique(t, MonthOf(s)); }
  }

  /** If nothing else is sent, a capped verdict lasts exactly until the start of the next month. */
  lemma CappedUntilRetryAfter(db: Db, now: int, enrollment: nat, limits: Limits, t: int)
    requires NothingLaterThan(db.steps, now) && now <= t
    requires Preflight(db, now, enrollment, limits).Ok? && Preflight(db, now, enrollment, limits).value.Capped?
    ensures Preflight(db, t, enrollment, limits).Ok?
    ensures Preflight(db, t, enrollment, limits).value.Capped? <==> t < Preflight(db, now, enrollment, limits).value.retryAfter
  {
    hide StartOf, MonthOf;
    MonthOfMonotone(now, t);
    if t >= StartOfNextMonth(now) {
      SentSinceFuture(db.steps, now, StartOf(MonthOf(t)));
    }
  }

  /** If nothing else is sent, a throttled verdict lasts exactly until its retry time, and is then Allow. */
  lemma ThrottledUntilRetryAfter(db: Db, now: int, enrollment: nat, limits: Limits, t: int)
    requires now <= t
    requires Preflight(db, now, enrollment, limits).Ok? && Preflight(db, now, enrollment, limits).value.Throttled?
    ensures var first, later := Preflight(db, now, enrollment, limits), Preflight(db, t, enrollment, limits);
            later == Ok(if t < first.value.retryAfter then first.value else Allow(first.value.email))
  {
    hide StartOf, MonthOf;
    var l := WithDefaults(limits);
    var contact := db.enrollments[enrollment];
    MonthOfMonotone(now, t);
    SentSinceShrinks(db.steps, StartOf(MonthOf(now)), StartOf(MonthOf(t)));
    LastSentIsLatest(db, db.steps, contact, now - l.throttleWindow);
    LastSentIsLatest(db, db.steps, contact, t - l.throttleWindow);
  }

  // ---- runs ----

  datatype Entry = Sent(at: int, contact: nat, email: string) | Listed(email: string)

  /** `log` is the order in which sends and suppressions happened. */
  datatype World = World(db: Db, now: int, log: seq<Entry>)

  datatype Action =
    | Wait(seconds: nat)
    | SetContact(contact: nat, email: Option<string>)
    | Enroll(enrollment: nat, contact: nat)
    | Suppress(address: string, reason: string)
    | Schedule(enrollment: nat)
    | TrySend(enrollment: nat)

  function After(w: World, a: Action, limits: Limits): World {
    match a
    case Wait(seconds) => w.(now := w.now + seconds)
    case SetContact(contact, email) => w.(db := w.db.(contacts := w.db.contacts[contact := email]))
    case Enroll(enrollment, contact) =>
      if enrollment in w.db.enrollments then w
      else w.(db := w.db.(enrollments := w.db.enrollments[enrollment := contact]))
    case Suppress(email, reason) =>
      w.(db := w.db.(suppression := w.db.suppression[email := reason]), log := w.log + [Listed(email)])
    case Schedule(enrollment) => w.(db := w.db.(steps := w.db.steps + [Step(enrollment, None)]))
    case TrySend(enrollment) =>
      match Preflight(w.db, w.now, enrollment, limits)
      case Ok(Allow(email)) =>
        World(w.db.(steps := w.db.steps + [Step(enrollment, Some(w.now))]), w.now,
              w.log + [Sent(w.now, w.db.enrollments[enrollment], email)])
      case _ => w
  }

  function Run(start: int, actions: seq<Action>, limits: Limits): World {
    if actions == [] then World(Db(map[], map[], [], map[]), start, [])
    else After(Run(start, actions[..|actions| - 1], limits), actions[|actions| - 1], limits)
  }

  lemma RunOne(start: int, actions: seq<Action>, a: Action, limits: Limits)
    ensures Run(start, actions + [a], limits) == After(Run(start, actions, limits), a, limits)
  {
    assert (actions + [a])[..|actions + [a]| - 1] == actions;
  }

  /** The gate does not stop a first send: once a contact has an address and is enrolled, it goes out at any time. */
  lemma FirstSendHappens(start: int, seconds: nat, contact: nat, enrollment: nat, email: string, limits: Limits)
    requires email != ""
    ensures var events := [SetContact(contact, Some(email)), Enroll(enrollment, contact), Schedule(enrollment),
                           Wait(seconds), TrySend(enrollment)];
            var w := Run(start, events, limits);
            && w.log == [Sent(start + seconds, contact, email)] && w.now == start + seconds
            && w.db.steps == [Step(enrollment, None), Step(enrollment, Some(start + seconds))]
            && w.db.contacts == map[contact := Some(email)] && w.db.enrollments == map[enrollment := contact]
  {
    hide Run, StartOf, MonthOf;
    var e0: seq<Action> := [];
    var e1 := e0 + [SetContact(contact, Some(email))];
    var e2 := e1 + [Enroll(enrollment, contact)];
    var e3 := e2 + [Schedule(enrollment)];
    var e4 := e3 + [Wait(seconds)];
    RunNone(start, limits);
    RunOne(start, e0, SetContact(contact, Some(email)), limits);
    RunOne(start, e1, Enroll(enrollment, contact), limits);
    RunOne(start, e2, Schedule(enrollment), limits);
    RunOne(start, e3, Wait(seconds), limits);
    RunOne(start, e4, TrySend(enrollment), limits);
    var w := Run(start, e4, limits);
    assert w.db.steps == [Step(enrollment, None)];
    NothingSent(w.db, enrollment, contact, email, w.now, limits);
    assert e4 + [TrySend(enrollment)] == [SetContact(contact, Some(email)), Enroll(enrollment, contact),
                                          Schedule(enrollment), Wait(seconds), TrySend(enrollment)];
  }

  lemma RunNone(start: int, limits: Limits)
    ensures Run(start, [], limits) == World(Db(map[], map[], [], map[]), start, [])
  {}

  lemma NothingSent(db: Db, enrollment: nat, contact: nat, email: string, now: int, limits: Limits)
    requires enrollment in db.enrollments && db.enrollments[enrollment] == contact
    requires contact in db.contacts && db.contacts[contact] == Some(email) && email != ""
    requires email !in db.suppression && db.steps == [Step(enrollment, None)]
    ensures Preflight(db, now, enrollment, limits) == Ok(Allow(email))
  {
    hide StartOf, MonthOf, Preflight;
    PreflightIs(db, now, enrollment, limits);
    assert SentSteps(db.steps, StartOf(MonthOf(now))) == {};
  }

  function SentIn(log: seq<Entry>, month: int): nat {
    if log == [] then 0
    else
      var e := log[|log| - 1];
      SentIn(log[..|log| - 1], month) + if e.Sent? && MonthOf(e.at) == month then 1 else 0
  }

  /** Two sends to one contact keep their distance. */
  predicate Spaced(log: seq<Entry>, window: int) {
    forall i, j :: 0 <= i < j < |log| && log[i].Sent? && log[j].Sent? && log[i].contact == log[j].contact ==>
                     log[j].at - log[i].at >= window
  }

  /** No send follows the suppression of its address. */
  predicate Respectful(log: seq<Entry>) {
    forall i, j :: 0 <= i < j < |log| && log[i].Listed? && log[j].Sent? ==> log[i].email != log[j].email
  }

  /** The ledger has a row for the send that the log entry tells of. */
  ghost predicate InLedger(db: Db, e: Entry) {
    e.Sent? ==> exists k :: 0 <= k < |db.steps| && SentTo(db, db.steps[k], e.contact) && db.steps[k].sentAt.value == e.at
  }

  /** Rows already in the ledger stay there when rows are added and enrollments keep their contact. */
  lemma InLedgerStays(db: Db, db': Db, e: Entry)
    requires InLedger(db, e) && db.steps <= db'.steps
    requires forall x <- db.enrollments :: x in db'.enrollments && db'.enrollments[x] == db.enrollments[x]
    ensures InLedger(db', e)
  {
    if e.Sent? {
      var k :| 0 <= k < |db.steps| && SentTo(db, db.steps[k], e.contact) && db.steps[k].sentAt.value == e.at;
      assert SentTo(db', db'.steps[k], e.contact);
    }
  }

  /** The ledger and the log tell of the same sends. */
  ghost predicate Recorded(w: World) {
    && NothingLaterThan(w.db.steps, w.now)
    && (forall i :: 0 <= i < |w.log| && w.log[i].Sent? ==> w.log[i].at <= w.now)
    && (forall i :: 0 <= i < |w.log| ==> InLedger(w.db, w.log[i]))
    && (forall i :: 0 <= i < |w.log| && w.log[i].Listed? ==> w.log[i].email in w.db.suppression)
    && (forall from: int :: SentSince(w.db.steps, from) == LoggedSince(w.log, from))
  }

  function LoggedSince(log: seq<Entry>, from: int): nat {
    if log == [] then 0
    else
      var e := log[|log| - 1];
      LoggedSince(log[..|log| - 1], from) + if e.Sent? && e.at >= from then 1 else 0
  }

  /** While the clock is in a month, the sends since its start are the sends in it. */
  lemma {:induction false} LoggedSinceIsSentIn(log: seq<Entry>, now: int)
    requires forall i :: 0 <= i < |log| && log[i].Sent? ==> log[i].at <= now
    ensures LoggedSince(log, StartOf(MonthOf(now))) == SentIn(log, MonthOf(now))
  {
    hide StartOf, MonthOf;
    if log != [] {
      var prefix, e := log[..|log| - 1], log[|log| - 1];
      assert forall i :: 0 <= i < |prefix| ==> prefix[i] == log[i];
      LoggedSinceIsSentIn(prefix, now);
      if e.Sent? {
        MonthOfMonotone(e.at, now);
        if e.at >= StartOf(MonthOf(now)) { MonthOfUnique(e.at, MonthOf(now)); }
      }
    }
  }

  lemma LogAppend(log: seq<Entry>, e: Entry, from: int, month: int)
    ensures LoggedSince(log + [e], from) == LoggedSince(log, from) + if e.Sent? && e.at >= from then 1 else 0
    ensures SentIn(log + [e], month) == SentIn(log, month) + if e.Sent? && MonthOf(e.at) == month then 1 else 0
  {
    assert (log + [e])[..|log + [e]| - 1] == log;
  }

  lemma StepsAppend(steps: seq<Step>, s: Step, from: int)
    ensures SentSince(steps + [s], from) == SentSince(steps, from) + if s.sentAt.Some? && s.sentAt.value >= from then 1 else 0
  {
    assert (steps + [s])[..|steps + [s]| - 1] == steps;
  }

  ghost predicate Safe(w: World, limits: Limits) {
    && Spaced(w.log, ThrottleWindow(limits))
    && Respectful(w.log)
    && (limits.monthlySendCap > 0 ==> forall m: int :: SentIn(w.log, m) <= limits.monthlySendCap)
  }

  lemma CountsAgree(steps: seq<Step>, log: seq<Entry>, s: Step, e: Entry)
    requires forall from: int :: SentSince(steps, from) == LoggedSince(log, from)
    requires if e.Sent? then s.sentAt == Some(e.at) else s.sentAt.None?
    ensures forall from: int :: SentSince(steps + [s], from) == LoggedSince(log + [e], from)
  {
    forall from: int ensures SentSince(steps + [s], from) == LoggedSince(log + [e], from) {
      LogAppend(log, e, from, 0);
      StepsAppend(steps, s, from);
    }
  }

  lemma NewStepInLedger(db: Db, s: Step, e: Entry)
    requires e.Sent? && SentTo(db, s, e.contact) && s.sentAt.value == e.at
    ensures InLedger(db.(steps := db.steps + [s]), e)
  {
    var db' := db.(steps := db.steps + [s]);
    assert SentTo(db', db'.steps[|db.steps|], e.contact);
  }

  lemma SendKeepsRecorded(w: World, enrollment: nat, email: string)
    requires Recorded(w) && enrollment in w.db.enrollments
    ensures Recorded(World(w.db.(steps := w.db.steps + [Step(enrollment, Some(w.now))]), w.now,
                           w.log + [Sent(w.now, w.db.enrollments[enrollment], email)]))
  {
    hide SentSince, LoggedSince, InLedger;
    var s, e := Step(enrollment, Some(w.now)), Sent(w.now, w.db.enrollments[enrollment], email);
    var log, db := w.log + [e], w.db.(steps := w.db.steps + [s]);
    NewStepInLedger(w.db, s, e);
    forall i | 0 <= i < |log| ensures InLedger(db, log[i]) {
      if i < |w.log| { InLedgerStays(w.db, db, w.log[i]); }
    }
    CountsAgree(w.db.steps, w.log, s, e);
  }

  lemma SendKeepsSafe(w: World, enrollment: nat, limits: Limits)
    requires Recorded(w) && Safe(w, limits)
    requires Preflight(w.db, w.now, enrollment, limits).Ok? && Preflight(w.db, w.now, enrollment, limits).value.Allow?
    ensures Safe(After(w, TrySend(enrollment), limits), limits)
  {
    hide StartOf, MonthOf;
    var l := WithDefaults(limits);
    var contact := w.db.enrollments[enrollment];
    var e := Sent(w.now, contact, Preflight(w.db, w.now, enrollment, limits).value.email);
    var log := w.log + [e];
    LastSentIsLatest(w.db, w.db.steps, contact, w.now - l.throttleWindow);
    forall i | 0 <= i < |w.log| && w.log[i].Sent? && w.log[i].contact == contact
      ensures w.now - w.log[i].at >= l.throttleWindow
    {
      assert InLedger(w.db, w.log[i]);
    }
    LoggedSinceIsSentIn(w.log, w.now);
    forall m: int ensures limits.monthlySendCap > 0 ==> SentIn(log, m) <= limits.monthlySendCap {
      LogAppend(w.log, e, 0, m);
    }
  }

  lemma AfterKeeps(w: World, a: Action, limits: Limits)
    requires Recorded(w) && Safe(w, limits)
    ensures Recorded(After(w, a, limits)) && Safe(After(w, a, limits), limits)
  {
    var w' := After(w, a, limits);
    match a
    case TrySend(enrollment) =>
      var r := Preflight(w.db, w.now, enrollment, limits);
      if r.Ok? && r.value.Allow? {
        SendKeepsRecorded(w, enrollment, r.value.email);
        SendKeepsSafe(w, enrollment, limits);
      }
    case Suppress(email, reason) =>
      forall from: int ensures SentSince(w'.db.steps, from) == LoggedSince(w'.log, from) {
        LogAppend(w.log, Listed(email), from, 0);
      }
      forall i | 0 <= i < |w'.log| ensures InLedger(w'.db, w'.log[i]) {
        if i < |w.log| { InLedgerStays(w.db, w'.db, w.log[i]); }
      }
      forall m: int { LogAppend(w.log, Listed(email), 0, m); }
    case _ =>
      KeepsLedger(w, a, limits);
  }

  /** Actions that neither send nor suppress leave the log alone and lose no sent step. */
  lemma KeepsLedger(w: World, a: Action, limits: Limits)
    requires Recorded(w) && !a.TrySend? && !a.Suppress?
    ensures Recorded(After(w, a, limits)) && After(w, a, limits).log == w.log
  {
    var w' := After(w, a, limits);
    forall i | 0 <= i < |w'.log| ensures InLedger(w'.db, w'.log[i]) {
      InLedgerStays(w.db, w'.db, w.log[i]);
    }
    forall from: int ensures SentSince(w'.db.steps, from) == LoggedSince(w'.log, from) {
      if a.Schedule? { StepsAppend(w.db.steps, Step(a.enrollment, None), from); }
    }
  }

  lemma {:induction false} RunKeeps(start: int, actions: seq<Action>, limits: Limits)
    ensures Recorded(Run(start, actions, limits)) && Safe(Run(start, actions, limits), limits)
  {
    if actions != [] {
      RunKeeps(start, actions[..|actions| - 1], limits);
      AfterKeeps(Run(start, actions[..|actions| - 1], limits), actions[|actions| - 1], limits);
    }
  }

  /**
   Over every run: two sends to one contact are at least the throttle window apart, no month exceeds a positive cap,
   and nothing is sent to an address after it was suppressed.
   */
  lemma EveryRunIsSafe(start: int, actions: seq<Action>, limits: Limits)
    ensures var log := Run(start, actions, limits).log;
            && Spaced(log, if limits.throttleWindow > 0 then limits.throttleWindow else 86400)
            && Respectful(log)
            && (limits.monthlySendCap > 0 ==> forall m: int :: SentIn(log, m) <= limits.monthlySendCap)
  {
    RunKeeps(start, actions, limits);
  }
}
