/**
 Sends and bounces over whole runs: sends go through the gate, and the bounce of any earlier send may arrive at any
 time. Both work on one step ledger and one suppression table.
 */
module BounceRuns {
  import opened Prelude
  import opened BouncePolicy
  import SendGate

  /** `bounces[k]` is what has been recorded for step `k`; every step is a send. */
  datatype State = State(db: SendGate.Db, bounces: seq<Outcome>, now: int)

  datatype Event =
    | TrySend(enrollment: nat, wait: nat)
    | Arrive(step: nat, kind: Outcome)

  /** The address a step was sent to. */
  function AddressOf(db: SendGate.Db, step: SendGate.Step): Option<string> {
    if step.enrollment in db.enrollments && db.enrollments[step.enrollment] in db.contacts
    then db.contacts[db.enrollments[step.enrollment]] else None
  }

  /** The attempts to an address among the first `n` steps, in send order. */
  function Attempts(g: State, email: string, n: nat): (h: seq<Attempt>)
    requires n <= |g.db.steps| == |g.bounces|
  {
    if n == 0 then []
    else
      var step := g.db.steps[n - 1];
      Attempts(g, email, n - 1) +
      if AddressOf(g.db, step) == Some(email) && step.sentAt.Some?
      then [Attempt(step.sentAt.value, g.bounces[n - 1])] else []
  }

  function History(g: State, email: string): seq<Attempt> {
    if |g.db.steps| == |g.bounces| then Attempts(g, email, |g.bounces|) else []
  }

  /** A send is recorded when the gate allows it; a bounce is recorded and then applied. Time passes before a send. */
  function After(g: State, e: Event, limits: SendGate.Limits): State {
    match e
    case TrySend(enrollment, wait) =>
      var now := g.now + wait + 1;
      (match SendGate.Preflight(g.db, now, enrollment, limits)
       case Ok(Allow(_)) =>
         State(g.db.(steps := g.db.steps + [SendGate.Step(enrollment, Some(now))]), g.bounces + [NoBounce], now)
       case _ => g.(now := now))
    case Arrive(step, kind) =>
      if step >= |g.db.steps| || |g.bounces| != |g.db.steps| || AddressOf(g.db, g.db.steps[step]).None?
         || kind.NoBounce?
      then g
      else
        var email := AddressOf(g.db, g.db.steps[step]).value;
        var recorded := g.(bounces := g.bounces[step := kind]);
        recorded.(db := g.db.(suppression :=
          Applied(g.db.suppression, email, kind, History(recorded, email), limits)))
  }

  function Run(start: State, events: seq<Event>, limits: SendGate.Limits): State {
    if events == [] then start
    else After(Run(start, events[..|events| - 1], limits), events[|events| - 1], limits)
  }

  /** Every step was sent, the sends are in order of their times, and none is later than now. */
  ghost predicate Ordered(g: State) {
    && |g.db.steps| == |g.bounces|
    && (forall k :: 0 <= k < |g.db.steps| ==> g.db.steps[k].sentAt.Some? && g.db.steps[k].sentAt.value <= g.now)
    && (forall j, k :: 0 <= j < k < |g.db.steps| ==> g.db.steps[j].sentAt.value < g.db.steps[k].sentAt.value)
  }

  lemma AllowMeans(db: SendGate.Db, now: int, enrollment: nat, limits: SendGate.Limits)
    requires SendGate.Preflight(db, now, enrollment, limits).Ok?
    requires SendGate.Preflight(db, now, enrollment, limits).value.Allow?
    ensures var email := SendGate.Preflight(db, now, enrollment, limits).value.email;
            && email !in db.suppression
            && AddressOf(db, SendGate.Step(enrollment, Some(now))) == Some(email)
  {}

  // ---- what an event does to the history of one address ----

  lemma {:induction false} AttemptsDependOn(g: State, g': State, email: string, n: nat)
    requires n <= |g.db.steps| == |g.bounces| && n <= |g'.db.steps| == |g'.bounces|
    requires g.db.contacts == g'.db.contacts && g.db.enrollments == g'.db.enrollments
    requires forall k :: 0 <= k < n ==> g.db.steps[k] == g'.db.steps[k]
    requires forall k :: 0 <= k < n && AddressOf(g.db, g.db.steps[k]) == Some(email) ==> g.bounces[k] == g'.bounces[k]
    ensures Attempts(g, email, n) == Attempts(g', email, n)
  {
    hide AddressOf;
    if n > 0 {
      AttemptsDependOn(g, g', email, n - 1);
      assert AddressOf(g'.db, g'.db.steps[n - 1]) == AddressOf(g.db, g.db.steps[n - 1]) by { SameAddress(g, g', n - 1); }
    }
  }

  lemma SameAddress(g: State, g': State, k: nat)
    requires k < |g.db.steps| && k < |g'.db.steps| && g.db.steps[k] == g'.db.steps[k]
    requires g.db.contacts == g'.db.contacts && g.db.enrollments == g'.db.enrollments
    ensures AddressOf(g'.db, g'.db.steps[k]) == AddressOf(g.db, g.db.steps[k])
  {}

  /** A recorded bounce changes one attempt of its own address. */
  lemma {:induction false} AttemptsRecorded(g: State, g': State, email: string, n: nat, step: nat, kind: Outcome)
    returns (p: nat)
    requires step < n <= |g.db.steps| == |g.bounces| && AddressOf(g.db, g.db.steps[step]) == Some(email)
    requires g.db.steps[step].sentAt.Some?
    requires g'.db.steps == g.db.steps && g'.db.contacts == g.db.contacts && g'.db.enrollments == g.db.enrollments
    requires g'.bounces == g.bounces[step := kind]
    ensures p < |Attempts(g, email, n)|
    ensures Attempts(g', email, n) == Attempts(g, email, n)[p := Attempts(g, email, n)[p].(outcome := kind)]
  {
    hide AddressOf;
    SameAddress(g, g', n - 1);
    if step == n - 1 {
      AttemptsDependOn(g, g', email, n - 1);
      p := |Attempts(g, email, n - 1)|;
    } else {
      p := AttemptsRecorded(g, g', email, n - 1, step, kind);
    }
  }

  /** An event leaves the history of an address alone, or adds an attempt, or records one outcome in it. */
  datatype Change = Same | Sent(at: int) | Recorded(p: nat, kind: Outcome)

  ghost predicate Follows(h: seq<Attempt>, h': seq<Attempt>, c: Change) {
    match c
    case Same => h' == h
    case Sent(at) => h' == h + [Attempt(at, NoBounce)]
    case Recorded(p, kind) => p < |h| && !kind.NoBounce? && h' == h[p := h[p].(outcome := kind)]
  }

  /** What the event does to the suppression of the address. */
  ghost predicate Suppresses(was: bool, is': bool, h': seq<Attempt>, c: Change, threshold: nat) {
    match c
    case Same => is' == was
    case Sent(_) => !was && !is'
    case Recorded(_, kind) => is' <==> was || Grave(kind) || (kind.Soft? && TrailingRun(h') >= threshold)
  }

  function Threshold(limits: SendGate.Limits): (t: nat)
    ensures t == if limits.softBounceThreshold > 0 then limits.softBounceThreshold else 3
  {
    SendGate.SoftBounceThreshold(limits)
  }

  lemma SendChange(g: State, enrollment: nat, wait: nat, limits: SendGate.Limits, email: string)
    returns (c: Change)
    requires Ordered(g)
    ensures var g' := After(g, TrySend(enrollment, wait), limits);
            && g'.now == g.now + wait + 1 && Ordered(g') && Follows(History(g, email), History(g', email), c)
            && Suppresses(email in g.db.suppression, email in g'.db.suppression, History(g', email), c, Threshold(limits))
  {
    hide SendGate.Preflight;
    var now := g.now + wait + 1;
    var r := SendGate.Preflight(g.db, now, enrollment, limits);
    var g' := After(g, TrySend(enrollment, wait), limits);
    AttemptsDependOn(g, g', email, |g.bounces|);
    c := Same;
    if r.Ok? && r.value.Allow? {
      AllowMeans(g.db, now, enrollment, limits);
      if r.value.email == email { c := Sent(now); }
    }
  }

  lemma ArriveChange(g: State, step: nat, kind: Outcome, limits: SendGate.Limits, email: string) returns (c: Change)
    requires Ordered(g)
    ensures var g' := After(g, Arrive(step, kind), limits);
            && Ordered(g') && Follows(History(g, email), History(g', email), c) && !c.Sent?
            && Suppresses(email in g.db.suppression, email in g'.db.suppression, History(g', email), c, Threshold(limits))
  {
    hide AddressOf, TrailingRun;
    c := Same;
    var g' := After(g, Arrive(step, kind), limits);
    if step < |g.db.steps| && AddressOf(g.db, g.db.steps[step]).Some? && !kind.NoBounce? {
      var recorded := g.(bounces := g.bounces[step := kind]);
      AttemptsDependOn(recorded, g', email, |g.bounces|);
      if AddressOf(g.db, g.db.steps[step]) == Some(email) {
        var p := AttemptsRecorded(g, recorded, email, |g.bounces|, step, kind);
        c := Recorded(p, kind);
      } else {
        AttemptsDependOn(g, recorded, email, |g.bounces|);
      }
    }
  }

  lemma ChangeOf(g: State, e: Event, limits: SendGate.Limits, email: string) returns (c: Change)
    requires Ordered(g)
    ensures var g' := After(g, e, limits);
            && Ordered(g') && Follows(History(g, email), History(g', email), c)
            && Suppresses(email in g.db.suppression, email in g'.db.suppression, History(g', email), c, Threshold(limits))
  {
    match e
    case TrySend(enrollment, wait) => c := SendChange(g, enrollment, wait, limits, email);
    case Arrive(step, kind) => c := ArriveChange(g, step, kind, limits, email);
  }

  /** Histories of ordered states are in send order. */
  lemma {:induction false} AttemptsInOrder(g: State, email: string, n: nat)
    requires Ordered(g) && n <= |g.bounces|
    ensures InSendOrder(Attempts(g, email, n))
    ensures forall a <- Attempts(g, email, n) :: exists k :: 0 <= k < n && g.db.steps[k].sentAt == Some(a.sentAt)
  {
    hide AddressOf;
    if n > 0 { AttemptsInOrder(g, email, n - 1); }
  }

  /** The handler of a bounce: record it on the step, then decide on what the ledger now shows. */
  method ReceiveBounce(g: State, step: nat, kind: Outcome, limits: SendGate.Limits) returns (g': State)
    requires Ordered(g)
    ensures g' == After(g, Arrive(step, kind), limits)
  {
    hide Applied, AddressOf;
    if step >= |g.db.steps| || kind.NoBounce? { return g; }
    var address := AddressOf(g.db, g.db.steps[step]);
    if address.None? { return g; }
    var recorded := g.(bounces := g.bounces[step := kind]);
    AttemptsInOrder(recorded, address.value, |recorded.bounces|);
    var rows := Rows(History(recorded, address.value));
    var suppression, action := ApplyBounce(rows, g.db.suppression, address.value, kind, limits,
                                           History(recorded, address.value));
    g' := recorded.(db := g.db.(suppression := suppression));
  }

  // ---- every run ----

  /** The run as the moments between its events show it to one address. */
  function At(start: State, events: seq<Event>, limits: SendGate.Limits, email: string, k: nat): seq<Attempt>
    requires k <= |events|
  {
    History(Run(start, events[..k], limits), email)
  }

  predicate Begins(start: State) {
    start.db.steps == [] && start.bounces == []
  }

  lemma RunStep(start: State, events: seq<Event>, limits: SendGate.Limits, k: nat)
    requires k < |events|
    ensures Run(start, events[..k + 1], limits) == After(Run(start, events[..k], limits), events[k], limits)
  {
    assert events[..k + 1][..k] == events[..k];
  }

  lemma {:induction false} RunOrdered(start: State, events: seq<Event>, limits: SendGate.Limits, k: nat)
    requires Begins(start) && k <= |events|
    ensures Ordered(Run(start, events[..k], limits))
  {
    if k > 0 {
      RunOrdered(start, events, limits, k - 1);
      RunStep(start, events, limits, k - 1);
      var c := ChangeOf(Run(start, events[..k - 1], limits), events[k - 1], limits, "");
    }
  }

  lemma MomentChange(start: State, events: seq<Event>, limits: SendGate.Limits, email: string, k: nat)
    returns (c: Change)
    requires Begins(start) && k < |events|
    ensures Follows(At(start, events, limits, email, k), At(start, events, limits, email, k + 1), c)
    ensures Suppresses(email in Run(start, events[..k], limits).db.suppression,
                       email in Run(start, events[..k + 1], limits).db.suppression,
                       At(start, events, limits, email, k + 1), c, Threshold(limits))
  {
    RunOrdered(start, events, limits, k);
    RunStep(start, events, limits, k);
    c := ChangeOf(Run(start, events[..k], limits), events[k], limits, email);
  }

  /** A bounce or complaint that suppresses at once is on record, or the last `threshold` attempts all soft-bounced. */
  ghost predicate Shows(h: seq<Attempt>, threshold: nat) {
    || (exists i :: 0 <= i < |h| && Grave(h[i].outcome))
    || (|h| >= threshold && SoftRunAt(h, |h| - threshold, threshold))
  }

  lemma ShowsStep(h: seq<Attempt>, h': seq<Attempt>, c: Change, was: bool, is': bool, threshold: nat)
    requires threshold > 0 && Follows(h, h', c) && Suppresses(was, is', h', c, threshold)
    requires Shows(h, threshold) ==> was
    ensures is' <==> was || Shows(h', threshold)
  {
    TrailingRunIff(h', threshold);
    match c
    case Same =>
    case Sent(at) =>
      assert forall i :: 0 <= i < |h| ==> h'[i] == h[i];
      assert !h'[|h'| - 1].outcome.Soft?;
    case Recorded(p, kind) =>
      assert h'[p].outcome == kind;
      if i :| 0 <= i < |h'| && Grave(h'[i].outcome) {
        if i != p { assert h[i] == h'[i]; }
      }
  }

  /**
   An address is suppressed exactly if at some moment a hard bounce or a complaint of it was on record, or some
   `threshold` consecutive attempts had all soft-bounced before the next one was sent.
   */
  lemma {:induction false} SuppressedIff(start: State, events: seq<Event>, limits: SendGate.Limits, email: string, n: nat)
    requires Begins(start) && email !in start.db.suppression && n <= |events|
    ensures email in Run(start, events[..n], limits).db.suppression
            <==> exists k :: 0 <= k <= n && Shows(At(start, events, limits, email, k), Threshold(limits))
    decreases n
  {
    hide Run, After, History, Shows;
    if n == 0 {
      NothingShown(start, events, limits, email);
    } else {
      SuppressedIff(start, events, limits, email, n - 1);
      var c := MomentChange(start, events, limits, email, n - 1);
      var h, h' := At(start, events, limits, email, n - 1), At(start, events, limits, email, n);
      ShowsStep(h, h', c, email in Run(start, events[..n - 1], limits).db.suppression,
                email in Run(start, events[..n], limits).db.suppression, Threshold(limits));
    }
  }

  lemma NothingShown(start: State, events: seq<Event>, limits: SendGate.Limits, email: string)
    requires Begins(start)
    ensures Run(start, events[..0], limits) == start
    ensures !Shows(At(start, events, limits, email, 0), Threshold(limits))
  {}

  // ---- what the gate bounds ----

  lemma {:induction false} HistoryGrows(start: State, events: seq<Event>, limits: SendGate.Limits, email: string, j: nat, k: nat)
    requires Begins(start) && j <= k <= |events|
    ensures |At(start, events, limits, email, j)| <= |At(start, events, limits, email, k)|
    decreases k - j
  {
    hide Run, After, History;
    if j < k {
      var c := MomentChange(start, events, limits, email, k - 1);
      HistoryGrows(start, events, limits, email, j, k - 1);
    }
  }

  /** Event `k` sends attempt number `n` to the address. */
  ghost predicate SendsAt(start: State, events: seq<Event>, limits: SendGate.Limits, email: string, k: nat, n: nat)
    requires k < |events|
  {
    |At(start, events, limits, email, k)| == n && |At(start, events, limits, email, k + 1)| == n + 1
  }

  /** Each attempt is sent by an event. */
  lemma {:induction false} SentWhen(start: State, events: seq<Event>, limits: SendGate.Limits, email: string, m: nat, n: nat)
    returns (k: nat)
    requires Begins(start) && m <= |events| && n < |At(start, events, limits, email, m)|
    ensures k < m && SendsAt(start, events, limits, email, k, n)
    decreases m
  {
    hide Run, After, History;
    if m == 0 {
      EmptyAtStart(start, events, limits, email);
    } else {
      var c := MomentChange(start, events, limits, email, m - 1);
      if n < |At(start, events, limits, email, m - 1)| {
        k := SentWhen(start, events, limits, email, m - 1, n);
      } else {
        k := m - 1;
      }
    }
  }

  /** When an attempt is sent, nothing that suppresses has been on record. */
  lemma ClearAtSend(start: State, events: seq<Event>, limits: SendGate.Limits, email: string, k: nat, n: nat)
    requires Begins(start) && email !in start.db.suppression && k < |events|
    requires SendsAt(start, events, limits, email, k, n)
    ensures forall j :: 0 <= j <= k ==> !Shows(At(start, events, limits, email, j), Threshold(limits))
  {
    hide Run, After, History, Shows;
    var c := MomentChange(start, events, limits, email, k);
    SuppressedIff(start, events, limits, email, k);
  }

  lemma EmptyAtStart(start: State, events: seq<Event>, limits: SendGate.Limits, email: string)
    requires Begins(start)
    ensures At(start, events, limits, email, 0) == []
  {}

  /** When the attempt after the `n` attempts from `j` on was sent, some soft bounce of those had not arrived. */
  ghost predicate Late(start: State, events: seq<Event>, limits: SendGate.Limits, email: string, j: nat, n: nat) {
    exists k :: 0 <= k < |events| && SendsAt(start, events, limits, email, k, j + n)
                && !SoftRunAt(At(start, events, limits, email, k), j, n)
  }

  /**
   The gate and late bounces: an address gets more consecutive soft-bounced sends than the threshold exactly when, for
   one such run of attempts, a bounce of all but the last was still missing when the last was sent.
   */
  lemma GatedRunsAreBoundedIff(start: State, events: seq<Event>, limits: SendGate.Limits, email: string)
    requires Begins(start) && email !in start.db.suppression
    ensures var h, n := At(start, events, limits, email, |events|), Threshold(limits);
            HasSoftRun(h, n + 1) <==>
            exists j :: 0 <= j <= |h| - (n + 1) && SoftRunAt(h, j, n + 1) && Late(start, events, limits, email, j, n)
  {
    hide Run, After, History;
    var h, n := At(start, events, limits, email, |events|), Threshold(limits);
    if HasSoftRun(h, n + 1) {
      var j :| 0 <= j <= |h| - (n + 1) && SoftRunAt(h, j, n + 1);
      var k := SentWhen(start, events, limits, email, |events|, j + n);
      ClearAtSend(start, events, limits, email, k, j + n);
      assert !Shows(At(start, events, limits, email, k), n);
      assert Late(start, events, limits, email, j, n);
    }
  }

  /** After something that suppresses has been on record, nothing more is sent to the address. */
  lemma NothingAfterSuppression(start: State, events: seq<Event>, limits: SendGate.Limits, email: string, j: nat, k: nat)
    requires Begins(start) && email !in start.db.suppression && j <= k <= |events|
    requires Shows(At(start, events, limits, email, j), Threshold(limits))
    ensures |At(start, events, limits, email, k)| == |At(start, events, limits, email, j)|
  {
    hide Run, After, History, Shows;
    HistoryGrows(start, events, limits, email, j, k);
    if |At(start, events, limits, email, k)| > |At(start, events, limits, email, j)| {
      var m := SentWhen(start, events, limits, email, k, |At(start, events, limits, email, j)|);
      if m < j {
        HistoryGrows(start, events, limits, email, m + 1, j);
      } else {
        ClearAtSend(start, events, limits, email, m, |At(start, events, limits, email, j)|);
      }
      assert false;
    }
  }

  // ---- bounces that arrive in time ----

  /** Each attempt's outcome is recorded once, and before the next attempt to the address. */
  ghost predicate Prompt(start: State, events: seq<Event>, limits: SendGate.Limits, email: string) {
    var h := At(start, events, limits, email, |events|);
    forall k, i :: 0 <= k <= |events| && 0 <= i < |At(start, events, limits, email, k)| ==>
      InTime(At(start, events, limits, email, k), h, i)
  }

  predicate InTime(now: seq<Attempt>, h: seq<Attempt>, i: int) {
    0 <= i < |now| && i < |h| && (now[i].outcome == h[i].outcome || (i == |now| - 1 && now[i].outcome.NoBounce?))
  }

  /**
   With bounces that arrive in time, an address is suppressed exactly when its history holds a hard bounce, a
   complaint or `threshold` consecutive soft bounces, and it never gets more consecutive soft bounces than that.
   */
  lemma PromptRuns(start: State, events: seq<Event>, limits: SendGate.Limits, email: string)
    requires Begins(start) && email !in start.db.suppression && Prompt(start, events, limits, email)
    ensures var h, n := At(start, events, limits, email, |events|), Threshold(limits);
            && (email in Run(start, events, limits).db.suppression
                <==> (exists i :: 0 <= i < |h| && Grave(h[i].outcome)) || HasSoftRun(h, n))
            && !HasSoftRun(h, n + 1)
  {
    hide Run, After, History, Prompt;
    var h, n := At(start, events, limits, email, |events|), Threshold(limits);
    assert events[..|events|] == events;
    SuppressedIff(start, events, limits, email, |events|);
    if k :| 0 <= k <= |events| && Shows(At(start, events, limits, email, k), n) {
      ShownIsFinal(start, events, limits, email, k);
    }
    if HasSoftRun(h, n) {
      var j :| 0 <= j <= |h| - n && SoftRunAt(h, j, n);
      SoftRunShows(start, events, limits, email, j);
    }
    if exists i :: 0 <= i < |h| && Grave(h[i].outcome) { assert Shows(h, n); }
    GatedRunsAreBoundedIff(start, events, limits, email);
    if HasSoftRun(h, n + 1) {
      var j :| 0 <= j <= |h| - (n + 1) && SoftRunAt(h, j, n + 1) && Late(start, events, limits, email, j, n);
      NotLate(start, events, limits, email, j);
    }
  }

  lemma ShownIsFinal(start: State, events: seq<Event>, limits: SendGate.Limits, email: string, k: nat)
    requires Prompt(start, events, limits, email) && k <= |events|
    requires Shows(At(start, events, limits, email, k), Threshold(limits))
    ensures var h, n := At(start, events, limits, email, |events|), Threshold(limits);
            (exists i :: 0 <= i < |h| && Grave(h[i].outcome)) || HasSoftRun(h, n)
  {
    hide Run, After, History, At;
    var now, h, n := At(start, events, limits, email, k), At(start, events, limits, email, |events|), Threshold(limits);
    if i :| 0 <= i < |now| && Grave(now[i].outcome) {
      assert InTime(now, h, i);
      assert h[i].outcome == now[i].outcome;
    } else {
      assert InTime(now, h, |now| - 1);
      forall i | |now| - n <= i < |now| ensures h[i].outcome.Soft? {
        assert InTime(now, h, i);
      }
      assert SoftRunAt(h, |now| - n, n);
    }
  }

  /** When attempt `i` is followed by another, what the moment of that send shows of it is final. */
  lemma FinalAtNextSend(start: State, events: seq<Event>, limits: SendGate.Limits, email: string, k: nat, i: nat)
    requires Begins(start) && Prompt(start, events, limits, email) && k < |events|
    requires i < |At(start, events, limits, email, k)| < |At(start, events, limits, email, k + 1)|
    ensures i < |At(start, events, limits, email, |events|)|
    ensures At(start, events, limits, email, k)[i].outcome == At(start, events, limits, email, |events|)[i].outcome
  {
    hide Run, After, History, At;
    var c := MomentChange(start, events, limits, email, k);
    var now, next := At(start, events, limits, email, k), At(start, events, limits, email, k + 1);
    assert InTime(next, At(start, events, limits, email, |events|), i);
    assert next[i] == now[i];
  }

  lemma NotLate(start: State, events: seq<Event>, limits: SendGate.Limits, email: string, j: nat)
    requires Begins(start) && Prompt(start, events, limits, email)
    requires var h, n := At(start, events, limits, email, |events|), Threshold(limits);
             j + n + 1 <= |h| && SoftRunAt(h, j, n + 1)
    ensures !Late(start, events, limits, email, j, Threshold(limits))
  {
    hide Run, After, History, At, Prompt;
    var n := Threshold(limits);
    forall k | 0 <= k < |events| && SendsAt(start, events, limits, email, k, j + n)
      ensures SoftRunAt(At(start, events, limits, email, k), j, n)
    {
      forall i | j <= i < j + n ensures At(start, events, limits, email, k)[i].outcome.Soft? {
        FinalAtNextSend(start, events, limits, email, k, i);
      }
    }
  }

  /** A soft run of the final history was on record in full when the next attempt was sent, or at the end. */
  lemma SoftRunShows(start: State, events: seq<Event>, limits: SendGate.Limits, email: string, j: nat)
    requires Begins(start) && email !in start.db.suppression && Prompt(start, events, limits, email)
    requires var h, n := At(start, events, limits, email, |events|), Threshold(limits);
             j + n <= |h| && SoftRunAt(h, j, n)
    ensures exists k :: 0 <= k <= |events| && Shows(At(start, events, limits, email, k), Threshold(limits))
  {
    hide Run, After, History, At, Prompt;
    var h, n := At(start, events, limits, email, |events|), Threshold(limits);
    if j + n == |h| {
      assert Shows(h, n);
    } else {
      var k := SentWhen(start, events, limits, email, |events|, j + n);
      forall i | j <= i < j + n ensures At(start, events, limits, email, k)[i].outcome.Soft? {
        FinalAtNextSend(start, events, limits, email, k, i);
      }
      assert Shows(At(start, events, limits, email, k), n);
    }
  }

  // ---- bounces that arrive late ----

  /** One contact, one enrollment, nothing sent yet. */
  const START := State(SendGate.Db(map[0 := 0], map[0 := Some("x")], [], map[]), [], 0)

  function Window(limits: SendGate.Limits): (w: nat)
    ensures w > 0
  {
    SendGate.ThrottleWindow(limits)
  }

  /** `n` sends, one throttle window apart, of which the first `j` have soft-bounced. */
  function Sends(n: nat, limits: SendGate.Limits): seq<SendGate.Step> {
    if n == 0 then [] else Sends(n - 1, limits) + [SendGate.Step(0, Some(n * Window(limits)))]
  }

  function Softs(n: nat, j: nat): (b: seq<Outcome>)
    ensures |b| == n && forall i :: 0 <= i < n ==> b[i] == if i < j then Soft else NoBounce
  {
    if n == 0 then [] else Softs(n - 1, j) + [if n - 1 < j then Soft else NoBounce]
  }

  function Moment(n: nat, j: nat, limits: SendGate.Limits): State {
    State(START.db.(steps := Sends(n, limits)), Softs(n, j), n * Window(limits))
  }

  lemma {:induction false} SendsAre(n: nat, limits: SendGate.Limits)
    ensures |Sends(n, limits)| == n
    ensures forall i :: 0 <= i < n ==> Sends(n, limits)[i] == SendGate.Step(0, Some((i + 1) * Window(limits)))
    ensures forall i :: 0 <= i < n ==> Sends(n, limits)[i].sentAt.value <= n * Window(limits)
  {
    if n > 0 { SendsAre(n - 1, limits); }
    forall i | 0 <= i < n ensures Sends(n, limits)[i].sentAt.value <= n * Window(limits) {
      assert n * Window(limits) == (i + 1) * Window(limits) + (n - i - 1) * Window(limits);
    }
  }

  lemma SendAllowed(n: nat, limits: SendGate.Limits)
    requires limits.monthlySendCap <= 0
    ensures SendGate.Preflight(Moment(n, 0, limits).db, (n + 1) * Window(limits), 0, limits)
            == Ok(SendGate.Allow("x"))
  {
    var db, w := Moment(n, 0, limits).db, Window(limits);
    SendsAre(n, limits);
    SendGate.LastSentIsLatest(db, db.steps, 0, (n + 1) * w - w);
    assert (n + 1) * w - w == n * w;
  }

  lemma OneSend(n: nat, limits: SendGate.Limits)
    requires limits.monthlySendCap <= 0
    ensures After(Moment(n, 0, limits), TrySend(0, Window(limits) - 1), limits) == Moment(n + 1, 0, limits)
  {
    hide SendGate.Preflight;
    SendAllowed(n, limits);
    assert n * Window(limits) + Window(limits) == (n + 1) * Window(limits);
    assert Softs(n + 1, 0) == Softs(n, 0) + [NoBounce];
  }

  lemma {:induction false} MomentAttempts(n: nat, j: nat, limits: SendGate.Limits, m: nat)
    requires m <= n
    ensures |Sends(n, limits)| == n
    ensures |Attempts(Moment(n, j, limits), "x", m)| == m
    ensures m > 0 ==> Attempts(Moment(n, j, limits), "x", m)[m - 1].outcome == if m - 1 < j then Soft else NoBounce
    ensures forall i :: 0 <= i < m ==>
              Attempts(Moment(n, j, limits), "x", m)[i].outcome == if i < j then Soft else NoBounce
  {
    SendsAre(n, limits);
    if m > 0 { MomentAttempts(n, j, limits, m - 1); }
  }

  lemma OneBounce(n: nat, j: nat, limits: SendGate.Limits)
    requires j < n - 1
    ensures After(Moment(n, j, limits), Arrive(j, Soft), limits) == Moment(n, j + 1, limits)
  {
    SendsAre(n, limits);
    MomentAttempts(n, j + 1, limits, n);
    assert Softs(n, j)[j := Soft] == Softs(n, j + 1);
    var recorded := Moment(n, j, limits).(bounces := Softs(n, j + 1));
    assert recorded == Moment(n, j + 1, limits);
    assert TrailingRun(History(recorded, "x")) == 0;
  }

  function LateRun(n: nat, j: nat, limits: SendGate.Limits): seq<Event> {
    if j > 0 then LateRun(n, j - 1, limits) + [Arrive(j - 1, Soft)]
    else if n > 0 then LateRun(n - 1, 0, limits) + [TrySend(0, Window(limits) - 1)]
    else []
  }

  lemma {:induction false} LateRunIs(n: nat, j: nat, limits: SendGate.Limits)
    requires limits.monthlySendCap <= 0 && (j > 0 ==> j < n)
    ensures Run(START, LateRun(n, j, limits), limits) == Moment(n, j, limits)
    decreases j, n
  {
    hide After, Moment;
    var events := LateRun(n, j, limits);
    if j > 0 {
      LateRunIs(n, j - 1, limits);
      OneBounce(n, j - 1, limits);
      assert events[..|events| - 1] == LateRun(n, j - 1, limits);
    } else if n > 0 {
      LateRunIs(n - 1, 0, limits);
      OneSend(n - 1, limits);
      assert events[..|events| - 1] == LateRun(n - 1, 0, limits);
    } else {
      assert START == Moment(0, 0, limits) by { MomentZero(limits); }
    }
  }

  lemma MomentZero(limits: SendGate.Limits)
    ensures START == Moment(0, 0, limits)
  {}

  /**
   For every threshold: one send more than the threshold, and then the soft bounces of all but the last arrive. The
   address has soft-bounced often enough in a row and is not suppressed.
   */
  lemma LateBouncesAreMissed(limits: SendGate.Limits)
    requires limits.monthlySendCap <= 0
    ensures var n := Threshold(limits);
            var g := Run(START, LateRun(n + 1, n, limits), limits);
            HasSoftRun(History(g, "x"), n) && "x" !in g.db.suppression
  {
    var n := Threshold(limits);
    LateRunIs(n + 1, n, limits);
    MomentAttempts(n + 1, n, limits, n + 1);
    assert SoftRunAt(History(Moment(n + 1, n, limits), "x"), 0, n);
  }
}
