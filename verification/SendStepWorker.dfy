/**
 The worker envelope around a job handler: open a transaction, run the handler, commit only on success; and the
 retry protocol of the send_step job, whose last failed attempt runs a second transaction of its own. A panic of the
 handler leaves the transaction and the worker alike; the queue counts it as a failed attempt.
 */
module SendStepWorker {

  const MAX_SEND_STEP_ATTEMPTS: nat := 5

  /** What a committed transaction of this job leaves behind. */
  datatype Effect = StepHandled | MarkedFailed

  datatype Handled = Succeeded | Errored | Panicked

  /** How one transaction fares: its connection, its handler, its commit. */
  datatype Fate = Fate(acquired: bool, handled: Handled, committed: bool)

  /** How a call ends: normally, with an error, or not at all. */
  datatype End = Done | Error | Panic

  predicate Commits(f: Fate) {
    f.acquired && f.handled.Succeeded? && f.committed
  }

  predicate Panics(f: Fate) {
    f.acquired && f.handled.Panicked?
  }

  /** `db` is the list of committed effects; the handler writes to a copy that counts only once it is committed. */
  method RunInTx(db: seq<Effect>, effect: Effect, fate: Fate) returns (db': seq<Effect>, end: End)
    ensures end == if Commits(fate) then Done else if Panics(fate) then Panic else Error
    ensures db' == if end.Done? then db + [effect] else db
  {
    if !fate.acquired { return db, Error; }
    var working := db + [effect];
    match fate.handled
    case Panicked => return db, Panic;
    case Errored => return db, Error;
    case Succeeded =>
      if !fate.committed { return db, Error; }
      return working, Done;
  }

  /** A handler that is not wired answers with an error. */
  function Effective(f: Fate, wired: bool): Fate {
    if wired then f else f.(handled := Errored)
  }

  /** One attempt. `wired` and `exhaustedWired` say whether the two handlers have been injected. */
  method Work(db: seq<Effect>, attempt: nat, maxAttempts: nat, wired: bool, exhaustedWired: bool, send: Fate,
              last: Fate)
    returns (db': seq<Effect>, end: End)
    ensures end.Done? <==> wired && Commits(send)
    ensures end.Done? ==> db' == db + [StepHandled]
    ensures !end.Done? ==>
              db' == if attempt >= maxAttempts && !(wired && Panics(send)) && exhaustedWired && Commits(last)
                     then db + [MarkedFailed] else db
    ensures end.Panic? <==> (wired && Panics(send)) ||
                            (!(wired && Commits(send)) && attempt >= maxAttempts && exhaustedWired && Panics(last))
  {
    db', end := RunInTx(db, StepHandled, Effective(send, wired));
    if end.Done? || end.Panic? { return; }
    if attempt >= maxAttempts && exhaustedWired {
      var marking: End;
      db', marking := RunInTx(db, MarkedFailed, last);
      // A failed marking is logged; a panic of it leaves the worker in place of the original error.
      if marking.Panic? { end := Panic; }
    }
  }

  /**
   The queue runs a job until it succeeds or its attempts are used up. Over all attempts the handler's effects are
   committed at most once; and, the marking transaction working, the job ends marked failed exactly if every attempt
   rolled back and the last one did not panic.
   */
  method RunJob(db: seq<Effect>, wired: bool, exhaustedWired: bool, sends: seq<Fate>, last: Fate)
    returns (db': seq<Effect>, done: bool)
    requires |sends| == MAX_SEND_STEP_ATTEMPTS
    ensures done <==> wired && exists i :: 0 <= i < |sends| && Commits(sends[i])
    ensures done ==> db' == db + [StepHandled]
    ensures !done ==> db' == if exhaustedWired && Commits(last) && !(wired && Panics(sends[|sends| - 1]))
                             then db + [MarkedFailed] else db
    ensures exhaustedWired && Commits(last) ==>
              (db' == db + [MarkedFailed] <==>
                 && (forall i :: 0 <= i < |sends| ==> !(wired && Commits(sends[i])))
                 && !(wired && Panics(sends[|sends| - 1])))
  {
    hide Commits, Panics;
    db', done := db, false;
    var attempt := 1;
    while attempt <= MAX_SEND_STEP_ATTEMPTS
      invariant 1 <= attempt <= MAX_SEND_STEP_ATTEMPTS + 1
      invariant !done
      invariant wired ==> forall i :: 0 <= i < attempt - 1 ==> !Commits(sends[i])
      invariant attempt <= MAX_SEND_STEP_ATTEMPTS ==> db' == db
      invariant attempt > MAX_SEND_STEP_ATTEMPTS ==>
                  db' == if exhaustedWired && Commits(last) && !(wired && Panics(sends[|sends| - 1]))
                         then db + [MarkedFailed] else db
    {
      var end;
      db', end := Work(db', attempt, MAX_SEND_STEP_ATTEMPTS, wired, exhaustedWired, sends[attempt - 1], last);
      if end.Done? {
        done := true;
        assert (db + [StepHandled])[|db|] != (db + [MarkedFailed])[|db|];
        return;
      }
      attempt := attempt + 1;
    }
    assert |db + [MarkedFailed]| != |db|;
  }

  /** Four errors and then a panic: the job is used up and nothing marks it failed. */
  method PanicOnLastAttempt(db: seq<Effect>) returns (db': seq<Effect>, done: bool)
    ensures db' == db && !done
  {
    var errs, panics := Fate(true, Errored, true), Fate(true, Panicked, true);
    db', done := RunJob(db, true, true, [errs, errs, errs, errs, panics], Fate(true, Succeeded, true));
  }
}
