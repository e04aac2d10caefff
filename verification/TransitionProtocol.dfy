/**
 Many workers stepping at once. Each one opens a transaction, performs any number of transition calls statement
 by statement, and commits or rolls back; the row lock of the first statement is the only mutual exclusion.
 The result: every interleaving ends in the tables that some one-transaction-at-a-time history produces, and
 that history's audit log is, enrollment by enrollment, a walk in the legal graph.
 */
module TransitionProtocol {
  import opened Prelude
  import opened EnrollmentStates
  import opened Transitions

  type Wid = nat

  /** Where a worker is inside its transaction. `Aborted`: a statement failed or the code panicked. */
  datatype Phase =
    | Idle
    | Ready
    | Locked(call: Call)
    | Written(call: Call, was: Row)
    | Recorded(call: Call, was: Row)
    | Aborted

  /** `calls` lists the calls that finished in the open transaction. */
  datatype Worker = Worker(phase: Phase, delta: Delta, calls: seq<Call>)

  const IDLE := Worker(Idle, NO_WRITES, [])

  datatype Event = Enrolling(id: Id, row: Row) | Committed(calls: seq<Call>)

  /** `history` lists enrollments and commits in the order in which they took effect. */
  datatype System = System(db: Db, locks: map<Id, Wid>, workers: map<Wid, Worker>, history: seq<Event>)

  const START := System(Db(map[], [], []), map[], map[], [])

  datatype Action =
    | Enroll(id: Id, row: Row)
    | Begin(w: Wid)
    | Lock(w: Wid, call: Call)
    | Reject(w: Wid)
    | Panic(w: Wid)
    | Update(w: Wid)
    | EmitAudit(w: Wid)
    | EnqueueFinalize(w: Wid)
    | Fail(w: Wid)
    | Commit(w: Wid)
    | Rollback(w: Wid)

  function At(s: System, w: Wid): Worker {
    if w in s.workers then s.workers[w] else IDLE
  }

  function Put(s: System, w: Wid, k: Worker): System {
    s.(workers := s.workers[w := k])
  }

  function Release(s: System, w: Wid): System {
    s.(locks := map id | id in s.locks && s.locks[id] != w :: s.locks[id], workers := s.workers[w := IDLE])
  }

  predicate Enabled(s: System, a: Action) {
    match a
    case Enroll(id, row) => id !in s.db.rows && row.state == Enrolled
    case Begin(w) => At(s, w).phase.Idle?
    case Lock(w, c) => At(s, w).phase.Ready? && c.id in s.db.rows && (c.id in s.locks ==> s.locks[c.id] == w)
    case Reject(w) => Refuses(s, w) && At(s, w).phase.call.auditInvalid
    case Panic(w) => Refuses(s, w) && !At(s, w).phase.call.auditInvalid
    case Update(w) =>
      var k := At(s, w);
      && k.phase.Locked? && k.phase.call.id in s.db.rows
      && CanTransition(View(s.db, k.delta, k.phase.call.id).state, k.phase.call.to)
    case EmitAudit(w) => At(s, w).phase.Written?
    case EnqueueFinalize(w) => At(s, w).phase.Recorded?
    case Fail(w) => !At(s, w).phase.Idle?
    case Commit(w) => At(s, w).phase.Ready?
    case Rollback(w) => !At(s, w).phase.Idle?
  }

  predicate Refuses(s: System, w: Wid) {
    var k := At(s, w);
    && k.phase.Locked? && k.phase.call.id in s.db.rows
    && !CanTransition(View(s.db, k.delta, k.phase.call.id).state, k.phase.call.to)
  }

  function Step(s: System, a: Action): System
    requires Enabled(s, a)
  {
    match a
    case Enroll(id, row) =>
      s.(db := s.db.(rows := s.db.rows[id := row]), history := s.history + [Enrolling(id, row)])
    case Begin(w) => Put(s, w, Worker(Ready, NO_WRITES, []))
    case Lock(w, c) => Put(s.(locks := s.locks[c.id := w]), w, At(s, w).(phase := Locked(c)))
    case Reject(w) =>
      var k := At(s, w);
      var c := k.phase.call;
      Put(s, w, Worker(Ready, Record(k.delta, TraceRow(c, View(s.db, k.delta, c.id))), k.calls + [c]))
    case Panic(w) => Put(s, w, At(s, w).(phase := Aborted))
    case Update(w) =>
      var k := At(s, w);
      var c := k.phase.call;
      var was := View(s.db, k.delta, c.id);
      Put(s, w, k.(phase := Written(c, was), delta := WriteRow(k.delta, c, was)))
    case EmitAudit(w) =>
      var k := At(s, w);
      var Written(c, was) := k.phase;
      Put(s, w, k.(phase := Recorded(c, was), delta := Record(k.delta, TransitionRow(c, was))))
    case EnqueueFinalize(w) =>
      var k := At(s, w);
      var Recorded(c, was) := k.phase;
      Put(s, w, Worker(Ready, Enqueue(s.db, k.delta, c, was), k.calls + [c]))
    case Fail(w) => Put(s, w, At(s, w).(phase := Aborted))
    case Commit(w) =>
      var k := At(s, w);
      Release(s.(db := WithWrites(s.db, k.delta), history := s.history + [Committed(k.calls)]), w)
    case Rollback(w) => Release(s, w)
  }

  /** The state a run leads to from the empty system, if each of its actions is enabled in turn. */
  function After(run: seq<Action>): Option<System> {
    if run == [] then Some(START)
    else
      match After(run[..|run| - 1])
      case Some(s) => if Enabled(s, run[|run| - 1]) then Some(Step(s, run[|run| - 1])) else None
      case None => None
  }

  ghost predicate Reaches(run: seq<Action>, s: System) {
    After(run) == Some(s)
  }

  // ---- the serial history ----

  predicate Replays(history: seq<Event>)
    decreases |history|, 0
  {
    history == [] ||
    var n := |history| - 1;
    && Replays(history[..n])
    && match history[n] {
         case Enrolling(id, row) => id !in Serial(history[..n]).rows && row.state == Enrolled
         case Committed(calls) => Exist(Serial(history[..n]), calls)
       }
  }

  /** The tables after running the history's transactions whole, one after the other. */
  function Serial(history: seq<Event>): Db
    requires Replays(history)
    decreases |history|, 1
  {
    if history == [] then Db(map[], [], [])
    else
      var n := |history| - 1;
      var before := Serial(history[..n]);
      match history[n]
      case Enrolling(id, row) => before.(rows := before.rows[id := row])
      case Committed(calls) => WithWrites(before, DoAll(before, calls))
  }

  lemma {:induction false} ReplaysAppend(history: seq<Event>, e: Event)
    requires Replays(history)
    requires match e {
               case Enrolling(id, row) => id !in Serial(history).rows && row.state == Enrolled
               case Committed(calls) => Exist(Serial(history), calls)
             }
    ensures Replays(history + [e])
    ensures Serial(history + [e]) == match e {
              case Enrolling(id, row) => Serial(history).(rows := Serial(history).rows[id := row])
              case Committed(calls) => WithWrites(Serial(history), DoAll(Serial(history), calls))
            }
  {
    assert (history + [e])[..|history + [e]| - 1] == history;
  }

  // ---- the inductive invariant ----

  ghost predicate Holds(s: System, w: Wid, calls: seq<Call>) {
    forall c <- calls :: c.id in s.db.rows && c.id in s.locks && s.locks[c.id] == w
  }

  /** An open transaction has written exactly what its finished calls do to the tables as they are now. */
  ghost predicate WorkerOk(s: System, w: Wid) {
    var k := At(s, w);
    && (k.phase.Idle? ==> forall id <- s.locks :: s.locks[id] != w)
    && (!k.phase.Idle? && !k.phase.Aborted? ==>
          && Holds(s, w, k.calls)
          && Exist(s.db, k.calls)
          && var done := DoAll(s.db, k.calls);
             match k.phase {
               case Ready => k.delta == done
               case Locked(c) => Holds(s, w, [c]) && k.delta == done
               case Written(c, was) => Started(s, w, done, c, was) && k.delta == WriteRow(done, c, was)
               case Recorded(c, was) =>
                 && Started(s, w, done, c, was)
                 && k.delta == Record(WriteRow(done, c, was), TransitionRow(c, was))
               case _ => true
             })
  }

  ghost predicate Started(s: System, w: Wid, done: Delta, c: Call, was: Row) {
    && Holds(s, w, [c])
    && c.id in s.db.rows && was == View(s.db, done, c.id) && CanTransition(was.state, c.to)
  }

  ghost predicate Inv(s: System) {
    && Replays(s.history) && Serial(s.history) == s.db
    && forall w: Wid :: WorkerOk(s, w)
  }

  /** A call reads one row and the jobs of that row's enrollment, so tables that agree on them give the same writes. */
  lemma {:induction false} DoAllFrame(db: Db, db': Db, calls: seq<Call>)
    requires Exist(db, calls) && Exist(db', calls)
    requires forall c <- calls :: db.rows[c.id] == db'.rows[c.id] && (HasJob(db.jobs, c.id) <==> HasJob(db'.jobs, c.id))
    ensures DoAll(db, calls) == DoAll(db', calls)
  {
    if calls != [] {
      DoAllFrame(db, db', calls[..|calls| - 1]);
    }
  }

  /** A transaction writes rows, and enqueues jobs, only for the enrollments its calls name. */
  lemma {:induction false} DoAllTouches(db: Db, calls: seq<Call>, id: Id)
    requires Exist(db, calls)
    requires forall c <- calls :: c.id != id
    ensures id !in DoAll(db, calls).rows && !HasJob(DoAll(db, calls).jobs, id)
    ensures forall other <- DoAll(db, calls).rows :: other in db.rows
  {
    if calls != [] {
      DoAllTouches(db, calls[..|calls| - 1], id);
      assert calls[|calls| - 1] in calls;
    }
  }

  lemma {:induction false} DoAllTouchesRows(db: Db, calls: seq<Call>)
    requires Exist(db, calls)
    ensures forall id <- DoAll(db, calls).rows :: id in db.rows
  {
    if calls != [] {
      DoAllTouchesRows(db, calls[..|calls| - 1]);
    }
  }

  lemma HasJobAppend(a: seq<Job>, b: seq<Job>, id: Id)
    ensures HasJob(a + b, id) <==> HasJob(a, id) || HasJob(b, id)
  {
    forall i | 0 <= i < |a + b| && (a + b)[i].enrollment == id
      ensures HasJob(a, id) || HasJob(b, id)
    {
      if i < |a| { assert a[i].enrollment == id; } else { assert b[i - |a|].enrollment == id; }
    }
    forall i | 0 <= i < |a| && a[i].enrollment == id ensures HasJob(a + b, id) {
      assert (a + b)[i].enrollment == id;
    }
    forall i | 0 <= i < |b| && b[i].enrollment == id ensures HasJob(a + b, id) {
      assert (a + b)[|a| + i].enrollment == id;
    }
  }

  /** What another worker sees does not change when `w` commits: the locks keep their footprints apart. */
  lemma CommitKeepsOthers(s: System, w: Wid, v: Wid)
    requires Inv(s) && At(s, w).phase.Ready? && v != w
    ensures WorkerOk(Step(s, Commit(w)), v)
  {
    var k, o := At(s, w), At(s, v);
    var s' := Step(s, Commit(w));
    assert WorkerOk(s, w) && WorkerOk(s, v);
    assert At(s', v) == o;
    if !o.phase.Idle? && !o.phase.Aborted? {
      forall id | id in s.db.rows && id in s.locks && s.locks[id] == v
        ensures id in s'.db.rows && s'.db.rows[id] == s.db.rows[id]
        ensures HasJob(s'.db.jobs, id) <==> HasJob(s.db.jobs, id)
        ensures id in s'.locks && s'.locks[id] == v
      {
        DoAllTouches(s.db, k.calls, id);
        HasJobAppend(s.db.jobs, k.delta.jobs, id);
      }
      DoAllFrame(s.db, s'.db, o.calls);
    }
  }

  lemma CommitKeeps(s: System, w: Wid)
    requires Inv(s) && At(s, w).phase.Ready?
    ensures Inv(Step(s, Commit(w)))
  {
    assert WorkerOk(s, w);
    ReplaysAppend(s.history, Committed(At(s, w).calls));
    forall v: Wid ensures WorkerOk(Step(s, Commit(w)), v) {
      if v != w { CommitKeepsOthers(s, w, v); }
    }
  }

  lemma EnrollKeeps(s: System, id: Id, row: Row)
    requires Inv(s) && id !in s.db.rows && row.state == Enrolled
    ensures Inv(Step(s, Enroll(id, row)))
  {
    ReplaysAppend(s.history, Enrolling(id, row));
    var s' := Step(s, Enroll(id, row));
    forall v: Wid ensures WorkerOk(s', v) {
      assert WorkerOk(s, v);
      assert At(s', v) == At(s, v);
      if !At(s, v).phase.Idle? && !At(s, v).phase.Aborted? {
        DoAllFrame(s.db, s'.db, At(s, v).calls);
      }
    }
  }

  /** The statements of one worker's transaction leave the tables and every other worker alone. */
  lemma OthersUntouched(s: System, a: Action, v: Wid)
    requires Inv(s) && Enabled(s, a)
    requires !a.Enroll? && !a.Commit? && v != a.w
    ensures WorkerOk(Step(s, a), v)
  {
    assert WorkerOk(s, v);
    assert At(Step(s, a), v) == At(s, v);
  }

  lemma SelfKept(s: System, a: Action)
    requires Inv(s) && Enabled(s, a)
    requires !a.Enroll? && !a.Commit?
    ensures WorkerOk(Step(s, a), a.w)
  {
    var k := At(s, a.w);
    assert WorkerOk(s, a.w);
    match a
    case Reject(w) => FinishedCall(s.db, k.calls, k.phase.call);
    case EnqueueFinalize(w) => FinishedCall(s.db, k.calls, k.phase.call);
    case _ =>
  }

  lemma FinishedCall(db: Db, calls: seq<Call>, c: Call)
    requires Exist(db, calls) && c.id in db.rows
    ensures Exist(db, calls + [c]) && DoAll(db, calls + [c]) == Do(db, DoAll(db, calls), c)
  {
    assert (calls + [c])[..|calls + [c]| - 1] == calls;
  }

  lemma LocalKeeps(s: System, a: Action)
    requires Inv(s) && Enabled(s, a)
    requires !a.Enroll? && !a.Commit?
    ensures Inv(Step(s, a))
  {
    SelfKept(s, a);
    forall v: Wid ensures WorkerOk(Step(s, a), v) {
      if v != a.w { OthersUntouched(s, a, v); }
    }
  }

  lemma StepKeeps(s: System, a: Action)
    requires Inv(s) && Enabled(s, a)
    ensures Inv(Step(s, a))
  {
    match a
    case Enroll(id, row) => EnrollKeeps(s, id, row);
    case Commit(w) => CommitKeeps(s, w);
    case _ => LocalKeeps(s, a);
  }

  lemma {:induction false} ReachableInv(run: seq<Action>, s: System)
    requires Reaches(run, s)
    ensures Inv(s)
  {
    if run != [] {
      var s0 := After(run[..|run| - 1]).value;
      ReachableInv(run[..|run| - 1], s0);
      StepKeeps(s0, run[|run| - 1]);
    }
  }

  /**
   Interleaved transitions serialise: in every reachable state the committed tables are those of running the
   committed transactions whole, one after the other, in commit order.
   */
  lemma InterleavingsSerialise(run: seq<Action>, s: System)
    requires Reaches(run, s)
    ensures Replays(s.history) && s.db == Serial(s.history)
  {
    ReachableInv(run, s);
  }

  // ---- what every serial history keeps ----

  ghost predicate AllCalls(history: seq<Event>, p: Call -> bool) {
    forall e <- history :: e.Committed? ==> forall c <- e.calls :: p(c)
  }

  /** A call that moves its enrollment says so truthfully in its payload, or says nothing. */
  predicate Truthful(db: Db, d: Delta, c: Call)
    requires c.id in db.rows
  {
    CanTransition(View(db, d, c.id).state, c.to) ==> Faithful(c, View(db, d, c.id))
  }

  predicate AllTruthful(db: Db, calls: seq<Call>)
    requires Exist(db, calls)
  {
    calls == [] ||
    var n := |calls| - 1;
    AllTruthful(db, calls[..n]) && Truthful(db, DoAll(db, calls[..n]), calls[n])
  }

  /** Every committed call was truthful at the moment it was made. */
  predicate TruthfulHistory(history: seq<Event>)
    requires Replays(history)
  {
    history == [] ||
    var n := |history| - 1;
    && TruthfulHistory(history[..n])
    && (history[n].Committed? ==> AllTruthful(Serial(history[..n]), history[n].calls))
  }

  predicate Wired(c: Call) {
    c.enqueue
  }

  function JobsOf(jobs: seq<Job>, id: Id): seq<Job> {
    if jobs == [] then []
    else JobsOf(jobs[..|jobs| - 1], id) + if jobs[|jobs| - 1].enrollment == id then [jobs[|jobs| - 1]] else []
  }

  /** The log, read together with the transaction's own rows, walks from `Enrolled` to the state the transaction sees. */
  ghost predicate Walks(db: Db, d: Delta) {
    && (forall id <- db.rows :: IsPath(MovesOf(db.audit + d.audit, id), Enrolled, View(db, d, id).state))
    && (forall id: Id | id !in db.rows :: MovesOf(db.audit + d.audit, id) == [])
  }

  /** One finalize job for each enrollment in a terminal state, naming that state; none for the others. */
  ghost predicate Finalized(db: Db, d: Delta) {
    && (forall id <- db.rows ::
          var mine := JobsOf(db.jobs + d.jobs, id);
          var now := View(db, d, id).state;
          if IsTerminal(now) then |mine| == 1 && mine[0].terminal == now else mine == [])
    && (forall id: Id | id !in db.rows :: JobsOf(db.jobs + d.jobs, id) == [])
  }

  lemma MovesOfOne(a: Audit, id: Id)
    ensures MovesOf([a], id) == match RowMove(a) {
                                  case Some((who, move)) => if who == id then [move] else []
                                  case None => []
                                }
  {
    assert [a][..0] == [];
  }

  lemma DoAddsMove(db: Db, d: Delta, c: Call, id: Id)
    requires c.id in db.rows && Truthful(db, d, c)
    ensures var was := View(db, d, c.id).state;
            MovesOf(db.audit + Do(db, d, c).audit, id) ==
            MovesOf(db.audit + d.audit, id) + if CanTransition(was, c.to) && id == c.id then [Move(was, c.to)] else []
  {
    hide Faithful, RowMove, TransitionRow, TraceRow, NewRow, MovesOf;
    var was := View(db, d, c.id);
    var row := if CanTransition(was.state, c.to) then TransitionRow(c, was) else TraceRow(c, was);
    assert db.audit + Do(db, d, c).audit == (db.audit + d.audit) + [row];
    MovesOfAppend(db.audit + d.audit, [row], id);
    MovesOfOne(row, id);
    AuditRowFaithfulIff(c, was);
    TraceTellsNoMove(c, was);
  }

  lemma TraceTellsNoMove(c: Call, was: Row)
    ensures RowMove(TraceRow(c, was)) == None
  {}

  lemma PathExtends(moves: seq<Move>, start: State, from: State, to: State)
    requires IsPath(moves, start, from) && CanTransition(from, to)
    ensures IsPath(moves + [Move(from, to)], start, to)
  {
    assert (moves + [Move(from, to)])[..|moves + [Move(from, to)]| - 1] == moves;
  }

  lemma DoKeepsWalks(db: Db, d: Delta, c: Call)
    requires c.id in db.rows && Walks(db, d) && Truthful(db, d, c)
    ensures Walks(db, Do(db, d, c))
  {
    forall id | id in db.rows
      ensures IsPath(MovesOf(db.audit + Do(db, d, c).audit, id), Enrolled, View(db, Do(db, d, c), id).state)
    {
      DoAddsMove(db, d, c, id);
      var was := View(db, d, id).state;
      if id == c.id && CanTransition(was, c.to) {
        PathExtends(MovesOf(db.audit + d.audit, id), Enrolled, was, c.to);
      } else {
        assert MovesOf(db.audit + Do(db, d, c).audit, id) == MovesOf(db.audit + d.audit, id);
      }
    }
    forall id: Id | id !in db.rows ensures MovesOf(db.audit + Do(db, d, c).audit, id) == [] {
      DoAddsMove(db, d, c, id);
    }
  }

  lemma {:induction false} DoAllKeepsWalks(db: Db, calls: seq<Call>)
    requires Exist(db, calls) && Walks(db, NO_WRITES)
    requires AllTruthful(db, calls)
    ensures Walks(db, DoAll(db, calls))
  {
    if calls != [] {
      DoAllKeepsWalks(db, calls[..|calls| - 1]);
      DoKeepsWalks(db, DoAll(db, calls[..|calls| - 1]), calls[|calls| - 1]);
    }
  }

  lemma {:induction false} SerialWalks(history: seq<Event>)
    requires Replays(history) && TruthfulHistory(history)
    ensures Walks(Serial(history), NO_WRITES)
  {
    if history != [] {
      var n := |history| - 1;
      var db, db' := Serial(history[..n]), Serial(history);
      SerialWalks(history[..n]);
      assert db'.audit + [] == db'.audit && db.audit + [] == db.audit;
      match history[n]
      case Enrolling(id, row) =>
      case Committed(calls) =>
        DoAllKeepsWalks(db, calls);
        DoAllTouchesRows(db, calls);
        forall id | id in db'.rows ensures View(db', NO_WRITES, id) == View(db, DoAll(db, calls), id) {}
    }
  }

  lemma {:induction false} JobsOfHas(jobs: seq<Job>, id: Id)
    ensures HasJob(jobs, id) <==> JobsOf(jobs, id) != []
  {
    if jobs != [] {
      var n := |jobs| - 1;
      JobsOfHas(jobs[..n], id);
      assert jobs == jobs[..n] + [jobs[n]];
      HasJobAppend(jobs[..n], [jobs[n]], id);
      assert HasJob([jobs[n]], id) <==> [jobs[n]][0].enrollment == id;
    }
  }

  lemma JobsOfOne(log: seq<Job>, job: Job, id: Id)
    ensures JobsOf(log + [job], id) == JobsOf(log, id) + if job.enrollment == id then [job] else []
  {
    assert (log + [job])[..|log + [job]| - 1] == log;
  }

  /** A call that makes a terminal move finds no job for its enrollment, since the enrollment was not terminal. */
  lemma NoJobYet(db: Db, d: Delta, id: Id)
    requires id in db.rows && Finalized(db, d) && !IsTerminal(View(db, d, id).state)
    ensures !HasJob(db.jobs, id) && !HasJob(d.jobs, id)
  {
    JobsOfHas(db.jobs + d.jobs, id);
    HasJobAppend(db.jobs, d.jobs, id);
  }

  lemma DoAddsJob(db: Db, d: Delta, c: Call, id: Id)
    requires c.id in db.rows && Finalized(db, d) && Wired(c)
    ensures var was := View(db, d, c.id);
            JobsOf(db.jobs + Do(db, d, c).jobs, id) ==
            JobsOf(db.jobs + d.jobs, id) +
            if CanTransition(was.state, c.to) && IsTerminal(c.to) && id == c.id
            then [Job(was.workspace, c.id, c.to, c.reason)] else []
  {
    var was := View(db, d, c.id);
    if CanTransition(was.state, c.to) && IsTerminal(c.to) {
      NoJobYet(db, d, c.id);
      var job := Job(was.workspace, c.id, c.to, c.reason);
      assert db.jobs + Do(db, d, c).jobs == (db.jobs + d.jobs) + [job];
      JobsOfOne(db.jobs + d.jobs, job, id);
    } else {
      assert Do(db, d, c).jobs == d.jobs;
    }
  }

  lemma DoKeepsFinalized(db: Db, d: Delta, c: Call)
    requires c.id in db.rows && Finalized(db, d) && Wired(c)
    ensures Finalized(db, Do(db, d, c))
  {
    forall id: Id ensures id in db.rows || JobsOf(db.jobs + Do(db, d, c).jobs, id) == [] {
      DoAddsJob(db, d, c, id);
    }
    forall id | id in db.rows
      ensures var mine := JobsOf(db.jobs + Do(db, d, c).jobs, id);
              var now := View(db, Do(db, d, c), id).state;
              if IsTerminal(now) then |mine| == 1 && mine[0].terminal == now else mine == []
    {
      DoAddsJob(db, d, c, id);
      assert if IsTerminal(View(db, d, id).state) then |JobsOf(db.jobs + d.jobs, id)| == 1 else JobsOf(db.jobs + d.jobs, id) == [];
    }
  }

  lemma {:induction false} DoAllKeepsFinalized(db: Db, calls: seq<Call>)
    requires Exist(db, calls) && Finalized(db, NO_WRITES)
    requires forall c <- calls :: Wired(c)
    ensures Finalized(db, DoAll(db, calls))
  {
    if calls != [] {
      DoAllKeepsFinalized(db, calls[..|calls| - 1]);
      DoKeepsFinalized(db, DoAll(db, calls[..|calls| - 1]), calls[|calls| - 1]);
    }
  }

  lemma {:induction false} SerialFinalized(history: seq<Event>)
    requires Replays(history) && AllCalls(history, Wired)
    ensures Finalized(Serial(history), NO_WRITES)
  {
    if history != [] {
      var n := |history| - 1;
      var db, db' := Serial(history[..n]), Serial(history);
      SerialFinalized(history[..n]);
      assert db'.jobs + [] == db'.jobs && db.jobs + [] == db.jobs;
      match history[n]
      case Enrolling(id, row) =>
      case Committed(calls) =>
        assert history[n] in history;
        DoAllKeepsFinalized(db, calls);
        DoAllTouchesRows(db, calls);
        forall id | id in db'.rows ensures View(db', NO_WRITES, id) == View(db, DoAll(db, calls), id) {}
    }
  }

  // ---- main results, over every run of any number of workers ----

  /**
   The committed audit rows of an enrollment are a chain of legal moves from `Enrolled` to the stored state;
   terminal states are never left; sends and resumptions balance as the stored state says.
   */
  lemma CommittedHistoryIsLegal(run: seq<Action>, s: System, id: Id)
    requires Reaches(run, s) && id in s.db.rows
    requires Replays(s.history) ==> TruthfulHistory(s.history)
    ensures var moves, now := MovesOf(s.db.audit, id), s.db.rows[id].state;
            && IsPath(moves, Enrolled, now)
            && (forall i :: 0 < i < |moves| ==> moves[i].from == moves[i - 1].to)
            && (forall i :: 0 <= i < |moves| - 1 ==> !IsTerminal(moves[i].to))
            && 0 <= Entries(moves, StepSent) - Entries(moves, Enrolled) <= 1
            && (now in {Enrolled, Suppressed} ==> Entries(moves, StepSent) == Entries(moves, Enrolled))
            && (now in {WaitingReply, OooDetected, Completed} ==>
                  Entries(moves, StepSent) == Entries(moves, Enrolled) + 1)
  {
    InterleavingsSerialise(run, s);
    SerialWalks(s.history);
    var moves, now := MovesOf(s.db.audit, id), s.db.rows[id].state;
    assert s.db.audit + [] == s.db.audit;
    assert IsPath(moves, Enrolled, now);
    PathIsChain(moves, Enrolled, now);
    TerminalStatesAreFinal(moves, Enrolled, now);
    SendBalance(moves, now);
  }

  /** With an enqueuer wired, exactly one finalize job exists for an enrollment that reached a terminal state, else none. */
  lemma OneFinalizePerTerminalEnrollment(run: seq<Action>, s: System, id: Id)
    requires Reaches(run, s) && id in s.db.rows
    requires AllCalls(s.history, Wired)
    ensures var mine := JobsOf(s.db.jobs, id);
            if IsTerminal(s.db.rows[id].state) then |mine| == 1 && mine[0].terminal == s.db.rows[id].state
            else mine == []
  {
    InterleavingsSerialise(run, s);
    SerialFinalized(s.history);
    assert s.db.jobs + [] == s.db.jobs;
  }

  // ---- and every serial history is reached ----

  lemma OneMore(run: seq<Action>, s: System, a: Action)
    requires Reaches(run, s) && Enabled(s, a)
    ensures Reaches(run + [a], Step(s, a))
  {
    assert (run + [a])[..|run + [a]| - 1] == run;
  }

  /** The call moves its enrollment, or is one whose rejection is recorded rather than a panic. */
  predicate Answered(db: Db, d: Delta, c: Call)
    requires c.id in db.rows
  {
    CanTransition(View(db, d, c.id).state, c.to) || c.auditInvalid
  }

  predicate AllAnswered(db: Db, calls: seq<Call>)
    requires Exist(db, calls)
  {
    calls == [] ||
    var n := |calls| - 1;
    AllAnswered(db, calls[..n]) && Answered(db, DoAll(db, calls[..n]), calls[n])
  }

  predicate AnsweredHistory(history: seq<Event>)
    requires Replays(history)
  {
    history == [] ||
    var n := |history| - 1;
    && AnsweredHistory(history[..n])
    && (history[n].Committed? ==> AllAnswered(Serial(history[..n]), history[n].calls))
  }

  /** A worker whose row lock is free gets through the statements of one call. */
  lemma CallRuns(run: seq<Action>, s: System, w: Wid, d: Delta, done: seq<Call>, c: Call)
    returns (run': seq<Action>, s': System)
    requires Reaches(run, s) && At(s, w) == Worker(Ready, d, done)
    requires c.id in s.db.rows && (c.id in s.locks ==> s.locks[c.id] == w) && Answered(s.db, d, c)
    ensures Reaches(run', s') && s'.db == s.db && s'.history == s.history && s'.locks == s.locks[c.id := w]
    ensures At(s', w) == Worker(Ready, Do(s.db, d, c), done + [c])
  {
    hide Reaches, View, NewRow, TransitionRow, TraceRow, Enqueue, CanTransition;
    OneMore(run, s, Lock(w, c));
    var s1 := Step(s, Lock(w, c));
    if CanTransition(View(s.db, d, c.id).state, c.to) {
      OneMore(run + [Lock(w, c)], s1, Update(w));
      var s2 := Step(s1, Update(w));
      OneMore(run + [Lock(w, c)] + [Update(w)], s2, EmitAudit(w));
      var s3 := Step(s2, EmitAudit(w));
      OneMore(run + [Lock(w, c)] + [Update(w)] + [EmitAudit(w)], s3, EnqueueFinalize(w));
      return run + [Lock(w, c)] + [Update(w)] + [EmitAudit(w)] + [EnqueueFinalize(w)], Step(s3, EnqueueFinalize(w));
    }
    OneMore(run + [Lock(w, c)], s1, Reject(w));
    return run + [Lock(w, c)] + [Reject(w)], Step(s1, Reject(w));
  }

  lemma {:induction false} CallsRun(run: seq<Action>, s: System, w: Wid, calls: seq<Call>)
    returns (run': seq<Action>, s': System)
    requires Reaches(run, s) && At(s, w) == Worker(Ready, NO_WRITES, []) && s.locks == map[]
    requires Exist(s.db, calls) && AllAnswered(s.db, calls)
    ensures Reaches(run', s') && s'.db == s.db && s'.history == s.history
    ensures (forall id <- s'.locks :: s'.locks[id] == w) && At(s', w) == Worker(Ready, DoAll(s.db, calls), calls)
  {
    hide Reaches, Do, At, Answered;
    if calls == [] { return run, s; }
    var n := |calls| - 1;
    run', s' := CallsRun(run, s, w, calls[..n]);
    run', s' := CallRuns(run', s', w, DoAll(s.db, calls[..n]), calls[..n], calls[n]);
    assert calls[..n] + [calls[n]] == calls;
  }

  /**
   Nothing but panicking calls is left out: for every serial history in which each call is answered there is a run
   that produces it, and with it, as every run does, that history's tables.
   */
  lemma {:induction false} EveryHistoryHappens(history: seq<Event>) returns (run: seq<Action>, s: System)
    requires Replays(history) && AnsweredHistory(history)
    ensures Reaches(run, s) && s.history == history && s.db == Serial(history)
    ensures s.locks == map[] && At(s, 0) == IDLE
  {
    hide DoAll, AllAnswered;
    if history == [] { return [], START; }
    var n := |history| - 1;
    run, s := EveryHistoryHappens(history[..n]);
    assert history[..n] + [history[n]] == history;
    match history[n] {
      case Enrolling(id, row) =>
        OneMore(run, s, Enroll(id, row));
        run, s := run + [Enroll(id, row)], Step(s, Enroll(id, row));
      case Committed(calls) =>
        OneMore(run, s, Begin(0));
        run, s := run + [Begin(0)], Step(s, Begin(0));
        run, s := CallsRun(run, s, 0, calls);
        OneMore(run, s, Commit(0));
        run, s := run + [Commit(0)], Step(s, Commit(0));
    }
  }

  /** After a failed statement or a panic the transaction can only roll back, which leaves the tables and history alone. */
  lemma AbortedOnlyRollsBack(s: System, a: Action)
    requires Enabled(s, a) && (a.Fail? || a.Panic?)
    ensures var s1 := Step(s, a);
            && (forall b: Action :: !b.Enroll? && b.w == a.w && Enabled(s1, b) ==> b.Rollback? || b.Fail?)
            && Enabled(s1, Rollback(a.w))
            && var s2 := Step(s1, Rollback(a.w));
               && s2.db == s.db && s2.history == s.history && At(s2, a.w) == IDLE
               && (forall id :: id in s2.locks <==> id in s.locks && s.locks[id] != a.w)
               && (forall v: Wid :: v != a.w ==> At(s2, v) == At(s, v))
               && (forall id <- s2.locks :: s2.locks[id] == s.locks[id])
  {}
}
