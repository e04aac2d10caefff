/**
 The single write path for enrollment state: lock, validate, update, audit, enqueue, inside the caller's
 transaction. `Do` is one call as a function of the committed tables and the transaction's own writes;
 `Tx.Transition` performs it step by step in place.
 */
module Transitions {
  import opened Prelude
  import opened EnrollmentStates

  type Id = nat

  /** A JSON value of an audit payload. */
  datatype Value = Ref(id: Id) | InState(state: State) | Text(text: string)

  type Payload = map<string, Value>

  datatype Row = Row(
    state: State, workspace: nat, stepIndex: int, lastTransitionAt: int,
    replyMessageId: Option<string>, oooReturnsAt: Option<int>, nextActionAt: Option<int>)

  datatype Audit = Audit(event: string, workspace: nat, actorType: string, payload: Payload)

  datatype Job = Job(workspace: nat, enrollment: Id, terminal: State, reason: string)

  datatype Db = Db(rows: map<Id, Row>, audit: seq<Audit>, jobs: seq<Job>)

  /** What an open transaction has written and not yet committed. */
  datatype Delta = Delta(rows: map<Id, Row>, audit: seq<Audit>, jobs: seq<Job>)

  const NO_WRITES := Delta(map[], [], [])

  /** One call with its options already applied. An empty `event` keeps the default of the target state. */
  datatype Call = Call(
    id: Id, to: State, reason: string, now: int,
    event: string, actorType: string, caller: string, payload: Payload,
    replyMessageId: Option<string>, oooReturnsAt: Option<int>, nextActionAt: Option<int>, stepIndex: Option<int>,
    auditInvalid: bool, enqueue: bool)

  function DefaultEvent(to: State): string {
    match to
    case Enrolled => "sequences.enrolled"
    case StepSent => "sequences.step_sent"
    case ReplyReceived => "sequences.reply_received"
    case OooDetected => "sequences.ooo_detected"
    case Failed => "sequences.failed"
    case Bounced => "sequences.bounced"
    case Unsubscribed => "sequences.unsubscribed"
    case _ => "sequences.transition"
  }

  function Kept<T>(set_: Option<T>, existing: Option<T>): Option<T> {
    if set_.Some? then set_ else existing
  }

  function NewRow(c: Call, was: Row): Row {
    was.(state := c.to, lastTransitionAt := c.now,
         stepIndex := if c.stepIndex.Some? then c.stepIndex.value else was.stepIndex,
         replyMessageId := Kept(c.replyMessageId, was.replyMessageId),
         oooReturnsAt := Kept(c.oooReturnsAt, was.oooReturnsAt),
         nextActionAt := Kept(c.nextActionAt, was.nextActionAt))
  }

  /** The caller's payload is merged last, so it wins over the engine's own keys. */
  function TransitionRow(c: Call, was: Row): Audit {
    var own := map["enrollment_id" := Ref(c.id), "from" := InState(was.state), "to" := InState(c.to)];
    var why := if c.reason == "" then map[] else map["reason" := Text(c.reason)];
    Audit(if c.event == "" then DefaultEvent(c.to) else c.event, was.workspace, c.actorType, own + why + c.payload)
  }

  function TraceRow(c: Call, was: Row): Audit {
    Audit("sequences.transition.invalid", was.workspace, c.actorType,
          map["enrollment_id" := Ref(c.id), "from" := InState(was.state),
              "to_attempted" := InState(c.to), "caller" := Text(c.caller)])
  }

  // ---- the same, column by column and key by key ----

  /** The row after the move: the columns the call sets, and the others as they were. */
  ghost predicate Moves(c: Call, was: Row, row: Row) {
    && row.state == c.to && row.lastTransitionAt == c.now && row.workspace == was.workspace
    && row.stepIndex == (match c.stepIndex case Some(i) => i case None => was.stepIndex)
    && row.replyMessageId == (match c.replyMessageId case Some(m) => Some(m) case None => was.replyMessageId)
    && row.oooReturnsAt == (match c.oooReturnsAt case Some(t) => Some(t) case None => was.oooReturnsAt)
    && row.nextActionAt == (match c.nextActionAt case Some(t) => Some(t) case None => was.nextActionAt)
  }

  /** Where the caller's payload has no such key, the audit row has the engine's own value. */
  ghost predicate Records(c: Call, was: Row, a: Audit) {
    && a.workspace == was.workspace && a.actorType == c.actorType
    && (c.event != "" ==> a.event == c.event) && (c.event == "" ==> Names(a.event, c.to))
    && a.payload.Keys == {"enrollment_id", "from", "to"} + (if c.reason == "" then {} else {"reason"}) + c.payload.Keys
    && (forall k <- c.payload :: a.payload[k] == c.payload[k])
    && ("enrollment_id" !in c.payload ==> a.payload["enrollment_id"] == Ref(c.id))
    && ("from" !in c.payload ==> a.payload["from"] == InState(was.state))
    && ("to" !in c.payload ==> a.payload["to"] == InState(c.to))
    && (c.reason != "" && "reason" !in c.payload ==> a.payload["reason"] == Text(c.reason))
  }

  /** The event that names a state; three states have the generic one. */
  ghost predicate Names(event: string, to: State) {
    && (event == "sequences.enrolled" <==> to == Enrolled)
    && (event == "sequences.step_sent" <==> to == StepSent)
    && (event == "sequences.reply_received" <==> to == ReplyReceived)
    && (event == "sequences.ooo_detected" <==> to == OooDetected)
    && (event == "sequences.failed" <==> to == Failed)
    && (event == "sequences.bounced" <==> to == Bounced)
    && (event == "sequences.unsubscribed" <==> to == Unsubscribed)
    && (event == "sequences.transition" <==> to in {WaitingReply, Suppressed, Completed})
  }

  /** A rejected attempt is recorded with the state it met, the one it named and who made it. */
  ghost predicate Traces(c: Call, was: Row, a: Audit) {
    && a.event == "sequences.transition.invalid" && a.workspace == was.workspace && a.actorType == c.actorType
    && a.payload.Keys == {"enrollment_id", "from", "to_attempted", "caller"}
    && a.payload["enrollment_id"] == Ref(c.id) && a.payload["from"] == InState(was.state)
    && a.payload["to_attempted"] == InState(c.to) && a.payload["caller"] == Text(c.caller)
  }

  lemma AttemptTraced(c: Call, was: Row)
    ensures Traces(c, was, TraceRow(c, was))
  {
    var p := TraceRow(c, was).payload;
    assert "enrollment_id" in p && "from" in p && "to_attempted" in p && "caller" in p;
  }

  lemma EventsName(to: State)
    ensures Names(DefaultEvent(to), to)
  {
    var n := |"sequences."|;
    assert "sequences.enrolled"[n] == 'e' && "sequences.step_sent"[n] == 's' && "sequences.reply_received"[n] == 'r';
    assert "sequences.ooo_detected"[n] == 'o' && "sequences.failed"[n] == 'f' && "sequences.bounced"[n] == 'b';
    assert "sequences.unsubscribed"[n] == 'u' && "sequences.transition"[n] == 't';
  }

  lemma MovedRow(c: Call, was: Row)
    ensures Moves(c, was, NewRow(c, was))
  {}

  lemma TransitionRecorded(c: Call, was: Row)
    ensures Records(c, was, TransitionRow(c, was))
  {
    hide DefaultEvent, Names;
    EventsName(c.to);
    var p := TransitionRow(c, was).payload;
    assert c.reason != "" && "reason" !in c.payload ==> p["reason"] == Text(c.reason);
    assert "enrollment_id" in p && "from" in p && "to" in p;
    assert "enrollment_id" !in c.payload ==> p["enrollment_id"] == Ref(c.id);
    assert "from" !in c.payload ==> p["from"] == InState(was.state);
    assert "to" !in c.payload ==> p["to"] == InState(c.to);
  }

  // The row as the transaction sees it: its own write if there is one, else the committed row.
  function View(db: Db, d: Delta, id: Id): Row
    requires id in db.rows
  {
    if id in d.rows then d.rows[id] else db.rows[id]
  }

  predicate HasJob(jobs: seq<Job>, id: Id) {
    exists i :: 0 <= i < |jobs| && jobs[i].enrollment == id
  }

  function WriteRow(d: Delta, c: Call, was: Row): Delta {
    d.(rows := d.rows[c.id := NewRow(c, was)])
  }

  function Record(d: Delta, a: Audit): Delta {
    d.(audit := d.audit + [a])
  }

  /** The queue keeps one finalize job per enrollment: a second insert is skipped. */
  function Enqueue(db: Db, d: Delta, c: Call, was: Row): Delta {
    if IsTerminal(c.to) && c.enqueue && !HasJob(db.jobs, c.id) && !HasJob(d.jobs, c.id)
    then d.(jobs := d.jobs + [Job(was.workspace, c.id, c.to, c.reason)])
    else d
  }

  /** One call on an existing enrollment: a move with its audit row and job, or a trace row only. */
  function Do(db: Db, d: Delta, c: Call): Delta
    requires c.id in db.rows
  {
    var was := View(db, d, c.id);
    if CanTransition(was.state, c.to)
    then Enqueue(db, Record(WriteRow(d, c, was), TransitionRow(c, was)), c, was)
    else Record(d, TraceRow(c, was))
  }

  predicate Exist(db: Db, calls: seq<Call>) {
    forall c <- calls :: c.id in db.rows
  }

  function DoAll(db: Db, calls: seq<Call>): Delta
    requires Exist(db, calls)
  {
    if calls == [] then NO_WRITES
    else Do(db, DoAll(db, calls[..|calls| - 1]), calls[|calls| - 1])
  }

  function WithWrites(db: Db, d: Delta): Db {
    Db(db.rows + d.rows, db.audit + d.audit, db.jobs + d.jobs)
  }

  // ---- what an audit log says ----

  /** The move an audit row tells of, if it is the row of a completed transition. */
  function RowMove(a: Audit): Option<(Id, Move)> {
    if && "enrollment_id" in a.payload && a.payload["enrollment_id"].Ref?
       && "from" in a.payload && a.payload["from"].InState?
       && "to" in a.payload && a.payload["to"].InState?
    then Some((a.payload["enrollment_id"].id, Move(a.payload["from"].state, a.payload["to"].state)))
    else None
  }

  /** The moves of enrollment `id` told by the log, oldest first. */
  function MovesOf(log: seq<Audit>, id: Id): seq<Move> {
    if log == [] then []
    else
      var earlier := MovesOf(log[..|log| - 1], id);
      match RowMove(log[|log| - 1])
      case Some((who, move)) => if who == id then earlier + [move] else earlier
      case None => earlier
  }

  /** Where the caller's payload has one of the three keys that identify the move, it has the true value. */
  predicate Faithful(c: Call, was: Row) {
    && ("enrollment_id" in c.payload ==> c.payload["enrollment_id"] == Ref(c.id))
    && ("from" in c.payload ==> c.payload["from"] == InState(was.state))
    && ("to" in c.payload ==> c.payload["to"] == InState(c.to))
  }

  lemma {:induction false} MovesOfAppend(a: seq<Audit>, b: seq<Audit>, id: Id)
    ensures MovesOf(a + b, id) == MovesOf(a, id) + MovesOf(b, id)
  {
    if b == [] {
      assert a + b == a;
    } else {
      var n := |b| - 1;
      MovesOfAppend(a, b[..n], id);
      assert (a + b)[..|a + b| - 1] == a + b[..n];
    }
  }

  /** The audit row tells the move that was made exactly when the caller's payload does not contradict it. */
  lemma AuditRowFaithfulIff(c: Call, was: Row)
    ensures RowMove(TransitionRow(c, was)) == Some((c.id, Move(was.state, c.to))) <==> Faithful(c, was)
  {
    var p := TransitionRow(c, was).payload;
    assert "enrollment_id" in p && "from" in p && "to" in p;
    assert "enrollment_id" !in c.payload ==> p["enrollment_id"] == Ref(c.id);
    assert "from" !in c.payload ==> p["from"] == InState(was.state);
    assert "to" !in c.payload ==> p["to"] == InState(c.to);
  }

  /** A call that moves an enrollment to `failed` and whose payload names another target: its row tells of that one. */
  lemma PayloadRenamesTarget(c: Call, was: Row)
    requires c.to == Failed && c.payload == map["to" := InState(Completed)]
    ensures RowMove(TransitionRow(c, was)) == Some((c.id, Move(was.state, Completed)))
  {
    var p := TransitionRow(c, was).payload;
    assert "enrollment_id" in p && "from" in p && "to" in p;
  }

  /** A rejected attempt changes no row and no job, and adds one audit row that tells of no move. */
  lemma RejectedLeavesOneTrace(db: Db, d: Delta, c: Call, id: Id)
    requires c.id in db.rows && !CanTransition(View(db, d, c.id).state, c.to)
    ensures var after := Do(db, d, c);
            && after.rows == d.rows && after.jobs == d.jobs
            && |after.audit| == |d.audit| + 1 && after.audit[..|d.audit|] == d.audit
            && MovesOf(after.audit, id) == MovesOf(d.audit, id)
  {
    var trace := TraceRow(c, View(db, d, c.id));
    assert RowMove(trace) == None;
    assert (d.audit + [trace])[..|d.audit + [trace]| - 1] == d.audit;
  }

  // ---- the call as the code performs it ----

  /** Which statement of the call the database refuses, if any. */
  datatype Fault = NoFault | OnLock | OnUpdate | OnAudit | OnEnqueue

  datatype Outcome = Moved | NotFound | Invalid | Panicked | Broken

  /** What a call that meets no refused statement answers. */
  function Verdict(db: Db, d: Delta, c: Call): Outcome {
    if c.id !in db.rows then NotFound
    else if CanTransition(View(db, d, c.id).state, c.to) then Moved
    else if c.auditInvalid then Invalid
    else Panicked
  }

  /** An open transaction over the committed tables `db`. */
  class Tx {
    const db: Db
    var rows: map<Id, Row>
    var audit: seq<Audit>
    var jobs: seq<Job>

    constructor (db: Db)
      ensures this.db == db && Pending() == NO_WRITES
    {
      this.db, rows, audit, jobs := db, map[], [], [];
    }

    ghost function Pending(): Delta
      reads this
    {
      Delta(rows, audit, jobs)
    }

    /** `Broken` means a statement was refused: the caller's transaction can then only roll back. */
    method Transition(c: Call, fault: Fault) returns (r: Outcome)
      modifies this
      ensures r != Broken ==> r == Verdict(db, old(Pending()), c)
      ensures r == Moved || r == Invalid ==> c.id in db.rows && Pending() == Do(db, old(Pending()), c)
      ensures r == NotFound || r == Panicked ==> Pending() == old(Pending())
      ensures fault == NoFault ==> r != Broken
      ensures r == Moved ==>
                var was := if c.id in old(rows) then old(rows)[c.id] else db.rows[c.id];
                && CanTransition(was.state, c.to)
                && rows.Keys == old(rows).Keys + {c.id} && Moves(c, was, rows[c.id])
                && (forall id <- old(rows) :: id != c.id ==> rows[id] == old(rows)[id])
                && |audit| == |old(audit)| + 1 && audit[..|old(audit)|] == old(audit)
                && Records(c, was, audit[|old(audit)|])
                && jobs == old(jobs) +
                     if IsTerminal(c.to) && c.enqueue && !HasJob(db.jobs, c.id) && !HasJob(old(jobs), c.id)
                     then [Job(was.workspace, c.id, c.to, c.reason)] else []
      ensures r == Invalid ==>
                var was := if c.id in old(rows) then old(rows)[c.id] else db.rows[c.id];
                && !CanTransition(was.state, c.to) && rows == old(rows) && jobs == old(jobs)
                && |audit| == |old(audit)| + 1 && audit[..|old(audit)|] == old(audit)
                && Traces(c, was, audit[|old(audit)|])
    {
      hide Moves, Records, Traces, HasJob, NewRow, TransitionRow, TraceRow, LegalTransitions, IsTerminal;
      // 1. Lock the row and read it.
      if fault == OnLock { return Broken; }
      if c.id !in db.rows { return NotFound; }
      var was := if c.id in rows then rows[c.id] else db.rows[c.id];

      // 2. Validate.
      if !CanTransition(was.state, c.to) {
        if !c.auditInvalid { return Panicked; }
        if fault == OnAudit { return Broken; }
        AttemptTraced(c, was);
        audit := audit + [TraceRow(c, was)];
        return Invalid;
      }

      // 3. Apply the state change and the side-effect columns.
      if fault == OnUpdate { return Broken; }
      MovedRow(c, was);
      rows := rows[c.id := NewRow(c, was)];

      // 4. Emit the audit row.
      if fault == OnAudit { return Broken; }
      TransitionRecorded(c, was);
      audit := audit + [TransitionRow(c, was)];

      // 5. Entering a terminal state enqueues the finalize job.
      if IsTerminal(c.to) && c.enqueue {
        if fault == OnEnqueue { return Broken; }
        if !HasJob(db.jobs, c.id) && !HasJob(jobs, c.id) {
          jobs := jobs + [Job(was.workspace, c.id, c.to, c.reason)];
        }
      }
      return Moved;
    }
  }
}
