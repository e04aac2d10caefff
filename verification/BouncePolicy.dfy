/**
 The bounce policy of one recipient address: hard bounces and complaints suppress at once, soft bounces once they are
 consecutive often enough. The run length is the query's formula over the unordered ledger rows.
 */
module BouncePolicy {
  import opened Prelude
  import SendGate

  datatype Outcome = NoBounce | Soft | Hard | Complaint

  /** A sent attempt as its ledger row shows it. */
  datatype Attempt = Attempt(sentAt: int, outcome: Outcome)

  datatype Action = Action(suppress: bool, reason: string)

  function EvaluateBounce(kind: Outcome, consecutive: int, limits: SendGate.Limits): Action {
    match kind
    case Hard => Action(true, "hard_bounce")
    case Complaint => Action(true, "complaint")
    case Soft =>
      if consecutive >= SendGate.WithDefaults(limits).softBounceThreshold then Action(true, "hard_bounce") else Action(false, "")
    case NoBounce => Action(false, "")
  }

  // ---- the query: row numbers by descending send time ----

  type Ledger = set<Attempt>

  /** row_number() when send times are distinct: the number of attempts sent no earlier. */
  function RowNumber(rows: Ledger, a: Attempt): nat {
    |set b | b in rows && b.sentAt >= a.sentAt|
  }

  function NotSoft(rows: Ledger): Ledger {
    set a | a in rows && !a.outcome.Soft?
  }

  /** COALESCE((min(rn) - 1 over the attempts that did not soft-bounce), count(*)). */
  function ConsecutiveSoftBounces(rows: Ledger): int {
    var numbers := set a | a in NotSoft(rows) :: RowNumber(rows, a);
    if numbers == {} then |rows| else Least(numbers) - 1
  }

  lemma {:induction false} LeastExists(s: set<nat>)
    requires s != {}
    ensures exists m <- s :: forall n <- s :: m <= n
  {
    var x :| x in s;
    var rest := s - {x};
    assert s == rest + {x};
    var low := x;
    if rest != {} {
      LeastExists(rest);
      var m :| m in rest && forall n <- rest :: m <= n;
      low := if x < m then x else m;
    }
    assert low in s;
    forall n | n in s ensures low <= n {
      assert n == x || n in rest;
    }
  }

  function Least(s: set<nat>): (m: nat)
    requires s != {}
    ensures m in s && forall n <- s :: m <= n
  {
    LeastExists(s);
    var m :| m in s && forall n <- s :: m <= n;
    m
  }

  // ---- the run, read off the attempts in send order ----

  predicate InSendOrder(history: seq<Attempt>) {
    forall i, j :: 0 <= i < j < |history| ==> history[i].sentAt < history[j].sentAt
  }

  function Rows(history: seq<Attempt>): Ledger {
    set a | a in history
  }

  /** How many of the latest attempts soft-bounced in a row. */
  function TrailingRun(history: seq<Attempt>): nat {
    if history == [] || !history[|history| - 1].outcome.Soft? then 0
    else TrailingRun(history[..|history| - 1]) + 1
  }

  lemma {:induction false} RowsSize(history: seq<Attempt>)
    requires InSendOrder(history)
    ensures |Rows(history)| == |history|
  {
    if history != [] {
      var n := |history| - 1;
      RowsSize(history[..n]);
      assert Rows(history) == Rows(history[..n]) + {history[n]};
      assert history[n] !in Rows(history[..n]);
    }
  }

  lemma RowNumberOf(history: seq<Attempt>, i: nat)
    requires InSendOrder(history) && i < |history|
    ensures RowNumber(Rows(history), history[i]) == |history| - i
  {
    var later := history[i..];
    assert InSendOrder(later);
    RowsSize(later);
    assert (set b | b in Rows(history) && b.sentAt >= history[i].sentAt) == Rows(later) by {
      forall b | b in Rows(history) && b.sentAt >= history[i].sentAt ensures b in later {
        var k :| 0 <= k < |history| && history[k] == b;
        assert later[k - i] == b;
      }
      forall b | b in later ensures b in history && b.sentAt >= history[i].sentAt {
        var k :| 0 <= k < |later| && later[k] == b;
        assert history[i + k] == b;
      }
    }
  }

  /** The run reaches back to just after the last attempt that did not soft-bounce. */
  lemma {:induction false} TrailingRunStops(history: seq<Attempt>)
    ensures var run := TrailingRun(history);
            && run <= |history|
            && (forall i :: |history| - run <= i < |history| ==> history[i].outcome.Soft?)
            && (run < |history| ==> !history[|history| - run - 1].outcome.Soft?)
  {
    if history != [] && history[|history| - 1].outcome.Soft? {
      var prefix := history[..|history| - 1];
      TrailingRunStops(prefix);
      assert forall i :: 0 <= i < |prefix| ==> prefix[i] == history[i];
    }
  }

  /** For distinct send times the formula is the length of the trailing run of soft bounces. */
  lemma FormulaIsTrailingRun(history: seq<Attempt>)
    requires InSendOrder(history)
    ensures ConsecutiveSoftBounces(Rows(history)) == TrailingRun(history)
  {
    var run, n := TrailingRun(history), |history|;
    TrailingRunStops(history);
    RowsSize(history);
    var numbers := set a | a in NotSoft(Rows(history)) :: RowNumber(Rows(history), a);
    if run == n {
      assert NotSoft(Rows(history)) == {} by {
        forall a | a in Rows(history) ensures a.outcome.Soft? {
          var k :| 0 <= k < n && history[k] == a;
        }
      }
    } else {
      var last := history[n - run - 1];
      assert last in NotSoft(Rows(history));
      RowNumberOf(history, n - run - 1);
      assert RowNumber(Rows(history), last) in numbers;
      forall m | m in numbers ensures run + 1 <= m {
        var a :| a in NotSoft(Rows(history)) && RowNumber(Rows(history), a) == m;
        var k :| 0 <= k < n && history[k] == a;
        RowNumberOf(history, k);
      }
    }
  }

  // ---- applying bounces ----

  type Suppression = map<string, string>

  /** What a bounce does to the suppression table, once it is recorded in the history of its address. */
  function Applied(suppression: Suppression, email: string, kind: Outcome, history: seq<Attempt>,
                   limits: SendGate.Limits): Suppression
  {
    var action := EvaluateBounce(kind, TrailingRun(history), limits);
    if action.suppress then suppression[email := action.reason] else suppression
  }

  /** Decides on the bounce just recorded in the ledger and, if it calls for it, writes the suppression row. */
  method ApplyBounce(rows: Ledger, suppression: Suppression, email: string, kind: Outcome, limits: SendGate.Limits,
                     ghost history: seq<Attempt>)
    returns (suppression': Suppression, action: Action)
    requires InSendOrder(history) && rows == Rows(history)
    ensures action.suppress <==>
              kind in {Hard, Complaint}
              || (kind.Soft? && TrailingRun(history)
                                >= if limits.softBounceThreshold > 0 then limits.softBounceThreshold else 3)
    ensures suppression' == if action.suppress then suppression[email := action.reason] else suppression
    ensures action.reason == if !action.suppress then "" else if kind.Complaint? then "complaint" else "hard_bounce"
    ensures suppression' == Applied(suppression, email, kind, history, limits)
  {
    FormulaIsTrailingRun(history);
    ghost var threshold := SendGate.SoftBounceThreshold(limits);
    var consecutive := 0;
    if kind.Soft? {
      consecutive := ConsecutiveSoftBounces(rows);
    }
    action := EvaluateBounce(kind, consecutive, limits);
    if !action.suppress { return suppression, action; }
    suppression' := suppression[email := action.reason];
  }

  predicate Grave(o: Outcome) {
    o.Hard? || o.Complaint?
  }

  predicate SoftRunAt(history: seq<Attempt>, i: nat, n: nat)
    requires i + n <= |history|
  {
    forall k :: i <= k < i + n ==> history[k].outcome.Soft?
  }

  /** Some `n` attempts in a row soft-bounced. */
  ghost predicate HasSoftRun(history: seq<Attempt>, n: nat) {
    exists i :: 0 <= i <= |history| - n && SoftRunAt(history, i, n)
  }

  /** The trailing run is long enough exactly when the last `n` attempts soft-bounced. */
  lemma TrailingRunIff(history: seq<Attempt>, n: nat)
    ensures TrailingRun(history) >= n <==> |history| >= n && SoftRunAt(history, |history| - n, n)
  {
    TrailingRunStops(history);
  }
}
