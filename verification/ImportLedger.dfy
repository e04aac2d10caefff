/**
 The bookkeeping of an import batch, on dedup keys alone: which rows are duplicates, what is expected of each row
 without running the batch, and when the engine's `seen` set and the table it writes are in step with that.
 */
module ImportLedger {
  import opened Prelude

  datatype Policy = UpdateMatch | SkipMatch | AlwaysCreate

  datatype Action = Create | Update | Skip | Error

  datatype Outcome = Outcome(line: nat, action: Action, reason: string, hint: string)

  datatype Summary = Summary(total: nat, create: nat, update: nat, skip: nat, error: nat)

  /**
   A row: whether it passes validation, the key it is deduplicated by, the hint shown beside its outcome, whether it
   carries custom values, and whether one of those is a number that is not finite.
   */
  datatype Facts = Facts(accepted: bool, key: Option<string>, hint: string, custom: bool, nonFinite: bool)

  /**
   What decides whether a write can fail after the database took it: is anything written, are custom targets distinct,
   is every stored bag an object.
   */
  datatype Terms = Terms(write: bool, distinct: bool, readable: bool)

  /** The dedup key of each stored record. */
  type Keys = map<nat, Option<string>>

  function Holders(t: Keys, key: string): set<nat> {
    set id | id in t && t[id] == Some(key)
  }

  predicate Held(t: Keys, key: string) {
    Holders(t, key) != {}
  }

  /** The keys of a batch. */
  function Batch(rows: seq<Facts>): set<string> {
    if rows == [] then {}
    else
      var last := rows[|rows| - 1];
      Batch(rows[..|rows| - 1]) + if last.key.Some? then {last.key.value} else {}
  }

  /** Row `i` is a duplicate when its key is stored already or carried by an earlier row. */
  predicate Duplicate(stored: Keys, rows: seq<Facts>, i: nat)
    requires i < |rows|
  {
    rows[i].key.Some? && (Held(stored, rows[i].key.value) || rows[i].key.value in Batch(rows[..i]))
  }

  function Expected(policy: Policy, stored: Keys, rows: seq<Facts>, i: nat): Action
    requires i < |rows|
  {
    if !rows[i].accepted then Error
    else if !Duplicate(stored, rows, i) || policy.AlwaysCreate? then Create
    else if policy.SkipMatch? then Skip
    else Update
  }

  /** Custom values that cannot be merged turn a written row into an error; nothing else makes a row differ. */
  predicate Fits(expected: Action, row: Facts, terms: Terms, action: Action) {
    if !terms.write || expected in {Skip, Error} then action == expected
    else
      && action in {expected, Error}
      && (action == Error ==> row.nonFinite || (expected == Update && row.custom && !terms.readable))
      && (row.nonFinite && terms.distinct ==> action == Error)
  }

  predicate AsExpected(policy: Policy, stored: Keys, rows: seq<Facts>, terms: Terms, outcomes: seq<Outcome>) {
    && |outcomes| <= |rows|
    && forall i :: 0 <= i < |outcomes| ==>
         && Fits(Expected(policy, stored, rows, i), rows[i], terms, outcomes[i].action)
         && outcomes[i].line == i + 2
         && outcomes[i].hint == rows[i].hint
  }

  function SeenKey(key: string): string {
    "email:" + key
  }

  /** How many records hold `key` after a batch that neither duplicates nor drops any. */
  function Kept(stored: Keys, rows: seq<Facts>, write: bool, key: string): nat {
    if Held(stored, key) then |Holders(stored, key)|
    else if write && key in Batch(rows) then 1
    else 0
  }

  predicate TableAgrees(policy: Policy, stored: Keys, rows: seq<Facts>, table: Keys, write: bool, key: string) {
    && (Held(table, key) <==> Held(stored, key) || (write && key in Batch(rows)))
    && (!policy.AlwaysCreate? ==> |Holders(table, key)| == Kept(stored, rows, write, key))
  }

  /** `seen` holds the batch's keys; the table holds the stored keys and, when written to, the batch's. */
  ghost predicate Tracked(policy: Policy, stored: Keys, rows: seq<Facts>, seen: set<string>, table: Keys, write: bool) {
    && (forall key :: SeenKey(key) in seen <==> key in Batch(rows))
    && (forall key :: TableAgrees(policy, stored, rows, table, write, key))
  }

  function SeenWith(seen: set<string>, key: Option<string>): set<string> {
    if key.Some? then seen + {SeenKey(key.value)} else seen
  }

  lemma SeenKeyInjective(a: string, b: string)
    requires SeenKey(a) == SeenKey(b)
    ensures a == b
  {
    SameTail("email:", a, b);
  }

  lemma SeenStep(seen: set<string>, rows: seq<Facts>, i: nat)
    requires i < |rows|
    requires forall key :: SeenKey(key) in seen <==> key in Batch(rows[..i])
    ensures forall key :: SeenKey(key) in SeenWith(seen, rows[i].key) <==> key in Batch(rows[..i + 1])
  {
    assert rows[..i + 1][..i] == rows[..i];
    forall key ensures SeenKey(key) in SeenWith(seen, rows[i].key) <==> key in Batch(rows[..i + 1]) {
      if rows[i].key.Some? && SeenKey(key) == SeenKey(rows[i].key.value) {
        SeenKeyInjective(key, rows[i].key.value);
      }
    }
  }

  lemma InsertHolders(table: Keys, id: nat, k: Option<string>, key: string)
    requires id !in table
    ensures Held(table[id := k], key) <==> Held(table, key) || k == Some(key)
    ensures |Holders(table[id := k], key)| == |Holders(table, key)| + if k == Some(key) then 1 else 0
  {
    var now := Holders(table, key);
    if k == Some(key) {
      assert Holders(table[id := k], key) == now + {id};
    } else {
      assert Holders(table[id := k], key) == now;
    }
  }

  lemma InsertAgrees(policy: Policy, stored: Keys, rows: seq<Facts>, i: nat, table: Keys, id: nat, key: string)
    requires i < |rows| && id !in table
    requires TableAgrees(policy, stored, rows[..i], table, true, key)
    requires !Duplicate(stored, rows, i) || policy.AlwaysCreate?
    ensures TableAgrees(policy, stored, rows[..i + 1], table[id := rows[i].key], true, key)
  {
    assert rows[..i + 1][..i] == rows[..i];
    InsertHolders(table, id, rows[i].key, key);
  }

  /** Inserting an accepted row that is no duplicate, or that is always inserted, keeps the bookkeeping in step. */
  lemma InsertTracks(policy: Policy, stored: Keys, rows: seq<Facts>, i: nat, seen: set<string>, table: Keys, id: nat)
    requires i < |rows| && id !in table
    requires Tracked(policy, stored, rows[..i], seen, table, true)
    requires !Duplicate(stored, rows, i) || policy.AlwaysCreate?
    ensures Tracked(policy, stored, rows[..i + 1], SeenWith(seen, rows[i].key), table[id := rows[i].key], true)
  {
    SeenStep(seen, rows, i);
    var now, table' := rows[..i + 1], table[id := rows[i].key];
    forall key ensures TableAgrees(policy, stored, now, table', true, key) {
      InsertAgrees(policy, stored, rows, i, table, id, key);
    }
  }

  /** So does a row that leaves the table's keys alone, if it brings no new key or nothing is written. */
  lemma QuietTracks(policy: Policy, stored: Keys, rows: seq<Facts>, i: nat, seen: set<string>, table: Keys, write: bool)
    requires i < |rows|
    requires Tracked(policy, stored, rows[..i], seen, table, write)
    requires rows[i].key.None? || Duplicate(stored, rows, i) || !write
    ensures Tracked(policy, stored, rows[..i + 1], SeenWith(seen, rows[i].key), table, write)
  {
    SeenStep(seen, rows, i);
    var before, now := rows[..i], rows[..i + 1];
    assert now[..i] == before;
    forall key ensures TableAgrees(policy, stored, now, table, write, key) {
      assert TableAgrees(policy, stored, before, table, write, key);
    }
  }

  lemma EmptyTracks(policy: Policy, stored: Keys, rows: seq<Facts>, write: bool)
    ensures Tracked(policy, stored, rows[..0], {}, stored, write)
  {
    var none := rows[..0];
    forall key ensures TableAgrees(policy, stored, none, stored, write, key) {}
  }

  /** After the last row, no key has gained or lost a holder beyond what the batch brings. */
  lemma TrackedCounts(policy: Policy, stored: Keys, rows: seq<Facts>, seen: set<string>, table: Keys, write: bool)
    requires Tracked(policy, stored, rows[..|rows|], seen, table, write)
    ensures !policy.AlwaysCreate? ==> forall key :: |Holders(table, key)| == Kept(stored, rows, write, key)
  {
    assert rows[..|rows|] == rows;
    if !policy.AlwaysCreate? {
      forall key ensures |Holders(table, key)| == Kept(stored, rows, write, key) {
        assert TableAgrees(policy, stored, rows, table, write, key);
      }
    }
  }

  /** Finding a row's key in the table or in `seen` is being a duplicate; on a commit it is found in the table. */
  lemma MatchedIsDuplicate(policy: Policy, stored: Keys, rows: seq<Facts>, i: nat, seen: set<string>, table: Keys, write: bool)
    requires i < |rows| && Tracked(policy, stored, rows[..i], seen, table, write)
    ensures Duplicate(stored, rows, i) <==>
            rows[i].key.Some? && (Held(table, rows[i].key.value) || SeenKey(rows[i].key.value) in seen)
    ensures write && Duplicate(stored, rows, i) ==> Held(table, rows[i].key.value)
  {
    if rows[i].key.Some? {
      assert TableAgrees(policy, stored, rows[..i], table, write, rows[i].key.value);
    }
  }

  // ---- bookkeeping ----

  function Count(outcomes: seq<Outcome>, a: Action): nat {
    if outcomes == [] then 0
    else Count(outcomes[..|outcomes| - 1], a) + if outcomes[|outcomes| - 1].action == a then 1 else 0
  }

  function Tally(outcomes: seq<Outcome>): Summary {
    Summary(|outcomes|, Count(outcomes, Create), Count(outcomes, Update), Count(outcomes, Skip), Count(outcomes, Error))
  }

  /** The skipped and rejected rows, in row order. */
  function Report(outcomes: seq<Outcome>): seq<Outcome> {
    if outcomes == [] then []
    else
      var last := outcomes[|outcomes| - 1];
      Report(outcomes[..|outcomes| - 1]) + if last.action in {Skip, Error} then [last] else []
  }

  /** Every row has exactly one outcome, so the four counts add up to the total. */
  lemma {:induction false} TallyConserves(outcomes: seq<Outcome>)
    ensures var t := Tally(outcomes);
            && t.total == t.create + t.update + t.skip + t.error
            && |Report(outcomes)| == t.skip + t.error
  {
    if outcomes != [] {
      TallyConserves(outcomes[..|outcomes| - 1]);
    }
  }
}
