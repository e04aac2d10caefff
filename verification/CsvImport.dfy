/**
 The CSV import engine. One row loop serves the dry run and the commit; the dry run replaces real inserts by an
 in-batch set of keys it has already seen.
 */
module CsvImport {
  import opened Prelude
  import opened PropertyTypes
  import opened ImportLedger
  import opened ImportRows

  // ---- the transaction ----

  /**
   The import's transaction. As in the database, a statement that fails leaves the transaction refusing every
   later statement until it is rolled back.
   */
  class Tx {
    var table: Table
    var nextId: nat
    var aborted: bool
    const now: int
    /** The ids handed to an update, in order. */
    var updated: seq<nat>

    constructor (table: Table, nextId: nat, now: int)
      ensures this.table == table && this.nextId == nextId && this.now == now && !aborted && updated == []
    {
      this.table, this.nextId, this.now, aborted, updated := table, nextId, now, false, [];
    }

    ghost predicate Valid()
      reads this
    {
      forall id <- table :: id < nextId
    }

    /** The oldest matching record. A contact without email, and every deal, is answered without a statement. */
    method LookupMatch(s: Setup, core: Fields, refused: bool) returns (ok: bool, hit: Option<nat>)
      modifies this`aborted
      ensures aborted == (old(aborted) || !ok)
      ensures ok && hit.Some? ==>
                && hit.value in table && Matches(s, table[hit.value], core)
                && forall id <- table :: Matches(s, table[id], core) ==> table[hit.value].createdAt <= table[id].createdAt
      ensures ok && hit.None? ==> forall id <- table :: !Matches(s, table[id], core)
      ensures ok <==> s.entity.Deal? || (s.entity.Contact? && Get(core, "email") == "") || (!refused && !old(aborted))
    {
      if s.entity.Deal? || (s.entity.Contact? && Get(core, "email") == "") { return true, None; }
      if aborted || refused {
        aborted := true;
        return false, None;
      }
      ok, hit := true, None;
      var rest := table.Keys;
      while rest != {}
        invariant rest <= table.Keys
        invariant hit.Some? ==>
                    && hit.value in table && Matches(s, table[hit.value], core)
                    && forall id <- table.Keys - rest :: Matches(s, table[id], core) ==> table[hit.value].createdAt <= table[id].createdAt
        invariant hit.None? ==> forall id <- table.Keys - rest :: !Matches(s, table[id], core)
        decreases rest
      {
        var id :| id in rest;
        if Matches(s, table[id], core) && (hit.None? || table[id].createdAt < table[hit.value].createdAt) {
          hit := Some(id);
        }
        rest := rest - {id};
      }
    }

    /** Custom properties go along only if there are any, and companies have none. */
    predicate Carried(s: Setup, custom: Custom) {
      !s.entity.Company? && custom != map[]
    }

    /** Inserts the record and then merges its custom properties, which can fail with the record already inserted. */
    method ApplyCreate(s: Setup, core: Fields, custom: Custom, refused: bool) returns (r: Written)
      requires Valid()
      modifies this
      ensures Valid() && updated == old(updated)
      ensures r.Refused? <==> old(aborted) || refused
      ensures r.WrittenOk? <==>
                !r.Refused? && (s.entity.Company? || forall key <- custom :: custom[key].Plain?)
      ensures aborted <==> r.Refused?
      ensures !r.Refused? ==>
                && old(nextId) !in old(table) && OthersStay(old(table), table, old(nextId))
                && var made := table[old(nextId)];
                   && made.createdAt == now
                   && (forall k: string :: Get(made.fields, k) == Get(core, k))
                   && (forall k: string :: k in made.fields <==> Get(core, k) != "")
                   && if r.WrittenOk? && !s.entity.Company? && custom != map[] then MergesInto(NoData, custom, made.data)
                      else made.data == NoData
      ensures !r.Refused? ==> table == old(table)[old(nextId) := Record(now, Present(core), table[old(nextId)].data)]
      ensures r.Refused? ==> table == old(table)
      ensures !r.Panicked?
      ensures forall d <- {NullData, NotABag} :: Without(old(table), d) ==> Without(table, d)
    {
      if aborted || refused {
        aborted := true;
        return Refused;
      }
      var id := nextId;
      table := table[id := Record(now, Present(core), NoData)];
      assert forall k: string :: k in table[id].fields ==> Get(core, k) != "";
      nextId := id + 1;
      if !Carried(s, custom) { return WrittenOk; }
      match MergeCustomProps(NoData, custom) {
        case Merged(bag) =>
          MergedInto(NoData, custom);
          table := table[id := table[id].(data := Stored(bag))];
          return WrittenOk;
        case MergeFails =>
          return Failed;
      }
    }

    /**
     Overlays the record and then merges its custom properties. A missing record is an error of the lookup; that one,
     like a failing merge, does not spoil the transaction. A panic unwinds through it and rolls it back.
     */
    method ApplyUpdate(s: Setup, id: nat, core: Fields, custom: Custom, refused: bool) returns (r: Written)
      requires Valid()
      modifies this
      ensures Valid() && updated == old(updated) + [id]
      ensures r.Refused? <==> old(aborted) || (id in old(table) && refused)
      ensures aborted <==> r.Refused? || r.Panicked?
      ensures !r.Refused? && id in old(table) ==>
                && r == WriteOutcome(s, old(table)[id].data, custom)
                && OthersStay(old(table), table, id)
                && var before, after := old(table)[id], table[id];
                   && after.createdAt == before.createdAt && Overlays(before.fields, core, after.fields)
                   && if r.WrittenOk? && !s.entity.Company? && custom != map[]
                      then MergesInto(before.data, custom, after.data)
                      else after.data == before.data
      ensures !r.Refused? && id in old(table) ==>
                table == old(table)[id := old(table)[id].(fields := old(table)[id].fields + Present(core),
                                                          data := table[id].data)]
      ensures r.WrittenOk? && !s.entity.Company? && custom != map[] ==>
                forall key <- custom :: custom[key].Plain?
      ensures r == Failed && id in old(table) ==>
                && !s.entity.Company?
                && (old(table)[id].data == NotABag || exists key <- custom :: !custom[key].Plain?)
      ensures r.Panicked? <==>
                && !old(aborted) && !refused && id in old(table)
                && !s.entity.Company? && custom != map[] && old(table)[id].data == NullData
      ensures !r.Refused? && id !in old(table) ==> r == Failed && table == old(table)
      ensures r.Refused? ==> table == old(table)
      ensures forall d <- {NullData, NotABag} :: Without(old(table), d) ==> Without(table, d)
    {
      updated := updated + [id];
      if aborted { return Refused; }
      if id !in table { return Failed; }
      if refused {
        aborted := true;
        return Refused;
      }
      PresentOverlays(table[id].fields, core);
      table := table[id := table[id].(fields := table[id].fields + Present(core))];
      if !Carried(s, custom) { return WrittenOk; }
      match MergeCustomProps(table[id].data, custom) {
        case Merged(bag) =>
          MergedInto(table[id].data, custom);
          table := table[id := table[id].(data := Stored(bag))];
          return WrittenOk;
        case MergeFails =>
          return Failed;
        case MergePanics =>
          aborted := true;
          return Panicked;
      }
    }

    function WriteOutcome(s: Setup, data: Data, custom: Custom): Written {
      if !Carried(s, custom) then WrittenOk
      else
        match MergeCustomProps(data, custom)
        case Merged(_) => WrittenOk
        case MergeFails => Failed
        case MergePanics => Panicked
    }
  }

  /** How a write ends: done, failed in the program, refused by the database, or in a panic. */
  datatype Written = WrittenOk | Failed | Refused | Panicked

  /** No stored bag is in this state. */
  predicate Without(t: Table, data: Data) {
    forall id <- t :: t[id].data != data
  }

  // ---- one company row, whose match is found by domain or by name ----

  ghost predicate Found(s: Setup, t: Table, core: Fields) {
    exists id <- t :: Matches(s, t[id], core)
  }

  ghost predicate OldestMatch(s: Setup, t: Table, id: nat, core: Fields) {
    && id in t && Matches(s, t[id], core)
    && forall other <- t :: Matches(s, t[other], core) ==> t[id].createdAt <= t[other].createdAt
  }

  function OverlaidFields(t: Table, id: nat, core: Fields): Table
    requires id in t
  {
    t[id := t[id].(fields := t[id].fields + Present(core))]
  }

  function WithKey(seen: set<string>, key: string): set<string> {
    if key == "" then seen else seen + {key}
  }

  /** The table and the batch's keys before or after a row. */
  datatype Point = Point(table: Table, seen: set<string>)

  /**
   What a row does in the absence of refused statements: its action, and the table and keys after it. Left open is
   the update of a row whose key was seen and that nothing in the table matches.
   */
  ghost predicate CompanyStep(s: Setup, write: bool, core: Fields, accepted: bool, p: Point, q: Point, action: Action) {
    if !accepted then action == Error && q == p
    else
      var k := DedupeKey(s, core);
      var matched := Found(s, p.table, core) || (k != "" && k in p.seen);
      && q.seen == WithKey(p.seen, k)
      && CompanyWrite(s, write, core, matched, Found(s, p.table, core), p.table, q.table, action)
  }

  ghost predicate CompanyWrite(s: Setup, write: bool, core: Fields, matched: bool, found: bool, t: Table, u: Table,
                               action: Action)
  {
    if matched && s.policy.SkipMatch? then action == Skip && u == t
    else if matched && s.policy.UpdateMatch? then
      if write then found ==> action == Update && UpdatesOldest(s, core, t, u) else action == Update && u == t
    else action == Create && if write then InsertsRow(core, t, u) else u == t
  }

  lemma StepOf(s: Setup, write: bool, core: Fields, p: Point, q: Point, action: Action, matched: bool)
    requires q.seen == WithKey(p.seen, DedupeKey(s, core))
    requires matched <==> Found(s, p.table, core) || (DedupeKey(s, core) != "" && DedupeKey(s, core) in p.seen)
    requires CompanyWrite(s, write, core, matched, Found(s, p.table, core), p.table, q.table, action)
    ensures CompanyStep(s, write, core, true, p, q, action)
  {}

  lemma RejectedStep(s: Setup, write: bool, core: Fields, p: Point)
    ensures CompanyStep(s, write, core, false, p, p, Error)
  {}

  /** The step for a row as it stands in the file. */
  ghost predicate Steps(s: Setup, write: bool, rec: Cells, p: Point, q: Point, action: Action) {
    CompanyStep(s, write, CoreOf(s, rec), FactsOf(s, rec).accepted, p, q, action)
  }

  /** The points between the rows of a whole batch. */
  ghost predicate Traced(s: Setup, write: bool, records: seq<Cells>, outcomes: seq<Outcome>, trace: seq<Point>) {
    && |outcomes| <= |records| && |trace| == |outcomes| + 1
    && forall i :: 0 <= i < |outcomes| ==> Steps(s, write, records[i], trace[i], trace[i + 1], outcomes[i].action)
  }

  lemma TraceMore(s: Setup, write: bool, records: seq<Cells>, before: seq<Outcome>, after: seq<Outcome>,
                  trace: seq<Point>, q: Point)
    requires Traced(s, write, records, before, trace) && |before| < |records|
    requires |after| == |before| + 1 && after[..|before|] == before
    requires Steps(s, write, records[|before|], trace[|before|], q, after[|before|].action)
    ensures Traced(s, write, records, after, trace + [q])
  {
    hide Steps;
    forall i | 0 <= i < |before| ensures after[i] == before[i] {}
  }

  lemma TraceStarts(s: Setup, write: bool, records: seq<Cells>, p: Point)
    ensures Traced(s, write, records, [], [p])
  {}

  ghost predicate UpdatesOldest(s: Setup, core: Fields, t: Table, u: Table) {
    exists id <- t :: OldestMatch(s, t, id, core) && u == OverlaidFields(t, id, core)
  }

  ghost predicate InsertsRow(core: Fields, t: Table, u: Table) {
    exists id: nat, now: int :: id !in t && u == t[id := Record(now, Present(core), NoData)]
  }

  // ---- what a row leaves in the table ----

  /** A new record holds the row's fields and, if they were merged, its custom values. */
  ghost predicate Inserts(s: Setup, core: Fields, custom: Custom, merged: bool, t: Table, u: Table) {
    exists id <- u ::
      && id !in t && OthersStay(t, u, id) && Overlays(map[], core, u[id].fields)
      && if merged && !s.entity.Company? && custom != map[] then MergesInto(NoData, custom, u[id].data)
         else u[id].data == NoData
  }

  /**
   A stored record takes the row's fields and, if they were merged, its custom values. It is the oldest one that
   matches, unless a company only the batch knew is not in the table.
   */
  ghost predicate Updates(s: Setup, core: Fields, custom: Custom, merged: bool, t: Table, u: Table) {
    exists id <- t ::
      && (!s.entity.Company? || Found(s, t, core) ==> OldestMatch(s, t, id, core))
      && OthersStay(t, u, id) && u[id].createdAt == t[id].createdAt && Overlays(t[id].fields, core, u[id].fields)
      && if merged && !s.entity.Company? && custom != map[] then MergesInto(t[id].data, custom, u[id].data)
         else u[id].data == t[id].data
  }

  /** What a row reported under `action` does to the table. A row that could not be merged is reported as an error. */
  ghost predicate RowStores(s: Setup, write: bool, core: Fields, custom: Custom, t: Table, u: Table, action: Action) {
    if !write then u == t
    else
      match action
      case Create => Inserts(s, core, custom, true, t, u)
      case Update => Updates(s, core, custom, true, t, u)
      case Skip => u == t
      case Error => u == t || Inserts(s, core, custom, false, t, u) || Updates(s, core, custom, false, t, u)
  }

  /** The same for a row as it stands in the file. */
  ghost predicate RowLeaves(s: Setup, write: bool, rec: Cells, t: Table, u: Table, out: Outcome) {
    if !FactsOf(s, rec).accepted then
      && out.action == Error && out.reason != "" && u == t
      && (!BadCustom(s, rec) ==> out.reason == CoreProblem(s, CoreOf(s, rec)))
    else exists custom: Custom ::
           Collected(s, s.mapping.Keys, rec, custom) && RowStores(s, write, CoreOf(s, rec), custom, t, u, out.action)
  }

  ghost predicate LeftBy(s: Setup, write: bool, records: seq<Cells>, outcomes: seq<Outcome>, trace: seq<Point>) {
    && |outcomes| <= |records| && |trace| == |outcomes| + 1
    && forall i :: 0 <= i < |outcomes| ==>
         RowLeaves(s, write, records[i], trace[i].table, trace[i + 1].table, outcomes[i])
  }

  /**
   In terms of cells alone: a committed row answered create or update leaves one record, a new or an old one, that
   holds all the row's cells and otherwise what it held before, and leaves every other record as it was.
   */
  lemma RowHoldsItsCells(s: Setup, rec: Cells, t: Table, u: Table, out: Outcome) returns (id: nat)
    requires DistinctTargets(s) && out.action in {Create, Update} && RowLeaves(s, true, rec, t, u, out)
    ensures id in u && OthersStay(t, u, id) && (id in t <==> out.action == Update)
    ensures CellsHeld(s, rec, if id in t then t[id].fields else map[], u[id].fields)
    ensures var data := if id in t then t[id].data else NoData;
            if s.entity.Company? then u[id].data == data else PropsHeld(s, rec, data, u[id].data)
  {
    hide MergesInto, Overlays, CellsHeld, PropsHeld, CoreOf, FactsOf, Collected, OldestMatch, Found;
    var custom: Custom :|
      Collected(s, s.mapping.Keys, rec, custom) && RowStores(s, true, CoreOf(s, rec), custom, t, u, out.action);
    if out.action == Create {
      id :| id in u && id !in t && OthersStay(t, u, id) && Overlays(map[], CoreOf(s, rec), u[id].fields)
            && if !s.entity.Company? && custom != map[] then MergesInto(NoData, custom, u[id].data)
               else u[id].data == NoData;
      FieldsFromCells(s, rec, map[], u[id].fields);
      if !s.entity.Company? { PropsFromCells(s, rec, custom, NoData, u[id].data); }
    } else {
      id :| id in t && OthersStay(t, u, id) && Overlays(t[id].fields, CoreOf(s, rec), u[id].fields)
            && if !s.entity.Company? && custom != map[] then MergesInto(t[id].data, custom, u[id].data)
               else u[id].data == t[id].data;
      FieldsFromCells(s, rec, t[id].fields, u[id].fields);
      if !s.entity.Company? { PropsFromCells(s, rec, custom, t[id].data, u[id].data); }
    }
  }

  lemma LeftByNone(s: Setup, write: bool, records: seq<Cells>, p: Point)
    ensures LeftBy(s, write, records, [], [p])
  {}

  lemma LeftByMore(s: Setup, write: bool, records: seq<Cells>, before: seq<Outcome>, after: seq<Outcome>,
                   trace: seq<Point>, q: Point)
    requires LeftBy(s, write, records, before, trace) && |before| < |records|
    requires |after| == |before| + 1 && after[..|before|] == before
    requires RowLeaves(s, write, records[|before|], trace[|before|].table, q.table, after[|before|])
    ensures LeftBy(s, write, records, after, trace + [q])
  {
    hide RowLeaves;
    forall i | 0 <= i < |before| ensures after[i] == before[i] {}
  }

  // ---- the engine ----

  class ImportEngine {
    const s: Setup
    const records: seq<Cells>
    const write: bool
    const colIndex: map<string, nat>
    var seen: set<string>
    var summary: Summary
    var outcomes: seq<Outcome>
    var errors: seq<Outcome>

    constructor (s: Setup, records: seq<Cells>, write: bool)
      ensures this.s == s && this.records == records && this.write == write
      ensures Indexed()
      ensures seen == {} && outcomes == [] && Booked(0)
    {
      this.s, this.records, this.write := s, records, write;
      var index := IndexColumns(s.header);
      colIndex := index;
      seen, summary, outcomes, errors := {}, Summary(0, 0, 0, 0, 0), [], [];
    }

    ghost predicate Indexed() {
      colIndex == map h | h in s.header :: FirstAt(s.header, h)
    }

    /** Lines are numbered in row order, and the summary and the error report say what the outcomes say; `pending`
        rows are counted but not yet filed. */
    ghost predicate Booked(pending: nat)
      reads this
    {
      && summary == Tally(outcomes).(total := |outcomes| + pending) && errors == Report(outcomes)
      && forall i :: 0 <= i < |outcomes| ==> outcomes[i].line == i + 2
    }

    method File(out: Outcome, action: Action, reason: string)
      requires Booked(1) && out.line == |outcomes| + 2
      modifies this
      ensures Booked(0) && seen == old(seen)
      ensures outcomes == old(outcomes) + [out.(action := action, reason := reason)]
    {
      var filed := out.(action := action, reason := reason);
      match action {
        case Create => summary := summary.(create := summary.create + 1);
        case Update => summary := summary.(update := summary.update + 1);
        case Skip =>
          summary := summary.(skip := summary.skip + 1);
          errors := errors + [filed];
        case Error =>
          summary := summary.(error := summary.error + 1);
          errors := errors + [filed];
      }
      outcomes := outcomes + [filed];
      assert outcomes[..|outcomes| - 1] == old(outcomes);
    }

    /** The mapping is visited in an arbitrary order; with distinct targets the order does not matter. */
    method CoreValues(rec: Cells) returns (core: Fields)
      requires Indexed()
      ensures DistinctTargets(s) ==> core == CoreOf(s, rec)
    {
      core := map[];
      var rest := s.mapping.Keys;
      ghost var done: set<string> := {};
      while rest != {}
        invariant rest <= s.mapping.Keys && done == s.mapping.Keys - rest
        invariant Gathered(s, done, rec, core)
        decreases rest
      {
        var col :| col in rest;
        var target := s.mapping[col];
        if target in CoreKeys(s.entity) && col in colIndex && colIndex[col] < |rec| {
          GatherSupplied(s, done, rec, core, col);
          core := core[target := s.lib.trim(rec[colIndex[col]])];
        } else {
          GatherOther(s, done, rec, core, col);
        }
        rest := rest - {col};
        done := done + {col};
      }
      assert done == s.mapping.Keys;
      if DistinctTargets(s) { GatheredAll(s, rec, core); }
    }

    /**
     Fails exactly when some mapped cell cannot be coerced, whatever the visiting order; else it collects the values,
     among them numbers that are not finite.
     */
    method CustomValues(rec: Cells) returns (custom: Custom, problem: string)
      requires Indexed()
      ensures problem != "" <==> BadCustom(s, rec)
      ensures problem == "" ==> Collected(s, s.mapping.Keys, rec, custom)
    {
      hide Collected, CoerceCell;
      custom, problem := map[], "";
      var rest := s.mapping.Keys;
      ghost var done: set<string> := {};
      NothingCollected(s, rec);
      while rest != {}
        invariant rest <= s.mapping.Keys && done == s.mapping.Keys - rest && problem == ""
        invariant forall col <- done :: IsCustom(s, col, rec) ==> CoercedAt(s, col, rec).Some?
        invariant Collected(s, done, rec, custom)
        decreases rest
      {
        var col :| col in rest;
        var target := s.mapping[col];
        var isCustom := IsCustomAt(col, rec);
        if isCustom {
          var raw := s.lib.trim(rec[colIndex[col]]);
          var coerced := Coerce(s.lib.parsers, s.defs[PropKey(target)], raw);
          match coerced {
            case None =>
              return map[], PropKey(target) + ": invalid value";
            case Some(v) =>
              CollectOne(s, done, rec, custom, col, v);
              custom := custom[PropKey(target) := v];
          }
        } else {
          CollectNone(s, done, rec, custom, col);
        }
        rest := rest - {col};
        done := done + {col};
      }
      assert done == s.mapping.Keys;
    }

    /** The column has a custom target that is defined, and this record a non-empty cell for it. */
    method IsCustomAt(col: string, rec: Cells) returns (yes: bool)
      requires Indexed() && col in s.mapping
      ensures yes <==> IsCustom(s, col, rec)
    {
      var target := s.mapping[col];
      if !(CUSTOM_PREFIX <= target) { return false; }
      if target[|CUSTOM_PREFIX|..] !in s.defs { return false; }
      if col !in colIndex || colIndex[col] >= |rec| { return false; }
      return s.lib.trim(rec[colIndex[col]]) != "";
    }

    /** Required fields first, in their order, then the formats; empty when the row is accepted. */
    method ValidateCore(core: Fields) returns (reason: string)
      ensures reason == CoreProblem(s, core)
      ensures reason == "" <==> Acceptable(s, core)
    {
      AcceptedIff(s, core);
      var required := RequiredKeys(s.entity);
      for i := 0 to |required|
        invariant FirstMissing(required, core) == FirstMissing(required[i..], core)
      {
        if Get(core, required[i]) == "" { return required[i] + " is required"; }
      }
      match s.entity {
        case Contact =>
          var email := Get(core, "email");
          if email != "" {
            if !s.lib.validEmail(email) { return "invalid email"; }
          }
        case Company =>
          var size := Get(core, "size");
          if size != "" && size != "1-10" && size != "11-50" && size != "51-200" && size != "201-1000" && size != "1000+" {
            return "invalid size";
          }
        case Deal =>
          var amount := Get(core, "amount");
          if amount != "" && !s.lib.validAmount(amount) { return "amount is not a number"; }
          var currency := Get(core, "currency");
          if currency != "" && |currency| != 3 { return "currency must be a 3-letter ISO code"; }
          var date := Get(core, "expected_close_date");
          if date != "" && !s.lib.validDate(date) { return "expected_close_date must be YYYY-MM-DD"; }
          var stage := Get(core, "stage");
          if stage != "" && s.lib.fold(stage) !in s.stages { return "unknown stage"; }
      }
      return "";
    }

    /** The key under which the batch remembers a row; empty for a row that is not deduplicated. */
    method BatchKey(core: Fields) returns (key: string)
      ensures key == DedupeKey(s, core)
    {
      match s.entity {
        case Contact =>
          var email := Get(core, "email");
          if email != "" { return "email:" + s.lib.fold(email); }
        case Company =>
          var domain, name := Get(core, "domain"), Get(core, "name");
          if domain != "" { return "domain:" + s.lib.fold(domain); }
          if name != "" { return "name:" + s.lib.fold(name); }
        case Deal =>
      }
      return "";
    }

    /** The hint shown beside a row's outcome. */
    method RowLabel(core: Fields) returns (hint: string)
      ensures hint == Label(s, core)
    {
      match s.entity {
        case Contact =>
          var name := s.lib.trim(Get(core, "first_name") + " " + Get(core, "last_name"));
          if name != "" { return name; }
          return Get(core, "email");
        case Company => return Get(core, "name");
        case Deal => return Get(core, "title");
      }
    }

    /** What the failing of writes depends on, for a batch that starts from `table`. */
    ghost function TermsFor(table: Table): Terms {
      Terms(write, DistinctCustom(s), Without(table, NotABag))
    }

    /** The rows filed so far are as expected, as long as no statement of the transaction has failed. */
    ghost predicate OnTrack(tx: Tx, stored: Keys, rows: seq<Facts>, terms: Terms, i: nat)
      reads this, tx
    {
      Plain(tx) ==>
        && i <= |rows|
        && AsExpected(s.policy, stored, rows, terms, outcomes)
        && Tracked(s.policy, stored, rows[..i], seen, KeysOf(s, tx.table), write)
        && Sane(tx, terms)
    }

    ghost predicate Sane(tx: Tx, terms: Terms)
      reads tx
    {
      && terms.write == write && terms.distinct == DistinctCustom(s)
      && (terms.readable ==> Without(tx.table, NotABag))
      && forall id <- tx.updated :: id in tx.table
    }

    ghost predicate Plain(tx: Tx)
      reads tx
    {
      DistinctTargets(s) && !s.entity.Company? && !tx.aborted
    }

    /** Reads a row: its core fields and custom values, the reason it is rejected, if any, and its outcome line. */
    method ReadRow(i: nat, ghost rows: seq<Facts>)
      returns (core: Fields, custom: Custom, problem: string, out: Outcome)
      requires i < |records| && rows == AllFacts(s, records)
      requires Indexed()
      ensures out == Outcome(i + 2, Error, "", Label(s, core))
      ensures DistinctTargets(s) ==> core == CoreOf(s, records[i]) && RowRead(rows[i], core, custom, problem)
      ensures problem == "" ==> Collected(s, s.mapping.Keys, records[i], custom)
      ensures DistinctTargets(s) && !BadCustom(s, records[i]) ==> problem == CoreProblem(s, core)
      ensures rows[i] == FactsOf(s, records[i])
    {
      hide Collected, IsCustom, CoercedAt, CoreProblem, Acceptable;
      core := CoreValues(records[i]);
      custom, problem := CustomValues(records[i]);
      var hint := RowLabel(core);
      out := Outcome(i + 2, Error, "", hint);
      if problem == "" {
        CollectedAll(s, records[i], custom);
        problem := ValidateCore(core);
      }
      FactsAt(s, records, i);
    }

    /** What was read of a row is what its facts say. */
    ghost predicate RowRead(row: Facts, core: Fields, custom: Custom, problem: string) {
      && row.accepted == (problem == "")
      && row.key == (if problem == "" then RowKey(core) else None)
      && row.hint == Label(s, core)
      && (problem == "" ==>
            && (row.custom <==> custom != map[])
            && (!Serialises(custom) ==> row.nonFinite)
            && (DistinctCustom(s) && row.nonFinite ==> !Serialises(custom)))
    }

    lemma RowReadSays(row: Facts, core: Fields, custom: Custom, problem: string)
      requires RowRead(row, core, custom, problem)
      ensures row.accepted == (problem == "") && row.hint == Label(s, core)
      ensures row.key == if problem == "" then RowKey(core) else None
      ensures row.key.None? ==> forall seen0: set<string> :: SeenWith(seen0, row.key) == seen0
    {}

    ghost function RowKey(core: Fields): Option<string> {
      if s.entity.Contact? && Get(core, "email") != "" then Some(s.lib.fold(core["email"])) else None
    }

    /** Looks for a record to match, in the transaction first and then among the batch's own keys. */
    method FindMatch(tx: Tx, core: Fields, refused: bool) returns (ok: bool, matchId: nat, matched: bool)
      modifies this`seen, tx`aborted
      ensures tx.aborted == (old(tx.aborted) || !ok)
      ensures !refused && !old(tx.aborted) ==> ok
      ensures ok && s.entity.Contact? ==>
                var key := RowKey(core);
                && seen == SeenWith(old(seen), key)
                && (matched <==> key.Some? && (Held(KeysOf(s, tx.table), key.value) || SeenKey(key.value) in old(seen)))
                && (key.Some? && Held(KeysOf(s, tx.table), key.value) ==> OldestMatch(s, tx.table, matchId, core))
      ensures s.entity.Deal? ==> ok && !matched && seen == old(seen)
      ensures ok && s.entity.Company? ==>
                var k := DedupeKey(s, core);
                && seen == WithKey(old(seen), k)
                && (matched <==> Found(s, tx.table, core) || (k != "" && k in old(seen)))
                && (Found(s, tx.table, core) ==> OldestMatch(s, tx.table, matchId, core))
    {
      hide Matches;
      ok, matchId, matched := true, 0, false;
      if s.entity.Deal? { return; }
      var found, hit := tx.LookupMatch(s, core, refused);
      if !found { return false, 0, false; }
      ghost var key := RowKey(core);
      if s.entity.Contact? && key.Some? { HeldMeansMatch(s, tx.table, core); }
      var k := BatchKey(core);
      if hit.Some? {
        matchId, matched := hit.value, true;
      } else if k != "" && k in seen {
        matched := true;
      }
      if k != "" {
        seen := seen + {k};
      }
    }

    /** The row at hand is classified: whether it matched is known, nothing is written or filed for it yet. */
    ghost predicate Classified(tx: Tx, i: nat, core: Fields, custom: Custom, matchId: nat, matched: bool,
                               stored: Keys, rows: seq<Facts>, terms: Terms, seen0: set<string>)
      requires i < |rows|
      reads this, tx
    {
      && AsExpected(s.policy, stored, rows, terms, outcomes)
      && Tracked(s.policy, stored, rows[..i], seen0, KeysOf(s, tx.table), write)
      && seen == SeenWith(seen0, rows[i].key) && RowRead(rows[i], core, custom, "")
      && (matched <==> Duplicate(stored, rows, i))
      && (matched && write ==> OldestMatch(s, tx.table, matchId, core))
      && Sane(tx, terms)
    }

    ghost predicate FiledOne(before: seq<Outcome>)
      reads this
    {
      |outcomes| == |before| + 1 && outcomes[..|before|] == before
    }

    ghost predicate Filed(before: seq<Outcome>, action: Action, reason: string)
      reads this
    {
      FiledOne(before) && outcomes[|before|].action == action && outcomes[|before|].reason == reason
    }

    /** Files a row that the bookkeeping already covers. */
    method FileTracked(tx: Tx, i: nat, out: Outcome, action: Action, reason: string,
                       ghost stored: Keys, ghost rows: seq<Facts>, ghost terms: Terms)
      requires i < |rows| && |outcomes| == i && Booked(1) && out.line == i + 2
      requires Plain(tx) ==>
                 && AsExpected(s.policy, stored, rows, terms, outcomes)
                 && Tracked(s.policy, stored, rows[..i + 1], seen, KeysOf(s, tx.table), write)
                 && Fits(Expected(s.policy, stored, rows, i), rows[i], terms, action) && out.hint == rows[i].hint
                 && Sane(tx, terms)
      modifies this
      ensures Booked(0) && OnTrack(tx, stored, rows, terms, i + 1)
      ensures Filed(old(outcomes), action, reason) && seen == old(seen)
    {
      hide Tracked, Fits, Expected, Tally, Report;
      File(out, action, reason);
    }

    /** Files a row that leaves the table's keys alone. */
    method FileQuietly(tx: Tx, i: nat, out: Outcome, action: Action, reason: string,
                       ghost stored: Keys, ghost rows: seq<Facts>, ghost terms: Terms, ghost seen0: set<string>)
      requires i < |rows| && |outcomes| == i && Booked(1) && out.line == i + 2
      requires Plain(tx) ==>
                 && AsExpected(s.policy, stored, rows, terms, outcomes)
                 && Tracked(s.policy, stored, rows[..i], seen0, KeysOf(s, tx.table), write)
                 && seen == SeenWith(seen0, rows[i].key)
                 && Fits(Expected(s.policy, stored, rows, i), rows[i], terms, action) && out.hint == rows[i].hint
                 && (rows[i].key.None? || Duplicate(stored, rows, i) || !write)
                 && Sane(tx, terms)
      modifies this
      ensures Booked(0) && OnTrack(tx, stored, rows, terms, i + 1)
      ensures Filed(old(outcomes), action, reason) && seen == old(seen)
    {
      hide Tracked, Fits, Expected, Tally, Report;
      if Plain(tx) { QuietTracks(s.policy, stored, rows, i, seen0, KeysOf(s, tx.table), write); }
      FileTracked(tx, i, out, action, reason, stored, rows, terms);
    }

    /** What an update of a matched record is reported as. */
    lemma UpdateFits(tx: Tx, i: nat, core: Fields, custom: Custom, matchId: nat, stored: Keys, rows: seq<Facts>,
                     terms: Terms, seen0: set<string>, failed: bool)
      requires i < |rows| && s.policy.UpdateMatch?
      requires Plain(tx) && Classified(tx, i, core, custom, matchId, true, stored, rows, terms, seen0)
      requires write ==> matchId in tx.table && !tx.WriteOutcome(s, tx.table[matchId].data, custom).Panicked?
      requires failed <==> write && tx.WriteOutcome(s, tx.table[matchId].data, custom).Failed?
      ensures Fits(Expected(s.policy, stored, rows, i), rows[i], terms, if failed then Error else Update)
      ensures s.entity.Contact?
    {
      hide Tracked, AsExpected, Matches, Held, Batch;
    }

    /** An update, made or only said to be, is what a row reported as update or error may do to the table. */
    lemma UpdateStores(core: Fields, custom: Custom, id: nat, merged: bool, t: Table, u: Table)
      requires write && id in t ==>
                 && OthersStay(t, u, id) && u[id].createdAt == t[id].createdAt && Overlays(t[id].fields, core, u[id].fields)
                 && if merged && !s.entity.Company? && custom != map[] then MergesInto(t[id].data, custom, u[id].data)
                    else u[id].data == t[id].data
      requires !write || id !in t ==> u == t && merged == !write
      requires write ==> !s.entity.Company? || Found(s, t, core) ==> OldestMatch(s, t, id, core)
      ensures RowStores(s, write, core, custom, t, u, if merged then Update else Error)
    {
      hide MergesInto, Overlays, Found, OldestMatch;
    }

    /** Writes a row that matched, on a commit, and files it. */
    method SettleUpdate(tx: Tx, i: nat, core: Fields, custom: Custom, out: Outcome, matchId: nat,
                        ghost stored: Keys, ghost rows: seq<Facts>, ghost terms: Terms, ghost seen0: set<string>,
                        refused: bool)
      returns (ok: bool)
      requires i < |rows| && out == Outcome(i + 2, Error, "", Label(s, core)) && s.policy.UpdateMatch?
      requires |outcomes| == i && Booked(1) && tx.Valid()
      requires Plain(tx) ==> Classified(tx, i, core, custom, matchId, true, stored, rows, terms, seen0)
      modifies this, tx
      ensures tx.Valid() && Booked(if ok then 0 else 1)
      ensures ok ==> OnTrack(tx, stored, rows, terms, i + 1) && FiledOne(old(outcomes))
      ensures !ok ==> tx.aborted && outcomes == old(outcomes)
      ensures !write ==> tx.table == old(tx.table) && tx.updated == old(tx.updated)
      ensures old(tx.aborted) ==> tx.aborted
      ensures GoesOn(tx.aborted, tx.table, refused, old(tx.aborted), old(tx.table))
      ensures seen == old(seen)
      ensures ok && !tx.aborted && (write ==> !s.entity.Company? || Found(s, old(tx.table), core) ==>
                                      OldestMatch(s, old(tx.table), matchId, core)) ==>
                RowStores(s, write, core, custom, old(tx.table), tx.table, outcomes[i].action)
      ensures s.entity.Company? && !tx.aborted && (write ==> matchId in old(tx.table)) ==>
                && ok && outcomes[i].action == Update
                && tx.table == if write then OverlaidFields(old(tx.table), matchId, core) else old(tx.table)
    {
      hide Tracked, Fits, Expected, AsExpected, Matches, Duplicate, Tally, Report, MergeCustomProps, KeysOf, MergesInto,
           Overlays, Found, Present, Tx.WriteOutcome, RowStores;
      ghost var plain, table0 := Plain(tx), tx.table;
      ghost var oldest := write ==> !s.entity.Company? || Found(s, table0, core) ==> OldestMatch(s, table0, matchId, core);
      if write {
        if plain && matchId in tx.table && !tx.WriteOutcome(s, tx.table[matchId].data, custom).Panicked? {
          UpdateFits(tx, i, core, custom, matchId, stored, rows, terms, seen0,
                     tx.WriteOutcome(s, tx.table[matchId].data, custom).Failed?);
        }
        var written := tx.ApplyUpdate(s, matchId, core, custom, refused);
        if written.Panicked? { return false; }
        if plain && !written.Refused? {
          OverlayKeepsKeys(s, table0, matchId, core, tx.table[matchId].data);
        }
        if oldest && !written.Refused? { UpdateStores(core, custom, matchId, written.WrittenOk?, table0, tx.table); }
        if !written.WrittenOk? {
          FileQuietly(tx, i, out, Error, "update failed", stored, rows, terms, seen0);
          return true;
        }
      } else {
        if plain { UpdateFits(tx, i, core, custom, matchId, stored, rows, terms, seen0, false); }
        UpdateStores(core, custom, matchId, true, table0, table0);
      }
      FileQuietly(tx, i, out, Update, "", stored, rows, terms, seen0);
      return true;
    }

    /** Without a refused statement or a stored JSON null to write to, a transaction goes on and gains no such null. */
    ghost predicate GoesOn(aborted: bool, table: Table, refused: bool, aborted0: bool, table0: Table) {
      !refused && !aborted0 && (write && !s.entity.Company? ==> Without(table0, NullData)) ==>
        !aborted && (write && !s.entity.Company? ==> Without(table, NullData))
    }

    /** What an insert is reported as. */
    lemma CreateFits(tx: Tx, i: nat, core: Fields, custom: Custom, matchId: nat, matched: bool, stored: Keys,
                     rows: seq<Facts>, terms: Terms, seen0: set<string>, failed: bool)
      requires i < |rows| && (matched ==> s.policy.AlwaysCreate?)
      requires Plain(tx) && Classified(tx, i, core, custom, matchId, matched, stored, rows, terms, seen0)
      requires failed <==> write && tx.Carried(s, custom) && !Serialises(custom)
      ensures Fits(Expected(s.policy, stored, rows, i), rows[i], terms, if failed then Error else Create)
    {
      hide Tracked, AsExpected, Matches, Duplicate;
    }

    /** Writes a row as a new record, on a commit, and files it. */
    method SettleCreate(tx: Tx, i: nat, core: Fields, custom: Custom, out: Outcome, ghost matchId: nat,
                        ghost matched: bool, ghost stored: Keys, ghost rows: seq<Facts>, ghost terms: Terms,
                        ghost seen0: set<string>, refused: bool)
      requires i < |rows| && out == Outcome(i + 2, Error, "", Label(s, core)) && (matched ==> s.policy.AlwaysCreate?)
      requires |outcomes| == i && Booked(1) && tx.Valid()
      requires Plain(tx) ==> Classified(tx, i, core, custom, matchId, matched, stored, rows, terms, seen0)
      modifies this, tx
      ensures Booked(0) && tx.Valid() && OnTrack(tx, stored, rows, terms, i + 1)
      ensures FiledOne(old(outcomes))
      ensures !write ==> tx.table == old(tx.table) && tx.updated == old(tx.updated)
      ensures old(tx.aborted) ==> tx.aborted
      ensures GoesOn(tx.aborted, tx.table, refused, old(tx.aborted), old(tx.table))
      ensures seen == old(seen)
      ensures !tx.aborted ==> RowStores(s, write, core, custom, old(tx.table), tx.table, outcomes[i].action)
      ensures s.entity.Company? && !tx.aborted ==>
                && outcomes[i].action == Create
                && if write then InsertsRow(core, old(tx.table), tx.table) else tx.table == old(tx.table)
    {
      hide Tracked, Fits, Expected, AsExpected, Matches, Duplicate, Tally, Report, KeysOf, MergesInto, Overlays;
      if Plain(tx) {
        CreateFits(tx, i, core, custom, matchId, matched, stored, rows, terms, seen0,
                   write && tx.Carried(s, custom) && !Serialises(custom));
      }
      if write {
        ghost var plain, table0, id := Plain(tx), tx.table, tx.nextId;
        var written := tx.ApplyCreate(s, core, custom, refused);
        if !written.Refused? { PresentOverlays(map[], core); assert tx.table[id].fields == map[] + Present(core); }
        if plain && !written.Refused? {
          InsertAddsKey(s, table0, id, tx.now, core, tx.table[id].data);
          RowInserts(stored, rows, i, core, custom, seen0, table0, id, tx.table[id].data, tx.now, matched);
        }
        if !written.WrittenOk? {
          FileTracked(tx, i, out, Error, "insert failed", stored, rows, terms);
          return;
        }
        FileTracked(tx, i, out, Create, "", stored, rows, terms);
      } else {
        FileQuietly(tx, i, out, Create, "", stored, rows, terms, seen0);
      }
    }

    lemma RowInserts(stored: Keys, rows: seq<Facts>, i: nat, core: Fields, custom: Custom, seen0: set<string>,
                     table0: Table, id: nat, data: Data, now: int, matched: bool)
      requires i < |rows| && RowRead(rows[i], core, custom, "") && id !in table0
      requires Tracked(s.policy, stored, rows[..i], seen0, KeysOf(s, table0), true)
      requires (matched <==> Duplicate(stored, rows, i)) && (matched ==> s.policy.AlwaysCreate?)
      ensures Tracked(s.policy, stored, rows[..i + 1], SeenWith(seen0, rows[i].key),
                      KeysOf(s, table0[id := Record(now, Present(core), data)]), true)
    {
      hide Tracked, Duplicate;
      InsertAddsKey(s, table0, id, now, core, data);
      InsertTracks(s.policy, stored, rows, i, seen0, KeysOf(s, table0), id);
    }

    ghost function Here(tx: Tx): Point
      reads this, tx
    {
      Point(tx.table, seen)
    }

    /** What a row that is rejected or skipped is reported as. */
    lemma SettledFits(stored: Keys, rows: seq<Facts>, i: nat, terms: Terms)
      requires i < |rows|
      ensures !rows[i].accepted ==> Fits(Expected(s.policy, stored, rows, i), rows[i], terms, Error)
      ensures rows[i].accepted && Duplicate(stored, rows, i) && s.policy.SkipMatch? ==>
                Fits(Expected(s.policy, stored, rows, i), rows[i], terms, Skip)
    {
      hide Duplicate;
    }

    lemma FoundIsThere(t: Table, core: Fields, matchId: nat)
      ensures OldestMatch(s, t, matchId, core) ==>
                matchId in t && UpdatesOldest(s, core, t, OverlaidFields(t, matchId, core))
    {}

    /** Does what the policy says of a classified row, and files it. */
    method Write(tx: Tx, i: nat, core: Fields, custom: Custom, out: Outcome, matchId: nat, matched: bool,
                 ghost stored: Keys, ghost rows: seq<Facts>, ghost terms: Terms, ghost seen0: set<string>,
                 refused: bool)
      returns (ok: bool)
      requires i < |rows| && out == Outcome(i + 2, Error, "", Label(s, core))
      requires |outcomes| == i && Booked(1) && tx.Valid()
      requires Plain(tx) ==> Classified(tx, i, core, custom, matchId, matched, stored, rows, terms, seen0)
      requires s.entity.Company? && Found(s, tx.table, core) ==> OldestMatch(s, tx.table, matchId, core)
      modifies this, tx
      ensures tx.Valid() && Booked(if ok then 0 else 1) && seen == old(seen)
      ensures ok ==> OnTrack(tx, stored, rows, terms, i + 1) && FiledOne(old(outcomes))
      ensures !ok ==> tx.aborted && outcomes == old(outcomes)
      ensures !write ==> tx.table == old(tx.table) && tx.updated == old(tx.updated)
      ensures old(tx.aborted) ==> tx.aborted
      ensures GoesOn(tx.aborted, tx.table, refused, old(tx.aborted), old(tx.table))
      ensures s.entity.Company? && !tx.aborted && ok ==>
                CompanyWrite(s, write, core, matched, Found(s, old(tx.table), core), old(tx.table), tx.table,
                             outcomes[i].action)
      ensures ok && !tx.aborted && DistinctTargets(s) ==>
                RowStores(s, write, core, custom, old(tx.table), tx.table, outcomes[i].action)
    {
      hide Tracked, AsExpected, Matches, Tally, Report, KeysOf, Held, Fits, Expected, Duplicate, Batch, SeenWith,
           Without, DistinctTargets, Found, OldestMatch, DedupeKey, WithKey, UpdatesOldest, InsertsRow, Inserts, Updates;
      SettledFits(stored, rows, i, terms);
      FoundIsThere(tx.table, core, matchId);
      ok := true;
      if matched && s.policy.SkipMatch? {
        FileQuietly(tx, i, out, Skip, "matched existing record (skip policy)", stored, rows, terms, seen0);
      } else if matched && s.policy.UpdateMatch? {
        ok := SettleUpdate(tx, i, core, custom, out, matchId, stored, rows, terms, seen0, refused);
      } else {
        SettleCreate(tx, i, core, custom, out, matchId, matched, stored, rows, terms, seen0, refused);
      }
    }

    /** Classifies a row that has been read, writes it on a commit, and files its outcome. */
    method Settle(tx: Tx, i: nat, core: Fields, custom: Custom, problem: string, out: Outcome, ghost stored: Keys,
                  ghost rows: seq<Facts>, ghost terms: Terms, lookupRefused: bool, writeRefused: bool)
      returns (ok: bool)
      requires i < |rows| && (DistinctTargets(s) ==> RowRead(rows[i], core, custom, problem))
      requires out == Outcome(i + 2, Error, "", Label(s, core))
      requires |outcomes| == i && Booked(1) && tx.Valid() && OnTrack(tx, stored, rows, terms, i)
      modifies this, tx
      ensures Booked(if ok then 0 else 1) && tx.Valid()
      ensures ok ==> FiledOne(old(outcomes))
      ensures ok ==> OnTrack(tx, stored, rows, terms, i + 1)
      ensures !ok ==> tx.aborted && outcomes == old(outcomes)
      ensures !write ==> tx.table == old(tx.table) && tx.updated == old(tx.updated)
      ensures old(tx.aborted) ==> tx.aborted
      ensures GoesOn(tx.aborted, tx.table, lookupRefused || writeRefused, old(tx.aborted), old(tx.table))
      ensures ok && s.entity.Company? && !tx.aborted ==>
                CompanyStep(s, write, core, problem == "", old(Here(tx)), Here(tx), outcomes[i].action)
      ensures ok && !tx.aborted && DistinctTargets(s) ==>
                if problem == "" then RowStores(s, write, core, custom, old(tx.table), tx.table, outcomes[i].action)
                else tx.table == old(tx.table) && outcomes[i].action == Error && outcomes[i].reason == problem
    {
      hide Tracked, AsExpected, Matches, Tally, Report, KeysOf, Held, Fits, Expected, Duplicate, Batch,
           RowRead, SeenWith, Without, DistinctTargets, CompanyStep, CompanyWrite, Found, OldestMatch, DedupeKey,
           WithKey, RowStores;
      SettledFits(stored, rows, i, terms);
      if Plain(tx) { RowReadSays(rows[i], core, custom, problem); }
      ghost var seen0, keys, plain, p0 := seen, KeysOf(s, tx.table), Plain(tx), Here(tx);
      if problem != "" {
        FileQuietly(tx, i, out, Error, problem, stored, rows, terms, seen0);
        RejectedStep(s, write, core, Here(tx));
        return true;
      }

      var matchId, matched;
      ok, matchId, matched := FindMatch(tx, core, lookupRefused);
      if !ok { return; }
      if plain { MatchedIsDuplicate(s.policy, stored, rows, i, seen0, keys, write); }
      assert Plain(tx) ==> Classified(tx, i, core, custom, matchId, matched, stored, rows, terms, seen0);

      ok := Write(tx, i, core, custom, out, matchId, matched, stored, rows, terms, seen0, writeRefused);
      if ok && s.entity.Company? && !tx.aborted {
        StepOf(s, write, core, p0, Here(tx), outcomes[i].action, matched);
      }
    }

    method ProcessRow(tx: Tx, i: nat, ghost stored: Keys, ghost rows: seq<Facts>, ghost terms: Terms,
                      lookupRefused: bool, writeRefused: bool)
      returns (ok: bool)
      requires i < |records| && rows == AllFacts(s, records) && Indexed()
      requires |outcomes| == i && Booked(0) && tx.Valid() && OnTrack(tx, stored, rows, terms, i)
      modifies this, tx
      ensures ok ==> FiledOne(old(outcomes)) && Booked(0) && tx.Valid() && OnTrack(tx, stored, rows, terms, i + 1)
      ensures !ok ==> tx.aborted && outcomes == old(outcomes)
      ensures !write ==> tx.table == old(tx.table) && tx.updated == old(tx.updated)
      ensures GoesOn(tx.aborted, tx.table, lookupRefused || writeRefused, old(tx.aborted), old(tx.table))
      ensures old(tx.aborted) ==> tx.aborted
      ensures ok && s.entity.Company? && DistinctTargets(s) && !tx.aborted ==>
                Steps(s, write, records[i], old(Here(tx)), Here(tx), outcomes[i].action)
      ensures ok && DistinctTargets(s) && !tx.aborted ==>
                RowLeaves(s, write, records[i], old(tx.table), tx.table, outcomes[i])
    {
      hide Tracked, AsExpected, Tally, Report, RowRead, CompanyStep, FactsOf, CoreOf, Collected, RowStores;
      summary := summary.(total := summary.total + 1);
      var core, custom, problem, out := ReadRow(i, rows);
      if DistinctTargets(s) { RowReadSays(rows[i], core, custom, problem); }
      ok := Settle(tx, i, core, custom, problem, out, stored, rows, terms, lookupRefused, writeRefused);
    }

    /**
     The row loop. `refusals` are the rows whose lookup (`.0`) or write (`.1`) statement the database refuses;
     a failed lookup, or a panic, ends the loop.
     */
    method Process(tx: Tx, refusals: (set<nat>, set<nat>)) returns (ok: bool, ghost trace: seq<Point>)
      requires seen == {} && outcomes == [] && Booked(0)
      requires tx.Valid() && !tx.aborted && tx.updated == []
      requires Indexed()
      modifies this, tx
      ensures ok ==> Booked(0) && |outcomes| == |records|
      ensures !ok ==> tx.aborted
      ensures OnTrack(tx, KeysOf(s, old(tx.table)), AllFacts(s, records), TermsFor(old(tx.table)), |outcomes|)
      ensures !write ==> tx.table == old(tx.table)
      ensures refusals == ({}, {}) && (write && !s.entity.Company? ==> Without(old(tx.table), NullData)) ==>
                ok && !tx.aborted
      ensures ok && s.entity.Company? && DistinctTargets(s) && !tx.aborted ==>
                Traced(s, write, records, outcomes, trace) && trace[0] == Point(old(tx.table), {})
      ensures ok && DistinctTargets(s) && !tx.aborted ==>
                LeftBy(s, write, records, outcomes, trace) && trace[0] == Point(old(tx.table), {})
      ensures ok ==> |trace| == |records| + 1 && trace[|records|] == Here(tx)
    {
      hide Tracked, Fits, Expected, Tally, Report, Steps, Traced, Without, AllFacts, RowLeaves, LeftBy;
      ghost var stored, rows, terms := KeysOf(s, tx.table), AllFacts(s, records), TermsFor(tx.table);
      EmptyTracks(s.policy, stored, rows, write);
      trace := [Here(tx)];
      TraceStarts(s, write, records, Here(tx));
      LeftByNone(s, write, records, Here(tx));
      for i := 0 to |records|
        invariant |outcomes| == i && Booked(0) && tx.Valid() && OnTrack(tx, stored, rows, terms, i)
        invariant !write ==> tx.table == old(tx.table)
        invariant GoesOn(tx.aborted, tx.table, refusals != ({}, {}), false, old(tx.table))
        invariant |trace| == i + 1 && trace[0] == Point(old(tx.table), {}) && trace[i] == Here(tx)
        invariant s.entity.Company? && DistinctTargets(s) && !tx.aborted ==> Traced(s, write, records, outcomes, trace)
        invariant DistinctTargets(s) && !tx.aborted ==> LeftBy(s, write, records, outcomes, trace)
      {
        ghost var filedBefore := outcomes;
        var filed := ProcessRow(tx, i, stored, rows, terms, i in refusals.0, i in refusals.1);
        if !filed { return false, trace; }
        if s.entity.Company? && DistinctTargets(s) && !tx.aborted {
          TraceMore(s, write, records, filedBefore, outcomes, trace, Here(tx));
        }
        if DistinctTargets(s) && !tx.aborted {
          LeftByMore(s, write, records, filedBefore, outcomes, trace, Here(tx));
        }
        trace := trace + [Here(tx)];
      }
      return true, trace;
    }
  }

  // ---- preview and commit ----

  datatype Response = Response(summary: Summary, rows: seq<Outcome>, report: seq<Outcome>)

  ghost function TermsOf(s: Setup, table: Table, write: bool): Terms {
    Terms(write, DistinctCustom(s), Without(table, NotABag))
  }

  /**
   One request: a dry run, or a commit inside one write transaction that ends with the audit row. No response
   means a failed request, and then the table is as before. `updated` lists the records handed to an update.
   */
  method Import(s: Setup, records: seq<Cells>, table: Table, nextId: nat, now: int, write: bool,
                refusals: (set<nat>, set<nat>), auditRefused: bool)
    returns (resp: Option<Response>, table': Table, updated: seq<nat>, ghost trace: seq<Point>)
    requires forall id <- table :: id < nextId
    ensures resp.Some? ==>
              var r := resp.value;
              |r.rows| == |records| && r.summary == Tally(r.rows) && r.report == Report(r.rows)
    ensures resp.Some? && DistinctTargets(s) && !s.entity.Company? ==>
              && AsExpected(s.policy, KeysOf(s, table), AllFacts(s, records), TermsOf(s, table, write), resp.value.rows)
              && forall id <- updated :: id in table'
    ensures resp.Some? && write && DistinctTargets(s) && s.entity.Contact? && !s.policy.AlwaysCreate? ==>
              forall key :: |Holders(KeysOf(s, table'), key)| == Kept(KeysOf(s, table), AllFacts(s, records), true, key)
    ensures resp.None? || !write ==> table' == table
    ensures refusals == ({}, {}) && !auditRefused && (write && !s.entity.Company? ==> Without(table, NullData)) ==>
              resp.Some?
    ensures resp.Some? && DistinctTargets(s) && s.entity.Company? ==>
              Traced(s, write, records, resp.value.rows, trace) && trace[0] == Point(table, {})
    ensures resp.Some? && DistinctTargets(s) ==>
              && LeftBy(s, write, records, resp.value.rows, trace)
              && |trace| == |records| + 1 && trace[0].table == table && trace[|records|].table == table'
  {
    hide Tracked, Fits, Expected, Count, Report, KeysOf, Kept, Traced, LeftBy;
    var engine := new ImportEngine(s, records, write);
    var tx := new Tx(table, nextId, now);
    var ok;
    ok, trace := engine.Process(tx, refusals);
    // The audit row, like the commit itself, is refused by a transaction in which a statement has failed.
    if !ok || tx.aborted || (write && auditRefused) {
      return None, table, tx.updated, trace;
    }
    if DistinctTargets(s) && !s.entity.Company? {
      TrackedCounts(s.policy, KeysOf(s, table), AllFacts(s, records), engine.seen, KeysOf(s, tx.table), write);
    }
    return Some(Response(engine.summary, engine.outcomes, engine.errors)), tx.table, tx.updated, trace;
  }

  /** If rows differ only by having become errors, the summaries agree exactly when no row differs. */
  lemma {:induction false} TalliesAgreeIff(a: seq<Outcome>, b: seq<Outcome>)
    requires |a| == |b| && forall i :: 0 <= i < |a| ==> b[i].action in {a[i].action, Error}
    ensures Count(b, Error) >= Count(a, Error)
    ensures Count(b, Error) == Count(a, Error) <==> forall i :: 0 <= i < |a| ==> b[i].action == a[i].action
    ensures (forall i :: 0 <= i < |a| ==> b[i].action == a[i].action) ==> Tally(b) == Tally(a)
  {
    if a != [] {
      var n := |a| - 1;
      TalliesAgreeIff(a[..n], b[..n]);
      assert forall i :: 0 <= i < n ==> a[..n][i] == a[i] && b[..n][i] == b[i];
    }
  }

  /** The row is written on a commit and cannot be merged, as its cells alone say. */
  ghost predicate Spoiled(s: Setup, rec: Cells, previewed: Action) {
    previewed in {Create, Update} && HasNonFinite(s, rec)
  }

  /** An update of a record whose stored properties are no object can fail too. */
  ghost predicate Unmergeable(s: Setup, table: Table, rec: Cells, previewed: Action) {
    previewed == Update && HasCustom(s, rec) && !Without(table, NotABag)
  }

  /**
   How the commit's action follows from the preview's: another one is an error and has a reason; and, custom targets
   distinct and all stored properties objects, there is another one exactly for a written number that is not finite.
   */
  ghost predicate RowAgrees(s: Setup, table: Table, rec: Cells, previewed: Action, committed: Action) {
    && (committed == previewed
        || (committed == Error && (Spoiled(s, rec, previewed) || Unmergeable(s, table, rec, previewed))))
    && (DistinctCustom(s) && Without(table, NotABag) ==>
          (committed == previewed <==> !Spoiled(s, rec, previewed)))
  }

  lemma FitsBoth(s: Setup, table: Table, rec: Cells, expected: Action, previewed: Action, committed: Action)
    requires Fits(expected, FactsOf(s, rec), TermsOf(s, table, false), previewed)
    requires Fits(expected, FactsOf(s, rec), TermsOf(s, table, true), committed)
    ensures RowAgrees(s, table, rec, previewed, committed)
  {
    hide HasCustom, HasNonFinite, Without, DistinctCustom, BadCustom, CoreProblem, CoreOf, Label;
  }

  /**
   The preview predicts the commit. If both answer, a row's action differs only by an error on a row with custom
   values that cannot be merged. With distinct custom targets and stored properties that are objects, it differs
   exactly on the written rows with a number that is not finite; and the summaries agree exactly if no row differs.
   The commit never updates a record that is not there.
   */
  method PreviewPredictsCommit(s: Setup, records: seq<Cells>, table: Table, nextId: nat, now: int,
                               refusals: (set<nat>, set<nat>), auditRefused: bool)
    returns (preview: Option<Response>, commit: Option<Response>)
    requires (forall id <- table :: id < nextId) && DistinctTargets(s) && !s.entity.Company?
    ensures preview.Some?
    ensures refusals == ({}, {}) && !auditRefused && Without(table, NullData) ==> commit.Some?
    ensures commit.Some? ==>
              && |preview.value.rows| == |commit.value.rows| == |records|
              && (forall i :: 0 <= i < |records| ==>
                    var p, c := preview.value.rows[i], commit.value.rows[i];
                    && p.line == c.line == i + 2 && p.hint == c.hint
                    && RowAgrees(s, table, records[i], p.action, c.action))
              && (preview.value.summary == commit.value.summary <==>
                    forall i :: 0 <= i < |records| ==> commit.value.rows[i].action == preview.value.rows[i].action)
  {
    hide KeysOf, HasCustom, HasNonFinite, Expected, Without, Fits, Kept, Spoiled, Unmergeable, FactsOf, Count, Report;
    var table', updated;
    ghost var trace;
    preview, table', updated, trace := Import(s, records, table, nextId, now, false, ({}, {}), false);
    commit, table', updated, trace := Import(s, records, table, nextId, now, true, refusals, auditRefused);
    if commit.Some? {
      forall i | 0 <= i < |records|
        ensures RowAgrees(s, table, records[i], preview.value.rows[i].action, commit.value.rows[i].action)
        ensures preview.value.rows[i].hint == commit.value.rows[i].hint
      {
        FactsAt(s, records, i);
        FitsBoth(s, table, records[i], Expected(s.policy, KeysOf(s, table), AllFacts(s, records), i),
                 preview.value.rows[i].action, commit.value.rows[i].action);
      }
      TalliesAgreeIff(preview.value.rows, commit.value.rows);
    }
  }
}
