/**
 Preview and commit of company rows. The batch remembers a company by its domain or else its name, the lookup takes
 either, and an update may rename what a later row would have matched; so the two can differ, and for two rows this
 says exactly when.
 */
module CompanyImport {
  import opened Prelude
  import opened PropertyTypes
  import opened ImportLedger
  import opened ImportRows
  import opened CsvImport

  /** Something matches `b` once the record `id` has been overlaid with `a`. */
  ghost predicate FoundAfter(s: Setup, t: Table, id: nat, a: Fields, b: Fields)
    requires id in t
  {
    || (exists other <- t :: other != id && Matches(s, t[other], b))
    || Matches(s, t[id].(fields := t[id].fields + Present(a)), b)
  }

  /**
   What the commit does with row `a` changes what row `b` finds, and `b` is not known by the key of `a` either. `hit`
   is the stored record that `a` matched, if there was one.
   */
  ghost predicate PairDiffers(s: Setup, t: Table, a: Fields, b: Fields, hit: Option<nat>)
    requires hit.Some? ==> hit.value in t
  {
    && !s.policy.AlwaysCreate?
    && DedupeKey(s, a) != DedupeKey(s, b)
    && match hit {
         case None => !Found(s, t, b) && SameName(s, a, b)
         case Some(id) => s.policy.UpdateMatch? && (Found(s, t, b) <==> !FoundAfter(s, t, id, a, b))
       }
  }

  ghost predicate FoldsToNothing(s: Setup) {
    forall x: string :: s.lib.fold(x) == "" <==> x == ""
  }

  lemma FoundInInserted(s: Setup, t: Table, u: Table, a: Fields, b: Fields)
    requires s.entity.Company? && FoldsToNothing(s) && Get(a, "name") != "" && Get(b, "name") != ""
    requires InsertsRow(a, t, u)
    ensures DedupeKey(s, a) == DedupeKey(s, b) ==> Found(s, u, b)
    ensures DedupeKey(s, a) != DedupeKey(s, b) ==> (Found(s, u, b) <==> Found(s, t, b) || SameName(s, a, b))
  {
    hide Matches, DedupeKey, Get, Present;
    var id: nat, now: int :| id !in t && u == t[id := Record(now, Present(a), NoData)];
    CompanyKeys(s, a, b, now);
    assert id in u;
    if Found(s, t, b) {
      var o :| o in t && Matches(s, t[o], b);
      assert o in u && u[o] == t[o];
    }
    if Found(s, u, b) {
      var o :| o in u && Matches(s, u[o], b);
      if o != id { assert o in t && Matches(s, t[o], b); }
    }
  }

  /** An overlaid record takes the row's name, and its domain if it has one, so it matches a row with the same key. */
  lemma OverlaidMatches(s: Setup, r: Record, a: Fields, b: Fields)
    requires s.entity.Company? && FoldsToNothing(s) && Get(a, "name") != "" && Get(b, "name") != ""
    requires DedupeKey(s, a) == DedupeKey(s, b)
    ensures Matches(s, r.(fields := r.fields + Present(a)), b)
  {
    CompanyKeys(s, a, b, 0);
  }

  lemma FoundInOverlaid(s: Setup, t: Table, id: nat, a: Fields, b: Fields)
    requires s.entity.Company? && FoldsToNothing(s) && Get(a, "name") != "" && Get(b, "name") != "" && id in t
    ensures Found(s, OverlaidFields(t, id, a), b) <==> FoundAfter(s, t, id, a, b)
    ensures DedupeKey(s, a) == DedupeKey(s, b) ==> Found(s, OverlaidFields(t, id, a), b)
  {
    hide Matches, DedupeKey, Get, Present;
    var u := OverlaidFields(t, id, a);
    assert id in u;
    if DedupeKey(s, a) == DedupeKey(s, b) { OverlaidMatches(s, t[id], a, b); }
    if o :| o in t && o != id && Matches(s, t[o], b) { assert o in u && u[o] == t[o]; }
    if o :| o in u && Matches(s, u[o], b) {
      if o != id { assert o in t && Matches(s, t[o], b); }
    }
  }

  ghost predicate NamesGiven(s: Setup, a: Fields, b: Fields) {
    s.entity.Company? && FoldsToNothing(s) && Get(a, "name") != "" && Get(b, "name") != ""
  }

  /** The action of a row that is not rejected, given whether it matches. */
  function ActionFor(policy: Policy, matched: bool): Action {
    if !matched || policy.AlwaysCreate? then Create else if policy.SkipMatch? then Skip else Update
  }

  /** What the dry run knows of the second row: a stored match, or the key of the first. */
  ghost predicate Known(s: Setup, records: seq<Cells>, t: Table)
    requires |records| == 2
  {
    var a, b := CoreOf(s, records[0]), CoreOf(s, records[1]);
    Found(s, t, b) || (FactsOf(s, records[0]).accepted && DedupeKey(s, a) == DedupeKey(s, b))
  }

  lemma StepAction(s: Setup, write: bool, core: Fields, p: Point, q: Point, action: Action)
    requires CompanyStep(s, write, core, true, p, q, action) && DedupeKey(s, core) != ""
    requires write && s.policy.UpdateMatch? && DedupeKey(s, core) in p.seen ==> Found(s, p.table, core)
    ensures action == ActionFor(s.policy, Found(s, p.table, core) || DedupeKey(s, core) in p.seen)
  {
    hide Found, DedupeKey, UpdatesOldest, InsertsRow;
  }

  lemma CompanyHasKey(s: Setup, a: Fields)
    requires s.entity.Company? && Get(a, "name") != ""
    ensures DedupeKey(s, a) != ""
  {}

  /** The second row of the commit finds what the pair's condition says. */
  lemma SecondFinds(s: Setup, t: Table, a: Fields, b: Fields, p: Point, q: Point, action: Action)
    returns (hit: Option<nat>)
    requires NamesGiven(s, a, b) && p == Point(t, {})
    requires CompanyStep(s, true, a, true, p, q, action)
    ensures hit.None? <==> !Found(s, t, a)
    ensures hit.Some? ==> OldestMatch(s, t, hit.value, a)
    ensures q.seen == {DedupeKey(s, a)}
    ensures DedupeKey(s, a) == DedupeKey(s, b) && s.policy.UpdateMatch? ==> Found(s, q.table, b)
    ensures DedupeKey(s, a) != DedupeKey(s, b) && !s.policy.AlwaysCreate? ==>
              (PairDiffers(s, t, a, b, hit) <==> (Found(s, q.table, b) <==> !Found(s, t, b)))
  {
    hide Matches, DedupeKey, Get, Present, SameName, InsertsRow, FoundAfter;
    CompanyHasKey(s, a);
    if !Found(s, t, a) {
      hit := None;
      FoundInInserted(s, t, q.table, a, b);
    } else if s.policy.UpdateMatch? {
      var id :| id in t && OldestMatch(s, t, id, a) && q.table == OverlaidFields(t, id, a);
      hit := Some(id);
      FoundInOverlaid(s, t, id, a, b);
    } else {
      var id := OldestExists(s, t, a);
      hit := Some(id);
    }
  }

  lemma {:induction false} OldestOf(s: Setup, t: Table, a: Fields, ids: set<nat>) returns (id: nat)
    requires ids <= t.Keys && ids != {} && forall o <- ids :: Matches(s, t[o], a)
    ensures id in ids && forall o <- ids :: t[id].createdAt <= t[o].createdAt
    decreases ids
  {
    var x :| x in ids;
    id := x;
    if ids != {x} {
      var y := OldestOf(s, t, a, ids - {x});
      id := if t[x].createdAt <= t[y].createdAt then x else y;
    }
    forall o | o in ids ensures t[id].createdAt <= t[o].createdAt {
      assert o == x || o in ids - {x};
    }
  }

  lemma OldestExists(s: Setup, t: Table, a: Fields) returns (id: nat)
    requires Found(s, t, a)
    ensures OldestMatch(s, t, id, a)
  {
    hide Matches;
    var o :| o in t && Matches(s, t[o], a);
    var ids := set x | x in t && Matches(s, t[x], a);
    assert o in ids;
    id := OldestOf(s, t, a, ids);
  }

  /**
   Two company rows, previewed and committed: the first gets the same action, and the second another one exactly if
   both rows are accepted and the commit of the first changes what the second finds.
   */
  method CompanyPair(s: Setup, records: seq<Cells>, table: Table, nextId: nat, now: int)
    returns (preview: Option<Response>, commit: Option<Response>, ghost hit: Option<nat>)
    requires |records| == 2 && s.entity.Company? && DistinctTargets(s) && FoldsToNothing(s)
    requires forall id <- table :: id < nextId
    ensures preview.Some? && commit.Some?
    ensures var p, c := preview.value.rows, commit.value.rows;
            && |p| == |c| == 2 && p[0].action == c[0].action
            && (FactsOf(s, records[0]).accepted ==>
                  && (hit.None? <==> !Found(s, table, CoreOf(s, records[0])))
                  && (hit.Some? ==> OldestMatch(s, table, hit.value, CoreOf(s, records[0]))))
            && (p[1].action != c[1].action <==>
                  && FactsOf(s, records[0]).accepted && FactsOf(s, records[1]).accepted
                  && PairDiffers(s, table, CoreOf(s, records[0]), CoreOf(s, records[1]), hit))
            && (FactsOf(s, records[1]).accepted ==>
                  && p[1].action == ActionFor(s.policy, Known(s, records, table))
                  && c[1].action in {Create, ActionFor(s.policy, true)})
  {
    hide CoreOf, FactsOf, Found, PairDiffers, CompanyStep, DistinctTargets, Tally, Report, KeysOf, AsExpected;
    var table', updated;
    ghost var pt, ct;
    preview, table', updated, pt := Import(s, records, table, nextId, now, false, ({}, {}), false);
    commit, table', updated, ct := Import(s, records, table, nextId, now, true, ({}, {}), false);
    hit := PairLemma(s, records, table, preview.value.rows, commit.value.rows, pt, ct);
  }

  lemma AcceptedHasName(s: Setup, rec: Cells)
    requires s.entity.Company? && FactsOf(s, rec).accepted
    ensures Get(CoreOf(s, rec), "name") != ""
  {
    hide CoreOf, BadCustom;
    assert FirstMissing(["name"], CoreOf(s, rec)).None?;
  }

  lemma PairLemma(s: Setup, records: seq<Cells>, t: Table, p: seq<Outcome>, c: seq<Outcome>, pt: seq<Point>,
                  ct: seq<Point>) returns (hit: Option<nat>)
    requires |records| == 2 && s.entity.Company? && FoldsToNothing(s) && |p| == |c| == 2
    requires Traced(s, false, records, p, pt) && Traced(s, true, records, c, ct)
    requires pt[0] == ct[0] == Point(t, {})
    ensures FactsOf(s, records[0]).accepted ==>
              && (hit.None? <==> !Found(s, t, CoreOf(s, records[0])))
              && (hit.Some? ==> OldestMatch(s, t, hit.value, CoreOf(s, records[0])))
    ensures p[0].action == c[0].action
    ensures p[1].action != c[1].action <==>
              && FactsOf(s, records[0]).accepted && FactsOf(s, records[1]).accepted
              && PairDiffers(s, t, CoreOf(s, records[0]), CoreOf(s, records[1]), hit)
    ensures FactsOf(s, records[1]).accepted ==>
              && p[1].action == ActionFor(s.policy, Known(s, records, t))
              && c[1].action in {Create, ActionFor(s.policy, true)}
  {
    hide CoreOf, FactsOf, Found, PairDiffers, DedupeKey, OldestMatch, Matches, UpdatesOldest, InsertsRow, CompanyStep;
    var a, b := CoreOf(s, records[0]), CoreOf(s, records[1]);
    var accA, accB := FactsOf(s, records[0]).accepted, FactsOf(s, records[1]).accepted;
    assert Steps(s, false, records[0], pt[0], pt[1], p[0].action);
    assert Steps(s, true, records[0], ct[0], ct[1], c[0].action);
    assert Steps(s, false, records[1], pt[1], pt[2], p[1].action);
    assert Steps(s, true, records[1], ct[1], ct[2], c[1].action);
    hit := None;
    if accA { AcceptedHasName(s, records[0]); CompanyHasKey(s, a); }
    if accB { AcceptedHasName(s, records[1]); CompanyHasKey(s, b); }
    DryStep(s, a, accA, pt[0], pt[1], p[0].action);
    if accA {
      StepAction(s, false, a, pt[0], pt[1], p[0].action);
      StepAction(s, true, a, ct[0], ct[1], c[0].action);
      if accB {
        hit := SecondFinds(s, t, a, b, ct[0], ct[1], c[0].action);
        StepAction(s, false, b, pt[1], pt[2], p[1].action);
        StepAction(s, true, b, ct[1], ct[2], c[1].action);
        DiffersNeeds(s, t, a, b, hit);
      } else {
        RejectedIs(s, b, pt[1], pt[2], p[1].action, ct[1], ct[2], c[1].action);
        hit := HitOf(s, t, a);
      }
    } else {
      RejectedIs(s, a, pt[0], pt[1], p[0].action, ct[0], ct[1], c[0].action);
      if accB {
        StepAction(s, false, b, pt[1], pt[2], p[1].action);
        StepAction(s, true, b, ct[1], ct[2], c[1].action);
      } else {
        RejectedIs(s, b, pt[1], pt[2], p[1].action, ct[1], ct[2], c[1].action);
      }
    }
  }

  lemma HitOf(s: Setup, t: Table, a: Fields) returns (hit: Option<nat>)
    ensures hit.None? <==> !Found(s, t, a)
    ensures hit.Some? ==> OldestMatch(s, t, hit.value, a)
  {
    hit := None;
    if Found(s, t, a) {
      var id := OldestExists(s, t, a);
      hit := Some(id);
    }
  }

  lemma DiffersNeeds(s: Setup, t: Table, a: Fields, b: Fields, hit: Option<nat>)
    requires hit.Some? ==> OldestMatch(s, t, hit.value, a)
    ensures hit.Some? ==> hit.value in t
    ensures PairDiffers(s, t, a, b, hit) ==> DedupeKey(s, a) != DedupeKey(s, b) && !s.policy.AlwaysCreate?
  {}

  lemma DryStep(s: Setup, a: Fields, accepted: bool, p: Point, q: Point, action: Action)
    requires CompanyStep(s, false, a, accepted, p, q, action)
    ensures q.table == p.table && q.seen == if accepted then WithKey(p.seen, DedupeKey(s, a)) else p.seen
  {}

  lemma RejectedIs(s: Setup, a: Fields, p: Point, q: Point, x: Action, p': Point, q': Point, y: Action)
    requires CompanyStep(s, false, a, false, p, q, x) && CompanyStep(s, true, a, false, p', q', y)
    ensures x == y == Error && q == p && q' == p'
  {}

  // ---- two inputs ----

  const PLAIN := Library(x => x, x => x, _ => true, _ => true, _ => true, Parsers(_ => None, _ => None, x => x))

  /** A sheet of names and domains, under the update policy. */
  const SHEET := Setup(Company, UpdateMatch, ["name", "domain"], map["name" := "name", "domain" := "domain"],
                       map[], {}, PLAIN)

  lemma SheetColumns(rec: Cells)
    requires |rec| == 2
    ensures DistinctTargets(SHEET)
    ensures Supplies(SHEET, "name", "name", rec) && Cell(SHEET, "name", rec) == rec[0]
    ensures Supplies(SHEET, "domain", "domain", rec) && Cell(SHEET, "domain", rec) == rec[1]
    ensures forall col <- SHEET.mapping :: SHEET.mapping[col] != "size" && !IsCustom(SHEET, col, rec)
  {
    assert "name" != "domain" by { assert |"name"| != |"domain"|; }
    assert "name" != "size" by { assert "name"[0] != "size"[0]; }
    assert "domain" != "size" by { assert |"size"| != |"domain"|; }
    FirstAtUnique(SHEET.header, "name", 0);
    FirstAtUnique(SHEET.header, "domain", 1);
  }

  lemma SheetRow(name: string, domain: string)
    requires name != ""
    ensures var rec := [name, domain];
            && Get(CoreOf(SHEET, rec), "name") == name && Get(CoreOf(SHEET, rec), "domain") == domain
            && FactsOf(SHEET, rec).accepted
    ensures DistinctTargets(SHEET) && FoldsToNothing(SHEET)
  {
    hide CoreOf, Supplies, Cell, DistinctTargets, FirstAt, IsCustom;
    var rec := [name, domain];
    SheetColumns(rec);
    CoreIs(SHEET, rec, "name", "name");
    CoreIs(SHEET, rec, "domain", "domain");
    CoreLacks(SHEET, rec, "size");
    assert FirstMissing(["name"], CoreOf(SHEET, rec)) == None;
  }

  /** On an empty table: the dry run takes the second row for a new company, the commit for the first one. */
  method PreviewMissesName() returns (preview: Option<Response>, commit: Option<Response>)
    ensures preview.Some? && |preview.value.rows| == 2 && preview.value.rows[1].action == Create
    ensures commit.Some? && |commit.value.rows| == 2 && commit.value.rows[1].action == Update
  {
    hide CoreOf, FactsOf, DistinctTargets;
    SheetRow("Acme", "acme.com");
    SheetRow("Acme", "");
    var records := [["Acme", "acme.com"], ["Acme", ""]];
    ghost var hit;
    preview, commit, hit := CompanyPair(SHEET, records, map[], 0, 0);
  }

  /** A stored company renamed by the first row is one the second row no longer finds, though their names differ. */
  method PreviewMissesRename() returns (preview: Option<Response>, commit: Option<Response>)
    ensures preview.Some? && |preview.value.rows| == 2 && preview.value.rows[1].action == Update
    ensures commit.Some? && |commit.value.rows| == 2 && commit.value.rows[1].action == Create
  {
    hide CoreOf, FactsOf, DistinctTargets;
    SheetRow("Bolt", "acme.com");
    SheetRow("Acme", "");
    var table := map[0 := Record(0, map["name" := "Acme", "domain" := "acme.com"], NoData)];
    var records := [["Bolt", "acme.com"], ["Acme", ""]];
    assert "Bolt" != "Acme" by { assert "Bolt"[0] != "Acme"[0]; }
    assert Matches(SHEET, table[0], CoreOf(SHEET, records[0])) && Matches(SHEET, table[0], CoreOf(SHEET, records[1]));
    ghost var hit;
    preview, commit, hit := CompanyPair(SHEET, records, table, 1, 0);
  }
}
