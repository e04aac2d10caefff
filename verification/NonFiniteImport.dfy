/** One contact with the cell `NaN` under a number property: what the dry run says of it and what the commit does. */
module NonFiniteImport {
  import opened Prelude
  import opened PropertyTypes
  import opened ImportLedger
  import opened ImportRows
  import opened CsvImport

  const FLOATS := Parsers(t => if t == "NaN" then Some(NotFinite) else None, _ => None, x => x)

  const SHEET := Setup(
    Contact, UpdateMatch, ["f", "l", "e", "s"],
    map["f" := "first_name", "l" := "last_name", "e" := "email", "s" := "cf_score"],
    map["score" := Def(NumberType, [], false)], {},
    Library(x => x, x => x, _ => true, _ => true, _ => true, FLOATS))

  const EMAIL := "ada@example.com"
  const ROW := ["Ada", "Lovelace", EMAIL, "NaN"]

  lemma Columns()
    ensures FirstAt(SHEET.header, "f") == 0 && FirstAt(SHEET.header, "l") == 1
    ensures FirstAt(SHEET.header, "e") == 2 && FirstAt(SHEET.header, "s") == 3
  {
    FirstAtUnique(SHEET.header, "f", 0);
    FirstAtUnique(SHEET.header, "l", 1);
    FirstAtUnique(SHEET.header, "e", 2);
    FirstAtUnique(SHEET.header, "s", 3);
  }

  /** The four targets differ, and one of them is custom. */
  lemma Names()
    ensures "first_name" != "last_name" && "first_name" != "email" && "last_name" != "email"
    ensures "cf_score" != "first_name" && "cf_score" != "last_name" && "cf_score" != "email"
    ensures CUSTOM_PREFIX <= "cf_score" && PropKey("cf_score") == "score"
    ensures !(CUSTOM_PREFIX <= "first_name") && !(CUSTOM_PREFIX <= "last_name") && !(CUSTOM_PREFIX <= "email")
  {
    assert "first_name"[0] != "last_name"[0] && "first_name"[0] != "email"[0] && "last_name"[0] != "email"[0];
    assert "cf_score"[0] !in {"first_name"[0], "last_name"[0], "email"[0]};
    assert CUSTOM_PREFIX[0] == 'c';
  }

  /** Which column a target comes from. */
  function Column(target: string): string {
    match target
    case "first_name" => "f"
    case "last_name" => "l"
    case "email" => "e"
    case _ => "s"
  }

  lemma ColumnOfTarget()
    ensures forall col <- SHEET.mapping :: Column(SHEET.mapping[col]) == col
  {
    Names();
  }

  lemma Targets()
    ensures DistinctTargets(SHEET) && DistinctCustom(SHEET)
  {
    hide Column, CoreKeys;
    ColumnOfTarget();
    var m := SHEET.mapping;
    forall a, b | a in m && b in m && a != b ensures m[a] != m[b] {
      assert Column(m[a]) != Column(m[b]);
    }
  }

  lemma Core()
    ensures var core := CoreOf(SHEET, ROW);
            Get(core, "first_name") == "Ada" && Get(core, "last_name") == "Lovelace"
            && Get(core, "email") == EMAIL
  {
    hide FirstAt, CoreOf, DistinctTargets;
    Columns();
    Targets();
    CoreIs(SHEET, ROW, "f", "first_name");
    CoreIs(SHEET, ROW, "l", "last_name");
    CoreIs(SHEET, ROW, "e", "email");
  }

  lemma Score()
    ensures HasNonFinite(SHEET, ROW) && !BadCustom(SHEET, ROW)
  {
    ScoreCell();
    hide IsCustom, CoercedAt;
    forall col | col in SHEET.mapping && IsCustom(SHEET, col, ROW) ensures CoercedAt(SHEET, col, ROW).Some? {}
  }

  lemma ScoreCell()
    ensures IsCustom(SHEET, "s", ROW) && CoercedAt(SHEET, "s", ROW) == Some(NonFinite)
    ensures !IsCustom(SHEET, "f", ROW) && !IsCustom(SHEET, "l", ROW) && !IsCustom(SHEET, "e", ROW)
  {
    hide FirstAt;
    Columns();
    Names();
  }

  lemma RowFacts()
    ensures var f := FactsOf(SHEET, ROW);
            f.accepted && f.key == Some(EMAIL) && f.nonFinite
  {
    hide CoreOf, BadCustom, HasNonFinite, HasCustom;
    Core();
    Score();
    assert FirstMissing(["last_name"], CoreOf(SHEET, ROW)) == None;
  }

  /** The dry run says create; the commit answers, reports an error, and the contact is in the table. */
  method StoredThoughReported() returns (preview: Option<Response>, commit: Option<Response>, table: Table)
    ensures preview.Some? && |preview.value.rows| == 1 && preview.value.rows[0].action == Create
    ensures commit.Some? && |commit.value.rows| == 1 && commit.value.rows[0].action == Error
    ensures |Holders(KeysOf(SHEET, table), EMAIL)| == 1
  {
    hide *;
    EmptyTable();
    SheetRows();
    Targets();
    var updated;
    ghost var trace;
    preview, table, updated, trace := Import(SHEET, [ROW], map[], 0, 0, false, ({}, {}), false);
    ActionIs(preview.value.rows, false);
    commit, table, updated, trace := Import(SHEET, [ROW], map[], 0, 0, true, ({}, {}), false);
    ActionIs(commit.value.rows, true);
  }

  lemma EmptyTable()
    ensures forall key: string :: !Held(KeysOf(SHEET, map[]), key)
    ensures Without(map[], NullData) && Without(map[], NotABag)
  {}

  /** A lone accepted row with a new key is created, and brings one holder of it. */
  lemma LoneRow(stored: Keys, rows: seq<Facts>, key: string)
    requires |rows| == 1 && rows[0].accepted && rows[0].key == Some(key) && !Held(stored, key)
    ensures Expected(UpdateMatch, stored, rows, 0) == Create && Kept(stored, rows, true, key) == 1
  {
    assert rows[..0] == [];
    assert rows[..|rows| - 1] == [] && key in Batch(rows);
  }

  lemma SheetRows()
    ensures SHEET.policy == UpdateMatch && SHEET.entity == Contact
    ensures Kept(KeysOf(SHEET, map[]), AllFacts(SHEET, [ROW]), true, EMAIL) == 1
    ensures Expected(UpdateMatch, KeysOf(SHEET, map[]), AllFacts(SHEET, [ROW]), 0) == Create
    ensures AllFacts(SHEET, [ROW])[0].nonFinite
  {
    hide KeysOf, FactsOf, Held, AllFacts, Expected, Kept;
    RowFacts();
    FactsAt(SHEET, [ROW], 0);
    EmptyTable();
    LoneRow(KeysOf(SHEET, map[]), AllFacts(SHEET, [ROW]), EMAIL);
  }

  lemma ActionIs(outcomes: seq<Outcome>, write: bool)
    requires |outcomes| == 1
    requires AsExpected(SHEET.policy, KeysOf(SHEET, map[]), AllFacts(SHEET, [ROW]), TermsOf(SHEET, map[], write), outcomes)
    ensures outcomes[0].action == if write then Error else Create
  {
    hide KeysOf, AllFacts, Expected, DistinctCustom;
    SheetRows();
    Targets();
  }
}
