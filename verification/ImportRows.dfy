/** One row of an import: the mapped cells it reads, how they are checked, and what it would match. */
module ImportRows {
  import opened Prelude
  import opened ImportLedger
  import opened PropertyTypes

  datatype Entity = Contact | Company | Deal

  /** Library calls the engine relies on: trimming, case folding (Go and SQL agree), parsers. */
  datatype Library = Library(
    trim: string -> string, fold: string -> string,
    validEmail: string -> bool, validAmount: string -> bool, validDate: string -> bool,
    parsers: Parsers)

  type Cells = seq<string>
  type Fields = map<string, string>

  datatype Setup = Setup(
    entity: Entity, policy: Policy, header: Cells, mapping: map<string, string>,
    defs: map<string, Def>, stages: set<string>, lib: Library)

  datatype Record = Record(createdAt: int, fields: Fields, data: Data)

  type Table = map<nat, Record>

  function CoreKeys(e: Entity): seq<string> {
    match e
    case Contact => ["first_name", "last_name", "email", "phone"]
    case Company => ["name", "domain", "industry", "size"]
    case Deal => ["title", "amount", "currency", "stage", "expected_close_date"]
  }

  /** The fields a column can be mapped to. */
  lemma TargetsAre(e: Entity, target: string)
    ensures target in CoreKeys(e) <==>
            match e
            case Contact => target == "first_name" || target == "last_name" || target == "email" || target == "phone"
            case Company => target == "name" || target == "domain" || target == "industry" || target == "size"
            case Deal =>
              || target == "title" || target == "amount" || target == "currency" || target == "stage"
              || target == "expected_close_date"
  {}

  function RequiredKeys(e: Entity): seq<string> {
    match e
    case Contact => ["first_name", "last_name"]
    case Company => ["name"]
    case Deal => ["title"]
  }

  // An absent key reads as the empty string.
  function Get(core: Fields, key: string): string {
    if key in core then core[key] else ""
  }

  // ---- columns ----

  /** The position of the first header cell equal to `h`. */
  function FirstAt(header: Cells, h: string): (i: nat)
    requires h in header
    ensures i < |header| && header[i] == h && forall j :: 0 <= j < i ==> header[j] != h
  {
    if header[0] == h then 0 else FirstAt(header[1..], h) + 1
  }

  lemma FirstAtUnique(header: Cells, h: string, i: nat)
    requires i < |header| && header[i] == h && forall j :: 0 <= j < i ==> header[j] != h
    ensures FirstAt(header, h) == i
  {}

  method IndexColumns(header: Cells) returns (index: map<string, nat>)
    ensures index == map h | h in header :: FirstAt(header, h)
  {
    index := map[];
    for i := 0 to |header|
      invariant forall h :: h in index <==> h in header[..i]
      invariant forall h <- index :: h in header && index[h] == FirstAt(header, h)
    {
      if header[i] !in index {
        FirstAtUnique(header, header[i], i);
        index := index[header[i] := i];
      }
    }
    assert header[..|header|] == header;
  }

  // Column `col` exists and this (possibly short) record has a cell for it.
  predicate Readable(s: Setup, col: string, rec: Cells) {
    col in s.header && FirstAt(s.header, col) < |rec|
  }

  function Cell(s: Setup, col: string, rec: Cells): string
    requires Readable(s, col, rec)
  {
    s.lib.trim(rec[FirstAt(s.header, col)])
  }

  // ---- core fields of a row ----

  predicate Supplies(s: Setup, col: string, target: string, rec: Cells) {
    col in s.mapping && s.mapping[col] == target && target in CoreKeys(s.entity) && Readable(s, col, rec)
  }

  /** No two columns are mapped to the same core field. */
  predicate DistinctTargets(s: Setup) {
    forall a <- s.mapping, b <- s.mapping ::
      a != b && s.mapping[a] in CoreKeys(s.entity) ==> s.mapping[a] != s.mapping[b]
  }

  ghost predicate Supplied(s: Setup, target: string, rec: Cells) {
    exists col <- s.mapping :: Supplies(s, col, target, rec)
  }

  ghost function Source(s: Setup, target: string, rec: Cells): (col: string)
    requires Supplied(s, target, rec)
    ensures Supplies(s, col, target, rec)
  {
    var col :| col in s.mapping && Supplies(s, col, target, rec);
    col
  }

  ghost function CoreOf(s: Setup, rec: Cells): Fields {
    map t | t in CoreKeys(s.entity) && Supplied(s, t, rec) :: Cell(s, Source(s, t, rec), rec)
  }

  lemma CoreIs(s: Setup, rec: Cells, col: string, target: string)
    requires DistinctTargets(s) && Supplies(s, col, target, rec)
    ensures target in CoreOf(s, rec) && CoreOf(s, rec)[target] == Cell(s, col, rec)
  {
    hide Readable, Cell;
    assert Supplied(s, target, rec);
  }

  lemma CoreLacks(s: Setup, rec: Cells, target: string)
    requires forall col <- s.mapping :: s.mapping[col] != target
    ensures target !in CoreOf(s, rec)
  {
    hide Readable, Cell;
  }

  /** `core` holds what the columns in `done` supply, and nothing else. */
  ghost predicate Gathered(s: Setup, done: set<string>, rec: Cells, core: Fields) {
    && (forall t <- core :: exists col <- done :: Supplies(s, col, t, rec))
    && (DistinctTargets(s) ==> forall col <- done :: FieldStored(s, col, rec, core))
  }

  predicate FieldStored(s: Setup, col: string, rec: Cells, core: Fields) {
    col in s.mapping && Supplies(s, col, s.mapping[col], rec) ==>
      s.mapping[col] in core && core[s.mapping[col]] == Cell(s, col, rec)
  }

  lemma GatherSupplied(s: Setup, done: set<string>, rec: Cells, core: Fields, col: string)
    requires Gathered(s, done, rec, core) && done <= s.mapping.Keys
    requires col !in done && col in s.mapping && Supplies(s, col, s.mapping[col], rec)
    ensures Gathered(s, done + {col}, rec, core[s.mapping[col] := Cell(s, col, rec)])
  {
    var core' := core[s.mapping[col] := Cell(s, col, rec)];
    forall t | t in core' ensures exists c <- done + {col} :: Supplies(s, c, t, rec) {
      if t == s.mapping[col] {
        assert Supplies(s, col, t, rec);
      } else {
        var c :| c in done && Supplies(s, c, t, rec);
        assert c in done + {col};
      }
    }
  }

  lemma GatherOther(s: Setup, done: set<string>, rec: Cells, core: Fields, col: string)
    requires Gathered(s, done, rec, core) && done <= s.mapping.Keys
    requires col in s.mapping && !Supplies(s, col, s.mapping[col], rec)
    ensures Gathered(s, done + {col}, rec, core)
  {
    forall t | t in core ensures exists c <- done + {col} :: Supplies(s, c, t, rec) {
      var c :| c in done && Supplies(s, c, t, rec);
      assert c in done + {col};
    }
  }

  /** With distinct targets, what a visit of the whole mapping gathers does not depend on its order. */
  lemma GatheredAll(s: Setup, rec: Cells, core: Fields)
    requires DistinctTargets(s) && Gathered(s, s.mapping.Keys, rec, core)
    ensures core == CoreOf(s, rec)
  {
    forall t | t in core ensures t in CoreKeys(s.entity) && Supplied(s, t, rec) {
      var col :| col in s.mapping.Keys && Supplies(s, col, t, rec);
    }
    forall t | t in CoreKeys(s.entity) && Supplied(s, t, rec)
      ensures t in core && core[t] == CoreOf(s, rec)[t]
    {
      assert FieldStored(s, Source(s, t, rec), rec, core);
    }
  }

  // ---- custom properties of a row ----

  const CUSTOM_PREFIX := "cf_"

  predicate IsCustom(s: Setup, col: string, rec: Cells) {
    && col in s.mapping && CUSTOM_PREFIX <= s.mapping[col] && s.mapping[col][|CUSTOM_PREFIX|..] in s.defs
    && Readable(s, col, rec) && Cell(s, col, rec) != ""
  }

  /** The property a custom target names. */
  function PropKey(target: string): string
    requires CUSTOM_PREFIX <= target
  {
    target[|CUSTOM_PREFIX|..]
  }

  lemma PropKeysDiffer(a: string, b: string)
    requires CUSTOM_PREFIX <= a && CUSTOM_PREFIX <= b && a != b
    ensures PropKey(a) != PropKey(b)
  {
    assert a == CUSTOM_PREFIX + PropKey(a) && b == CUSTOM_PREFIX + PropKey(b);
  }

  function CoercedAt(s: Setup, col: string, rec: Cells): Option<Coerced>
    requires IsCustom(s, col, rec)
  {
    CoerceCell(s.lib.parsers, s.defs[PropKey(s.mapping[col])], Cell(s, col, rec))
  }

  ghost predicate BadCustom(s: Setup, rec: Cells) {
    exists col <- s.mapping :: IsCustom(s, col, rec) && CoercedAt(s, col, rec).None?
  }

  ghost predicate HasCustom(s: Setup, rec: Cells) {
    exists col <- s.mapping :: IsCustom(s, col, rec)
  }

  /** A cell under a number property reads as `NaN` or an infinity. */
  ghost predicate HasNonFinite(s: Setup, rec: Cells) {
    exists col <- s.mapping :: IsCustom(s, col, rec) && CoercedAt(s, col, rec) == Some(NonFinite)
  }

  /** No two columns are mapped to the same custom property. */
  predicate DistinctCustom(s: Setup) {
    forall a <- s.mapping, b <- s.mapping ::
      a != b && CUSTOM_PREFIX <= s.mapping[a] ==> s.mapping[a] != s.mapping[b]
  }

  predicate Carries(s: Setup, col: string, rec: Cells, key: string, v: Coerced) {
    IsCustom(s, col, rec) && PropKey(s.mapping[col]) == key && CoercedAt(s, col, rec) == Some(v)
  }

  /** Every value comes from a column in `done`. */
  ghost predicate Sourced(s: Setup, done: set<string>, rec: Cells, custom: Custom) {
    forall key <- custom :: exists col <- done :: Carries(s, col, rec, key, custom[key])
  }

  /** The column has a value in `custom`, its own if targets are distinct. */
  predicate ValueKept(s: Setup, col: string, rec: Cells, custom: Custom) {
    col in s.mapping && IsCustom(s, col, rec) ==>
      var key := PropKey(s.mapping[col]);
      key in custom && (DistinctCustom(s) ==> Carries(s, col, rec, key, custom[key]))
  }

  ghost predicate Collected(s: Setup, done: set<string>, rec: Cells, custom: Custom) {
    Sourced(s, done, rec, custom) && forall col <- done :: ValueKept(s, col, rec, custom)
  }

  lemma NothingCollected(s: Setup, rec: Cells)
    ensures Collected(s, {}, rec, map[])
  {}

  lemma ValueKeptBesides(s: Setup, rec: Cells, custom: Custom, c: string, col: string, v: Coerced)
    requires c != col && ValueKept(s, c, rec, custom) && col in s.mapping && IsCustom(s, col, rec)
    ensures ValueKept(s, c, rec, custom[PropKey(s.mapping[col]) := v])
  {
    hide CoercedAt, Readable, Cell;
    if c in s.mapping && IsCustom(s, c, rec) && DistinctCustom(s) {
      PropKeysDiffer(s.mapping[c], s.mapping[col]);
    }
  }

  lemma SourcedToo(s: Setup, done: set<string>, rec: Cells, custom: Custom, col: string, key: string, v: Coerced)
    requires Sourced(s, done, rec, custom) && Carries(s, col, rec, key, v)
    ensures Sourced(s, done + {col}, rec, custom[key := v])
  {
    hide Carries;
    var more, both := custom[key := v], done + {col};
    assert col in both;
    forall k | k in more ensures exists c <- both :: Carries(s, c, rec, k, more[k]) {
      if k != key {
        var c :| c in done && Carries(s, c, rec, k, custom[k]);
        assert c in both;
      }
    }
  }

  lemma CollectOne(s: Setup, done: set<string>, rec: Cells, custom: Custom, col: string, v: Coerced)
    requires Collected(s, done, rec, custom) && col !in done && col in s.mapping
    requires IsCustom(s, col, rec) && CoercedAt(s, col, rec) == Some(v)
    ensures Collected(s, done + {col}, rec, custom[PropKey(s.mapping[col]) := v])
  {
    hide CoercedAt, Readable, Cell, Sourced, PropKey;
    SourcedToo(s, done, rec, custom, col, PropKey(s.mapping[col]), v);
    forall c | c in done ensures ValueKept(s, c, rec, custom[PropKey(s.mapping[col]) := v]) {
      ValueKeptBesides(s, rec, custom, c, col, v);
    }
  }

  lemma CollectNone(s: Setup, done: set<string>, rec: Cells, custom: Custom, col: string)
    requires Collected(s, done, rec, custom) && done <= s.mapping.Keys
    requires col in s.mapping && !IsCustom(s, col, rec)
    ensures Collected(s, done + {col}, rec, custom)
  {
    hide Carries, IsCustom;
    forall k | k in custom ensures exists c <- done + {col} :: Carries(s, c, rec, k, custom[k]) {
      var c :| c in done && Carries(s, c, rec, k, custom[k]);
      assert c in done + {col};
    }
  }

  /** Whether a visit of the whole mapping collects anything, and whether that can be serialised. */
  lemma CollectedAll(s: Setup, rec: Cells, custom: Custom)
    requires Collected(s, s.mapping.Keys, rec, custom)
    ensures custom != map[] <==> HasCustom(s, rec)
    ensures !Serialises(custom) ==> HasNonFinite(s, rec)
    ensures DistinctCustom(s) && HasNonFinite(s, rec) ==> !Serialises(custom)
  {
    hide CoercedAt, IsCustom;
    if custom != map[] {
      var key :| key in custom;
      var col :| col in s.mapping.Keys && Carries(s, col, rec, key, custom[key]);
    }
    if !Serialises(custom) {
      var key :| key in custom && !custom[key].Plain?;
      var col :| col in s.mapping.Keys && Carries(s, col, rec, key, custom[key]);
    }
    if HasNonFinite(s, rec) {
      var col :| col in s.mapping && IsCustom(s, col, rec) && CoercedAt(s, col, rec) == Some(NonFinite);
      assert col in s.mapping.Keys;
    }
  }

  // ---- validation and dedup keys ----

  /** The reason a row's core fields are rejected; empty when they are accepted. */
  function CoreProblem(s: Setup, core: Fields): string {
    var missing := FirstMissing(RequiredKeys(s.entity), core);
    if missing.Some? then missing.value + " is required"
    else
      match s.entity
      case Contact =>
        if Get(core, "email") != "" && !s.lib.validEmail(core["email"]) then "invalid email" else ""
      case Company =>
        if Get(core, "size") != "" && core["size"] !in {"1-10", "11-50", "51-200", "201-1000", "1000+"}
        then "invalid size" else ""
      case Deal =>
        if Get(core, "amount") != "" && !s.lib.validAmount(core["amount"]) then "amount is not a number"
        else if Get(core, "currency") != "" && |core["currency"]| != 3 then "currency must be a 3-letter ISO code"
        else if Get(core, "expected_close_date") != "" && !s.lib.validDate(core["expected_close_date"])
        then "expected_close_date must be YYYY-MM-DD"
        else if Get(core, "stage") != "" && s.lib.fold(core["stage"]) !in s.stages then "unknown stage"
        else ""
  }

  /** A row's core fields are accepted exactly when these hold. */
  ghost predicate Acceptable(s: Setup, core: Fields) {
    match s.entity
    case Contact =>
      && Get(core, "first_name") != "" && Get(core, "last_name") != ""
      && (Get(core, "email") == "" || s.lib.validEmail(Get(core, "email")))
    case Company =>
      && Get(core, "name") != ""
      && var size := Get(core, "size");
         size == "" || size == "1-10" || size == "11-50" || size == "51-200" || size == "201-1000" || size == "1000+"
    case Deal =>
      && Get(core, "title") != ""
      && (Get(core, "amount") == "" || s.lib.validAmount(Get(core, "amount")))
      && |Get(core, "currency")| in {0, 3}
      && (Get(core, "expected_close_date") == "" || s.lib.validDate(Get(core, "expected_close_date")))
      && (Get(core, "stage") == "" || s.lib.fold(Get(core, "stage")) in s.stages)
  }

  lemma AcceptedIff(s: Setup, core: Fields)
    ensures CoreProblem(s, core) == "" <==> Acceptable(s, core)
  {
    FirstMissingIn(s.entity, core);
  }

  lemma FirstMissingIn(e: Entity, core: Fields)
    ensures FirstMissing(RequiredKeys(e), core).None? <==>
            match e
            case Contact => Get(core, "first_name") != "" && Get(core, "last_name") != ""
            case Company => Get(core, "name") != ""
            case Deal => Get(core, "title") != ""
  {
    hide Get;
    var keys := RequiredKeys(e);
    assert FirstMissing(keys, core).None? <==> forall k <- keys :: Get(core, k) != "" by { NoneMissing(keys, core); }
  }

  lemma {:induction false} NoneMissing(keys: seq<string>, core: Fields)
    ensures FirstMissing(keys, core).None? <==> forall k <- keys :: Get(core, k) != ""
  {
    if keys != [] { NoneMissing(keys[1..], core); }
  }

  function FirstMissing(keys: seq<string>, core: Fields): Option<string> {
    if keys == [] then None
    else if Get(core, keys[0]) == "" then Some(keys[0])
    else FirstMissing(keys[1..], core)
  }

  function DedupeKey(s: Setup, core: Fields): string {
    match s.entity
    case Contact => if Get(core, "email") != "" then "email:" + s.lib.fold(core["email"]) else ""
    case Company =>
      if Get(core, "domain") != "" then "domain:" + s.lib.fold(core["domain"])
      else if Get(core, "name") != "" then "name:" + s.lib.fold(core["name"])
      else ""
    case Deal => ""
  }

  function Label(s: Setup, core: Fields): string {
    match s.entity
    case Contact =>
      var name := s.lib.trim(Get(core, "first_name") + " " + Get(core, "last_name"));
      if name != "" then name else Get(core, "email")
    case Company => Get(core, "name")
    case Deal => Get(core, "title")
  }

  /** The email a stored contact is matched by; other entities are not matched through this key. */
  function KeyOf(s: Setup, r: Record): Option<string> {
    if s.entity.Contact? && "email" in r.fields then Some(s.lib.fold(r.fields["email"])) else None
  }

  function KeysOf(s: Setup, t: Table): Keys {
    map id | id in t :: KeyOf(s, t[id])
  }

  /** The stored record is one the row would be deduplicated against. */
  predicate Matches(s: Setup, r: Record, core: Fields) {
    match s.entity
    case Contact => Get(core, "email") != "" && KeyOf(s, r) == Some(s.lib.fold(core["email"]))
    case Company =>
      || ("domain" in r.fields && r.fields["domain"] != ""
          && s.lib.fold(r.fields["domain"]) == s.lib.fold(Get(core, "domain")))
      || s.lib.fold(Get(r.fields, "name")) == s.lib.fold(Get(core, "name"))
    case Deal => false
  }

  /** Contacts match by folded email, companies by folded domain, if the record has one, or by folded name. */
  lemma MatchesIff(s: Setup, r: Record, core: Fields)
    ensures Matches(s, r, core) <==>
            var same := (key: string) => s.lib.fold(Get(r.fields, key)) == s.lib.fold(Get(core, key));
            || (s.entity == Contact && Get(core, "email") != "" && "email" in r.fields && same("email"))
            || (s.entity == Company && ((Get(r.fields, "domain") != "" && same("domain")) || same("name")))
  {}

  /** The non-empty values, which are what an insert stores and an update overlays. */
  function Present(core: Fields): Fields {
    map k | k in core && core[k] != "" :: core[k]
  }

  /** The fields a row leaves: its own non-empty ones, and for the others what was there. */
  ghost predicate Overlays(before: Fields, core: Fields, after: Fields) {
    forall k: string ::
      && (k in after <==> k in before || Get(core, k) != "")
      && Get(after, k) == if Get(core, k) != "" then Get(core, k) else Get(before, k)
  }

  /** The bag that custom values leave: themselves, and under the other keys what was there. */
  ghost predicate MergesInto(before: Data, custom: Custom, after: Data) {
    && (before.NoData? || before.Stored?) && after.Stored?
    && var bag := if before.Stored? then before.bag else map[];
       && after.bag.Keys == bag.Keys + custom.Keys
       && forall k <- after.bag :: if k in custom then custom[k] == Plain(after.bag[k]) else after.bag[k] == bag[k]
  }

  /** Only the record `id` may have changed or come to be. */
  ghost predicate OthersStay(t: Table, u: Table, id: nat) {
    u.Keys == t.Keys + {id} && forall other <- t :: other != id ==> u[other] == t[other]
  }

  lemma PresentOverlays(before: Fields, core: Fields)
    ensures Overlays(before, core, before + Present(core))
  {}

  lemma MergedInto(before: Data, custom: Custom)
    requires MergeCustomProps(before, custom).Merged? && custom != map[]
    ensures MergesInto(before, custom, Stored(MergeCustomProps(before, custom).bag))
  {}

  // ---- what a record holds of a row, cell by cell ----

  /** Every mapped cell that is not empty is in its field; the other fields are what they were. */
  ghost predicate CellsHeld(s: Setup, rec: Cells, before: Fields, after: Fields) {
    && (forall col <- s.mapping :: Supplies(s, col, s.mapping[col], rec) && Cell(s, col, rec) != "" ==>
          Get(after, s.mapping[col]) == Cell(s, col, rec))
    && forall k: string :: EmptyFor(s, rec, k) ==> Get(after, k) == Get(before, k)
  }

  ghost predicate EmptyFor(s: Setup, rec: Cells, k: string) {
    forall col <- s.mapping :: Supplies(s, col, k, rec) ==> Cell(s, col, rec) == ""
  }

  function BagOf(data: Data): Bag {
    if data.Stored? then data.bag else map[]
  }

  /** Every custom cell is under its property, coerced; the other properties are what they were. */
  ghost predicate PropsHeld(s: Setup, rec: Cells, before: Data, after: Data) {
    && (DistinctCustom(s) ==> forall col <- s.mapping :: IsCustom(s, col, rec) ==>
          && PropKey(s.mapping[col]) in BagOf(after)
          && CoercedAt(s, col, rec) == Some(Plain(BagOf(after)[PropKey(s.mapping[col])])))
    && forall key: string :: UnnamedBy(s, rec, key) ==>
         && (key in BagOf(after) <==> key in BagOf(before))
         && (key in BagOf(before) ==> BagOf(after)[key] == BagOf(before)[key])
  }

  ghost predicate UnnamedBy(s: Setup, rec: Cells, key: string) {
    forall col <- s.mapping :: IsCustom(s, col, rec) ==> PropKey(s.mapping[col]) != key
  }

  lemma FieldsFromCells(s: Setup, rec: Cells, before: Fields, after: Fields)
    requires DistinctTargets(s) && Overlays(before, CoreOf(s, rec), after)
    ensures CellsHeld(s, rec, before, after)
  {
    hide CoreOf, Readable, Cell, DistinctTargets, CoreKeys;
    forall col | col in s.mapping && Supplies(s, col, s.mapping[col], rec) && Cell(s, col, rec) != ""
      ensures Get(after, s.mapping[col]) == Cell(s, col, rec)
    {
      CoreIs(s, rec, col, s.mapping[col]);
    }
    forall k: string | EmptyFor(s, rec, k) ensures Get(after, k) == Get(before, k) {
      CoreEmpty(s, rec, k);
    }
  }

  lemma CoreEmpty(s: Setup, rec: Cells, k: string)
    requires EmptyFor(s, rec, k)
    ensures Get(CoreOf(s, rec), k) == ""
  {
    hide Cell, Readable;
  }

  lemma PropsFromCells(s: Setup, rec: Cells, custom: Custom, before: Data, after: Data)
    requires Collected(s, s.mapping.Keys, rec, custom)
    requires if custom == map[] then after == before else MergesInto(before, custom, after)
    ensures PropsHeld(s, rec, before, after)
  {
    hide CoercedAt, Readable, Cell, DistinctCustom;
    forall col | col in s.mapping && IsCustom(s, col, rec) && DistinctCustom(s)
      ensures PropKey(s.mapping[col]) in BagOf(after)
      ensures CoercedAt(s, col, rec) == Some(Plain(BagOf(after)[PropKey(s.mapping[col])]))
    {
      assert ValueKept(s, col, rec, custom);
    }
    forall key: string | UnnamedBy(s, rec, key) ensures key !in custom {}
  }

  /** Inserting a row adds a holder of its key. */
  lemma InsertAddsKey(s: Setup, t: Table, id: nat, now: int, core: Fields, data: Data)
    ensures KeysOf(s, t[id := Record(now, Present(core), data)]) ==
            KeysOf(s, t)[id := if s.entity.Contact? && Get(core, "email") != "" then Some(s.lib.fold(core["email"])) else None]
  {}

  /** Overlaying a contact with a row that matched it keeps every key where it was. */
  lemma OverlayKeepsKeys(s: Setup, t: Table, id: nat, core: Fields, data: Data)
    requires s.entity.Contact? && id in t && Matches(s, t[id], core)
    ensures KeysOf(s, t[id := t[id].(fields := t[id].fields + Present(core), data := data)]) == KeysOf(s, t)
  {}

  lemma HeldMeansMatch(s: Setup, t: Table, core: Fields)
    requires s.entity.Contact? && Get(core, "email") != ""
    ensures Held(KeysOf(s, t), s.lib.fold(core["email"])) <==> exists id <- t :: Matches(s, t[id], core)
  {
    var key := s.lib.fold(core["email"]);
    forall id | id in t ensures Matches(s, t[id], core) <==> id in Holders(KeysOf(s, t), key) {}
    if Held(KeysOf(s, t), key) {
      var id :| id in Holders(KeysOf(s, t), key);
      assert Matches(s, t[id], core);
    }
  }

  // ---- companies, where the batch key and the lookup part ways ----

  /** The batch key of a company is its domain or else its name; the lookup takes either. */
  lemma CompanyKeys(s: Setup, a: Fields, b: Fields, now: int)
    requires s.entity.Company? && Get(a, "name") != "" && Get(b, "name") != ""
    requires forall x: string :: s.lib.fold(x) == "" <==> x == ""
    ensures var da, db := s.lib.fold(Get(a, "domain")), s.lib.fold(Get(b, "domain"));
            var na, nb := s.lib.fold(Get(a, "name")), s.lib.fold(Get(b, "name"));
            && (DedupeKey(s, a) == DedupeKey(s, b) <==> da == db && (da == "" ==> na == nb))
            && (Matches(s, Record(now, Present(a), NoData), b) <==> (da != "" && da == db) || na == nb)
  {
    var da, db := s.lib.fold(Get(a, "domain")), s.lib.fold(Get(b, "domain"));
    var na, nb := s.lib.fold(Get(a, "name")), s.lib.fold(Get(b, "name"));
    SameTail("domain:", da, db);
    SameTail("name:", na, nb);
    assert ("domain:" + da)[0] == 'd' && ("domain:" + db)[0] == 'd';
    assert ("name:" + na)[0] == 'n' && ("name:" + nb)[0] == 'n';
  }

  /**
   "The earlier row's key was seen" and "the record the earlier row inserts matches" agree exactly when the names
   differ or the domains are the same, missing domains included.
   */
  lemma CompanyKeyAgreesIff(s: Setup, a: Fields, b: Fields, now: int)
    requires s.entity.Company? && Get(a, "name") != "" && Get(b, "name") != ""
    requires forall x: string :: s.lib.fold(x) == "" <==> x == ""
    ensures (DedupeKey(s, a) == DedupeKey(s, b) <==> Matches(s, Record(now, Present(a), NoData), b))
            <==> !SameName(s, a, b) || s.lib.fold(Get(a, "domain")) == s.lib.fold(Get(b, "domain"))
  {
    hide DedupeKey, Matches, Get, Present;
    CompanyKeys(s, a, b, now);
  }

  predicate SameName(s: Setup, a: Fields, b: Fields) {
    s.lib.fold(Get(a, "name")) == s.lib.fold(Get(b, "name"))
  }

  /** What the batch needs to know of a row; the key is the folded email of an accepted contact row. */
  ghost function FactsOf(s: Setup, rec: Cells): Facts {
    var core := CoreOf(s, rec);
    var accepted := !BadCustom(s, rec) && CoreProblem(s, core) == "";
    Facts(accepted,
          if accepted && s.entity.Contact? && Get(core, "email") != "" then Some(s.lib.fold(core["email"])) else None,
          Label(s, core), HasCustom(s, rec), HasNonFinite(s, rec))
  }

  ghost function AllFacts(s: Setup, records: seq<Cells>): (f: seq<Facts>)
    ensures |f| == |records|
  {
    if records == [] then [] else AllFacts(s, records[..|records| - 1]) + [FactsOf(s, records[|records| - 1])]
  }

  lemma {:induction false} FactsAt(s: Setup, records: seq<Cells>, i: nat)
    requires i < |records|
    ensures AllFacts(s, records)[i] == FactsOf(s, records[i])
  {
    if i < |records| - 1 {
      FactsAt(s, records[..|records| - 1], i);
    }
  }
}
