/**
 The custom-property engine: definitions, the bags stored under them, and one cache of definitions shared by the
 stores of all workspaces. What the cache speeds up and what the strict check protects stay in step.
 */
module Metadata {
  import opened Prelude
  import opened PropertyTypes

  const CACHE_TTL := 300
  const CACHE_MAX_SIZE := 50

  datatype DefRow = DefRow(id: nat, def: Def)

  /** One workspace schema. Definitions are unique by (parent type, key). */
  datatype Schema = Schema(defs: map<(string, string), DefRow>, bags: map<(string, nat), Bag>)

  type Schemas = map<string, Schema>

  datatype Entry = Entry(defs: map<string, Def>, fetchedAt: int)

  /** The definitions of one parent type, by key. */
  function DefsOf(s: Schema, parentType: string): (defs: map<string, Def>)
    ensures forall key: string :: key in defs <==> (parentType, key) in s.defs
    ensures forall key <- defs :: defs[key] == s.defs[(parentType, key)].def
  {
    map pk <- s.defs | pk.0 == parentType :: pk.1 := s.defs[pk].def
  }

  function CacheKey(schema: string, parentType: string): string {
    schema + ":" + parentType
  }

  /** Workspace schema names hold no separator, so a cache key belongs to one schema and one parent type. */
  lemma CacheKeyInjective(s1: string, p1: string, s2: string, p2: string)
    requires ':' !in s1 && ':' !in s2
    requires CacheKey(s1, p1) == CacheKey(s2, p2)
    ensures s1 == s2 && p1 == p2
  {
    var k := CacheKey(s1, p1);
    assert forall i :: 0 <= i < |s1| ==> k[i] == s1[i] != ':';
    assert forall i :: 0 <= i < |s2| ==> k[i] == s2[i] != ':';
    assert k[|s1|] == ':' && k[|s2|] == ':';
    assert k[..|s1|] == s1 && k[..|s2|] == s2;
    assert k[|s1| + 1..] == p1 && k[|s2| + 1..] == p2;
  }

  // ---- the invariants ----

  /** Every cached entry, expired or not, holds the current definitions of its schema and parent type. */
  ghost predicate CacheFresh(schemas: Schemas, entries: map<string, Entry>) {
    forall name <- schemas, parentType: string ::
      CacheKey(name, parentType) in entries ==>
        entries[CacheKey(name, parentType)].defs == DefsOf(schemas[name], parentType)
  }

  ghost predicate BagsConform(s: Schema) {
    forall who <- s.bags :: Conforms(s.bags[who], DefsOf(s, who.0))
  }

  ghost predicate Sound(schemas: Schemas, entries: map<string, Entry>) {
    && (forall name <- schemas :: ':' !in name && BagsConform(schemas[name]))
    && CacheFresh(schemas, entries)
  }

  // ---- what the three writes do to a schema ----

  function WithDef(s: Schema, parentType: string, key: string, row: DefRow): Schema {
    s.(defs := s.defs[(parentType, key) := row])
  }

  /** Deleting a definition strips its key from every bag of its parent type. */
  function WithoutDef(s: Schema, parentType: string, key: string): Schema {
    Schema(s.defs - {(parentType, key)},
           map who <- s.bags :: if who.0 == parentType then s.bags[who] - {key} else s.bags[who])
  }

  function WithBag(s: Schema, parentType: string, parentId: nat, bag: Bag): Schema {
    s.(bags := s.bags[(parentType, parentId) := bag])
  }

  /** Defining a key changes that definition and nothing else. */
  ghost predicate OnlyDefined(s: Schema, s': Schema, parentType: string, key: string, row: DefRow) {
    && s'.bags == s.bags
    && (parentType, key) in s'.defs && s'.defs[(parentType, key)] == row
    && OtherDefsStay(s, s', parentType, key)
  }

  ghost predicate OtherDefsStay(s: Schema, s': Schema, parentType: string, key: string) {
    forall pk: (string, string) :: pk != (parentType, key) ==>
      && (pk in s'.defs <==> pk in s.defs)
      && (pk in s.defs ==> s'.defs[pk] == s.defs[pk])
  }

  /** Undefining a key takes it out of the bags of its parent type, and changes nothing else. */
  ghost predicate OnlyUndefined(s: Schema, s': Schema, parentType: string, key: string) {
    && (parentType, key) !in s'.defs
    && OtherDefsStay(s, s', parentType, key)
    && s'.bags.Keys == s.bags.Keys
    && (forall who <- s.bags :: who.0 != parentType ==> s'.bags[who] == s.bags[who])
    && (forall who <- s.bags :: who.0 == parentType ==>
          && s'.bags[who].Keys == s.bags[who].Keys - {key}
          && forall k <- s'.bags[who] :: s'.bags[who][k] == s.bags[who][k])
  }

  /** Replacing a bag changes that bag and nothing else. */
  ghost predicate OnlyReplaced(s: Schema, s': Schema, parentType: string, parentId: nat, bag: Bag) {
    && s'.defs == s.defs
    && (parentType, parentId) in s'.bags && s'.bags[(parentType, parentId)] == bag
    && forall who: (string, nat) :: who != (parentType, parentId) ==>
         && (who in s'.bags <==> who in s.bags)
         && (who in s.bags ==> s'.bags[who] == s.bags[who])
  }

  lemma WithDefIs(s: Schema, parentType: string, key: string, row: DefRow)
    ensures OnlyDefined(s, WithDef(s, parentType, key, row), parentType, key, row)
  {}

  lemma WithoutDefIs(s: Schema, parentType: string, key: string)
    ensures OnlyUndefined(s, WithoutDef(s, parentType, key), parentType, key)
  {}

  lemma WithBagIs(s: Schema, parentType: string, parentId: nat, bag: Bag)
    ensures OnlyReplaced(s, WithBag(s, parentType, parentId, bag), parentType, parentId, bag)
  {}

  lemma WithBagDefs(s: Schema, parentType: string, parentId: nat, bag: Bag, other: string)
    ensures DefsOf(WithBag(s, parentType, parentId, bag), other) == DefsOf(s, other)
  {}

  ghost predicate OthersStay(before: Schemas, after: Schemas, schema: string) {
    after.Keys == before.Keys && forall name <- before :: name != schema ==> after[name] == before[name]
  }

  lemma DefsOfWithDef(s: Schema, parentType: string, key: string, row: DefRow, other: string)
    ensures DefsOf(WithDef(s, parentType, key, row), other) ==
            if other == parentType then DefsOf(s, other)[key := row.def] else DefsOf(s, other)
  {
    hide DefsOf;
  }

  lemma DefsOfWithoutDef(s: Schema, parentType: string, key: string, other: string)
    ensures DefsOf(WithoutDef(s, parentType, key), other) ==
            if other == parentType then DefsOf(s, other) - {key} else DefsOf(s, other)
  {}

  lemma NewDefKeepsBags(s: Schema, parentType: string, key: string, row: DefRow)
    requires BagsConform(s) && (parentType, key) !in s.defs
    ensures BagsConform(WithDef(s, parentType, key, row))
  {
    var s' := WithDef(s, parentType, key, row);
    forall who | who in s'.bags ensures Conforms(s'.bags[who], DefsOf(s', who.0)) {
      DefsOfWithDef(s, parentType, key, row, who.0);
      assert Conforms(s.bags[who], DefsOf(s, who.0));
      if who.0 == parentType { assert key !in DefsOf(s, who.0); }
    }
  }

  lemma DroppedDefKeepsBags(s: Schema, parentType: string, key: string)
    requires BagsConform(s)
    ensures BagsConform(WithoutDef(s, parentType, key))
  {
    var s' := WithoutDef(s, parentType, key);
    forall who | who in s'.bags ensures Conforms(s'.bags[who], DefsOf(s', who.0)) {
      DefsOfWithoutDef(s, parentType, key, who.0);
      assert Conforms(s.bags[who], DefsOf(s, who.0));
    }
  }

  /** A key that is deleted and defined again, with whatever type, finds no bag holding an old value. */
  lemma RedefinedKeyStartsEmpty(s: Schema, parentType: string, key: string, row: DefRow)
    requires BagsConform(s)
    ensures var s' := WithDef(WithoutDef(s, parentType, key), parentType, key, row);
            BagsConform(s') && forall who <- s'.bags :: who.0 == parentType ==> key !in s'.bags[who]
  {
    DroppedDefKeepsBags(s, parentType, key);
    NewDefKeepsBags(WithoutDef(s, parentType, key), parentType, key, row);
  }

  lemma SetKeepsBags(s: Schema, parentType: string, parentId: nat, bag: Bag)
    requires BagsConform(s) && Conforms(bag, DefsOf(s, parentType))
    ensures BagsConform(WithBag(s, parentType, parentId, bag))
  {
    var s' := WithBag(s, parentType, parentId, bag);
    forall who | who in s'.bags ensures Conforms(s'.bags[who], DefsOf(s', who.0)) {
      assert DefsOf(s', who.0) == DefsOf(s, who.0);
    }
  }

  // ---- the cache ----

  class DefCache {
    var entries: map<string, Entry>

    constructor ()
      ensures entries == map[]
    {
      entries := map[];
    }

    method Get(key: string, now: int) returns (hit: Option<map<string, Def>>)
      ensures hit == if key in entries && now - entries[key].fetchedAt <= 300 then Some(entries[key].defs) else None
    {
      if key !in entries || now - entries[key].fetchedAt > CACHE_TTL { return None; }
      return Some(entries[key].defs);
    }

    /** A full cache first loses one of its oldest entries. */
    method Put(key: string, defs: map<string, Def>, now: int)
      modifies this
      ensures |old(entries)| < 50 ==> entries == old(entries)[key := Entry(defs, now)]
      ensures |old(entries)| >= 50 && "" !in old(entries) ==>
                exists victim <- old(entries) ::
                  && (forall k <- old(entries) :: old(entries)[victim].fetchedAt <= old(entries)[k].fetchedAt)
                  && entries == (old(entries) - {victim})[key := Entry(defs, now)]
      ensures key in entries && entries[key] == Entry(defs, now)
      ensures forall k <- entries :: k != key ==> k in old(entries) && entries[k] == old(entries)[k]
      ensures |old(entries)| <= 50 && "" !in old(entries) ==> |entries| <= 50
    {
      if |entries| >= CACHE_MAX_SIZE {
        var oldest, oldestTime := "", 0;
        var rest := entries.Keys;
        while rest != {}
          invariant rest <= entries.Keys
          invariant entries == old(entries)
          invariant oldest != "" ==> oldest in entries.Keys - rest && oldestTime == entries[oldest].fetchedAt
          invariant oldest != "" && "" !in entries ==> forall k <- entries.Keys - rest :: oldestTime <= entries[k].fetchedAt
          invariant oldest == "" && "" !in entries ==> rest == entries.Keys
          decreases rest
        {
          var k :| k in rest;
          if oldest == "" || entries[k].fetchedAt < oldestTime {
            oldest, oldestTime := k, entries[k].fetchedAt;
          }
          rest := rest - {k};
        }
        if oldest != "" {
          ghost var before := entries;
          entries := entries - {oldest};
          assert entries.Keys == before.Keys - {oldest};
        }
      }
      entries := entries[key := Entry(defs, now)];
    }

    method Invalidate(key: string)
      modifies this
      ensures entries == old(entries) - {key}
    {
      entries := entries - {key};
    }
  }

  // ---- the store ----

  /** The database of all workspaces and its clock. */
  class Database {
    var schemas: Schemas
    var now: int
    var nextId: nat

    constructor (schemas: Schemas, now: int, nextId: nat)
      ensures this.schemas == schemas && this.now == now && this.nextId == nextId
    {
      this.schemas, this.now, this.nextId := schemas, now, nextId;
    }
  }

  datatype Error = Invalid | DbError

  class Store {
    const schema: string
    const db: Database
    const cache: DefCache

    constructor (schema: string, db: Database, cache: DefCache)
      ensures this.schema == schema && this.db == db && this.cache == cache
    {
      this.schema, this.db, this.cache := schema, db, cache;
    }

    ghost predicate Valid()
      reads this, db, cache
    {
      schema in db.schemas && Sound(db.schemas, cache.entries)
    }

    /** From the cache or the database; in either case the current definitions. `refused`: the query fails. */
    method LoadDefs(parentType: string, refused: bool) returns (r: Result<map<string, Def>, Error>)
      requires Valid()
      modifies cache
      ensures Valid()
      ensures r.Ok? ==> r.value == DefsOf(db.schemas[schema], parentType)
      ensures r.Ok? ==>
                var defs := db.schemas[schema].defs;
                && (forall key: string :: key in r.value <==> (parentType, key) in defs)
                && (forall key <- r.value :: r.value[key] == defs[(parentType, key)].def)
      ensures !refused ==> r.Ok?
      ensures r.Ok? ==>
                && CacheKey(schema, parentType) in cache.entries
                && db.now - cache.entries[CacheKey(schema, parentType)].fetchedAt <= 300
    {
      var key := CacheKey(schema, parentType);
      var hit := cache.Get(key, db.now);
      if hit.Some? { return Ok(hit.value); }
      if refused { return Err(DbError); }
      var defs := DefsOf(db.schemas[schema], parentType);
      cache.Put(key, defs, db.now);
      forall name, pt: string | name in db.schemas && CacheKey(name, pt) in cache.entries
        ensures cache.entries[CacheKey(name, pt)].defs == DefsOf(db.schemas[name], pt)
      {
        if CacheKey(name, pt) == key { CacheKeyInjective(name, pt, schema, parentType); }
      }
      return Ok(defs);
    }

    method ValidateStrict(parentType: string, bag: Bag, refused: bool) returns (r: Result<(), Error>)
      requires Valid()
      modifies cache
      ensures Valid()
      ensures r.Ok? ==> Accepts(parentType, bag)
      ensures !refused ==> r == if Accepts(parentType, bag) then Ok(()) else Err(Invalid)
    {
      hide ValidValue, DefsOf;
      var loaded := LoadDefs(parentType, refused);
      if loaded.Err? { return Err(loaded.error); }
      var defs := loaded.value;
      var required := defs.Keys;
      while required != {}
        invariant required <= defs.Keys
        invariant forall key <- defs.Keys - required :: defs[key].required ==> key in bag
        decreases required
      {
        var key :| key in required;
        if defs[key].required && key !in bag { return Err(Invalid); }
        required := required - {key};
      }
      var rest := bag.Keys;
      while rest != {}
        invariant rest <= bag.Keys
        invariant forall key <- bag.Keys - rest :: key in defs && ValidValue(bag[key], defs[key])
        modifies {}
        decreases rest
      {
        var key :| key in rest;
        if key !in defs { return Err(Invalid); }
        var ok := CheckValue(bag[key], defs[key]);
        if !ok { return Err(Invalid); }
        rest := rest - {key};
      }
      return Ok(());
    }

    /** The bag passes the strict check against the definitions as they are now. */
    ghost predicate Accepts(parentType: string, bag: Bag)
      requires schema in db.schemas
      reads this, db
    {
      var defs := db.schemas[schema].defs;
      && (forall key <- bag :: (parentType, key) in defs && ValidValue(bag[key], defs[(parentType, key)].def))
      && (forall key: string :: (parentType, key) in defs && defs[(parentType, key)].def.required ==> key in bag)
    }

    lemma AcceptedConforms(parentType: string, bag: Bag)
      requires schema in db.schemas && Accepts(parentType, bag)
      ensures Conforms(bag, DefsOf(db.schemas[schema], parentType))
    {
      hide ValidValue;
    }

    method CreateDefinition(parentType: string, key: string, def: Def, refused: bool) returns (r: Result<nat, Error>)
      requires Valid()
      modifies db`schemas, db`nextId, cache
      ensures Valid()
      ensures r.Ok? ==>
                && (parentType, key) !in old(db.schemas[schema]).defs
                && db.schemas == old(db.schemas)[schema := WithDef(old(db.schemas[schema]), parentType, key, DefRow(r.value, def))]
                && OnlyDefined(old(db.schemas[schema]), db.schemas[schema], parentType, key, DefRow(r.value, def))
                && OthersStay(old(db.schemas), db.schemas, schema)
                && r.value == old(db.nextId) < db.nextId
      ensures r.Err? ==> db.schemas == old(db.schemas) && cache.entries == old(cache.entries)
      ensures r == Err(Invalid) <==>
                parentType !in {"contact", "deal"} || key == "" || (def.propType.EnumType? && def.allowed == [])
      ensures r == Err(DbError) ==> refused || (parentType, key) in old(db.schemas[schema]).defs
    {
      hide WithDef, OnlyDefined, BagsConform;
      if parentType !in {"contact", "deal"} { return Err(Invalid); }
      if key == "" { return Err(Invalid); }
      if def.propType.EnumType? && def.allowed == [] { return Err(Invalid); }
      var s := db.schemas[schema];
      if refused || (parentType, key) in s.defs { return Err(DbError); }
      var id := db.nextId;
      db.nextId := id + 1;
      ghost var entries := cache.entries;
      NewDefKeepsBags(s, parentType, key, DefRow(id, def));
      WithDefIs(s, parentType, key, DefRow(id, def));
      db.schemas := db.schemas[schema := WithDef(s, parentType, key, DefRow(id, def))];
      cache.Invalidate(CacheKey(schema, parentType));
      forall pt: string | pt != parentType ensures DefsOf(db.schemas[schema], pt) == DefsOf(s, pt) {
        DefsOfWithDef(s, parentType, key, DefRow(id, def), pt);
      }
      InvalidatedFresh(old(db.schemas), db.schemas, entries, parentType);
      return Ok(id);
    }

    /** After one schema's definitions of one parent type changed and that entry was dropped, the rest is still current. */
    lemma InvalidatedFresh(before: Schemas, after: Schemas, entries: map<string, Entry>, parentType: string)
      requires CacheFresh(before, entries) && schema in before
      requires forall name <- before :: ':' !in name
      requires after.Keys == before.Keys && forall name <- before :: name != schema ==> after[name] == before[name]
      requires forall pt: string :: pt != parentType ==> DefsOf(after[schema], pt) == DefsOf(before[schema], pt)
      ensures CacheFresh(after, entries - {CacheKey(schema, parentType)})
    {
      var kept := entries - {CacheKey(schema, parentType)};
      forall name, pt: string | name in after && CacheKey(name, pt) in kept
        ensures kept[CacheKey(name, pt)].defs == DefsOf(after[name], pt)
      {
        assert CacheKey(name, pt) in entries && entries[CacheKey(name, pt)].defs == DefsOf(before[name], pt);
      }
    }

    /** One transaction: drop the definition, strip its key, record the audit row; the cache entry goes after the commit. */
    method DeleteDefinition(id: nat, refused: bool) returns (r: Result<(), Error>)
      requires Valid()
      modifies db`schemas, cache
      ensures Valid()
      ensures r.Ok? ==>
                exists pk <- old(db.schemas[schema]).defs ::
                  && old(db.schemas[schema]).defs[pk].id == id
                  && db.schemas == old(db.schemas)[schema := WithoutDef(old(db.schemas[schema]), pk.0, pk.1)]
                  && OnlyUndefined(old(db.schemas[schema]), db.schemas[schema], pk.0, pk.1)
                  && OthersStay(old(db.schemas), db.schemas, schema)
      ensures r.Err? ==> db.schemas == old(db.schemas) && cache.entries == old(cache.entries)
      ensures r.Err? ==> refused || forall pk <- db.schemas[schema].defs :: db.schemas[schema].defs[pk].id != id
    {
      hide WithoutDef, OnlyUndefined, BagsConform;
      var s := db.schemas[schema];
      if refused || forall pk <- s.defs :: s.defs[pk].id != id { return Err(DbError); }
      var pk :| pk in s.defs && s.defs[pk].id == id;
      ghost var entries := cache.entries;
      DroppedDefKeepsBags(s, pk.0, pk.1);
      WithoutDefIs(s, pk.0, pk.1);
      db.schemas := db.schemas[schema := WithoutDef(s, pk.0, pk.1)];
      cache.Invalidate(CacheKey(schema, pk.0));
      forall pt: string | pt != pk.0 ensures DefsOf(db.schemas[schema], pt) == DefsOf(s, pt) {
        DefsOfWithoutDef(s, pk.0, pk.1, pt);
      }
      InvalidatedFresh(old(db.schemas), db.schemas, entries, pk.0);
      return Ok(());
    }

    /** Bags are not cached. */
    lemma BagKeepsFresh(before: Schemas, parentType: string, parentId: nat, bag: Bag)
      requires schema in before && CacheFresh(before, cache.entries)
      ensures CacheFresh(before[schema := WithBag(before[schema], parentType, parentId, bag)], cache.entries)
    {
      hide WithBag;
      var after := before[schema := WithBag(before[schema], parentType, parentId, bag)];
      forall name, pt: string | name in after && CacheKey(name, pt) in cache.entries
        ensures cache.entries[CacheKey(name, pt)].defs == DefsOf(after[name], pt)
      {
        WithBagDefs(before[schema], parentType, parentId, bag, pt);
      }
    }

    /** Replaces the whole bag of one record, after the strict check. */
    method Set(parentType: string, parentId: nat, bag: Bag, loadRefused: bool, writeRefused: bool)
      returns (r: Result<(), Error>)
      requires Valid()
      modifies db`schemas, cache
      ensures Valid()
      ensures r.Ok? ==>
                && old(Accepts(parentType, bag))
                && db.schemas == old(db.schemas)[schema := WithBag(old(db.schemas[schema]), parentType, parentId, bag)]
                && OnlyReplaced(old(db.schemas[schema]), db.schemas[schema], parentType, parentId, bag)
                && OthersStay(old(db.schemas), db.schemas, schema)
      ensures r.Err? ==> db.schemas == old(db.schemas)
      ensures !loadRefused && !writeRefused ==> (r.Ok? <==> old(Accepts(parentType, bag)))
    {
      hide WithBag, OnlyReplaced, BagsConform, Conforms, Accepts, CacheFresh;
      var checked := ValidateStrict(parentType, bag, loadRefused);
      if checked.Err? { return Err(checked.error); }
      if writeRefused { return Err(DbError); }
      var s := db.schemas[schema];
      AcceptedConforms(parentType, bag);
      SetKeepsBags(s, parentType, parentId, bag);
      WithBagIs(s, parentType, parentId, bag);
      db.schemas := db.schemas[schema := WithBag(s, parentType, parentId, bag)];
      BagKeepsFresh(old(db.schemas), parentType, parentId, bag);
      return Ok(());
    }

    method Get(parentType: string, parentId: nat) returns (bag: Bag)
      requires Valid()
      ensures bag == if (parentType, parentId) in db.schemas[schema].bags then db.schemas[schema].bags[(parentType, parentId)] else map[]
      ensures Conforms(bag, DefsOf(db.schemas[schema], parentType))
    {
      var bags := db.schemas[schema].bags;
      if (parentType, parentId) !in bags { return map[]; }
      return bags[(parentType, parentId)];
    }

    method GetMany(parentType: string, ids: seq<nat>) returns (out: map<nat, Bag>)
      requires schema in db.schemas
      ensures out == map id | id in ids && (parentType, id) in db.schemas[schema].bags :: db.schemas[schema].bags[(parentType, id)]
    {
      var bags := db.schemas[schema].bags;
      out := map[];
      for i := 0 to |ids|
        invariant out == map id | id in ids[..i] && (parentType, id) in bags :: bags[(parentType, id)]
      {
        if (parentType, ids[i]) in bags {
          out := out[ids[i] := bags[(parentType, ids[i])]];
        }
        assert ids[..i + 1] == ids[..i] + [ids[i]];
      }
      assert ids[..|ids|] == ids;
    }
  }

  // ---- every run ----

  datatype Op =
    | Wait(seconds: nat)
    | Create(schema: string, parentType: string, key: string, def: Def, refused: bool)
    | Delete(schema: string, id: nat, refused: bool)
    | Write(schema: string, parentType: string, parentId: nat, bag: Bag, loadRefused: bool, writeRefused: bool)

  /** What one operation can do to the schemas: nothing, or its one change to the schema it names. */
  ghost predicate Changes(before: Schemas, op: Op, after: Schemas) {
    || after == before
    || (&& !op.Wait? && op.schema in before && OthersStay(before, after, op.schema)
        && var s, s' := before[op.schema], after[op.schema];
           match op
           case Wait(_) => false
           case Create(_, parentType, key, def, _) =>
             exists row: DefRow :: row.def == def && OnlyDefined(s, s', parentType, key, row)
           case Delete(_, _, _) => exists parentType, key :: OnlyUndefined(s, s', parentType, key)
           case Write(_, parentType, parentId, bag, _, _) => OnlyReplaced(s, s', parentType, parentId, bag))
  }

  /** One of the operations wrote this value under this key of this bag. */
  ghost predicate Wrote(ops: seq<Op>, name: string, who: (string, nat), key: string, v: Json) {
    exists op <- ops ::
      op.Write? && op.schema == name && (op.parentType, op.parentId) == who && key in op.bag && op.bag[key] == v
  }

  ghost predicate Made(ops: seq<Op>, name: string, pk: (string, string), def: Def) {
    exists op <- ops :: op.Create? && op.schema == name && (op.parentType, op.key) == pk && op.def == def
  }

  /** Every value of a bag was there before or written to it, every definition there or created; no bag is lost. */
  ghost predicate ComesFrom(before: Schema, ops: seq<Op>, name: string, after: Schema) {
    && before.bags.Keys <= after.bags.Keys
    && (forall who <- after.bags, key: string | key in after.bags[who] ::
          || (who in before.bags && key in before.bags[who] && before.bags[who][key] == after.bags[who][key])
          || Wrote(ops, name, who, key, after.bags[who][key]))
    && (forall pk <- after.defs ::
          (pk in before.defs && before.defs[pk] == after.defs[pk]) || Made(ops, name, pk, after.defs[pk].def))
  }

  ghost predicate AllComeFrom(before: Schemas, ops: seq<Op>, after: Schemas) {
    after.Keys == before.Keys && forall name <- after :: ComesFrom(before[name], ops, name, after[name])
  }

  lemma StillWrote(ops: seq<Op>, op: Op, name: string, who: (string, nat), key: string, v: Json)
    requires Wrote(ops, name, who, key, v)
    ensures Wrote(ops + [op], name, who, key, v)
  {
    var o :| o in ops && o.Write? && o.schema == name && (o.parentType, o.parentId) == who
             && key in o.bag && o.bag[key] == v;
    assert o in ops + [op];
  }

  lemma StillMade(ops: seq<Op>, op: Op, name: string, pk: (string, string), def: Def)
    requires Made(ops, name, pk, def)
    ensures Made(ops + [op], name, pk, def)
  {
    var o :| o in ops && o.Create? && o.schema == name && (o.parentType, o.key) == pk && o.def == def;
    assert o in ops + [op];
  }

  lemma ComesFromStill(before: Schema, ops: seq<Op>, op: Op, name: string, s: Schema)
    requires ComesFrom(before, ops, name, s)
    ensures ComesFrom(before, ops + [op], name, s)
  {
    hide Wrote, Made;
    forall who, key: string | who in s.bags && key in s.bags[who] && Wrote(ops, name, who, key, s.bags[who][key]) {
      StillWrote(ops, op, name, who, key, s.bags[who][key]);
    }
    forall pk | pk in s.defs && Made(ops, name, pk, s.defs[pk].def) { StillMade(ops, op, name, pk, s.defs[pk].def); }
  }

  lemma ComesFromMore(before: Schemas, ops: seq<Op>, mid: Schemas, op: Op, after: Schemas)
    requires AllComeFrom(before, ops, mid) && Changes(mid, op, after)
    ensures AllComeFrom(before, ops + [op], after)
  {
    hide ComesFrom, OnlyDefined, OnlyUndefined, OnlyReplaced;
    forall name | name in after ensures ComesFrom(before[name], ops + [op], name, after[name]) {
      ComesFromStill(before[name], ops, op, name, mid[name]);
      if after[name] != mid[name] {
        var s, s' := mid[name], after[name];
        match op
        case Create(_, parentType, key, def, _) =>
          var row: DefRow :| row.def == def && OnlyDefined(s, s', parentType, key, row);
          DefinedComesFrom(before[name], ops, op, s, s', row);
        case Delete(_, _, _) =>
          var parentType, key :| OnlyUndefined(s, s', parentType, key);
          UndefinedComesFrom(before[name], ops + [op], name, s, s', parentType, key);
        case Write(_, _, _, _, _, _) => ReplacedComesFrom(before[name], ops, op, s, s');
      }
    }
  }

  lemma DefinedComesFrom(before: Schema, ops: seq<Op>, op: Op, s: Schema, s': Schema, row: DefRow)
    requires op.Create? && row.def == op.def && ComesFrom(before, ops + [op], op.schema, s)
    requires OnlyDefined(s, s', op.parentType, op.key, row)
    ensures ComesFrom(before, ops + [op], op.schema, s')
  {
    hide Wrote;
    assert op in ops + [op] && Made(ops + [op], op.schema, (op.parentType, op.key), op.def);
    hide Made;
  }

  lemma UndefinedComesFrom(before: Schema, ops: seq<Op>, name: string, s: Schema, s': Schema, parentType: string,
                           key: string)
    requires ComesFrom(before, ops, name, s) && OnlyUndefined(s, s', parentType, key)
    ensures ComesFrom(before, ops, name, s')
  {
    hide Wrote, Made;
  }

  lemma ReplacedComesFrom(before: Schema, ops: seq<Op>, op: Op, s: Schema, s': Schema)
    requires op.Write? && ComesFrom(before, ops + [op], op.schema, s)
    requires OnlyReplaced(s, s', op.parentType, op.parentId, op.bag)
    ensures ComesFrom(before, ops + [op], op.schema, s')
  {
    hide Made;
    assert op in ops + [op];
    forall key | key in op.bag ensures Wrote(ops + [op], op.schema, (op.parentType, op.parentId), key, op.bag[key]) {}
    hide Wrote;
  }

  function Waited(ops: seq<Op>): nat {
    if ops == [] then 0
    else Waited(ops[..|ops| - 1]) + if ops[|ops| - 1].Wait? then ops[|ops| - 1].seconds else 0
  }

  /** One operation of a run, on the store of the schema it names. */
  method Do(db: Database, cache: DefCache, op: Op)
    requires Sound(db.schemas, cache.entries)
    modifies db, cache
    ensures Sound(db.schemas, cache.entries)
    ensures Changes(old(db.schemas), op, db.schemas)
    ensures db.now == old(db.now) + if op.Wait? then op.seconds else 0
  {
    hide Sound, OnlyDefined, OnlyUndefined, OnlyReplaced, OthersStay;
    match op {
      case Wait(seconds) => db.now := db.now + seconds;
      case Create(schema, parentType, key, def, refused) =>
        if schema in db.schemas {
          var store := new Store(schema, db, cache);
          var made := store.CreateDefinition(parentType, key, def, refused);
          assert made.Ok? ==> DefRow(made.value, def).def == def;
        }
      case Delete(schema, id, refused) =>
        if schema in db.schemas {
          var store := new Store(schema, db, cache);
          var _ := store.DeleteDefinition(id, refused);
        }
      case Write(schema, parentType, parentId, bag, loadRefused, writeRefused) =>
        if schema in db.schemas {
          var store := new Store(schema, db, cache);
          var _ := store.Set(parentType, parentId, bag, loadRefused, writeRefused);
        }
    }
  }

  /**
   Any sequence of operations, on any workspaces, through one shared cache, keeps cache and bags sound; and what the
   schemas hold at the end was there at the start or put there by an operation that names it.
   */
  method Run(db: Database, cache: DefCache, ops: seq<Op>)
    requires Sound(db.schemas, cache.entries)
    modifies db, cache
    ensures Sound(db.schemas, cache.entries)
    ensures AllComeFrom(old(db.schemas), ops, db.schemas)
    ensures db.now == old(db.now) + Waited(ops)
  {
    hide Sound, Changes, ComesFrom;
    NothingChanged(db.schemas);
    for i := 0 to |ops|
      invariant Sound(db.schemas, cache.entries)
      invariant AllComeFrom(old(db.schemas), ops[..i], db.schemas)
      invariant db.now == old(db.now) + Waited(ops[..i])
    {
      ghost var before := db.schemas;
      Do(db, cache, ops[i]);
      ComesFromMore(old(db.schemas), ops[..i], before, ops[i], db.schemas);
      assert ops[..i + 1] == ops[..i] + [ops[i]] && ops[..i + 1][..i] == ops[..i];
    }
    assert ops[..|ops|] == ops;
  }

  lemma NothingChanged(schemas: Schemas)
    ensures AllComeFrom(schemas, [], schemas)
  {}
}
