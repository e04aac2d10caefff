/**
 Merging two contacts or two companies: one transaction that resolves the survivor's fields, re-points every relation
 of the loser, drops the loser and records the merge. Foreign keys of a deleted record are set to null by the
 database, so re-pointing has to come first.
 */
module Merge {
  import opened Prelude
  import opened DedupScan

  datatype Kind = Contact | Company | OtherKind(name: string)

  datatype ContactRow = ContactRow(firstName: string, lastName: string, email: Option<string>, phone: Option<string>,
                                   companyId: Option<Id>, ownerId: Option<Id>, updatedAt: int)

  datatype CompanyRow = CompanyRow(name: string, domain: Option<string>, industry: Option<string>,
                                   size: Option<string>, ownerId: Option<Id>, updatedAt: int)

  datatype Deal = Deal(contactId: Option<Id>, companyId: Option<Id>, content: string)

  /** A note, activity or task; a task may have no entity, or half of one. */
  datatype Linked = Linked(kind: Option<Kind>, entity: Option<Id>, content: string)

  /** A stored object: a bag of custom properties or an older activity. */
  datatype Object = Object(parentKind: Option<Kind>, parentId: Option<Id>, content: string)

  datatype Rule = Rule(kind: Kind, pair: IdPair)

  datatype Merged = Merged(kind: Kind, survivor: Id, loser: Id)

  datatype Tables = Tables(
    contacts: map<Id, ContactRow>,
    companies: map<Id, CompanyRow>,
    deals: map<Id, Deal>,
    notes: map<Id, Linked>,
    activities: map<Id, Linked>,
    tasks: map<Id, Linked>,
    objects: map<Id, Object>,
    rules: set<Rule>,
    audit: seq<Merged>)

  datatype Error = InvalidSurvivor | InvalidLoser | SameRecord | SurvivorNotFound | LoserNotFound | Failed

  // ---- statements ----

  function Moved(id: Option<Id>, from: Id, to: Id): Option<Id> {
    if id == Some(from) then Some(to) else id
  }

  function RepointRow(row: Linked, kind: Kind, from: Id, to: Id): Linked {
    if row.kind == Some(kind) then row.(entity := Moved(row.entity, from, to)) else row
  }

  function Repoint(rows: map<Id, Linked>, kind: Kind, from: Id, to: Id): map<Id, Linked> {
    map n | n in rows :: RepointRow(rows[n], kind, from, to)
  }

  function RepointDeals(deals: map<Id, Deal>, kind: Kind, from: Id, to: Id): map<Id, Deal> {
    map d | d in deals ::
      match kind {
        case Contact => deals[d].(contactId := Moved(deals[d].contactId, from, to))
        case Company => deals[d].(companyId := Moved(deals[d].companyId, from, to))
        case OtherKind(_) => deals[d]
      }
  }

  function RepointContacts(contacts: map<Id, ContactRow>, from: Id, to: Id): map<Id, ContactRow> {
    map c | c in contacts :: contacts[c].(companyId := Moved(contacts[c].companyId, from, to))
  }

  function Nulled(id: Option<Id>, gone: Id): Option<Id> {
    if id == Some(gone) then None else id
  }

  /** DELETE of a contact, with the foreign key's ON DELETE SET NULL. */
  function DeleteContact(t: Tables, id: Id): Tables {
    t.(contacts := t.contacts - {id},
       deals := map d | d in t.deals :: t.deals[d].(contactId := Nulled(t.deals[d].contactId, id)))
  }

  function DeleteCompany(t: Tables, id: Id): Tables {
    t.(companies := t.companies - {id},
       contacts := map c | c in t.contacts :: t.contacts[c].(companyId := Nulled(t.contacts[c].companyId, id)),
       deals := map d | d in t.deals :: t.deals[d].(companyId := Nulled(t.deals[d].companyId, id)))
  }

  // ---- what a merge is meant to do ----

  /** Per field, a caller may ask for the loser's value. */
  type Fields = map<string, string>

  function Pick<T>(fields: Fields, key: string, survivorValue: T, loserValue: T): T {
    if key in fields && fields[key] == "loser" then loserValue else survivorValue
  }

  function ResolvedContact(fields: Fields, s: ContactRow, l: ContactRow, now: int): ContactRow {
    ContactRow(
      Pick(fields, "first_name", s.firstName, l.firstName),
      Pick(fields, "last_name", s.lastName, l.lastName),
      Pick(fields, "email", s.email, l.email),
      Pick(fields, "phone", s.phone, l.phone),
      Pick(fields, "company_id", s.companyId, l.companyId),
      Pick(fields, "owner_id", s.ownerId, l.ownerId),
      now)
  }

  function ResolvedCompany(fields: Fields, s: CompanyRow, l: CompanyRow, now: int): CompanyRow {
    CompanyRow(
      Pick(fields, "name", s.name, l.name),
      Pick(fields, "domain", s.domain, l.domain),
      Pick(fields, "industry", s.industry, l.industry),
      Pick(fields, "size", s.size, l.size),
      Pick(fields, "owner_id", s.ownerId, l.ownerId),
      now)
  }

  /** The caller asks for the loser's value of a field; anything else keeps the survivor's. */
  predicate AsksLoser(fields: Fields, key: string) {
    key in fields && fields[key] == "loser"
  }

  /** The surviving contact, column by column. */
  ghost predicate ResolvesContact(fields: Fields, s: ContactRow, l: ContactRow, now: int, r: ContactRow) {
    && r.firstName == (if AsksLoser(fields, "first_name") then l.firstName else s.firstName)
    && r.lastName == (if AsksLoser(fields, "last_name") then l.lastName else s.lastName)
    && r.email == (if AsksLoser(fields, "email") then l.email else s.email)
    && r.phone == (if AsksLoser(fields, "phone") then l.phone else s.phone)
    && r.companyId == (if AsksLoser(fields, "company_id") then l.companyId else s.companyId)
    && r.ownerId == (if AsksLoser(fields, "owner_id") then l.ownerId else s.ownerId)
    && r.updatedAt == now
  }

  ghost predicate ResolvesCompany(fields: Fields, s: CompanyRow, l: CompanyRow, now: int, r: CompanyRow) {
    && r.name == (if AsksLoser(fields, "name") then l.name else s.name)
    && r.domain == (if AsksLoser(fields, "domain") then l.domain else s.domain)
    && r.industry == (if AsksLoser(fields, "industry") then l.industry else s.industry)
    && r.size == (if AsksLoser(fields, "size") then l.size else s.size)
    && r.ownerId == (if AsksLoser(fields, "owner_id") then l.ownerId else s.ownerId)
    && r.updatedAt == now
  }

  lemma ResolvedRight(fields: Fields, now: int)
    ensures forall s, l :: ResolvesContact(fields, s, l, now, ResolvedContact(fields, s, l, now))
    ensures forall s, l :: ResolvesCompany(fields, s, l, now, ResolvedCompany(fields, s, l, now))
  {}

  /** The entities with a kind, and whether a reference to one is to a record that exists. */
  predicate Exists(t: Tables, kind: Kind, id: Id) {
    match kind
    case Contact => id in t.contacts
    case Company => id in t.companies
    case OtherKind(_) => true
  }

  ghost predicate LinksKept(before: map<Id, Linked>, after: map<Id, Linked>, kind: Kind, from: Id, to: Id) {
    && after.Keys == before.Keys
    && forall n <- before ::
         && after[n].kind == before[n].kind && after[n].content == before[n].content
         && after[n].entity == if before[n].kind == Some(kind) && before[n].entity == Some(from) then Some(to)
                               else before[n].entity
  }

  ghost predicate DealsKept(before: map<Id, Deal>, after: map<Id, Deal>, kind: Kind, from: Id, to: Id) {
    && after.Keys == before.Keys
    && forall d <- before ::
         && after[d].content == before[d].content
         && after[d].contactId == (if kind == Contact && before[d].contactId == Some(from) then Some(to)
                                   else before[d].contactId)
         && after[d].companyId == (if kind == Company && before[d].companyId == Some(from) then Some(to)
                                   else before[d].companyId)
  }

  /** What every merge does alike: relations move to the survivor and stay, the pair's rule goes, one event is added. */
  ghost predicate RelationsMoved(t: Tables, u: Tables, kind: Kind, survivor: Id, loser: Id) {
    && LinksKept(t.notes, u.notes, kind, loser, survivor)
    && LinksKept(t.activities, u.activities, kind, loser, survivor)
    && LinksKept(t.tasks, u.tasks, kind, loser, survivor)
    && DealsKept(t.deals, u.deals, kind, loser, survivor)
    && u.rules == t.rules - {Rule(kind, CanonicalPair(survivor, loser))}
    && u.audit == t.audit + [Merged(kind, survivor, loser)]
  }

  ghost predicate ContactsMerged(t: Tables, u: Tables, survivor: Id, loser: Id, fields: Fields, now: int) {
    && survivor in t.contacts && loser in t.contacts && survivor != loser
    && RelationsMoved(t, u, Contact, survivor, loser)
    && u.contacts.Keys == t.contacts.Keys - {loser}
    && (forall c <- u.contacts :: c != survivor ==> u.contacts[c] == t.contacts[c])
    && ResolvesContact(fields, t.contacts[survivor], t.contacts[loser], now, u.contacts[survivor])
    && u.companies == t.companies
    && u.objects == map o | o in t.objects && !(t.objects[o].parentKind == Some(Contact)
                                                && t.objects[o].parentId == Some(loser)) :: t.objects[o]
  }

  ghost predicate CompaniesMerged(t: Tables, u: Tables, survivor: Id, loser: Id, fields: Fields, now: int) {
    && survivor in t.companies && loser in t.companies && survivor != loser
    && RelationsMoved(t, u, Company, survivor, loser)
    && u.companies.Keys == t.companies.Keys - {loser}
    && (forall c <- u.companies :: c != survivor ==> u.companies[c] == t.companies[c])
    && ResolvesCompany(fields, t.companies[survivor], t.companies[loser], now, u.companies[survivor])
    && u.contacts.Keys == t.contacts.Keys
    && (forall c <- t.contacts ::
          u.contacts[c] == t.contacts[c].(companyId := if t.contacts[c].companyId == Some(loser) then Some(survivor)
                                                       else t.contacts[c].companyId))
    && u.objects == t.objects
  }

  // ---- what a merge keeps ----

  /** The rows that refer to an entity. */
  function Attached(rows: map<Id, Linked>, kind: Kind, id: Id): set<Id> {
    set n | n in rows && rows[n].kind == Some(kind) && rows[n].entity == Some(id)
  }

  /** The survivor ends with its own rows and the loser's, the loser with none, any other entity with its own. */
  lemma AttachedMoves(before: map<Id, Linked>, after: map<Id, Linked>, kind: Kind, from: Id, to: Id)
    requires from != to && LinksKept(before, after, kind, from, to)
    ensures Attached(after, kind, to) == Attached(before, kind, to) + Attached(before, kind, from)
    ensures Attached(after, kind, from) == {}
    ensures forall k: Kind, other: Id :: k != kind || other !in {from, to} ==>
              Attached(after, k, other) == Attached(before, k, other)
    ensures |Attached(after, kind, to)| == |Attached(before, kind, to)| + |Attached(before, kind, from)|
  {
    assert Attached(before, kind, to) !! Attached(before, kind, from);
  }

  function DealsOf(deals: map<Id, Deal>, kind: Kind, id: Id): set<Id> {
    set d | d in deals && ((kind.Contact? && deals[d].contactId == Some(id))
                           || (kind.Company? && deals[d].companyId == Some(id)))
  }

  lemma DealsMove(before: map<Id, Deal>, after: map<Id, Deal>, kind: Kind, from: Id, to: Id)
    requires from != to && !kind.OtherKind? && DealsKept(before, after, kind, from, to)
    ensures DealsOf(after, kind, to) == DealsOf(before, kind, to) + DealsOf(before, kind, from)
    ensures DealsOf(after, kind, from) == {}
    ensures forall k: Kind, other: Id :: k != kind || other !in {from, to} ==>
              DealsOf(after, k, other) == DealsOf(before, k, other)
  {}

  ghost predicate LinksLive(t: Tables, rows: map<Id, Linked>) {
    forall n <- rows :: rows[n].kind.Some? && rows[n].entity.Some? ==>
                          Exists(t, rows[n].kind.value, rows[n].entity.value)
  }

  /** Every relation refers to a record that exists. */
  ghost predicate NoOrphans(t: Tables) {
    && LinksLive(t, t.notes) && LinksLive(t, t.activities) && LinksLive(t, t.tasks)
    && (forall d <- t.deals :: t.deals[d].contactId.Some? ==> t.deals[d].contactId.value in t.contacts)
    && (forall d <- t.deals :: t.deals[d].companyId.Some? ==> t.deals[d].companyId.value in t.companies)
    && (forall c <- t.contacts :: t.contacts[c].companyId.Some? ==> t.contacts[c].companyId.value in t.companies)
  }

  lemma LinksStayLive(t: Tables, u: Tables, before: map<Id, Linked>, after: map<Id, Linked>, kind: Kind, from: Id, to: Id)
    requires LinksLive(t, before) && LinksKept(before, after, kind, from, to) && Exists(u, kind, to)
    requires forall k: Kind, id: Id :: Exists(t, k, id) && !(k == kind && id == from) ==> Exists(u, k, id)
    ensures LinksLive(u, after)
  {
    hide Exists;
  }

  lemma ContactMergeLeavesNoOrphan(t: Tables, u: Tables, survivor: Id, loser: Id, fields: Fields, now: int)
    requires NoOrphans(t) && ContactsMerged(t, u, survivor, loser, fields, now)
    ensures NoOrphans(u)
  {
    hide LinksLive, LinksKept;
    LinksStayLive(t, u, t.notes, u.notes, Contact, loser, survivor);
    LinksStayLive(t, u, t.activities, u.activities, Contact, loser, survivor);
    LinksStayLive(t, u, t.tasks, u.tasks, Contact, loser, survivor);
  }

  lemma CompanyMergeLeavesNoOrphan(t: Tables, u: Tables, survivor: Id, loser: Id, fields: Fields, now: int)
    requires NoOrphans(t) && CompaniesMerged(t, u, survivor, loser, fields, now)
    ensures NoOrphans(u)
  {
    hide LinksLive, LinksKept;
    LinksStayLive(t, u, t.notes, u.notes, Company, loser, survivor);
    LinksStayLive(t, u, t.activities, u.activities, Company, loser, survivor);
    LinksStayLive(t, u, t.tasks, u.tasks, Company, loser, survivor);
  }

  // ---- many merges ----

  /** Where the recorded merges, in order, have taken a reference. */
  function Follow(log: seq<Merged>, kind: Kind, id: Option<Id>): Option<Id> {
    if log == [] then id
    else
      var last := log[|log| - 1];
      var so := Follow(log[..|log| - 1], kind, id);
      if last.kind == kind then Moved(so, last.loser, last.survivor) else so
  }

  ghost predicate LinksFollow(before: map<Id, Linked>, after: map<Id, Linked>, log: seq<Merged>) {
    && after.Keys == before.Keys
    && forall n <- before ::
         && after[n].kind == before[n].kind && after[n].content == before[n].content
         && after[n].entity == if before[n].kind.Some? then Follow(log, before[n].kind.value, before[n].entity)
                               else before[n].entity
  }

  ghost predicate DealsFollow(before: map<Id, Deal>, after: map<Id, Deal>, log: seq<Merged>) {
    && after.Keys == before.Keys
    && forall d <- before ::
         && after[d].content == before[d].content
         && after[d].contactId == Follow(log, Contact, before[d].contactId)
         && after[d].companyId == Follow(log, Company, before[d].companyId)
  }

  /** All relations are there, unchanged but for references, and those are where the audit log says. */
  ghost predicate RelationsFollow(t: Tables, u: Tables, log: seq<Merged>) {
    && LinksFollow(t.notes, u.notes, log)
    && LinksFollow(t.activities, u.activities, log)
    && LinksFollow(t.tasks, u.tasks, log)
    && DealsFollow(t.deals, u.deals, log)
    && u.audit == t.audit + log
  }

  lemma FollowOneMore(log: seq<Merged>, m: Merged, kind: Kind, id: Option<Id>)
    ensures Follow(log + [m], kind, id)
            == if m.kind == kind then Moved(Follow(log, kind, id), m.loser, m.survivor) else Follow(log, kind, id)
  {
    assert (log + [m])[..|log|] == log;
  }

  lemma LinksFollowOn(a: map<Id, Linked>, b: map<Id, Linked>, c: map<Id, Linked>, log: seq<Merged>, m: Merged)
    requires LinksFollow(a, b, log) && LinksKept(b, c, m.kind, m.loser, m.survivor)
    ensures LinksFollow(a, c, log + [m])
  {
    hide Follow;
    forall n <- a | a[n].kind.Some? { FollowOneMore(log, m, a[n].kind.value, a[n].entity); }
  }

  lemma DealsFollowOn(a: map<Id, Deal>, b: map<Id, Deal>, c: map<Id, Deal>, log: seq<Merged>, m: Merged)
    requires DealsFollow(a, b, log) && DealsKept(b, c, m.kind, m.loser, m.survivor)
    ensures DealsFollow(a, c, log + [m])
  {
    hide Follow;
    forall d <- a ensures c[d].contactId == Follow(log + [m], Contact, a[d].contactId)
                          && c[d].companyId == Follow(log + [m], Company, a[d].companyId) {
      FollowOneMore(log, m, Contact, a[d].contactId);
      FollowOneMore(log, m, Company, a[d].companyId);
    }
  }

  lemma RelationsFollowOn(t: Tables, u: Tables, v: Tables, log: seq<Merged>, m: Merged)
    requires RelationsFollow(t, u, log) && RelationsMoved(u, v, m.kind, m.survivor, m.loser)
    ensures RelationsFollow(t, v, log + [m])
  {
    hide LinksFollow, LinksKept, DealsFollow, DealsKept;
    LinksFollowOn(t.notes, u.notes, v.notes, log, m);
    LinksFollowOn(t.activities, u.activities, v.activities, log, m);
    LinksFollowOn(t.tasks, u.tasks, v.tasks, log, m);
    DealsFollowOn(t.deals, u.deals, v.deals, log, m);
    assert t.audit + log + [m] == t.audit + (log + [m]);
  }

  lemma NothingFollows(t: Tables)
    ensures RelationsFollow(t, t, [])
  {}

  // ---- the transactions ----

  lemma RepointKeeps(rows: map<Id, Linked>, kind: Kind, from: Id, to: Id)
    ensures LinksKept(rows, Repoint(rows, kind, from, to), kind, from, to)
  {}

  lemma RepointDealsKeeps(deals: map<Id, Deal>, kind: Kind, from: Id, to: Id)
    ensures DealsKept(deals, RepointDeals(deals, kind, from, to), kind, from, to)
  {}

  /** Once the deals (and contacts) are re-pointed, deleting the loser sets no foreign key to null. */
  lemma NothingToNull(t: Tables, before: map<Id, Deal>, people: map<Id, ContactRow>, from: Id, to: Id)
    requires from != to
    ensures t.deals == RepointDeals(before, Contact, from, to) ==>
              DeleteContact(t, from) == t.(contacts := t.contacts - {from})
    ensures t.deals == RepointDeals(before, Company, from, to) && t.contacts == RepointContacts(people, from, to) ==>
              DeleteCompany(t, from) == t.(companies := t.companies - {from})
  {
    if t.deals == RepointDeals(before, Contact, from, to) {
      assert DeleteContact(t, from).deals == t.deals;
    }
    if t.deals == RepointDeals(before, Company, from, to) && t.contacts == RepointContacts(people, from, to) {
      assert DeleteCompany(t, from).deals == t.deals && DeleteCompany(t, from).contacts == t.contacts;
    }
  }

  /** The other way round, the delete would cut off what referred to the loser, and re-pointing would find nothing. */
  lemma DeletingFirstLoses(t: Tables, from: Id, to: Id)
    ensures var deals := RepointDeals(DeleteContact(t, from).deals, Contact, from, to);
            deals.Keys == t.deals.Keys && forall d <- deals ::
              deals[d] == t.deals[d].(contactId := if t.deals[d].contactId == Some(from) then None else t.deals[d].contactId)
    ensures var deals := RepointDeals(DeleteCompany(t, from).deals, Company, from, to);
            deals.Keys == t.deals.Keys && forall d <- deals ::
              deals[d] == t.deals[d].(companyId := if t.deals[d].companyId == Some(from) then None else t.deals[d].companyId)
    ensures var contacts := RepointContacts(DeleteCompany(t, from).contacts, from, to);
            contacts.Keys == t.contacts.Keys && forall c <- contacts ::
              contacts[c] == t.contacts[c].(companyId := if t.contacts[c].companyId == Some(from) then None
                                                         else t.contacts[c].companyId)
  {}

  /** Why a merge is refused, were every call to the database to work. */
  function Refusal(t: Tables, kind: Kind, survivor: Option<Id>, loser: Option<Id>): Option<Error> {
    if survivor.None? then Some(InvalidSurvivor)
    else if loser.None? then Some(InvalidLoser)
    else if survivor == loser then Some(SameRecord)
    else if !Exists(t, kind, survivor.value) then Some(SurvivorNotFound)
    else if !Exists(t, kind, loser.value) then Some(LoserNotFound)
    else None
  }

  /** None of a merge's twelve calls to the database is refused. */
  predicate AllWork(fails: nat -> bool) {
    && !fails(0) && !fails(1) && !fails(2) && !fails(3) && !fails(4) && !fails(5)
    && !fails(6) && !fails(7) && !fails(8) && !fails(9) && !fails(10) && !fails(11)
  }

  datatype Request = Request(companies: bool, survivor: Option<Id>, loser: Option<Id>, fields: Fields, now: int,
                             fails: nat -> bool)

  class Workspace {
    var tables: Tables

    constructor (tables: Tables)
      ensures this.tables == tables
    {
      this.tables := tables;
    }

    /** `fails(k)`: the k-th call to the database is refused; whatever was done is then rolled back. */
    method MergeContacts(survivorId: Option<Id>, loserId: Option<Id>, fields: Fields, now: int, fails: nat -> bool)
        returns (r: Result<(), Error>)
      modifies this
      ensures r.Err? ==> tables == old(tables)
      ensures r.Ok? ==> survivorId.Some? && loserId.Some?
                        && ContactsMerged(old(tables), tables, survivorId.value, loserId.value, fields, now)
      ensures r.Ok? ==> Refusal(old(tables), Contact, survivorId, loserId) == None
      ensures r.Err? && r.error != Failed ==> Refusal(tables, Contact, survivorId, loserId) == Some(r.error)
      ensures r == Err(Failed) ==> exists k :: fails(k)
      ensures r.Ok? ==> AllWork(fails)
    {
      hide Repoint, RepointDeals, LinksKept, DealsKept, DeleteContact, ResolvedContact, ResolvesContact;
      if survivorId.None? { return Err(InvalidSurvivor); }
      if loserId.None? { return Err(InvalidLoser); }
      if survivorId == loserId { return Err(SameRecord); }
      var survivor, loser := survivorId.value, loserId.value;
      var tx := tables;
      if fails(0) { return Err(Failed); }
      if survivor !in tx.contacts { return Err(SurvivorNotFound); }
      var s := tx.contacts[survivor];
      if fails(1) { return Err(Failed); }
      if loser !in tx.contacts { return Err(LoserNotFound); }
      var l := tx.contacts[loser];
      if fails(2) { return Err(Failed); }
      tx := tx.(contacts := tx.contacts[survivor := ResolvedContact(fields, s, l, now)]);
      if fails(3) { return Err(Failed); }
      tx := tx.(notes := Repoint(tx.notes, Contact, loser, survivor));
      if fails(4) { return Err(Failed); }
      tx := tx.(activities := Repoint(tx.activities, Contact, loser, survivor));
      if fails(5) { return Err(Failed); }
      tx := tx.(tasks := Repoint(tx.tasks, Contact, loser, survivor));
      if fails(6) { return Err(Failed); }
      tx := tx.(deals := RepointDeals(tx.deals, Contact, loser, survivor));
      if fails(7) { return Err(Failed); }
      tx := tx.(objects := map o | o in tx.objects && !(tx.objects[o].parentKind == Some(Contact)
                                                        && tx.objects[o].parentId == Some(loser)) :: tx.objects[o]);
      if fails(8) { return Err(Failed); }
      tx := tx.(rules := tx.rules - {Rule(Contact, CanonicalPair(survivor, loser))});
      if fails(9) { return Err(Failed); }
      NothingToNull(tx, tables.deals, tables.contacts, loser, survivor);
      tx := DeleteContact(tx, loser);
      if fails(10) { return Err(Failed); }
      tx := tx.(audit := tx.audit + [Merged(Contact, survivor, loser)]);
      if fails(11) { return Err(Failed); }
      forall rows: map<Id, Linked> { RepointKeeps(rows, Contact, loser, survivor); }
      RepointDealsKeeps(tables.deals, Contact, loser, survivor);
      ResolvedRight(fields, now);
      tables := tx;
      return Ok(());
    }

    method MergeCompanies(survivorId: Option<Id>, loserId: Option<Id>, fields: Fields, now: int, fails: nat -> bool)
        returns (r: Result<(), Error>)
      modifies this
      ensures r.Err? ==> tables == old(tables)
      ensures r.Ok? ==> survivorId.Some? && loserId.Some?
                        && CompaniesMerged(old(tables), tables, survivorId.value, loserId.value, fields, now)
      ensures r.Ok? ==> Refusal(old(tables), Company, survivorId, loserId) == None
      ensures r.Err? && r.error != Failed ==> Refusal(tables, Company, survivorId, loserId) == Some(r.error)
      ensures r == Err(Failed) ==> exists k :: fails(k)
      ensures r.Ok? ==> AllWork(fails)
    {
      hide Repoint, RepointDeals, LinksKept, DealsKept, DeleteCompany, ResolvedCompany, ResolvesCompany;
      if survivorId.None? { return Err(InvalidSurvivor); }
      if loserId.None? { return Err(InvalidLoser); }
      if survivorId == loserId { return Err(SameRecord); }
      var survivor, loser := survivorId.value, loserId.value;
      var tx := tables;
      if fails(0) { return Err(Failed); }
      if survivor !in tx.companies { return Err(SurvivorNotFound); }
      var s := tx.companies[survivor];
      if fails(1) { return Err(Failed); }
      if loser !in tx.companies { return Err(LoserNotFound); }
      var l := tx.companies[loser];
      if fails(2) { return Err(Failed); }
      tx := tx.(companies := tx.companies[survivor := ResolvedCompany(fields, s, l, now)]);
      if fails(3) { return Err(Failed); }
      tx := tx.(contacts := RepointContacts(tx.contacts, loser, survivor));
      if fails(4) { return Err(Failed); }
      tx := tx.(deals := RepointDeals(tx.deals, Company, loser, survivor));
      if fails(5) { return Err(Failed); }
      tx := tx.(notes := Repoint(tx.notes, Company, loser, survivor));
      if fails(6) { return Err(Failed); }
      tx := tx.(activities := Repoint(tx.activities, Company, loser, survivor));
      if fails(7) { return Err(Failed); }
      tx := tx.(tasks := Repoint(tx.tasks, Company, loser, survivor));
      if fails(8) { return Err(Failed); }
      tx := tx.(rules := tx.rules - {Rule(Company, CanonicalPair(survivor, loser))});
      if fails(9) { return Err(Failed); }
      NothingToNull(tx, tables.deals, tables.contacts, loser, survivor);
      tx := DeleteCompany(tx, loser);
      if fails(10) { return Err(Failed); }
      tx := tx.(audit := tx.audit + [Merged(Company, survivor, loser)]);
      if fails(11) { return Err(Failed); }
      forall rows: map<Id, Linked> { RepointKeeps(rows, Company, loser, survivor); }
      RepointDealsKeeps(tables.deals, Company, loser, survivor);
      ResolvedRight(fields, now);
      tables := tx;
      return Ok(());
    }

    /** Any run of merges, some refused and some failing half-way. */
    method Run(requests: seq<Request>)
      modifies this
      ensures old(NoOrphans(tables)) ==> NoOrphans(tables)
      ensures exists log :: RelationsFollow(old(tables), tables, log)
    {
      hide NoOrphans, RelationsFollow, RelationsMoved;
      ghost var log: seq<Merged> := [];
      NothingFollows(tables);
      for i := 0 to |requests|
        invariant old(NoOrphans(tables)) ==> NoOrphans(tables)
        invariant RelationsFollow(old(tables), tables, log)
      {
        ghost var before := tables;
        var q := requests[i];
        var r;
        if q.companies {
          r := MergeCompanies(q.survivor, q.loser, q.fields, q.now, q.fails);
          if r.Ok? && old(NoOrphans(tables)) {
            CompanyMergeLeavesNoOrphan(before, tables, q.survivor.value, q.loser.value, q.fields, q.now);
          }
        } else {
          r := MergeContacts(q.survivor, q.loser, q.fields, q.now, q.fails);
          if r.Ok? && old(NoOrphans(tables)) {
            ContactMergeLeavesNoOrphan(before, tables, q.survivor.value, q.loser.value, q.fields, q.now);
          }
        }
        if r.Ok? {
          ghost var m := Merged(if q.companies then Company else Contact, q.survivor.value, q.loser.value);
          RelationsFollowOn(old(tables), before, tables, log, m);
          log := log + [m];
        }
      }
    }
  }
}
