/**
 The duplicate scan over contacts or companies: a first pass over groups of records with the same email (or domain)
 and a second over all pairs by name similarity, with one set of the pairs already listed.
 */
module DedupScan {
  import opened Prelude

  /** An id, compared as its hexadecimal text, which for fixed-width lower-case text is the order of numbers. */
  type Id = nat

  datatype IdPair = IdPair(lo: Id, hi: Id)

  function CanonicalPair(a: Id, b: Id): (p: IdPair)
    ensures p.lo <= p.hi
  {
    if a < b then IdPair(a, b) else IdPair(b, a)
  }

  /** What the scan looks at: the email or domain, and the full name or company name. */
  datatype Record = Record(id: Id, address: Option<string>, name: string)

  datatype Reason = Exact | SimilarName

  datatype Found = Found(a: Record, b: Record, reason: Reason, score: real)

  function Key(f: Found): IdPair {
    CanonicalPair(f.a.id, f.b.id)
  }

  // ---- trigram similarity ----

  /** Letters, digits and spaces as the text library sees them, after its lower-casing. */
  datatype Letters = Letters(lower: string -> string, keeps: char -> bool)

  function Kept(letters: Letters, s: string): string {
    if s == [] then []
    else Kept(letters, s[..|s| - 1]) + if letters.keeps(s[|s| - 1]) || s[|s| - 1] == ' ' then [s[|s| - 1]] else []
  }

  function TrimStart(s: string): string {
    if s != [] && s[0] == ' ' then TrimStart(s[1..]) else s
  }

  function TrimEnd(s: string): string {
    if s != [] && s[|s| - 1] == ' ' then TrimEnd(s[..|s| - 1]) else s
  }

  function Normal(letters: Letters, s: string): string {
    TrimEnd(TrimStart(Kept(letters, letters.lower(s))))
  }

  /** What is left once the spaces at both ends are cut off. */
  lemma TrimmedIs(s: string)
    ensures exists before, after :: s == before + TrimEnd(TrimStart(s)) + after
                                    && (forall c <- before :: c == ' ') && (forall c <- after :: c == ' ')
    ensures var t := TrimEnd(TrimStart(s)); t != "" ==> t[0] != ' ' && t[|t| - 1] != ' '
  {
    var t := TrimStart(s);
    var before := StartCut(s);
    var after := EndCut(t);
    assert s == before + TrimEnd(t) + after;
  }

  lemma {:induction false} StartCut(s: string) returns (before: string)
    ensures s == before + TrimStart(s) && forall c <- before :: c == ' '
    ensures TrimStart(s) != "" ==> TrimStart(s)[0] != ' '
  {
    before := "";
    if s != [] && s[0] == ' ' {
      before := StartCut(s[1..]);
      before := [' '] + before;
    }
  }

  lemma {:induction false} EndCut(s: string) returns (after: string)
    ensures s == TrimEnd(s) + after && forall c <- after :: c == ' '
    ensures TrimEnd(s) != "" ==> TrimEnd(s)[0] == s[0] && TrimEnd(s)[|TrimEnd(s)| - 1] != ' '
  {
    after := "";
    if s != [] && s[|s| - 1] == ' ' {
      after := EndCut(s[..|s| - 1]);
      after := after + [' '];
    }
  }

  method NormalizeName(letters: Letters, s: string) returns (r: string)
    ensures r == Normal(letters, s)
  {
    var lowered := letters.lower(s);
    var b := "";
    for i := 0 to |lowered|
      invariant b == Kept(letters, lowered[..i])
    {
      assert lowered[..i + 1][..i] == lowered[..i];
      if letters.keeps(lowered[i]) || lowered[i] == ' ' { b := b + [lowered[i]]; }
    }
    assert lowered[..|lowered|] == lowered;
    r := TrimEnd(TrimStart(b));
  }

  function Padded(s: string): string {
    "  " + s + "  "
  }

  function Window(s: string, i: nat): string
    requires i + 2 < |s|
  {
    s[i..i + 3]
  }

  function TrigramSet(s: string): set<string> {
    set i | 0 <= i && i + 2 < |Padded(s)| :: Window(Padded(s), i)
  }

  method Trigrams(s: string) returns (out: set<string>)
    ensures out == TrigramSet(s)
  {
    var runes := "  " + s + "  ";
    assert runes == Padded(s);
    out := {};
    var i := 0;
    while i + 2 < |runes|
      invariant i + 2 <= |runes|
      invariant out == set k | 0 <= k < i :: Window(runes, k)
    {
      assert Window(runes, i) == runes[i..i + 3];
      out := out + {runes[i..i + 3]};
      i := i + 1;
    }
  }

  /** The share of common elements in all elements, one for two empty sets. */
  function Jaccard<T(==)>(a: set<T>, b: set<T>): real {
    if a + b == {} then 1.0 else |a * b| as real / |a + b| as real
  }

  function Similarity(letters: Letters, a: string, b: string): real {
    Jaccard(TrigramSet(Normal(letters, a)), TrigramSet(Normal(letters, b)))
  }

  lemma UnionSize<T>(a: set<T>, b: set<T>)
    ensures |a + b| == |a| + |b| - |a * b|
  {
    assert a + b == a + (b - a * b) && b == (b - a * b) + a * b;
  }

  /** The count over the keys of one map that are keys of the other. */
  method CountCommon(ta: set<string>, tb: set<string>) returns (n: nat)
    ensures n == |ta * tb|
  {
    n := 0;
    var rest := ta;
    ghost var counted: set<string> := {};
    while rest != {}
      invariant rest <= ta && counted == (ta - rest) * tb && n == |counted|
      decreases rest
    {
      var t :| t in rest;
      if t in tb {
        n, counted := n + 1, counted + {t};
      }
      rest := rest - {t};
    }
    assert counted == ta * tb;
  }

  method TrigramSimilarity(letters: Letters, a: string, b: string) returns (score: real)
    ensures score == Similarity(letters, a, b)
  {
    hide Normal, TrigramSet, Jaccard;
    var na := NormalizeName(letters, a);
    var nb := NormalizeName(letters, b);
    var ta := Trigrams(na);
    var tb := Trigrams(nb);
    JaccardCases(ta, tb);
    if ta == {} && tb == {} { return 1.0; }
    if ta == {} || tb == {} { return 0.0; }
    var intersection := CountCommon(ta, tb);
    var union := |ta| + |tb| - intersection;
    return intersection as real / union as real;
  }

  lemma JaccardCases<T>(a: set<T>, b: set<T>)
    ensures a == {} && b == {} ==> Jaccard(a, b) == 1.0
    ensures a != {} && b == {} ==> Jaccard(a, b) == 0.0
    ensures a == {} && b != {} ==> Jaccard(a, b) == 0.0
    ensures a != {} && b != {} ==> var u := |a| + |b| - |a * b|; u > 0 && Jaccard(a, b) == |a * b| as real / u as real
  {
    UnionSize(a, b);
    if a == {} || b == {} { assert a * b == {}; }
  }

  lemma Ratio(n: nat, u: nat)
    requires n <= u != 0
    ensures 0.0 <= n as real / u as real <= 1.0
    ensures n as real / u as real == 1.0 <==> n == u
    ensures n as real / u as real == 0.0 <==> n == 0
  {}

  lemma SubsetSizes<T>(a: set<T>, b: set<T>)
    requires a <= b
    ensures |a| <= |b| && (|a| == |b| <==> a == b)
  {
    assert b == a + (b - a);
  }

  lemma JaccardBounds<T>(a: set<T>, b: set<T>)
    ensures 0.0 <= Jaccard(a, b) <= 1.0
    ensures Jaccard(a, b) == Jaccard(b, a)
    ensures Jaccard(a, b) == 1.0 <==> a == b
    ensures a + b != {} ==> (Jaccard(a, b) == 0.0 <==> a !! b)
  {
    assert a + b == b + a && a * b == b * a;
    if a + b != {} {
      SubsetSizes(a * b, a + b);
      Ratio(|a * b|, |a + b|);
    }
  }

  /** The score is symmetric and within [0, 1]; it is one exactly for names with the same trigrams. */
  lemma SimilarityBounds(letters: Letters, a: string, b: string)
    ensures 0.0 <= Similarity(letters, a, b) <= 1.0
    ensures Similarity(letters, a, b) == Similarity(letters, b, a)
    ensures Similarity(letters, a, b) == 1.0
            <==> TrigramSet(Normal(letters, a)) == TrigramSet(Normal(letters, b))
  {
    JaccardBounds(TrigramSet(Normal(letters, a)), TrigramSet(Normal(letters, b)));
  }

  // ---- the scan ----

  const NAME_THRESHOLD := 0.4

  datatype Scan = Scan(records: seq<Record>, excluded: set<IdPair>, letters: Letters) {
    /** Ids are primary keys. */
    ghost predicate Valid() {
      forall i, j :: 0 <= i < j < |records| ==> records[i].id != records[j].id
    }

    /** Two records in the order of the list, which is the order of creation. */
    ghost predicate Before(a: Record, b: Record) {
      exists i, j :: 0 <= i < j < |records| && records[i] == a && records[j] == b
    }

    predicate Grouped(r: Record) {
      r.address.Some? && r.address.value != ""
    }

    function Folded(r: Record): string
      requires Grouped(r)
    {
      letters.lower(r.address.value)
    }

    predicate SameAddress(a: Record, b: Record) {
      Grouped(a) && Grouped(b) && Folded(a) == Folded(b)
    }

    predicate Excluded(a: Record, b: Record) {
      CanonicalPair(a.id, b.id) in excluded
    }

    lemma ExcludedMeans(a: Record, b: Record)
      ensures Excluded(a, b) <==> CanonicalPair(a.id, b.id) in excluded
    {}

    function Score(a: Record, b: Record): real {
      Similarity(letters, a.name, b.name)
    }

    /** What belongs in the list: for two records in list order, the one entry they may have. */
    ghost predicate Wanted(f: Found) {
      && Before(f.a, f.b)
      && !Excluded(f.a, f.b)
      && if SameAddress(f.a, f.b) then f.reason == Exact && f.score == 1.0
         else f.reason == SimilarName && f.score == Score(f.a, f.b) >= 0.4
    }

    /** Marking two ids as distinct, in either order, takes their pair out of the list and no other. */
    lemma DistinctPairDropsOut(a: Id, b: Id, f: Found)
      requires a != b
      ensures this.(excluded := excluded + {CanonicalPair(a, b)}).Wanted(f)
              <==> Wanted(f) && {f.a.id, f.b.id} != {a, b}
    {
      var more := this.(excluded := excluded + {CanonicalPair(a, b)});
      SamePair(f.a.id, f.b.id, a, b);
      assert more.Before(f.a, f.b) <==> Before(f.a, f.b);
      assert more.SameAddress(f.a, f.b) <==> SameAddress(f.a, f.b);
      assert more.Score(f.a, f.b) == Score(f.a, f.b);
    }

    lemma SamePair(a: Id, b: Id, c: Id, d: Id)
      ensures CanonicalPair(a, b) == CanonicalPair(c, d) <==> {a, b} == {c, d}
    {
      assert a in {a, b} && b in {a, b} && c in {c, d} && d in {c, d};
    }

    /** The pairs listed so far are wanted and listed once, and `seen` holds exactly their keys. */
    ghost predicate Listed(seen: set<IdPair>, pairs: seq<Found>) {
      && (forall f <- pairs :: Wanted(f) && Key(f) in seen)
      && (forall k <- seen :: exists f <- pairs :: Key(f) == k)
      && (forall k, l :: 0 <= k < l < |pairs| ==> Key(pairs[k]) != Key(pairs[l]))
    }

    lemma Lists(seen: set<IdPair>, pairs: seq<Found>, f: Found)
      requires Listed(seen, pairs) && Wanted(f) && Key(f) !in seen
      ensures Listed(seen + {Key(f)}, pairs + [f])
    {
      hide Wanted, Key;
      var more := pairs + [f];
      assert more[|pairs|] == f;
      forall k <- seen ensures exists g <- more :: Key(g) == k {
        var g :| g in pairs && Key(g) == k;
        assert g in more;
      }
    }

    /** A key belongs to one pair of records in one order. */
    lemma KeyDetermines(a: Record, b: Record, a': Record, b': Record)
      requires Valid() && Before(a, b) && Before(a', b')
      requires CanonicalPair(a.id, b.id) == CanonicalPair(a'.id, b'.id)
      ensures a == a' && b == b'
    {
      var i, j :| 0 <= i < j < |records| && records[i] == a && records[j] == b;
      var i', j' :| 0 <= i' < j' < |records| && records[i'] == a' && records[j'] == b';
      assert i == i' || i == j';
    }

    // ---- the groups ----

    /** The records with this folded address, in list order. */
    ghost predicate IsGroup(key: string, group: seq<Record>, upTo: nat)
      requires upTo <= |records|
    {
      && (forall p, q :: 0 <= p < q < |group| ==> Before(group[p], group[q]))
      && (forall r <- group :: Grouped(r) && Folded(r) == key && r in records[..upTo])
      && (forall r <- records[..upTo] :: Grouped(r) && Folded(r) == key ==> r in group)
    }

    lemma NoGroup(key: string)
      ensures IsGroup(key, [], 0)
    {}

    lemma GroupGrows(key: string, group: seq<Record>, n: nat)
      requires n < |records| && IsGroup(key, group, n)
      ensures Grouped(records[n]) && Folded(records[n]) == key ==> IsGroup(key, group + [records[n]], n + 1)
      ensures !(Grouped(records[n]) && Folded(records[n]) == key) ==> IsGroup(key, group, n + 1)
    {
      hide Folded, Grouped;
      var r, some, more := records[n], records[..n], records[..n + 1];
      assert more == some + [r];
      if Grouped(r) && Folded(r) == key {
        forall p | 0 <= p < |group| ensures Before(group[p], r) {
          assert group[p] in some;
          var i :| 0 <= i < n && some[i] == group[p];
          assert records[i] == group[p];
        }
      }
    }

    method GroupByAddress() returns (groups: map<string, seq<Record>>)
      ensures forall key <- groups :: IsGroup(key, groups[key], |records|)
      ensures forall r <- records :: Grouped(r) ==> Folded(r) in groups
    {
      hide IsGroup;
      groups := map[];
      forall key { NoGroup(key); }
      for n := 0 to |records|
        invariant forall key <- groups :: IsGroup(key, groups[key], n)
        invariant forall key | key !in groups :: IsGroup(key, [], n)
        invariant forall m :: 0 <= m < n ==> Grouped(records[m]) ==> Folded(records[m]) in groups
      {
        var r := records[n];
        forall key | key in groups { GroupGrows(key, groups[key], n); }
        forall key: string | key !in groups { GroupGrows(key, [], n); }
        if r.address.None? || r.address.value == "" { continue; }
        var key := letters.lower(r.address.value);
        groups := groups[key := (if key in groups then groups[key] else []) + [r]];
      }
    }

    // ---- first pass ----

    /** Every pair of the first `i` members with a later one, and of member `i` with one before `j`, is dealt with. */
    ghost predicate Covers(seen: set<IdPair>, group: seq<Record>, i: nat, j: nat)
      requires i <= |group| && j <= |group|
    {
      forall p, q :: 0 <= p < q < |group| && (p < i || (p == i && q < j))
                     ==> Excluded(group[p], group[q]) || CanonicalPair(group[p].id, group[q].id) in seen
    }

    lemma CoversStep(seen: set<IdPair>, more: set<IdPair>, group: seq<Record>, i: nat, j: nat)
      requires seen <= more && i < j < |group| && Covers(seen, group, i, j)
      requires Excluded(group[i], group[j]) || CanonicalPair(group[i].id, group[j].id) in more
      ensures Covers(more, group, i, j + 1)
    {
      hide Excluded, CanonicalPair;
    }

    /** A row of the pair table is done when its last column is. */
    lemma CoversRow(seen: set<IdPair>, group: seq<Record>, i: nat)
      requires i < |group|
      ensures Covers(seen, group, i, 0) ==> Covers(seen, group, i, i + 1)
      ensures Covers(seen, group, i, |group|) ==> Covers(seen, group, i + 1, 0)
    {}

    lemma GroupPairWanted(key: string, group: seq<Record>, i: nat, j: nat)
      requires IsGroup(key, group, |records|) && i < j < |group|
      ensures Excluded(group[i], group[j]) || Wanted(Found(group[i], group[j], Exact, 1.0))
    {
      hide Excluded;
      assert group[i] in group && group[j] in group;
    }

    method ScanGroup(key: string, group: seq<Record>, seen0: set<IdPair>, pairs0: seq<Found>)
        returns (seen: set<IdPair>, pairs: seq<Found>)
      requires IsGroup(key, group, |records|) && Listed(seen0, pairs0)
      requires forall f <- pairs0 :: f.reason == Exact
      ensures Listed(seen, pairs) && seen0 <= seen && Covers(seen, group, |group|, 0)
      ensures forall f <- pairs :: f.reason == Exact
    {
      hide Listed, Covers, IsGroup, Wanted, Excluded, CanonicalPair;
      seen, pairs := seen0, pairs0;
      NothingCovered(seen, group);
      for i := 0 to |group|
        invariant Listed(seen, pairs) && seen0 <= seen && Covers(seen, group, i, 0)
        invariant forall f <- pairs :: f.reason == Exact
      {
        CoversRow(seen, group, i);
        for j := i + 1 to |group|
          invariant Listed(seen, pairs) && seen0 <= seen && Covers(seen, group, i, j)
          invariant forall f <- pairs :: f.reason == Exact
        {
          var a, b := group[i], group[j];
          ghost var before := seen;
          ExcludedMeans(a, b);
          if CanonicalPair(a.id, b.id) in seen || CanonicalPair(a.id, b.id) in excluded {
            CoversStep(before, seen, group, i, j);
            continue;
          }
          GroupPairWanted(key, group, i, j);
          Lists(seen, pairs, Found(a, b, Exact, 1.0));
          seen := seen + {CanonicalPair(a.id, b.id)};
          pairs := pairs + [Found(a, b, Exact, 1.0)];
          CoversStep(before, seen, group, i, j);
        }
        CoversRow(seen, group, i);
      }
    }

    lemma NothingCovered(seen: set<IdPair>, group: seq<Record>)
      ensures Covers(seen, group, 0, 0)
    {}

    /** All pairs with one address are dealt with. */
    ghost predicate AddressesDone(seen: set<IdPair>) {
      forall a, b :: Before(a, b) && SameAddress(a, b) ==> Excluded(a, b) || CanonicalPair(a.id, b.id) in seen
    }

    /** In its group a pair of records stands in list order. */
    lemma GroupHasPair(key: string, group: seq<Record>, seen: set<IdPair>, a: Record, b: Record)
      requires Valid() && IsGroup(key, group, |records|) && Covers(seen, group, |group|, 0)
      requires Before(a, b) && SameAddress(a, b) && Folded(a) == key
      ensures Excluded(a, b) || CanonicalPair(a.id, b.id) in seen
    {
      hide Excluded, CanonicalPair, Folded, Grouped;
      assert records[..|records|] == records;
      assert a in group && b in group;
      var p, q :| 0 <= p < |group| && group[p] == a && 0 <= q < |group| && group[q] == b;
      if q <= p {
        NotBothWays(a, b);
      }
    }

    lemma NotBothWays(a: Record, b: Record)
      requires Valid() && Before(a, b)
      ensures a != b && !Before(b, a)
    {}

    method FirstPass() returns (seen: set<IdPair>, pairs: seq<Found>)
      requires Valid()
      ensures Listed(seen, pairs) && AddressesDone(seen)
      ensures forall f <- pairs :: f.reason == Exact
    {
      hide Listed, Excluded, CanonicalPair, IsGroup, Covers, Folded, Grouped, Before;
      var groups := GroupByAddress();
      seen, pairs := {}, [];
      NothingListed();
      var rest := groups.Keys;
      while rest != {}
        invariant rest <= groups.Keys && Listed(seen, pairs)
        invariant forall key <- groups.Keys - rest :: Covers(seen, groups[key], |groups[key]|, 0)
        invariant forall f <- pairs :: f.reason == Exact
        decreases rest
      {
        var key :| key in rest;
        ghost var before := seen;
        seen, pairs := ScanGroup(key, groups[key], seen, pairs);
        forall other <- groups.Keys - rest { CoversMore(before, seen, groups[other], |groups[other]|); }
        rest := rest - {key};
      }
      forall a, b | Before(a, b) && SameAddress(a, b) ensures Excluded(a, b) || CanonicalPair(a.id, b.id) in seen {
        IsListed(a, b);
        GroupHasPair(Folded(a), groups[Folded(a)], seen, a, b);
      }
    }

    lemma NothingListed()
      ensures Listed({}, [])
    {}

    lemma IsListed(a: Record, b: Record)
      requires Before(a, b)
      ensures a in records && b in records
    {}

    lemma CoversMore(seen: set<IdPair>, more: set<IdPair>, group: seq<Record>, i: nat)
      requires seen <= more && i <= |group| && Covers(seen, group, i, 0)
      ensures Covers(more, group, i, 0)
    {}

    // ---- second pass ----

    /** Every pair before row `i`, and of row `i` before column `j`, that is similar enough is dealt with. */
    ghost predicate NamesDone(seen: set<IdPair>, i: nat, j: nat)
      requires i <= |records| && j <= |records|
    {
      forall p, q :: 0 <= p < q < |records| && (p < i || (p == i && q < j))
                     && Score(records[p], records[q]) >= NAME_THRESHOLD
                     ==> Excluded(records[p], records[q])
                         || CanonicalPair(records[p].id, records[q].id) in seen
    }

    method SecondPass(seen0: set<IdPair>, pairs0: seq<Found>) returns (seen: set<IdPair>, pairs: seq<Found>)
      requires Listed(seen0, pairs0) && AddressesDone(seen0)
      ensures Listed(seen, pairs) && AddressesDone(seen) && NamesDone(seen, |records|, 0)
    {
      hide Listed, Excluded, CanonicalPair, SameAddress, Similarity;
      seen, pairs := seen0, pairs0;
      for i := 0 to |records|
        invariant Listed(seen, pairs) && AddressesDone(seen) && NamesDone(seen, i, 0)
      {
        for j := i + 1 to |records|
          invariant Listed(seen, pairs) && AddressesDone(seen) && NamesDone(seen, i, j)
        {
          var a, b := records[i], records[j];
          ExcludedMeans(a, b);
          if CanonicalPair(a.id, b.id) in seen || CanonicalPair(a.id, b.id) in excluded { continue; }
          var score := TrigramSimilarity(letters, a.name, b.name);
          if score >= NAME_THRESHOLD {
            assert Before(a, b);
            Lists(seen, pairs, Found(a, b, SimilarName, score));
            seen := seen + {CanonicalPair(a.id, b.id)};
            pairs := pairs + [Found(a, b, SimilarName, score)];
          }
        }
      }
    }

    lemma AllListed(seen: set<IdPair>, pairs: seq<Found>, f: Found)
      requires Valid() && Listed(seen, pairs) && AddressesDone(seen) && NamesDone(seen, |records|, 0)
      requires Wanted(f)
      ensures f in pairs
    {
      hide Excluded, CanonicalPair, SameAddress, Score;
      var i, j :| 0 <= i < j < |records| && records[i] == f.a && records[j] == f.b;
      assert Key(f) in seen;
      var g :| g in pairs && Key(g) == Key(f);
      KeyDetermines(f.a, f.b, g.a, g.b);
    }

    /**
     The listed pairs are exactly the wanted ones, each unordered pair of records once, in whatever order the groups
     are visited.
     */
    method Duplicates() returns (pairs: seq<Found>)
      requires Valid()
      ensures forall f :: f in pairs <==> Wanted(f)
      ensures forall k, l :: 0 <= k < l < |pairs| ==> Key(pairs[k]) != Key(pairs[l])
    {
      hide AddressesDone, NamesDone, Wanted;
      var seen;
      seen, pairs := FirstPass();
      seen, pairs := SecondPass(seen, pairs);
      forall f | Wanted(f) ensures f in pairs { AllListed(seen, pairs, f); }
    }
  }

  // ---- contacts and companies ----

  datatype ContactEntry = ContactEntry(id: Id, firstName: string, lastName: string, email: Option<string>)

  datatype CompanyEntry = CompanyEntry(id: Id, name: string, domain: Option<string>)

  function ContactScan(contacts: seq<ContactEntry>, excluded: set<IdPair>, letters: Letters): (scan: Scan)
    ensures |scan.records| == |contacts|
  {
    Scan(seq(|contacts|, i requires 0 <= i < |contacts| =>
           Record(contacts[i].id, contacts[i].email, contacts[i].firstName + " " + contacts[i].lastName)),
         excluded, letters)
  }

  function CompanyScan(companies: seq<CompanyEntry>, excluded: set<IdPair>, letters: Letters): (scan: Scan)
    ensures |scan.records| == |companies|
  {
    Scan(seq(|companies|, i requires 0 <= i < |companies| =>
           Record(companies[i].id, companies[i].domain, companies[i].name)),
         excluded, letters)
  }

  /** Two contacts are listed exactly if they are not excluded and share an address or have similar full names. */
  method ListContactDuplicates(contacts: seq<ContactEntry>, excluded: set<IdPair>, letters: Letters)
    returns (pairs: seq<Found>)
    requires forall i, j :: 0 <= i < j < |contacts| ==> contacts[i].id != contacts[j].id
    ensures forall f :: f in pairs <==> ContactScan(contacts, excluded, letters).Wanted(f)
    ensures forall k, l :: 0 <= k < l < |pairs| ==> Key(pairs[k]) != Key(pairs[l])
  {
    var records: seq<Record> := [];
    for i := 0 to |contacts|
      invariant records == ContactScan(contacts, excluded, letters).records[..i]
    {
      var c := contacts[i];
      records := records + [Record(c.id, c.email, c.firstName + " " + c.lastName)];
    }
    pairs := Scan(records, excluded, letters).Duplicates();
  }

  method ListCompanyDuplicates(companies: seq<CompanyEntry>, excluded: set<IdPair>, letters: Letters)
    returns (pairs: seq<Found>)
    requires forall i, j :: 0 <= i < j < |companies| ==> companies[i].id != companies[j].id
    ensures forall f :: f in pairs <==> CompanyScan(companies, excluded, letters).Wanted(f)
    ensures forall k, l :: 0 <= k < l < |pairs| ==> Key(pairs[k]) != Key(pairs[l])
  {
    var records: seq<Record> := [];
    for i := 0 to |companies|
      invariant records == CompanyScan(companies, excluded, letters).records[..i]
    {
      var c := companies[i];
      records := records + [Record(c.id, c.domain, c.name)];
    }
    pairs := Scan(records, excluded, letters).Duplicates();
  }
}
