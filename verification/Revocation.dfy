/**
 Session revocation: two tables, and a cache in front of them made of a bloom filter over the revoked session ids and
 a copy of the per-user revocation times. A filter hit is confirmed by a point query, a miss is not.
 */
module Revocation {
  import opened Prelude
  import opened BitWords

  const WORD := 0x1_0000_0000_0000_0000
  const HALF := 0x1_0000_0000

  /** A session id (a UUID read as a number). */
  type Jti = nat
  type UserId = nat

  // ---- the bloom filter ----

  /** The i-th mix of the two 32-bit halves of a 64-bit hash, in 64-bit arithmetic. */
  function Mix(sum: nat, i: nat): nat {
    (sum % WORD / HALF + i * (sum % WORD % HALF)) % WORD
  }

  function Probe(sum: nat, i: nat, numBits: nat): nat
    requires numBits > 0
  {
    Mix(sum, i) % numBits
  }

  /** With fewer than 2^32 probes the 64-bit sum never wraps. */
  lemma MixDoesNotWrap(sum: nat, i: nat)
    requires i < HALF - 1
    ensures Mix(sum, i) == sum % WORD / HALF + i * (sum % WORD % HALF)
  {
    var h1, h2 := sum % WORD / HALF, sum % WORD % HALF;
    ProductBound(i, HALF - 2, h2, HALF - 1);
    Unwrapped(h1, i * h2);
  }

  lemma Unwrapped(h1: nat, m: nat)
    requires h1 < HALF && m <= (HALF - 2) * (HALF - 1)
    ensures (h1 + m) % WORD == h1 + m
  {}

  lemma ProductBound(a: nat, a': nat, b: nat, b': nat)
    requires a <= a' && b <= b'
    ensures a * b <= a' * b'
  {
    assert a' * b' == a * b + (a' - a) * b' + a * (b' - b);
  }

  class BloomFilter {
    const bits: array<bv64>
    const numBits: nat
    const numHash: nat
    const hash: Jti -> nat

    /** `expectedItems` is a row count, far from the width of an integer. */
    constructor (expectedItems: nat, numHash: nat, hash: Jti -> nat)
      requires expectedItems < WORD / 16 && numHash < HALF - 1
      ensures Valid() && fresh(bits) && this.hash == hash
      ensures var n := if expectedItems == 0 then 1 else expectedItems; 10 * n <= numBits < 10 * n + 64
      ensures this.numHash == if numHash == 0 then 6 else numHash
      ensures forall p :: 0 <= p < numBits ==> !Holds(p)
    {
      var items := if expectedItems == 0 then 1 else expectedItems;
      var nbits := items * 10;
      var nwords := (nbits + 63) / 64;
      this.numHash := if numHash == 0 then 6 else numHash;
      this.hash := hash;
      numBits := nwords * 64;
      bits := new bv64[nwords](_ => 0);
      new;
      forall p | 0 <= p < numBits ensures !Holds(p) { NothingSet(bits[..], p); }
    }

    ghost predicate Valid() {
      numBits > 0 && numBits == bits.Length * 64 && 0 < numHash < HALF - 1
    }

    predicate Holds(p: nat)
      requires Valid() && p < numBits
      reads bits
    {
      IsSet(bits[..], p)
    }

    function Position(jti: Jti, i: nat): (p: nat)
      requires Valid() && i < numHash
      ensures p < numBits
    {
      Probe(hash(jti), i, numBits)
    }

    /** Double hashing: the i-th position is the high half of the hash plus i times the low half, modulo the size. */
    lemma PositionIs(jti: Jti, i: nat, high: nat, low: nat)
      requires Valid() && i < numHash
      requires high < 0x1_0000_0000 && low < 0x1_0000_0000
      requires hash(jti) % 0x1_0000_0000_0000_0000 == high * 0x1_0000_0000 + low
      ensures Position(jti, i) == (high + i * low) % numBits
    {
      MixDoesNotWrap(hash(jti), i);
      HalvesOf(high, low);
    }

    lemma HalvesOf(high: nat, low: nat)
      requires low < HALF
      ensures (high * HALF + low) / HALF == high && (high * HALF + low) % HALF == low
    {}

    ghost predicate Probes(jti: Jti, p: nat, upTo: nat)
      requires Valid() && upTo <= numHash
    {
      exists i :: 0 <= i < upTo && Position(jti, i) == p
    }

    ghost predicate Positive(jti: Jti)
      requires Valid()
      reads bits
    {
      forall i :: 0 <= i < numHash ==> Holds(Position(jti, i))
    }

    lemma OneMoreProbe(jti: Jti, i: nat, p: nat)
      requires Valid() && i < numHash
      ensures Probes(jti, p, i + 1) <==> Probes(jti, p, i) || p == Position(jti, i)
    {
      hide Probe;
      if Probes(jti, p, i) {
        var k :| 0 <= k < i && Position(jti, k) == p;
        assert k < i + 1;
      }
    }

    method SetOne(pos: nat)
      requires Valid() && pos < numBits
      modifies bits
      ensures forall p :: 0 <= p < numBits ==> (Holds(p) <==> old(Holds(p)) || p == pos)
    {
      hide Mask, Or, IsSet;
      ghost var before := bits[..];
      bits[pos / 64] := Or(bits[pos / 64], Mask(pos % 64));
      assert bits[..] == Setting(before, pos);
      forall p | 0 <= p < numBits ensures Holds(p) <==> old(Holds(p)) || p == pos {
        SettingSetsOne(before, pos, p);
      }
    }

    /** Sets exactly the probed bits, so an added id tests positive and nothing positive stops being so. */
    method Add(jti: Jti)
      requires Valid()
      modifies bits
      ensures forall p :: 0 <= p < numBits ==> (Holds(p) <==> old(Holds(p)) || Probes(jti, p, numHash))
      ensures Positive(jti)
      ensures forall other: Jti :: old(Positive(other)) ==> Positive(other)
    {
      hide Holds, Probe, Probes;
      NoProbes(jti);
      var i := 0;
      while i < numHash
        invariant i <= numHash
        invariant forall p :: 0 <= p < numBits ==> (Holds(p) <==> old(Holds(p)) || Probes(jti, p, i))
      {
        SetOne(Position(jti, i));
        forall p | 0 <= p < numBits
          ensures Probes(jti, p, i + 1) <==> Probes(jti, p, i) || p == Position(jti, i)
        {
          OneMoreProbe(jti, i, p);
        }
        i := i + 1;
      }
      forall k | 0 <= k < numHash ensures Holds(Position(jti, k)) {
        ProbedAt(jti, k);
      }
    }

    lemma NoProbes(jti: Jti)
      requires Valid()
      ensures forall p :: 0 <= p < numBits ==> !Probes(jti, p, 0)
    {}

    lemma ProbedAt(jti: Jti, k: nat)
      requires Valid() && k < numHash
      ensures Probes(jti, Position(jti, k), numHash)
    {}

    method Test(jti: Jti) returns (hit: bool)
      requires Valid()
      ensures hit <==> Positive(jti)
    {
      var i := 0;
      while i < numHash
        invariant i <= numHash
        invariant forall k :: 0 <= k < i ==> Holds(Position(jti, k))
      {
        if !Holds(Position(jti, i)) { return false; }
        i := i + 1;
      }
      return true;
    }
  }

  // ---- the tables ----

  class Tables {
    /** Revoked session ids with the expiry of their session. */
    var sessions: map<Jti, int>
    /** Per user, the time up to which all sessions are revoked. */
    var users: map<UserId, int>
    var now: int

    constructor (now: int)
      ensures sessions == map[] && users == map[] && this.now == now
    {
      sessions, users, this.now := map[], map[], now;
    }

    method RevokeSession(jti: Jti, expiresAt: int)
      modifies this`sessions
      ensures sessions == if jti in old(sessions) then old(sessions) else old(sessions)[jti := expiresAt]
    {
      if jti !in sessions { sessions := sessions[jti := expiresAt]; }
    }

    method RevokeAllUserSessions(user: UserId)
      modifies this`users
      ensures users == old(users)[user := now]
    {
      users := users[user := now];
    }

    method CleanExpired()
      modifies this`sessions
      ensures sessions == map j | j in old(sessions) && old(sessions)[j] >= now :: old(sessions)[j]
    {
      sessions := map j | j in sessions && sessions[j] >= now :: sessions[j];
    }

    ghost predicate Past()
      reads this
    {
      forall u <- users :: users[u] <= now
    }

    /** What the two tables say of a session now. */
    predicate Revoked(jti: Jti, user: UserId, issuedAt: int)
      reads this
    {
      CutOff(user, issuedAt) || Live(jti)
    }

    predicate CutOff(user: UserId, issuedAt: int)
      reads this
    {
      user in users && issuedAt <= users[user]
    }

    predicate Live(jti: Jti)
      reads this
    {
      jti in sessions && sessions[jti] > now
    }
  }

  // ---- the cache ----

  class RevocationCache {
    const db: Tables
    const hash: Jti -> nat
    var filter: BloomFilter
    var userRevoked: map<UserId, int>
    /** The session ids the current filter was built from. */
    ghost var loaded: set<Jti>

    constructor (db: Tables, hash: Jti -> nat)
      requires db.Past()
      ensures Valid() && this.db == db && this.hash == hash && loaded == {} && userRevoked == map[]
      ensures fresh(filter) && fresh(filter.bits)
    {
      this.db, this.hash := db, hash;
      filter := new BloomFilter(100, 6, hash);
      userRevoked, loaded := map[], {};
    }

    /** The filter knows every loaded id; user times are never ahead of the table. */
    ghost predicate Valid()
      reads this, db, filter, filter.bits
    {
      && filter.Valid()
      && (forall j <- loaded :: filter.Positive(j))
      && (forall u <- userRevoked :: u in db.users && userRevoked[u] <= db.users[u])
      && db.Past()
    }

    /** Rebuilds the filter and then the user map; either query may fail and leaves its part as it was. */
    method Refresh(sessionsRefused: bool, usersRefused: bool)
      requires Valid() && |db.sessions| < WORD / 16
      modifies this
      ensures Valid()
      ensures filter == old(filter) || (fresh(filter) && fresh(filter.bits))
      ensures unchanged(db) && (!sessionsRefused ==> forall j :: j in loaded <==> db.Live(j))
      ensures !sessionsRefused && !usersRefused ==> userRevoked == db.users
      ensures sessionsRefused ==> loaded == old(loaded)
      ensures sessionsRefused || usersRefused ==> userRevoked == old(userRevoked)
      ensures sessionsRefused ==> filter == old(filter)
      ensures !sessionsRefused ==>
                && filter.numHash == 6
                && var n := if |loaded| < 100 then 100 else |loaded|; 10 * n <= filter.numBits < 10 * n + 64
    {
      if sessionsRefused { return; }
      var jtis := set j | j in db.sessions && db.sessions[j] > db.now;
      assert jtis <= db.sessions.Keys;
      SubsetSize(jtis, db.sessions.Keys);
      var n := |jtis|;
      if n < 100 { n := 100; }
      var bf := new BloomFilter(n, 6, hash);
      var rest := jtis;
      while rest != {}
        invariant filter == old(filter) && loaded == old(loaded) && userRevoked == old(userRevoked)
        invariant rest <= jtis && bf.Valid() && fresh(bf) && fresh(bf.bits)
        invariant forall j <- jtis - rest :: bf.Positive(j)
        decreases rest
      {
        var j :| j in rest;
        bf.Add(j);
        rest := rest - {j};
      }
      filter, loaded := bf, jtis;
      if usersRefused { return; }
      userRevoked := db.users;
    }

    lemma SubsetSize<T>(a: set<T>, b: set<T>)
      requires a <= b
      ensures |a| <= |b|
    {
      assert b == a + (b - a);
    }

    /** The cache holds what it needs to see that this session is revoked. */
    ghost predicate Recognises(jti: Jti, user: UserId, issuedAt: int)
      reads this, db
    {
      (user in userRevoked && issuedAt <= userRevoked[user]) || (db.Live(jti) && jti in loaded)
    }

    /** Never claims a revocation the tables do not hold. `refused`: the point query fails. */
    method IsRevoked(jti: Jti, user: UserId, issuedAt: int, refused: bool) returns (r: Option<bool>)
      requires Valid()
      ensures r == Some(true) ==> db.Revoked(jti, user, issuedAt)
      ensures r.Some? && Recognises(jti, user, issuedAt) ==> r.value
      ensures r.None? ==> refused && filter.Positive(jti)
    {
      if user in userRevoked && issuedAt <= userRevoked[user] { return Some(true); }
      var hit := filter.Test(jti);
      if !hit { return Some(false); }
      if refused { return None; }
      return Some(db.Live(jti));
    }

    /** As after a refresh that worked. */
    ghost predicate UpToDate()
      reads this, db
    {
      userRevoked == db.users && forall j :: j in loaded <==> db.Live(j)
    }

    /** Right after a refresh that worked the cache recognises exactly the sessions the tables revoke. */
    lemma UpToDateIsExact(jti: Jti, user: UserId, issuedAt: int)
      requires UpToDate()
      ensures Recognises(jti, user, issuedAt) <==> db.Revoked(jti, user, issuedAt)
    {}

    /** One event. Live revocations stay as they are, and what was loaded stays known. */
    method Do(op: Op)
      requires Valid() && |db.sessions| < WORD / 16
      modifies this, db
      ensures Valid() && (filter == old(filter) || (fresh(filter) && fresh(filter.bits)))
      ensures old(db.now) <= db.now && |db.sessions| <= |old(db.sessions)| + 1
      ensures forall j <- old(db.sessions) :: old(db.sessions)[j] > db.now ==>
                j in db.sessions && db.sessions[j] == old(db.sessions)[j] && (j in old(loaded) ==> j in loaded)
      ensures forall u <- old(userRevoked) :: u in userRevoked && old(userRevoked)[u] <= userRevoked[u]
      ensures op == Op.Refresh(false, false) ==> UpToDate()
      ensures op.Refresh? && op.sessionsRefused ==> loaded == old(loaded)
      ensures op.Refresh? && !op.sessionsRefused ==> forall j :: j in loaded <==> db.Live(j)
      ensures !op.Refresh? || op.sessionsRefused || op.usersRefused ==> userRevoked == old(userRevoked)
      ensures db.now == if op.Wait? then old(db.now) + op.seconds else old(db.now)
      ensures db.users == if op.RevokeUser? then old(db.users)[op.user := db.now] else old(db.users)
      ensures op.RevokeOne? ==>
                db.sessions == if op.jti in old(db.sessions) then old(db.sessions)
                               else old(db.sessions)[op.jti := op.expiresAt]
      ensures op.Clean? ==>
                db.sessions == map j | j in old(db.sessions) && old(db.sessions)[j] >= db.now :: old(db.sessions)[j]
      ensures op.Wait? || op.RevokeUser? || op.Refresh? ==> db.sessions == old(db.sessions)
    {
      match op {
        case Wait(seconds) => db.now := db.now + seconds;
        case RevokeOne(jti, expiresAt) => db.RevokeSession(jti, expiresAt);
        case RevokeUser(user) => db.RevokeAllUserSessions(user);
        case Clean =>
          db.CleanExpired();
          SubsetSize(db.sessions.Keys, old(db.sessions).Keys);
        case Refresh(sessionsRefused, usersRefused) => Refresh(sessionsRefused, usersRefused);
      }
    }

    /** Any events: a user revoked in one of them is cut off from then on. */
    method Happen(ops: seq<Op>)
      requires Valid() && |db.sessions| + |ops| < WORD / 16
      modifies this, db
      ensures Valid() && (filter == old(filter) || (fresh(filter) && fresh(filter.bits)))
      ensures old(db.now) <= db.now && |db.sessions| <= |old(db.sessions)| + |ops|
      ensures forall op <- ops :: op.RevokeUser? ==> op.user in db.users && old(db.now) <= db.users[op.user]
    {
      ghost var revoked: set<UserId> := {};
      for i := 0 to |ops|
        invariant Valid() && (filter == old(filter) || (fresh(filter) && fresh(filter.bits)))
        invariant old(db.now) <= db.now && |db.sessions| <= |old(db.sessions)| + i
        invariant forall u <- revoked :: u in db.users && old(db.now) <= db.users[u]
        invariant forall k :: 0 <= k < i && ops[k].RevokeUser? ==> ops[k].user in revoked
      {
        Do(ops[i]);
        if ops[i].RevokeUser? { revoked := revoked + {ops[i].user}; }
      }
    }

    /**
     From an up-to-date cache on, whatever happens, every user cut-off held then and every session revocation held
     then that has not expired keeps being recognised.
     */
    method Follow(ops: seq<Op>)
      requires Valid() && UpToDate() && |db.sessions| + |ops| < WORD / 16
      modifies this, db
      ensures Valid()
      ensures forall jti: Jti, user: UserId, issuedAt: int ::
                old(db.CutOff(user, issuedAt)) || (jti in old(db.sessions) && old(db.sessions)[jti] > db.now)
                ==> Recognises(jti, user, issuedAt) && db.Revoked(jti, user, issuedAt)
    {
      for i := 0 to |ops|
        invariant Valid() && (filter == old(filter) || (fresh(filter) && fresh(filter.bits)))
        invariant old(db.now) <= db.now && |db.sessions| <= |old(db.sessions)| + i
        invariant forall j <- old(db.sessions) :: old(db.sessions)[j] > db.now ==>
                    j in db.sessions && db.sessions[j] == old(db.sessions)[j] && j in loaded
        invariant forall u <- old(db.users) :: u in userRevoked && old(db.users)[u] <= userRevoked[u]
      {
        Do(ops[i]);
      }
    }
  }

  datatype Op =
    | Wait(seconds: nat)
    | RevokeOne(jti: Jti, expiresAt: int)
    | RevokeUser(user: UserId)
    | Clean
    | Refresh(sessionsRefused: bool, usersRefused: bool)

  /** A service from its start: events, and then a refresh that works. */
  method Begin(hash: Jti -> nat, start: int, before: seq<Op>) returns (db: Tables, cache: RevocationCache)
    requires |before| < WORD / 16 - 1
    ensures fresh(db) && fresh(cache) && fresh(cache.filter) && fresh(cache.filter.bits)
    ensures cache.db == db && cache.Valid() && cache.UpToDate() && |db.sessions| <= |before|
    ensures forall op <- before :: op.RevokeUser? ==> op.user in db.users && start <= db.users[op.user]
  {
    db := new Tables(start);
    cache := new RevocationCache(db, hash);
    cache.Happen(before);
    cache.Refresh(false, false);
  }

  /**
   Then more events. Every user revoked before that refresh is recognised at the end, for every session issued until
   the start; and the second half keeps the promise above.
   */
  method Run(hash: Jti -> nat, start: int, before: seq<Op>, after: seq<Op>)
      returns (db: Tables, cache: RevocationCache)
    requires |before| + |after| < WORD / 16 - 1
    ensures cache.db == db && cache.Valid()
    ensures after == [] ==> cache.UpToDate()
    ensures forall op <- before, jti: Jti, issuedAt: int :: op.RevokeUser? && issuedAt <= start ==>
              cache.Recognises(jti, op.user, issuedAt) && db.Revoked(jti, op.user, issuedAt)
  {
    db, cache := Begin(hash, start, before);
    assert forall op <- before, issuedAt: int :: op.RevokeUser? && issuedAt <= start ==> db.CutOff(op.user, issuedAt);
    if after != [] { cache.Follow(after); }
  }
}
