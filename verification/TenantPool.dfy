/** The bounded pool manager: one connection pool per workspace role, the least recently used one evicted first. */
module TenantPool {
  import opened Prelude
  import opened Recency

  /** An element of the recency list; list elements have identity, so the index can point at them. */
  datatype Element = Element(id: nat, role: Role)

  type PoolId = nat

  function Roles(list: seq<Element>): (r: seq<Role>)
    ensures |r| == |list| && forall i :: 0 <= i < |list| ==> r[i] == list[i].role
  {
    if list == [] then [] else [list[0].role] + Roles(list[1..])
  }

  function Removed(list: seq<Element>, e: Element): seq<Element> {
    if list == [] then []
    else if list[0] == e then list[1..]
    else [list[0]] + Removed(list[1..], e)
  }

  lemma {:induction false} RemovedMembers(list: seq<Element>, e: Element)
    requires NoRepeats(Roles(list)) && e in list
    ensures |Removed(list, e)| == |list| - 1
    ensures forall x :: x in Removed(list, e) <==> x in list && x.role != e.role
  {
    assert NoRepeats(Roles(list[1..]));
    if list[0] == e {
      forall x | x in list[1..] ensures x.role != e.role {
        var k :| 0 <= k < |list[1..]| && list[1..][k] == x;
        assert Roles(list)[0] != Roles(list)[k + 1];
      }
    } else {
      var k :| 0 <= k < |list[1..]| && list[1..][k] == e;
      assert Roles(list)[0] != Roles(list)[k + 1];
      RemovedMembers(list[1..], e);
    }
  }

  /** Taking out the one element of a role takes out that role. */
  lemma {:induction false} RemovedRoles(list: seq<Element>, e: Element)
    requires NoRepeats(Roles(list)) && e in list
    ensures Roles(Removed(list, e)) == Without(Roles(list), e.role)
  {
    var rest := list[1..];
    assert Roles(list)[1..] == Roles(rest) && NoRepeats(Roles(rest));
    if list[0] == e {
      assert e.role !in Roles(rest) by {
        forall k | 0 <= k < |rest| ensures Roles(rest)[k] != e.role {
          assert Roles(list)[0] != Roles(list)[k + 1];
        }
      }
      WithoutAbsent(Roles(rest), e.role);
    } else {
      var k :| 0 <= k < |rest| && rest[k] == e;
      assert Roles(list)[0] != Roles(list)[k + 1];
      RemovedRoles(rest, e);
      assert Removed(list, e)[1..] == Removed(rest, e);
    }
  }

  lemma {:induction false} RolesAppend(front: seq<Element>, last: Element)
    ensures Roles(front + [last]) == Roles(front) + [last.role]
  {
    if front != [] {
      RolesAppend(front[1..], last);
      assert (front + [last])[1..] == front[1..] + [last];
    }
  }

  lemma BackElement(front: seq<Element>, last: Element, x: Element)
    requires NoRepeats(Roles(front + [last])) && x in front
    ensures x.role != last.role
  {
    var k :| 0 <= k < |front| && front[k] == x;
    assert Roles(front + [last])[k] != Roles(front + [last])[|front|];
  }

  // ---- map, list and index agree ----

  /** The index points from each role in the list to its element, and from nothing else. */
  predicate Indexes(lru: seq<Element>, lruIdx: map<Role, Element>) {
    && (forall e <- lru :: e.role in lruIdx && lruIdx[e.role] == e)
    && (forall role <- lruIdx :: lruIdx[role] in lru && lruIdx[role].role == role)
  }

  /** Map, list and index hold the same roles without repeats. */
  predicate Agree(pools: map<Role, PoolId>, lru: seq<Element>, lruIdx: map<Role, Element>) {
    NoRepeats(Roles(lru)) && Indexes(lru, lruIdx) && pools.Keys == lruIdx.Keys && |pools.Keys| == |lru|
  }

  lemma InRoles(lru: seq<Element>, role: Role)
    ensures role in Roles(lru) <==> exists e <- lru :: e.role == role
  {
    if role in Roles(lru) {
      var k :| 0 <= k < |lru| && Roles(lru)[k] == role;
      assert lru[k] in lru;
    }
    if exists e <- lru :: e.role == role {
      var e :| e in lru && e.role == role;
      var k :| 0 <= k < |lru| && lru[k] == e;
      assert Roles(lru)[k] == role;
    }
  }

  lemma LiveIffPooled(pools: map<Role, PoolId>, lru: seq<Element>, lruIdx: map<Role, Element>, role: Role)
    requires Agree(pools, lru, lruIdx)
    ensures role in Roles(lru) <==> role in pools
    ensures |pools| == |lru|
  {
    InRoles(lru, role);
    if role in pools { assert lruIdx[role] in lru; }
  }

  lemma NoRepeatsCons(x: Role, s: seq<Role>)
    requires NoRepeats(s) && x !in s
    ensures NoRepeats([x] + s)
  {}

  lemma AgreeTouch(pools: map<Role, PoolId>, lru: seq<Element>, lruIdx: map<Role, Element>, role: Role)
    requires Agree(pools, lru, lruIdx) && role in lruIdx
    ensures var e := lruIdx[role];
            && Agree(pools, [e] + Removed(lru, e), lruIdx)
            && Roles([e] + Removed(lru, e)) == [role] + Without(Roles(lru), role)
            && |[e] + Removed(lru, e)| == |lru|
  {
    hide Roles, NoRepeats;
    var e := lruIdx[role];
    RemovedMembers(lru, e);
    RemovedRoles(lru, e);
    WithoutNoRepeats(Roles(lru), role);
    WithoutMembers(Roles(lru), role);
    PushRoles(e, Removed(lru, e));
    IndexesTouch(lru, lruIdx, role);
  }

  lemma IndexesTouch(lru: seq<Element>, lruIdx: map<Role, Element>, role: Role)
    requires NoRepeats(Roles(lru)) && Indexes(lru, lruIdx) && role in lruIdx
    ensures Indexes([lruIdx[role]] + Removed(lru, lruIdx[role]), lruIdx)
  {
    hide Roles, NoRepeats;
    var e := lruIdx[role];
    RemovedMembers(lru, e);
    var list := [e] + Removed(lru, e);
    assert list[0] == e;
    forall r | r in lruIdx ensures lruIdx[r] in list {
      if r != role { assert lruIdx[r] in Removed(lru, e); }
    }
  }

  lemma AgreeEvict(pools: map<Role, PoolId>, front: seq<Element>, last: Element, lruIdx: map<Role, Element>)
    requires Agree(pools, front + [last], lruIdx)
    ensures last.role in pools
    ensures Agree(pools - {last.role}, front, lruIdx - {last.role})
  {
    hide Indexes;
    IndexesEvict(front, last, lruIdx);
    RolesAppend(front, last);
    assert NoRepeats(Roles(front)) by {
      forall i, j | 0 <= i < j < |front| ensures Roles(front)[i] != Roles(front)[j] {
        assert Roles(front + [last])[i] != Roles(front + [last])[j];
      }
    }
    assert (pools - {last.role}).Keys == pools.Keys - {last.role};
  }

  lemma IndexesEvict(front: seq<Element>, last: Element, lruIdx: map<Role, Element>)
    requires NoRepeats(Roles(front + [last])) && Indexes(front + [last], lruIdx)
    ensures last.role in lruIdx && Indexes(front, lruIdx - {last.role})
  {
    hide Roles, NoRepeats;
    var lru := front + [last];
    assert lru[|front|] == last;
    forall e | e in front ensures e.role in lruIdx - {last.role} && lruIdx[e.role] == e {
      BackElement(front, last, e);
      assert e in lru;
    }
    forall r | r in lruIdx - {last.role} ensures lruIdx[r] in front {
      assert lruIdx[r] in lru && lruIdx[r] != last;
    }
  }

  lemma AgreePush(pools: map<Role, PoolId>, lru: seq<Element>, lruIdx: map<Role, Element>, e: Element, p: PoolId)
    requires Agree(pools, lru, lruIdx) && e.role !in pools
    ensures Agree(pools[e.role := p], [e] + lru, lruIdx[e.role := e])
    ensures Roles([e] + lru) == [e.role] + Roles(lru)
  {
    hide Roles, NoRepeats, Indexes;
    LiveIffPooled(pools, lru, lruIdx, e.role);
    PushRoles(e, lru);
    IndexesPush(lru, lruIdx, e);
    KeysPush(pools, e.role, p);
    KeysPush(lruIdx, e.role, e);
  }

  lemma KeysPush<T>(m: map<Role, T>, role: Role, t: T)
    requires role !in m
    ensures m[role := t].Keys == m.Keys + {role} && |m[role := t].Keys| == |m.Keys| + 1
  {}

  lemma IndexesPush(lru: seq<Element>, lruIdx: map<Role, Element>, e: Element)
    requires Indexes(lru, lruIdx) && e.role !in lruIdx
    ensures Indexes([e] + lru, lruIdx[e.role := e])
  {
    assert ([e] + lru)[0] == e;
    forall r | r in lruIdx ensures lruIdx[r] in [e] + lru {
      assert lruIdx[r] in lru;
    }
  }

  lemma PushRoles(e: Element, lru: seq<Element>)
    requires NoRepeats(Roles(lru)) && e.role !in Roles(lru)
    ensures Roles([e] + lru) == [e.role] + Roles(lru) && NoRepeats(Roles([e] + lru))
  {
    assert ([e] + lru)[1..] == lru;
    NoRepeatsCons(e.role, Roles(lru));
  }

  // ---- every pool is accounted for ----

  /** Every pool ever opened is live under one role, or has been closed, and closed once. */
  predicate Accounted(pools: map<Role, PoolId>, closings: seq<PoolId>, count: nat) {
    && (forall i, j :: 0 <= i < j < |closings| ==> closings[i] != closings[j])
    && (forall r1 <- pools, r2 <- pools :: r1 != r2 ==> pools[r1] != pools[r2])
    && (forall role <- pools :: pools[role] < count && pools[role] !in closings)
    && (forall p <- closings :: p < count)
    && (forall p :: 0 <= p < count && p !in closings ==> exists role <- pools :: pools[role] == p)
  }

  lemma AccountedClose(pools: map<Role, PoolId>, closings: seq<PoolId>, count: nat, role: Role)
    requires Accounted(pools, closings, count) && role in pools
    ensures Accounted(pools - {role}, closings + [pools[role]], count)
  {
    var left, more := pools - {role}, closings + [pools[role]];
    forall p | 0 <= p < count && p !in more ensures exists r <- left :: left[r] == p {
      assert p !in closings && p != more[|closings|];
      var r :| r in pools && pools[r] == p;
      assert r in left;
    }
  }

  lemma AccountedOpen(pools: map<Role, PoolId>, closings: seq<PoolId>, count: nat, role: Role)
    requires Accounted(pools, closings, count) && role !in pools
    ensures Accounted(pools[role := count], closings, count + 1)
  {
    var more := pools[role := count];
    forall p | 0 <= p < count + 1 && p !in closings ensures exists r <- more :: more[r] == p {
      if p == count {
        assert role in more;
      } else {
        var r :| r in pools && pools[r] == p;
        assert r in more;
      }
    }
  }

  lemma NoneLeft(closings: seq<PoolId>, count: nat)
    requires Accounted(map[], closings, count)
    ensures forall p: PoolId :: p < count ==> p in closings
    ensures Agree(map[], [], map[])
  {}

  // ---- the pool manager ----

  class TenantPools {
    var pools: map<Role, PoolId>
    var lru: seq<Element>
    var lruIdx: map<Role, Element>
    var closed: bool
    const maxPools: nat

    var nextElement: nat
    /** Pools are numbered as they are opened; `closings` lists the pools closed so far, in order. */
    var openCount: nat
    var closings: seq<PoolId>
    /** The roles whose requests were answered with a pool, oldest first. */
    ghost var uses: seq<Role>

    constructor (maxPools: int)
      ensures Valid() && uses == [] && !closed && openCount == 0 && pools == map[]
      ensures this.maxPools == if maxPools <= 0 then 20 else maxPools
    {
      pools, lru, lruIdx, closed := map[], [], map[], false;
      this.maxPools := if maxPools <= 0 then 20 else maxPools;
      nextElement, openCount, closings, uses := 0, 0, [], [];
    }

    function Live(): seq<Role>
      reads this
    {
      Roles(lru)
    }

    ghost predicate Valid()
      reads this
    {
      && 0 < maxPools && |lru| <= maxPools
      && Agree(pools, lru, lruIdx)
      && Accounted(pools, closings, openCount)
      && Live() <= MostRecent(uses)
      && (closed ==> pools == map[])
    }

    method Touch(role: Role)
      requires Agree(pools, lru, lruIdx)
      modifies this`lru
      ensures Agree(pools, lru, lruIdx) && |lru| == |old(lru)|
      ensures Live() == if role in pools then [role] + Without(old(Live()), role) else old(Live())
    {
      hide NoRepeats, Indexes, Roles, Without;
      if role in lruIdx {
        var e := lruIdx[role];
        AgreeTouch(pools, lru, lruIdx, role);
        lru := [e] + Removed(lru, e);
      }
    }

    /** Closes and forgets the pool at the back of the list. */
    method EvictLRU()
      requires Agree(pools, lru, lruIdx) && Accounted(pools, closings, openCount)
      modifies this`pools, this`lru, this`lruIdx, this`closings
      ensures Agree(pools, lru, lruIdx) && Accounted(pools, closings, openCount)
      ensures old(lru) == [] ==> lru == [] && pools == old(pools) && closings == old(closings)
      ensures old(lru) != [] ==>
                && Live() == old(Live())[..|old(Live())| - 1]
                && closings == old(closings) + [old(pools[Live()[|lru| - 1]])]
      ensures forall role <- pools :: role in old(pools)
    {
      hide Agree, Accounted;
      if lru == [] { return; }
      var n := |lru| - 1;
      var role := lru[n].role;
      assert lru == lru[..n] + [lru[n]];
      AgreeEvict(pools, lru[..n], lru[n], lruIdx);
      RolesAppend(lru[..n], lru[n]);
      AccountedClose(pools, closings, openCount, role);
      closings := closings + [pools[role]];
      pools := pools - {role};
      lru := lru[..n];
      lruIdx := lruIdx - {role};
    }

    /** `dsnOk` and `openOk` say whether the credentials resolve and the pool opens. */
    method GetOrCreate(role: Role, dsnOk: bool, openOk: bool) returns (r: Option<PoolId>)
      requires Valid()
      modifies this
      ensures Valid() && closed == old(closed)
      ensures closed ==> r.None? && Live() == old(Live()) && closings == old(closings)
      ensures !closed ==> Live() == Serve(old(Live()), role, maxPools, dsnOk && openOk)
      ensures r.Some? <==> !closed && (role in old(pools) || (dsnOk && openOk))
      ensures r.Some? ==> role in pools && pools[role] == r.value && uses == old(uses) + [role]
      ensures r.None? ==> uses == old(uses)
      ensures role in old(pools) && r.Some? ==> pools == old(pools) && openCount == old(openCount)
      ensures role !in old(pools) && r.Some? ==> r.value == old(openCount) && openCount == old(openCount) + 1
    {
      hide Agree, Accounted, Roles, MostRecent, Without;
      if closed { return None; }
      LiveIffPooled(pools, lru, lruIdx, role);
      ServeKeepsFront(uses, Live(), role, maxPools, dsnOk && openOk);

      if role in pools {
        Touch(role);
        uses := uses + [role];
        return Some(pools[role]);
      }

      if |pools| >= maxPools {
        EvictLRU();
      }
      if !dsnOk { return None; }
      if !openOk { return None; }

      var pool := openCount;
      var e := Element(nextElement, role);
      AccountedOpen(pools, closings, openCount, role);
      AgreePush(pools, lru, lruIdx, e, pool);
      openCount := openCount + 1;
      nextElement := nextElement + 1;
      pools := pools[role := pool];
      lru := [e] + lru;
      lruIdx := lruIdx[role := e];
      uses := uses + [role];
      return Some(pool);
    }

    /** Closes every live pool; a second call does nothing. */
    method Close()
      requires Valid()
      modifies this`pools, this`lru, this`lruIdx, this`closings, this`closed
      ensures Valid() && closed && pools == map[] && lru == []
      ensures old(closed) ==> closings == old(closings)
      ensures forall p: PoolId :: p < openCount ==> p in closings
    {
      hide Agree, Accounted;
      if closed {
        NoneLeft(closings, openCount);
        LiveIffPooled(pools, lru, lruIdx, Role(""));
        return;
      }
      closed := true;
      while pools != map[]
        invariant Accounted(pools, closings, openCount) && closed && uses == old(uses) && openCount == old(openCount)
        decreases pools.Keys
      {
        var role :| role in pools;
        AccountedClose(pools, closings, openCount, role);
        closings := closings + [pools[role]];
        pools := pools - {role};
      }
      lru, lruIdx := [], map[];
      NoneLeft(closings, openCount);
    }
  }

  lemma NothingUsed()
    ensures MostRecent([]) == []
  {}

  datatype Request = Get(role: Role, dsnOk: bool, openOk: bool) | Shut

  /** The live roles and whether the manager is shut, as the requests alone say. */
  datatype Expected = Expected(live: seq<Role>, shut: bool)

  function After(requests: seq<Request>, max: nat): Expected {
    if requests == [] then Expected([], false)
    else
      var before := After(requests[..|requests| - 1], max);
      match requests[|requests| - 1]
      case Shut => Expected([], true)
      case Get(role, dsnOk, openOk) =>
        if before.shut then before else Expected(Serve(before.live, role, max, dsnOk && openOk), false)
  }

  /**
   Any run of requests, with any failures, keeps the manager valid and leaves the live roles that the requests say;
   and if nothing failed and nothing was shut, those are exactly the `maxPools` most recently used ones.
   */
  method Run(max: int, requests: seq<Request>) returns (tp: TenantPools)
    ensures fresh(tp) && tp.Valid() && tp.maxPools == if max <= 0 then 20 else max
    ensures Expected(tp.Live(), tp.closed) == After(requests, tp.maxPools)
    ensures (forall i :: 0 <= i < |requests| ==> requests[i].Get? && requests[i].dsnOk && requests[i].openOk) ==>
              && |tp.uses| == |requests| && (forall i :: 0 <= i < |requests| ==> tp.uses[i] == requests[i].role)
              && tp.Live() == MostRecent(tp.uses)[..Min(tp.maxPools, |MostRecent(tp.uses)|)]
  {
    hide Agree, Accounted, MostRecent, Serve;
    tp := new TenantPools(max);
    assert MostRecent([]) == [] by { NothingUsed(); }
    ghost var sunny := forall i :: 0 <= i < |requests| ==> requests[i].Get? && requests[i].dsnOk && requests[i].openOk;
    for i := 0 to |requests|
      invariant fresh(tp) && tp.Valid()
      invariant Expected(tp.Live(), tp.closed) == After(requests[..i], tp.maxPools)
      invariant sunny ==> !tp.closed && |tp.uses| == i
      invariant sunny ==> forall k :: 0 <= k < i ==> tp.uses[k] == requests[k].role
      invariant sunny ==> tp.Live() == MostRecent(tp.uses)[..Min(tp.maxPools, |MostRecent(tp.uses)|)]
    {
      assert requests[..i + 1][..i] == requests[..i];
      match requests[i] {
        case Get(role, dsnOk, openOk) =>
          if sunny { ServeExact(tp.uses, tp.Live(), role, tp.maxPools); }
          var _ := tp.GetOrCreate(role, dsnOk, openOk);
        case Shut =>
          tp.Close();
      }
    }
    assert requests[..|requests|] == requests;
  }
}
