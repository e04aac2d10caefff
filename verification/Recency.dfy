/** Least-recently-used order as a reference: what the sequence of successful uses says, without any pool. */
module Recency {

  /** A workspace role, which names a pool. */
  datatype Role = Role(name: string)

  function Without(s: seq<Role>, r: Role): seq<Role> {
    if s == [] then []
    else if s[0] == r then Without(s[1..], r)
    else [s[0]] + Without(s[1..], r)
  }

  /** The distinct roles of a history of uses, most recently used first. */
  function MostRecent(uses: seq<Role>): seq<Role> {
    if uses == [] then []
    else [uses[|uses| - 1]] + Without(MostRecent(uses[..|uses| - 1]), uses[|uses| - 1])
  }

  predicate NoRepeats(s: seq<Role>) {
    forall i, j :: 0 <= i < j < |s| ==> s[i] != s[j]
  }

  /** The position of the last use of `r`. */
  function LastUse(uses: seq<Role>, r: Role): nat
    requires r in uses
  {
    if uses[|uses| - 1] == r then |uses| - 1 else LastUse(uses[..|uses| - 1], r)
  }

  lemma {:induction false} WithoutMembers(s: seq<Role>, r: Role)
    ensures forall x :: x in Without(s, r) <==> x in s && x != r
  {
    if s != [] {
      WithoutMembers(s[1..], r);
      assert forall x :: x in s <==> x == s[0] || x in s[1..];
    }
  }

  lemma {:induction false} WithoutNoRepeats(s: seq<Role>, r: Role)
    requires NoRepeats(s)
    ensures NoRepeats(Without(s, r))
    ensures |Without(s, r)| == if r in s then |s| - 1 else |s|
  {
    if s != [] {
      WithoutNoRepeats(s[1..], r);
      WithoutMembers(s[1..], r);
      if s[0] != r {
        var t := Without(s[1..], r);
        forall i, j | 0 <= i < j < |[s[0]] + t| ensures ([s[0]] + t)[i] != ([s[0]] + t)[j] {
          if i == 0 { assert t[j - 1] in t; }
        }
      } else {
        assert r !in s[1..];
      }
    }
  }

  /** The roles of `m` have been used, and stand in decreasing order of their last use. */
  predicate ByLastUse(m: seq<Role>, uses: seq<Role>) {
    && (forall i :: 0 <= i < |m| ==> m[i] in uses)
    && (forall i, j :: 0 <= i < j < |m| ==> LastUse(uses, m[i]) > LastUse(uses, m[j]))
  }

  lemma ByLastUseCons(x: Role, m: seq<Role>, uses: seq<Role>)
    requires ByLastUse(m, uses) && x in uses
    requires forall j :: 0 <= j < |m| ==> LastUse(uses, x) > LastUse(uses, m[j])
    ensures ByLastUse([x] + m, uses)
  {}

  lemma {:induction false} WithoutKeepsOrder(s: seq<Role>, r: Role, uses: seq<Role>)
    requires ByLastUse(s, uses)
    ensures ByLastUse(Without(s, r), uses)
  {
    if s != [] {
      WithoutKeepsOrder(s[1..], r, uses);
      WithoutMembers(s[1..], r);
      if s[0] != r {
        var t := Without(s[1..], r);
        forall j | 0 <= j < |t| ensures LastUse(uses, s[0]) > LastUse(uses, t[j]) {
          assert t[j] in s[1..];
          var k :| 0 <= k < |s[1..]| && s[1..][k] == t[j];
          assert s[k + 1] == t[j];
        }
        ByLastUseCons(s[0], t, uses);
      }
    }
  }

  lemma LaterUseOfAnother(m: seq<Role>, uses: seq<Role>, last: Role)
    requires ByLastUse(m, uses) && last !in m
    ensures ByLastUse(m, uses + [last])
    ensures forall j :: 0 <= j < |m| ==> LastUse(uses + [last], m[j]) < |uses|
  {
    assert (uses + [last])[..|uses + [last]| - 1] == uses;
    forall j | 0 <= j < |m| ensures m[j] in uses + [last] && LastUse(uses + [last], m[j]) == LastUse(uses, m[j]) < |uses| {
      LastUseBounded(uses, m[j]);
    }
  }

  lemma {:induction false} LastUseBounded(uses: seq<Role>, r: Role)
    requires r in uses
    ensures LastUse(uses, r) < |uses| && uses[LastUse(uses, r)] == r
    ensures forall k :: LastUse(uses, r) < k < |uses| ==> uses[k] != r
  {
    if uses[|uses| - 1] != r {
      LastUseBounded(uses[..|uses| - 1], r);
    }
  }

  /** `MostRecent` lists exactly the used roles, once each, in decreasing order of their last use. */
  lemma {:induction false} MostRecentIsByLastUse(uses: seq<Role>)
    ensures NoRepeats(MostRecent(uses))
    ensures forall r :: r in MostRecent(uses) <==> r in uses
    ensures ByLastUse(MostRecent(uses), uses)
  {
    if uses != [] {
      var n := |uses| - 1;
      var before, last := uses[..n], uses[n];
      MostRecentIsByLastUse(before);
      assert uses == before + [last];
      var rest := Without(MostRecent(before), last);
      WithoutNoRepeats(MostRecent(before), last);
      WithoutMembers(MostRecent(before), last);
      WithoutKeepsOrder(MostRecent(before), last, before);
      LaterUseOfAnother(rest, before, last);
      ByLastUseCons(last, rest, uses);
    }
  }

  // ---- the pools that stay live ----

  /** What one request does to the live roles, most recent first: `opens` says whether a new pool could be opened. */
  function Serve(live: seq<Role>, role: Role, max: nat, opens: bool): seq<Role> {
    if role in live then [role] + Without(live, role)
    else
      var kept := if |live| >= max && live != [] then live[..|live| - 1] else live;
      if opens then [role] + kept else kept
  }

  lemma {:induction false} WithoutAbsent(s: seq<Role>, r: Role)
    requires r !in s
    ensures Without(s, r) == s
  {
    if s != [] { WithoutAbsent(s[1..], r); }
  }

  lemma {:induction false} WithoutAppend(a: seq<Role>, b: seq<Role>, r: Role)
    ensures Without(a + b, r) == Without(a, r) + Without(b, r)
  {
    if a == [] {
      assert a + b == b;
    } else {
      WithoutAppend(a[1..], b, r);
      assert (a + b)[1..] == a[1..] + b;
      if a[0] != r {
        assert [a[0]] + (Without(a[1..], r) + Without(b, r)) == Without(a, r) + Without(b, r);
      }
    }
  }

  lemma FrontWithout(front: seq<Role>, s: seq<Role>, r: Role)
    requires front <= s
    ensures Without(front, r) <= Without(s, r)
  {
    assert s == front + s[|front|..];
    WithoutAppend(front, s[|front|..], r);
  }

  lemma MostRecentStep(uses: seq<Role>, role: Role)
    ensures MostRecent(uses + [role]) == [role] + Without(MostRecent(uses), role)
  {
    assert (uses + [role])[..|uses + [role]| - 1] == uses;
  }

  /** Whatever opens or fails, the live roles are the front of the most-recently-used order of the successful uses. */
  lemma ServeKeepsFront(uses: seq<Role>, live: seq<Role>, role: Role, max: nat, opens: bool)
    requires live <= MostRecent(uses)
    ensures Serve(live, role, max, opens) <= MostRecent(if role in live || opens then uses + [role] else uses)
  {
    MostRecentStep(uses, role);
    if role in live {
      FrontWithout(live, MostRecent(uses), role);
    } else {
      var kept := if |live| >= max && live != [] then live[..|live| - 1] else live;
      assert kept <= MostRecent(uses) && role !in kept;
      FrontWithout(kept, MostRecent(uses), role);
      WithoutAbsent(kept, role);
    }
  }

  lemma FrontsOfOneLength(a: seq<Role>, b: seq<Role>, s: seq<Role>)
    requires a <= s && b <= s && |a| == |b|
    ensures a == b
  {
    assert a == s[..|a|] == b;
  }

  lemma ServeLength(uses: seq<Role>, live: seq<Role>, role: Role, max: nat)
    requires max > 0 && live <= MostRecent(uses) && |live| == Min(max, |MostRecent(uses)|)
    ensures |Serve(live, role, max, true)| == Min(max, |MostRecent(uses + [role])|)
  {
    var m := MostRecent(uses);
    MostRecentIsByLastUse(uses);
    MostRecentStep(uses, role);
    WithoutNoRepeats(m, role);
    assert live == m[..|live|];
    if role in live {
      assert NoRepeats(live);
      WithoutNoRepeats(live, role);
    } else if |m| <= max {
      assert live == m;
    }
  }

  /** If every pool opens, the live roles are exactly the `max` most recently used ones. */
  lemma ServeExact(uses: seq<Role>, live: seq<Role>, role: Role, max: nat)
    requires max > 0
    requires live == MostRecent(uses)[..Min(max, |MostRecent(uses)|)]
    ensures Serve(live, role, max, true) ==
            MostRecent(uses + [role])[..Min(max, |MostRecent(uses + [role])|)]
  {
    var m' := MostRecent(uses + [role]);
    ServeKeepsFront(uses, live, role, max, true);
    ServeLength(uses, live, role, max);
    FrontsOfOneLength(Serve(live, role, max, true), m'[..Min(max, |m'|)], m');
  }

  function Min(a: nat, b: nat): nat {
    if a < b then a else b
  }
}
