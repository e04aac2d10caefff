/**
 The workers' way into a workspace: borrow a connection, check it is scoped to the workspace, open a transaction on it
 and hand out a release function that works once. Connections are numbered as they are borrowed.
 */
module TenantTx {
  import opened Prelude

  /** Which step of the acquisition fails, if any. */
  datatype Fault = NoFault | OnResolve | OnPool | OnAcquire | OnVerify | OnBegin

  /** The transaction behind a borrowed connection, and whether its release function has been called. */
  datatype Lease = Lease(ended: bool, released: bool)

  datatype End = Committed(conn: nat) | RolledBack(conn: nat)

  predicate Distinct<T(==)>(s: seq<T>) {
    forall i, j :: 0 <= i < j < |s| ==> s[i] != s[j]
  }

  lemma DistinctAppend<T>(s: seq<T>, x: T)
    requires Distinct(s) && x !in s
    ensures Distinct(s + [x])
  {}

  function Conns(ends: seq<End>): (c: seq<nat>)
    ensures |c| == |ends| && forall i :: 0 <= i < |ends| ==> c[i] == ends[i].conn
  {
    seq(|ends|, i requires 0 <= i < |ends| => ends[i].conn)
  }

  class Connections {
    var borrowed: nat
    var leases: map<nat, Lease>
    /** Connections given back to their pool, and transactions that ended, in order. */
    var returned: seq<nat>
    var ends: seq<End>

    constructor ()
      ensures Valid() && borrowed == 0 && leases == map[] && returned == [] && ends == []
    {
      borrowed, leases, returned, ends := 0, map[], [], [];
    }

    /**
     A connection is given back at most once, and is out only under a lease that was not released; a transaction ends
     at most once, and a released one has ended.
     */
    ghost predicate Valid()
      reads this
    {
      && Distinct(returned) && Distinct(Conns(ends))
      && (forall c <- leases :: c < borrowed && (leases[c].released ==> leases[c].ended))
      && (forall c: nat :: c in returned <==> c < borrowed && (c in leases ==> leases[c].released))
      && (forall c: nat :: c in Conns(ends) <==> c in leases && leases[c].ended)
    }

    method GiveBack(c: nat)
      modifies this`returned
      ensures returned == old(returned) + [c]
    {
      returned := returned + [c];
    }

    method AcquireTx(fault: Fault) returns (r: Option<nat>)
      requires Valid()
      modifies this`borrowed, this`leases, this`returned
      ensures Valid()
      ensures old(borrowed) <= borrowed && (r.Some? <==> fault.NoFault?)
      ensures r.Some? ==> r.value == old(borrowed) && borrowed == r.value + 1 && returned == old(returned)
                          && leases == old(leases)[r.value := Lease(false, false)]
      ensures r.None? ==> leases == old(leases)
                          && returned == old(returned) + if fault in {OnVerify, OnBegin} then [old(borrowed)] else []
    {
      if fault == OnResolve || fault == OnPool || fault == OnAcquire { return None; }
      var conn := borrowed;
      borrowed := borrowed + 1;
      if fault == OnVerify || fault == OnBegin {
        DistinctAppend(returned, conn);
        GiveBack(conn);
        return None;
      }
      leases := leases[conn := Lease(false, false)];
      return Some(conn);
    }

    /** The caller's commit; on a transaction that has ended it does nothing. */
    method Commit(c: nat, refused: bool)
      requires Valid() && c in leases
      modifies this`leases, this`ends
      ensures Valid()
      ensures leases == old(leases)[c := old(leases)[c].(ended := true)]
      ensures ends == if old(leases)[c].ended then old(ends)
                      else old(ends) + [if refused then RolledBack(c) else Committed(c)]
    {
      if leases[c].ended { return; }
      DistinctAppend(Conns(ends), c);
      leases := leases[c := leases[c].(ended := true)];
      ends := ends + [if refused then RolledBack(c) else Committed(c)];
      assert Conns(ends) == Conns(old(ends)) + [c];
    }

    /** Rolls back what has not ended and gives the connection back; every call after the first does nothing. */
    method Release(c: nat)
      requires Valid() && c in leases
      modifies this`leases, this`ends, this`returned
      ensures Valid()
      ensures leases == old(leases)[c := Lease(true, true)]
      ensures ends == if old(leases)[c].ended then old(ends) else old(ends) + [RolledBack(c)]
      ensures returned == if old(leases)[c].released then old(returned) else old(returned) + [c]
    {
      if leases[c].released { return; }
      DistinctAppend(returned, c);
      if !leases[c].ended {
        DistinctAppend(Conns(ends), c);
        ends := ends + [RolledBack(c)];
        assert Conns(ends) == Conns(old(ends)) + [c];
      }
      GiveBack(c);
      leases := leases[c := Lease(true, true)];
    }

    /** Lease `c` is as the events so far say. */
    ghost predicate Follows(c: nat, done: seq<Op>)
      reads this
    {
      LeaseFollows(leases, ends, c, done)
    }

    /**
     Lease `c` began just before event `from[c]`: at 0 if it was there to begin with, else after the acquisition that
     gave it; and from there on it is as the first `n` events say.
     */
    ghost predicate Tracks(from: map<nat, nat>, ops: seq<Op>, n: nat, leases0: map<nat, Lease>)
      requires n <= |ops|
      reads this
    {
      && from.Keys == leases.Keys && leases0.Keys <= leases.Keys
      && (forall c <- from :: Began(c, from[c], ops, n, leases0))
      && (forall c <- from :: (c in leases0 ==> !leases0[c].ended) ==> FollowsFrom(c, from[c], ops, n))
    }

    ghost predicate Began(c: nat, k: nat, ops: seq<Op>, n: nat, leases0: map<nat, Lease>)
      requires n <= |ops|
    {
      k <= n && if c in leases0 then k == 0 else k > 0 && ops[k - 1] == Start(NoFault)
    }

    ghost predicate FollowsFrom(c: nat, k: nat, ops: seq<Op>, n: nat)
      requires n <= |ops|
      reads this
    {
      k <= n && Follows(c, ops[k..n])
    }

    /**
     Any interleaving of acquisitions, commits and releases by any number of workers: a transaction that was open, or
     was opened on the way, commits exactly if its first event from there on is a commit that is not refused, and is
     else rolled back once released.
     */
    method Run(ops: seq<Op>) returns (ghost from: map<nat, nat>)
      requires Valid()
      modifies this
      ensures Valid() && Tracks(from, ops, |ops|, old(leases))
    {
      hide Valid;
      from := map c | c in leases :: 0;
      OpenFollows();
      assert ops[..0] == [];
      for i := 0 to |ops|
        invariant Valid() && Tracks(from, ops, i, old(leases))
      {
        from := Next(ops, i, from, old(leases));
      }
    }

    lemma OpenFollows()
      requires Valid()
      ensures forall c <- leases :: !leases[c].ended ==> Follows(c, [])
    {}

    method Next(ops: seq<Op>, i: nat, ghost before: map<nat, nat>, ghost leases0: map<nat, Lease>)
      returns (ghost from: map<nat, nat>)
      requires Valid() && i < |ops| && Tracks(before, ops, i, leases0)
      modifies this
      ensures Valid() && Tracks(from, ops, i + 1, leases0)
    {
      hide Valid, LeaseFollows;
      ghost var started := borrowed;
      Do(ops[i]);
      from := if ops[i] == Start(NoFault) then before[started := i + 1] else before;
      forall c | c in before && (c in leases0 ==> !leases0[c].ended) ensures FollowsFrom(c, before[c], ops, i + 1) {
        assert ops[before[c]..i + 1] == ops[before[c]..i] + [ops[i]];
        assert old(FollowsFrom(c, before[c], ops, i));
        StepFollows(ops[i], old(borrowed), old(leases), old(ends), leases, ends, c, ops[before[c]..i]);
      }
      NewFollows(old(borrowed), old(leases), ends);
      assert ops[i + 1..i + 1] == [];
    }

    method Do(op: Op)
      requires Valid()
      modifies this
      ensures Valid()
      ensures Changes(op, old(borrowed), old(leases), old(ends), leases, ends)
      ensures old(borrowed) !in old(leases)
    {
      hide Valid, FirstEnd;
      NotBorrowed();
      match op {
        case Start(fault) =>
          var _ := AcquireTx(fault);
        case Save(c, refused) => if c in leases { Commit(c, refused); }
        case Finish(c) => if c in leases { Release(c); }
      }
    }

    lemma NotBorrowed()
      requires Valid()
      ensures borrowed !in leases
    {}

    /** Once every lease is released no connection is out: each borrowed one was given back, and once. */
    lemma AllReturned()
      requires Valid() && forall c <- leases :: leases[c].released
      ensures forall c: nat :: c < borrowed <==> c in returned
      ensures |returned| == borrowed
    {
      CountDistinct(returned, borrowed);
    }
  }

  ghost predicate LeaseFollows(leases: map<nat, Lease>, ends: seq<End>, c: nat, done: seq<Op>) {
    && c in leases
    && (leases[c].released <==> Finish(c) in done)
    && match FirstEnd(done, c) {
         case None => !leases[c].ended
         case Some(e) => leases[c].ended && e in ends
       }
  }

  /** What one event does to the leases and to the record of ended transactions. */
  ghost predicate Changes(op: Op, next: nat, leases: map<nat, Lease>, ends: seq<End>, leases': map<nat, Lease>,
                          ends': seq<End>)
  {
    match op
    case Start(fault) => ends' == ends && leases' == if fault.NoFault? then leases[next := Lease(false, false)] else leases
    case Save(c, refused) =>
      if c !in leases then leases' == leases && ends' == ends
      else
        && leases' == leases[c := leases[c].(ended := true)]
        && ends' == if leases[c].ended then ends else ends + [if refused then RolledBack(c) else Committed(c)]
    case Finish(c) =>
      if c !in leases then leases' == leases && ends' == ends
      else
        && leases' == leases[c := Lease(true, true)]
        && ends' == if leases[c].ended then ends else ends + [RolledBack(c)]
  }

  lemma StepFollows(op: Op, next: nat, leases: map<nat, Lease>, ends: seq<End>, leases': map<nat, Lease>,
                    ends': seq<End>, c: nat, before: seq<Op>)
    requires Changes(op, next, leases, ends, leases', ends') && next !in leases
    requires LeaseFollows(leases, ends, c, before)
    ensures LeaseFollows(leases', ends', c, before + [op])
  {
    hide FirstEnd;
    FirstEndStep(before, op, c);
    assert Finish(c) in before + [op] <==> Finish(c) in before || op == Finish(c);
    assert |ends'| > |ends| ==> ends'[|ends|] in ends';
  }

  lemma NewFollows(next: nat, leases: map<nat, Lease>, ends: seq<End>)
    ensures LeaseFollows(leases[next := Lease(false, false)], ends, next, [])
  {}

  datatype Op = Start(fault: Fault) | Save(conn: nat, refused: bool) | Finish(conn: nat)

  /** How the transaction of connection `c` ends: by the first commit or release of it. */
  function FirstEnd(ops: seq<Op>, c: nat): Option<End> {
    if ops == [] then None
    else
      var earlier := FirstEnd(ops[..|ops| - 1], c);
      if earlier.Some? then earlier
      else
        match ops[|ops| - 1]
        case Save(conn, refused) => if conn != c then None else Some(if refused then RolledBack(c) else Committed(c))
        case Finish(conn) => if conn != c then None else Some(RolledBack(c))
        case Start(_) => None
  }

  lemma FirstEndStep(ops: seq<Op>, op: Op, c: nat)
    ensures FirstEnd(ops + [op], c)
            == if FirstEnd(ops, c).Some? then FirstEnd(ops, c)
               else if op.Save? && op.conn == c then Some(if op.refused then RolledBack(c) else Committed(c))
               else if op == Finish(c) then Some(RolledBack(c))
               else None
  {
    assert (ops + [op])[..|ops|] == ops;
  }

  lemma Somebody(s: seq<nat>)
    requires s != []
    ensures exists c: nat :: c in s
  {
    assert s[0] in s;
  }

  lemma {:induction false} CountDistinct(s: seq<nat>, n: nat)
    requires Distinct(s) && forall c: nat :: c in s <==> c < n
    ensures |s| == n
  {
    if n == 0 {
      if s != [] { Somebody(s); }
    } else {
      assert n - 1 in s;
      var k :| 0 <= k < |s| && s[k] == n - 1;
      var rest := s[..k] + s[k + 1..];
      forall c: nat ensures c in rest <==> c < n - 1 {
        assert c in rest <==> c in s[..k] || c in s[k + 1..];
        if c in s {
          var i :| 0 <= i < |s| && s[i] == c;
          if i < k { assert s[..k][i] == c; }
          if i > k { assert s[k + 1..][i - k - 1] == c; }
        }
      }
      CountDistinct(rest, n - 1);
    }
  }
}
