/** Pure specification of a session's active list: what each critical section of
    internal/session/session.go and tools_impl.go does to (activeOrder, activeSet, stateVersion).
    The class `Sessions.Session` implements these functions, the transition system in
    `ActivationProtocol` interleaves them. */
module ActiveList {
  import opened SkillTypes

  type Key = ProviderSkillKey

  datatype View = View(order: seq<Key>, active: set<Key>, version: nat)

  const EMPTY := View([], {}, 0)

  /** Attempts of an activation before it gives up. */
  const MAX_ROUNDS: nat := 5

  /** How an activation can fail. */
  datatype ActivateError = SessionNotFound | SkillNotFound | InvalidArgument | BodyFailed | RetriesExhausted

  /** The representation invariant: the list has no duplicates, lists exactly the set, and
      respects the session's bound when there is one. */
  ghost predicate Rep(v: View, maxActive: int) {
    && NoDup(v.order)
    && Elems(v.order) == v.active
    && (maxActive > 0 ==> |v.order| <= maxActive)
  }

  function Dedup(keys: seq<Key>): seq<Key> {
    if keys == [] then [] else
      var front := Dedup(keys[..|keys|-1]);
      var last := keys[|keys|-1];
      if last in front then front else front + [last]
  }

  function Without(order: seq<Key>, rm: set<Key>): seq<Key> {
    if order == [] then [] else
      var front := Without(order[..|order|-1], rm);
      var last := order[|order|-1];
      if last in rm then front else front + [last]
  }

  /** The list an activation installs when it finds `order`. */
  function NextOrder(mode: LoadMode, order: seq<Key>, req: seq<Key>): seq<Key> {
    match mode
    case Replace => req
    case Add => Without(order, Elems(req)) + req
  }

  function Commit(v: View, next: seq<Key>): View {
    View(next, Elems(next), v.version + 1)
  }

  /** Removal as toolUnload and activeHandlesLocked do it: the version always moves. */
  function Drop(v: View, rm: set<Key>): View {
    View(Without(v.order, rm), v.active - rm, v.version + 1)
  }

  /** Removal as pruneKeys and pruneKey do it: nothing moves unless a key was active. */
  function Prune(v: View, rm: set<Key>): View {
    if v.active !! rm then v else Drop(v, rm)
  }

  // ----- Dedup -----------------------------------------------------------------------------

  /** Position of the first occurrence of x. */
  ghost function FirstIndex(keys: seq<Key>, x: Key): (i: nat)
    requires x in keys
    ensures i < |keys| && keys[i] == x && x !in keys[..i]
  {
    if keys[0] == x then 0 else
      assert x in keys[1..];
      var i := FirstIndex(keys[1..], x) + 1;
      assert keys[..i] == [keys[0]] + keys[1..][..i-1];
      i
  }

  lemma FirstIndexPrefix(keys: seq<Key>, n: nat, x: Key)
    requires n <= |keys| && x in keys[..n]
    ensures x in keys && FirstIndex(keys, x) == FirstIndex(keys[..n], x)
  {
    var i, j := FirstIndex(keys, x), FirstIndex(keys[..n], x);
    assert forall m :: 0 <= m < i ==> keys[..i][m] != x;
    assert forall m :: 0 <= m < j ==> keys[..n][..j][m] != x;
  }

  /** Dedup keeps every key once, in the order of first occurrence. */
  lemma {:induction false} DedupCorrect(keys: seq<Key>)
    ensures NoDup(Dedup(keys)) && Elems(Dedup(keys)) == Elems(keys)
    ensures forall x :: x in Dedup(keys) <==> x in keys
    ensures forall i, j :: 0 <= i < j < |Dedup(keys)| ==>
      FirstIndex(keys, Dedup(keys)[i]) < FirstIndex(keys, Dedup(keys)[j])
  {
    if keys != [] {
      var n := |keys| - 1;
      DedupCorrect(keys[..n]);
      var front := Dedup(keys[..n]);
      assert keys == keys[..n] + [keys[n]];
      assert forall x :: x in Dedup(keys) <==> x in front || x == keys[n];
      forall i, j | 0 <= i < j < |Dedup(keys)|
        ensures FirstIndex(keys, Dedup(keys)[i]) < FirstIndex(keys, Dedup(keys)[j])
      {
        assert Dedup(keys)[i] == front[i];
        FirstIndexPrefix(keys, n, front[i]);
        if j < |front| {
          FirstIndexPrefix(keys, n, front[j]);
        } else {
          assert keys[n] !in keys[..n];
        }
      }
    }
  }

  lemma {:induction false} DedupOfNoDup(keys: seq<Key>)
    requires NoDup(keys)
    ensures Dedup(keys) == keys
  {
    if keys != [] {
      var n := |keys| - 1;
      DedupOfNoDup(keys[..n]);
      assert keys == keys[..n] + [keys[n]];
    }
  }

  // ----- Without ---------------------------------------------------------------------------

  lemma {:induction false} WithoutKeeps(order: seq<Key>, rm: set<Key>)
    ensures forall x :: x in Without(order, rm) <==> x in order && x !in rm
    ensures NoDup(order) ==> NoDup(Without(order, rm))
  {
    if order != [] {
      var n := |order| - 1;
      var front, last := Without(order[..n], rm), order[n];
      WithoutKeeps(order[..n], rm);
      assert order == order[..n] + [last];
      assert forall x :: x in front + [last] <==> x in front || x == last;
      assert NoDup(order) ==> last !in order[..n];
    }
  }

  lemma {:induction false} WithoutPositions(order: seq<Key>, rm: set<Key>) returns (at: seq<nat>)
    ensures |at| == |Without(order, rm)|
    ensures forall i :: 0 <= i < |at| ==> at[i] < |order| && order[at[i]] == Without(order, rm)[i]
    ensures forall i, j :: 0 <= i < j < |at| ==> at[i] < at[j]
  {
    if order == [] {
      at := [];
    } else {
      var n := |order| - 1;
      at := WithoutPositions(order[..n], rm);
      assert forall i :: 0 <= i < |at| ==> order[at[i]] == order[..n][at[i]];
      if order[n] !in rm { at := at + [n]; }
    }
  }

  /** `Without` keeps exactly the other keys; what is kept keeps its relative order, because
      the result is the input read through a strictly increasing list of positions. */
  lemma WithoutCorrect(order: seq<Key>, rm: set<Key>) returns (at: seq<nat>)
    ensures |at| == |Without(order, rm)|
    ensures forall i :: 0 <= i < |at| ==> at[i] < |order| && order[at[i]] == Without(order, rm)[i]
    ensures forall i, j :: 0 <= i < j < |at| ==> at[i] < at[j]
    ensures Elems(Without(order, rm)) == Elems(order) - rm
    ensures NoDup(order) ==> NoDup(Without(order, rm))
  {
    WithoutKeeps(order, rm);
    at := WithoutPositions(order, rm);
  }

  lemma WithoutMembers(order: seq<Key>, rm: set<Key>)
    ensures Elems(Without(order, rm)) == Elems(order) - rm
    ensures forall x :: x in Without(order, rm) <==> x in order && x !in rm
    ensures NoDup(order) ==> NoDup(Without(order, rm))
    ensures |Without(order, rm)| <= |order|
  {
    WithoutKeeps(order, rm);
    WithoutShorter(order, rm);
  }

  lemma {:induction false} WithoutShorter(order: seq<Key>, rm: set<Key>)
    ensures |Without(order, rm)| <= |order|
  {
    if order != [] { WithoutShorter(order[..|order|-1], rm); }
  }

  lemma {:induction false} WithoutNothing(order: seq<Key>, rm: set<Key>)
    requires Elems(order) !! rm
    ensures Without(order, rm) == order
  {
    if order != [] {
      var n := |order| - 1;
      assert order[n] in Elems(order);
      assert Elems(order[..n]) <= Elems(order);
      WithoutNothing(order[..n], rm);
      assert order == order[..n] + [order[n]];
    }
  }

  lemma {:induction false} WithoutTwice(order: seq<Key>, a: set<Key>, b: set<Key>)
    ensures Without(Without(order, a), b) == Without(order, a + b)
  {
    if order != [] {
      var n := |order| - 1;
      WithoutTwice(order[..n], a, b);
      var front := Without(order[..n], a);
      if order[n] !in a {
        assert (front + [order[n]])[..|front|] == front;
      }
    }
  }

  lemma WithoutStep(order: seq<Key>, n: nat, rm: set<Key>)
    requires n < |order|
    ensures Without(order[..n+1], rm) == Without(order[..n], rm) + (if order[n] in rm then [] else [order[n]])
  {
    assert order[..n+1][..n] == order[..n];
  }

  /** Widening `rm` by a key the list does not hold changes nothing. */
  lemma WithoutFresh(order: seq<Key>, rm: set<Key>, k: Key)
    requires k !in order
    ensures Without(order, rm + {k}) == Without(order, rm)
  {
    WithoutTwice(order, rm, {k});
    WithoutMembers(order, rm);
    WithoutNothing(Without(order, rm), {k});
  }

  // ----- Every operation keeps the representation ------------------------------------------

  /** An activation installs: for Replace exactly the request; for Add the old list without the
      requested keys, followed by the request in its own order.  No key appears twice. */
  lemma NextOrderKeepsRep(mode: LoadMode, order: seq<Key>, req: seq<Key>)
    requires NoDup(order) && NoDup(req)
    ensures NoDup(NextOrder(mode, order, req))
    ensures Elems(NextOrder(mode, order, req)) ==
            Elems(req) + (if mode == Add then Elems(order) else {})
    ensures req <= NextOrder(mode, order, req)[|NextOrder(mode, order, req)| - |req|..]
  {
    if mode == Add {
      WithoutMembers(order, Elems(req));
      var kept := Without(order, Elems(req));
      assert forall i, j :: 0 <= i < |kept| && 0 <= j < |req| ==> kept[i] != req[j] by {
        forall i, j | 0 <= i < |kept| && 0 <= j < |req| ensures kept[i] != req[j] {
          assert kept[i] in kept && req[j] in Elems(req);
        }
      }
      assert forall x :: x in kept + req <==> x in kept || x in req;
      assert (kept + req)[|kept|..] == req;
    }
  }

  lemma {:induction false} ElemsCount(keys: seq<Key>)
    requires NoDup(keys)
    ensures |Elems(keys)| == |keys|
  {
    if keys != [] {
      var n := |keys| - 1;
      ElemsCount(keys[..n]);
      assert keys == keys[..n] + [keys[n]];
      assert Elems(keys) == Elems(keys[..n]) + {keys[n]};
    }
  }

  /** How long the list gets, in terms of the sets of keys alone. */
  lemma NextOrderCount(mode: LoadMode, order: seq<Key>, req: seq<Key>)
    requires NoDup(order) && NoDup(req)
    ensures |NextOrder(mode, order, req)| == |Elems(req) + (if mode == Add then Elems(order) else {})|
  {
    NextOrderKeepsRep(mode, order, req);
    ElemsCount(NextOrder(mode, order, req));
  }

  lemma CommitKeepsRep(v: View, next: seq<Key>, maxActive: int)
    requires NoDup(next) && (maxActive > 0 ==> |next| <= maxActive)
    ensures Rep(Commit(v, next), maxActive)
  {}

  lemma DropKeepsRep(v: View, rm: set<Key>, maxActive: int)
    requires Rep(v, maxActive)
    ensures Rep(Drop(v, rm), maxActive) && Rep(Prune(v, rm), maxActive)
    ensures Prune(v, rm).order == Drop(v, rm).order && Prune(v, rm).active == Drop(v, rm).active
  {
    WithoutMembers(v.order, rm);
    if v.active !! rm {
      WithoutNothing(v.order, rm);
    }
  }

  /** Activating a request twice in a row is the same as once; unloading what an Add brought in
      leaves the keys that were there before and were not requested. */
  lemma AddThenDrop(v: View, req: seq<Key>, maxActive: int)
    requires Rep(v, maxActive) && NoDup(req)
    ensures var added := Commit(v, NextOrder(Add, v.order, req));
            && NextOrder(Add, added.order, req) == added.order
            && Drop(added, Elems(req)).order == Without(v.order, Elems(req))
  {
    var rm := Elems(req);
    var kept := Without(v.order, rm);
    WithoutMembers(v.order, rm);
    TailDropped(kept, req, rm);
  }

  lemma TailDropped(kept: seq<Key>, req: seq<Key>, rm: set<Key>)
    requires Elems(req) == rm && Elems(kept) !! rm
    ensures Without(kept + req, rm) == kept
  {
    WithoutConcat(kept, req, rm);
    WithoutNothing(kept, rm);
    WithoutAll(req, rm);
  }

  lemma {:induction false} WithoutConcat(a: seq<Key>, b: seq<Key>, rm: set<Key>)
    ensures Without(a + b, rm) == Without(a, rm) + Without(b, rm)
  {
    if b == [] {
      assert a + b == a;
    } else {
      var n := |b| - 1;
      WithoutConcat(a, b[..n], rm);
      assert (a + b)[..|a + b| - 1] == a + b[..n];
    }
  }

  lemma {:induction false} WithoutAll(order: seq<Key>, rm: set<Key>)
    requires Elems(order) <= rm
    ensures Without(order, rm) == []
  {
    if order != [] {
      assert order[|order|-1] in Elems(order);
      assert Elems(order[..|order|-1]) <= Elems(order);
      WithoutAll(order[..|order|-1], rm);
    }
  }
}
