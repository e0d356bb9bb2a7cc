/** The session store of internal/session/store.go over real session objects.  The list is
    `lru`, most recently used first; `m` finds sessions by id.  Every method is one critical
    section under the store mutex and does to (id, lastUsed) what `StoreModel.Apply` says. */
module Stores {
  import opened SkillTypes
  import opened ActiveList
  import opened StoreModel
  import opened Sessions

  datatype Element = Element(id: Id, s: Session, lastUsed: int)

  function ItemsOf(l: seq<Element>): (items: seq<Item>) {
    seq(|l|, i requires 0 <= i < |l| => Item(l[i].id, l[i].lastUsed))
  }

  /** The list and the map agree one to one. */
  ghost predicate Linked(l: seq<Element>, m: map<Id, Session>) {
    && (forall i, j :: 0 <= i < j < |l| ==> l[i].id != l[j].id)
    && (forall i :: 0 <= i < |l| ==> l[i].id in m && m[l[i].id] == l[i].s)
    && (forall id :: id in m ==> exists i :: 0 <= i < |l| && l[i].id == id)
  }

  function WithoutAt<T>(l: seq<T>, i: nat): seq<T>
    requires i < |l|
  {
    l[..i] + l[i+1..]
  }

  lemma UnlinkOne(l: seq<Element>, m: map<Id, Session>, i: nat)
    requires Linked(l, m) && i < |l|
    ensures Linked(WithoutAt(l, i), m - {l[i].id})
  {
    var l', m' := WithoutAt(l, i), m - {l[i].id};
    forall id | id in m' ensures exists j :: 0 <= j < |l'| && l'[j].id == id {
      var j :| 0 <= j < |l| && l[j].id == id;
      assert l'[if j < i then j else j - 1].id == id;
    }
  }

  lemma {:induction false} WithoutIdIsWithoutAt(items: seq<Item>, i: nat)
    requires i < |items| && forall j, k :: 0 <= j < k < |items| ==> items[j].id != items[k].id
    ensures WithoutId(items, items[i].id) == WithoutAt(items, i)
  {
    if i == 0 {
      NoSuchId(items[1..], items[0].id);
    } else {
      WithoutIdIsWithoutAt(items[1..], i - 1);
    }
  }

  lemma {:induction false} NoSuchId(items: seq<Item>, id: Id)
    requires forall i :: 0 <= i < |items| ==> items[i].id != id
    ensures WithoutId(items, id) == items
  {
    if items != [] { NoSuchId(items[1..], id); }
  }

  lemma UnlinkItems(l: seq<Element>, m: map<Id, Session>, i: nat)
    requires Linked(l, m) && i < |l|
    ensures ItemsOf(WithoutAt(l, i)) == WithoutId(ItemsOf(l), l[i].id)
  {
    WithoutIdIsWithoutAt(ItemsOf(l), i);
    assert ItemsOf(WithoutAt(l, i)) == WithoutAt(ItemsOf(l), i);
  }

  lemma IdAbsent(l: seq<Element>, m: map<Id, Session>, id: Id)
    requires Linked(l, m) && id !in m
    ensures WithoutId(ItemsOf(l), id) == ItemsOf(l)
  {
    NoSuchId(ItemsOf(l), id);
  }

  /** One turn of the expiry scan, and its end. */
  lemma ScanStep(l: seq<Element>, now: int, ttl: int)
    requires |l| > 0
    ensures now - l[|l|-1].lastUsed > ttl ==>
              EvictExpired(ItemsOf(l), now, ttl) == EvictExpired(ItemsOf(l[..|l|-1]), now, ttl)
    ensures now - l[|l|-1].lastUsed <= ttl ==> EvictExpired(ItemsOf(l), now, ttl) == ItemsOf(l)
  {
    assert ItemsOf(l[..|l|-1]) == ItemsOf(l)[..|l|-1];
  }

  lemma MapIds(l: seq<Element>, m: map<Id, Session>, id: Id)
    requires Linked(l, m)
    ensures id in m <==> id in Ids(ItemsOf(l))
  {
    if id in m {
      var i :| 0 <= i < |l| && l[i].id == id;
      assert ItemsOf(l)[i] in ItemsOf(l);
    }
    if id in Ids(ItemsOf(l)) {
      var it :| it in ItemsOf(l) && it.id == id;
      var i :| 0 <= i < |l| && ItemsOf(l)[i] == it;
    }
  }

  lemma LinkFront(l: seq<Element>, m: map<Id, Session>, e: Element)
    requires Linked(l, m) && e.id !in m
    ensures Linked([e] + l, m[e.id := e.s])
    ensures ItemsOf([e] + l) == [Item(e.id, e.lastUsed)] + ItemsOf(l)
  {
    var l', m' := [e] + l, m[e.id := e.s];
    forall id | id in m' ensures exists i :: 0 <= i < |l'| && l'[i].id == id {
      if id != e.id {
        var i :| 0 <= i < |l| && l[i].id == id;
        assert l'[i+1].id == id;
      } else {
        assert l'[0].id == id;
      }
    }
  }

  /** Everything from position i to the back is past its ttl. */
  predicate PastTtl(l: seq<Element>, i: nat, now: int, ttl: int) {
    forall j :: i <= j < |l| ==> now - l[j].lastUsed > ttl
  }

  /** Of the list l, the map holds none of the sessions past their ttl at the back. */
  ghost predicate Expels(l: seq<Element>, m: map<Id, Session>, now: int, ttl: int) {
    forall i :: 0 <= i < |l| && PastTtl(l, i, now, ttl) ==> l[i].id !in m
  }

  /** And of its first `room` elements, those with an element within its ttl at or behind their position. */
  ghost predicate Retains(l: seq<Element>, m: map<Id, Session>, now: int, ttl: int, room: nat) {
    forall i, j :: 0 <= i <= j < |l| && i < room && now - l[j].lastUsed <= ttl ==> l[i].id in m && m[l[i].id] == l[i].s
  }

  ghost predicate Distinct(l: seq<Element>) { forall i, j :: 0 <= i < j < |l| ==> l[i].id != l[j].id }

  /** Where the scan stops. */
  lemma CutIs(l: seq<Element>, live: seq<Element>, now: int, ttl: int)
    requires live <= l && ItemsOf(live) == EvictExpired(ItemsOf(l), now, ttl)
    ensures PastTtl(l, |live|, now, ttl) && (live != [] ==> now - live[|live|-1].lastUsed <= ttl)
  {
    var n := |live|;
    var k := ScanCuts(ItemsOf(l), now, ttl);
    assert |EvictExpired(ItemsOf(l), now, ttl)| == n == k;
    forall j | n <= j < |l| ensures now - l[j].lastUsed > ttl { assert !Live(ItemsOf(l)[j], now, ttl); }
    if n > 0 { assert Live(ItemsOf(l)[n-1], now, ttl); }
  }

  lemma CutMeans(l: seq<Element>, live: seq<Element>, m: map<Id, Session>, now: int, ttl: int)
    requires live <= l && Linked(live, m) && Distinct(l) && ItemsOf(live) == EvictExpired(ItemsOf(l), now, ttl)
    ensures Expels(l, m, now, ttl) && Retains(l, m, now, ttl, |l|)
  {
    CutIs(l, live, now, ttl);
    forall i | 0 <= i < |l| && PastTtl(l, i, now, ttl) ensures l[i].id !in m {
      assert i >= |live|;
      forall k | 0 <= k < |live| ensures live[k].id != l[i].id { assert live[k] == l[k]; }
    }
    forall i | 0 <= i < |live| ensures l[i].id in m && m[l[i].id] == l[i].s { assert live[i] == l[i]; }
  }

  /** The new element in front, then the live ones in their order, up to the limit. */
  function Admitted(e: Element, live: seq<Element>, limit: nat): seq<Element> {
    var all := [e] + live;
    if |all| > limit then all[..limit] else all
  }

  lemma AdmittedAfterCut(e: Element, live: seq<Element>, limit: nat)
    ensures |live| > limit ==> Admitted(e, live[..limit], limit) == Admitted(e, live, limit)
  {}

  lemma NewMeans(l: seq<Element>, live: seq<Element>, e: Element, left: seq<Element>, m: map<Id, Session>, now: int, ttl: int, limit: nat)
    requires live <= l && left == Admitted(e, live, limit) && Linked(left, m) && limit > 0
    requires Distinct(l) && forall i :: 0 <= i < |l| ==> l[i].id != e.id
    requires ItemsOf(live) == EvictExpired(ItemsOf(l), now, ttl)
    ensures Expels(l, m, now, ttl) && Retains(l, m, now, ttl, limit - 1)
  {
    CutIs(l, live, now, ttl);
    var n := |live|;
    assert left[0] == e && forall k :: 1 <= k < |left| ==> left[k] == l[k-1];
    forall i | 0 <= i < |l| && PastTtl(l, i, now, ttl) ensures l[i].id !in m {
      assert i >= n;
      forall k | 0 <= k < |left| ensures left[k].id != l[i].id { assert k > 0 ==> left[k] == l[k-1]; }
    }
    forall i | 0 <= i < n && i < limit - 1 ensures l[i].id in m && m[l[i].id] == l[i].s { assert left[i+1] == l[i]; }
  }

  /** Every session is well formed and has its own backing array. */
  ghost predicate Sound(sessions: set<Session>)
    reads sessions, set s | s in sessions :: s.backing
  {
    && (forall s :: s in sessions ==> s.Valid())
    && (forall s, t :: s in sessions && t in sessions && s != t ==> s.backing != t.backing)
  }

  lemma OneMoreSound(sessions: set<Session>, s: Session)
    requires Sound(sessions) && s.Valid() && forall t :: t in sessions ==> t.backing != s.backing
    ensures Sound(sessions + {s})
  {}

  class Store {
    const ttl: int
    const maxSessions: nat
    var lru: seq<Element>
    var m: map<Id, Session>

    /** Every session this store has ever made, with its id. */
    ghost var made: map<Session, Id>

    /** List and map agree, and of all the sessions ever made exactly those in the map are open. */
    ghost predicate Valid()
      reads this, made.Keys
    {
      && ttl > 0 && maxSessions > 0
      && Linked(lru, m)
      && (forall id :: id in m ==> m[id] in made && made[m[id]] == id)
      && (forall s :: s in made ==> (s.closed <==> !(made[s] in m && m[made[s]] == s)))
    }

    function Conf(): Config { Config(ttl, maxSessions) }

    constructor (cfg: Config)
      ensures Valid() && lru == [] && made == map[] && Conf() == Normalized(cfg)
    {
      ttl, maxSessions := Normalized(cfg).ttl, Normalized(cfg).maxSessions;
      lru, m, made := [], map[], map[];
    }

    /** deleteElemLocked: out of the map, closed, out of the list. */
    method DeleteElem(i: nat)
      requires Valid() && i < |lru|
      modifies this`lru, this`m, made.Keys`closed
      ensures Valid()
      ensures lru == WithoutAt(old(lru), i) && m == old(m) - {old(lru)[i].id}
    {
      UnlinkOne(lru, m, i);
      m := m - {lru[i].id};
      lru[i].s.closed := true;
      lru := WithoutAt(lru, i);
    }

    /** Drop the back element. */
    method DeleteBack()
      requires Valid() && |lru| > 0
      modifies this`lru, this`m, made.Keys`closed
      ensures Valid() && lru == old(lru)[..|old(lru)|-1] && m.Keys <= old(m.Keys)
    {
      var n := |lru| - 1;
      assert WithoutAt(lru, n) == lru[..n];
      DeleteElem(n);
    }

    /** evictExpiredLocked. */
    method EvictExpiredLocked(now: int)
      requires Valid()
      modifies this`lru, this`m, made.Keys`closed
      ensures Valid() && m.Keys <= old(m.Keys)
      ensures lru <= old(lru) && ItemsOf(lru) == EvictExpired(ItemsOf(old(lru)), now, ttl)
      ensures Expels(old(lru), m, now, ttl) && Retains(old(lru), m, now, ttl, |old(lru)|)
    {
      ghost var before := lru;
      DropExpired(now);
      CutMeans(before, lru, m, now, ttl);
    }

    /** The loop: from the back, until an element is within its ttl. */
    method DropExpired(now: int)
      requires Valid()
      modifies this`lru, this`m, made.Keys`closed
      ensures Valid() && m.Keys <= old(m.Keys)
      ensures lru <= old(lru) && ItemsOf(lru) == EvictExpired(ItemsOf(old(lru)), now, ttl)
    {
      ghost var before, goal := lru, EvictExpired(ItemsOf(lru), now, ttl);
      while |lru| > 0
        invariant Valid() && m.Keys <= old(m.Keys) && lru <= before
        invariant EvictExpired(ItemsOf(lru), now, ttl) == goal
        decreases |lru|
      {
        ScanStep(lru, now, ttl);
        if now - lru[|lru|-1].lastUsed <= ttl { return; }
        DeleteBack();
      }
    }

    /** evictOverLimitLocked. */
    method EvictOverLimitLocked()
      requires Valid()
      modifies this`lru, this`m, made.Keys`closed
      ensures Valid() && m.Keys <= old(m.Keys)
      ensures ItemsOf(lru) == EvictOver(ItemsOf(old(lru)), maxSessions)
      ensures lru == if |old(lru)| > maxSessions then old(lru)[..maxSessions] else old(lru)
    {
      ghost var before := lru;
      while |lru| > maxSessions
        invariant Valid() && m.Keys <= old(m.Keys)
        invariant |lru| <= |before| && lru == before[..|lru|]
        invariant |lru| >= maxSessions || lru == before
      {
        DeleteBack();
      }
      assert ItemsOf(lru) == ItemsOf(before)[..|lru|];
    }

    /** NewSession up to the initial activation; `id` is the fresh UUID.  The new session is in the
        store afterwards: its own over-limit eviction takes somebody else. */
    method NewSession(id: Id, now: int, maxActive: int) returns (s: Session)
      requires Valid() && forall x :: x in made ==> made[x] != id
      modifies this`lru, this`m, this`made, made.Keys`closed
      ensures Valid() && fresh(s) && made == old(made)[s := id]
      ensures ItemsOf(lru) == Apply(ItemsOf(old(lru)), New(id, now), Conf())
      ensures s.Valid() && s.View() == EMPTY && !s.closed && id in m && m[id] == s && fresh(s.backing)
      ensures |lru| <= maxSessions && lru[0] == Element(id, s, now)
      ensures Expels(old(lru), m, now, ttl) && Retains(old(lru), m, now, ttl, maxSessions - 1)
    {
      ghost var before := lru;
      NobodyCalled(id);
      EvictExpiredLocked(now);
      ghost var live := lru;
      s := PushNew(id, now, maxActive);
      NewMeans(before, live, Element(id, s, now), lru, m, now, ttl, maxSessions);
    }

    lemma NobodyCalled(id: Id)
      requires Valid() && forall x :: x in made ==> made[x] != id
      ensures forall i :: 0 <= i < |lru| ==> lru[i].id != id
    {
      forall i | 0 <= i < |lru| ensures lru[i].id != id { assert made[m[lru[i].id]] == lru[i].id; }
    }

    /** From the over-limit eviction on. */
    method PushNew(id: Id, now: int, maxActive: int) returns (s: Session)
      requires Valid() && forall x :: x in made ==> made[x] != id
      modifies this`lru, this`m, this`made, made.Keys`closed
      ensures Valid() && fresh(s) && made == old(made)[s := id]
      ensures ItemsOf(lru) == EvictOver([Item(id, now)] + EvictOver(ItemsOf(old(lru)), maxSessions), maxSessions)
      ensures lru == Admitted(Element(id, s, now), old(lru), maxSessions)
      ensures s.Valid() && s.View() == EMPTY && !s.closed && id in m && m[id] == s && fresh(s.backing)
    {
      ghost var before := lru;
      EvictOverLimitLocked();
      s := new Session(maxActive);
      Admit(Element(id, s, now));
      AdmittedAfterCut(Element(id, s, now), before, maxSessions);
    }

    /** A new session keeps the store's sessions sound; so does every other method, since the only
        field of a session it may write is `closed`. */
    method OpenSession(id: Id, now: int, maxActive: int) returns (s: Session)
      requires Valid() && Sound(made.Keys) && forall x :: x in made ==> made[x] != id
      modifies this`lru, this`m, this`made, made.Keys`closed
      ensures Valid() && Sound(made.Keys) && fresh(s) && made == old(made)[s := id]
      ensures ItemsOf(lru) == Apply(ItemsOf(old(lru)), New(id, now), Conf())
    {
      ghost var before := made.Keys;
      s := NewSession(id, now, maxActive);
      forall t | t in before ensures t.Valid() && t.backing == old(t.backing) {
        assert old(t.Valid());
        assert t.backing[..t.count] == old(t.backing[..t.count]);
      }
      OneMoreSound(before, s);
      assert made.Keys == before + {s};
    }

    method Admit(e: Element)
      requires Valid() && !e.s.closed && e.s !in made && forall x :: x in made ==> made[x] != e.id
      modifies this`lru, this`m, this`made, made.Keys`closed, e.s`closed
      ensures Valid() && made == old(made)[e.s := e.id]
      ensures ItemsOf(lru) == EvictOver([Item(e.id, e.lastUsed)] + ItemsOf(old(lru)), maxSessions)
      ensures !e.s.closed && e.id in m && m[e.id] == e.s
      ensures lru == Admitted(e, old(lru), maxSessions)
    {
      PushFront(e);
      EvictOverLimitLocked();
      assert lru[0] == e;
    }

    method PushFront(e: Element)
      requires Valid() && !e.s.closed && e.s !in made && forall x :: x in made ==> made[x] != e.id
      modifies this`lru, this`m, this`made
      ensures Valid() && lru == [e] + old(lru) && m == old(m)[e.id := e.s] && made == old(made)[e.s := e.id]
      ensures ItemsOf(lru) == [Item(e.id, e.lastUsed)] + ItemsOf(old(lru))
    {
      LinkFront(lru, m, e);
      lru := [e] + lru;
      m := m[e.id := e.s];
      made := made[e.s := e.id];
    }

    /** Get and touch. */
    method Get(id: Id, now: int) returns (s: Option<Session>)
      requires Valid()
      modifies this`lru, this`m, made.Keys`closed
      ensures Valid()
      ensures ItemsOf(lru) == Apply(ItemsOf(old(lru)), Use(id, now), Conf())
      ensures s == if id in m then Some(m[id]) else None
      ensures s.Some? ==> !s.value.closed && lru != [] && lru[0] == Element(id, s.value, now)
      ensures Expels(old(lru), m, now, ttl) && Retains(old(lru), m, now, ttl, |old(lru)|)
    {
      EvictExpiredLocked(now);
      s := Serve(id, now);
    }

    /** The lookup itself. */
    method Serve(id: Id, now: int) returns (s: Option<Session>)
      requires Valid()
      modifies this`lru
      ensures Valid() && ItemsOf(lru) == Touch(ItemsOf(old(lru)), id, now)
      ensures s == if id in m then Some(m[id]) else None
      ensures s.Some? ==> !s.value.closed && lru != [] && lru[0] == Element(id, s.value, now)
    {
      MapIds(lru, m, id);
      if id !in m { return None; }
      var i :| 0 <= i < |lru| && lru[i].id == id;
      s := Some(lru[i].s);
      if s.value.closed {
        assert false;  // a closed session has left the map
      }
      MoveToFront(i, now);
    }

    /** lastUsed and MoveToFront. */
    method MoveToFront(i: nat, now: int)
      requires Valid() && i < |lru|
      modifies this`lru
      ensures Valid() && lru == [old(lru)[i].(lastUsed := now)] + WithoutAt(old(lru), i)
      ensures ItemsOf(lru) == [Item(old(lru)[i].id, now)] + WithoutId(ItemsOf(old(lru)), old(lru)[i].id)
    {
      var e := lru[i];
      UnlinkOne(lru, m, i);
      UnlinkItems(lru, m, i);
      LinkFront(WithoutAt(lru, i), m - {e.id}, e.(lastUsed := now));
      assert m == (m - {e.id})[e.id := e.s];
      lru := [e.(lastUsed := now)] + WithoutAt(lru, i);
    }

    method Delete(id: Id)
      requires Valid()
      modifies this`lru, this`m, made.Keys`closed
      ensures Valid() && m == old(m) - {id}
      ensures ItemsOf(lru) == Apply(ItemsOf(old(lru)), StoreOp.Delete(id), Conf())
    {
      if id in m {
        var i :| 0 <= i < |lru| && lru[i].id == id;
        UnlinkItems(lru, m, i);
        DeleteElem(i);
      } else {
        IdAbsent(lru, m, id);
      }
    }

    /** PruneSkill, under the store lock: every session of the list is open, none is skipped. */
    method CollectSessions() returns (sessions: seq<Session>)
      requires Valid()
      ensures |sessions| == |lru| && forall i :: 0 <= i < |lru| ==> sessions[i] == lru[i].s && !sessions[i].closed
      ensures forall id :: id in m ==> m[id] in sessions
    {
      sessions := [];
      for i := 0 to |lru|
        invariant |sessions| == i && forall j :: 0 <= j < i ==> sessions[j] == lru[j].s && !sessions[j].closed
      {
        if lru[i].s.closed {
          assert false;  // a closed session has left the list
        }
        sessions := sessions + [lru[i].s];
      }
      forall id | id in m ensures m[id] in sessions {
        var i :| 0 <= i < |lru| && lru[i].id == id;
        assert sessions[i] == m[id];
      }
    }

    /** PruneSkill with nothing in between: the key leaves every open session of the store; other keys,
        their order, and closed sessions stay as they were. */
    method PruneSkill(key: Key)
      requires Valid() && Sound(made.Keys)
      modifies made.Keys, set s | s in made :: s.backing
      ensures Valid() && Sound(made.Keys)
      ensures forall s :: s in made ==> s.backing == old(s.backing) && Look(s) == Pruned(old(Look(s)), key)
    {
      var sessions := CollectApart();
      PruneAll(sessions, key);
    }

    method CollectApart() returns (sessions: seq<Session>)
      requires Valid() && Sound(made.Keys)
      ensures Apart(sessions) && forall i :: 0 <= i < |sessions| ==> sessions[i] in made && sessions[i].Valid()
      ensures forall s :: s in made && s !in sessions ==> s.closed
    {
      sessions := CollectSessions();
      forall i | 0 <= i < |lru| ensures lru[i].s in made && made[lru[i].s] == lru[i].id { assert m[lru[i].id] == lru[i].s; }
    }
  }

  ghost predicate Apart(sessions: seq<Session>)
    reads sessions
  {
    forall i, j :: 0 <= i < j < |sessions| ==> sessions[i] != sessions[j] && sessions[i].backing != sessions[j].backing
  }

  ghost function Look(s: Session): Status
    reads s, s.backing
  {
    if s.Sliced() then s.Now() else Status(EMPTY, s.closed)
  }

  /** pruneKey with the closed check in front of it. */
  function Pruned(before: Status, key: Key): Status {
    if before.closed then before else before.(view := Prune(before.view, {key}))
  }

  /** PruneSkill, after the store lock is released: the key leaves every collected session that is
      still open, the other keys and their order stay. */
  method PruneAll(sessions: seq<Session>, key: Key)
    requires Apart(sessions) && forall i :: 0 <= i < |sessions| ==> sessions[i].Valid()
    modifies sessions, set i | 0 <= i < |sessions| :: sessions[i].backing
    ensures forall i :: 0 <= i < |sessions| ==> sessions[i].Valid() && sessions[i].backing == old(sessions[i].backing)
    ensures forall i :: 0 <= i < |sessions| ==> Look(sessions[i]) == Pruned(old(Look(sessions[i])), key)
  {
    for i := 0 to |sessions|
      invariant forall j :: 0 <= j < |sessions| ==> sessions[j].Valid() && sessions[j].backing == old(sessions[j].backing)
      invariant forall j :: i <= j < |sessions| ==> Look(sessions[j]) == old(Look(sessions[j]))
      invariant forall j :: 0 <= j < i ==> Look(sessions[j]) == Pruned(old(Look(sessions[j])), key)
    {
      PruneOne(sessions, i, key);
    }
  }

  method PruneOne(sessions: seq<Session>, i: nat, key: Key)
    requires i < |sessions| && Apart(sessions) && forall j :: 0 <= j < |sessions| ==> sessions[j].Valid()
    modifies sessions[i], sessions[i].backing
    ensures forall j :: 0 <= j < |sessions| ==> sessions[j].Valid() && sessions[j].backing == old(sessions[j].backing)
    ensures forall j :: 0 <= j < |sessions| && j != i ==> Look(sessions[j]) == old(Look(sessions[j]))
    ensures Look(sessions[i]) == Pruned(old(Look(sessions[i])), key)
  {
    assert forall j :: 0 <= j < |sessions| && j != i ==>
      sessions[j] != sessions[i] && sessions[j].backing != sessions[i].backing;
    if !sessions[i].closed { sessions[i].PruneKey(key); }
  }
}
