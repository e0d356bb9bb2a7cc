/** The session store of internal/session/store.go as a list of (id, lastUsed) pairs, most recently
    used first.  Each operation is one critical section under the store mutex; its `now` is read
    before the lock is taken, so the times need not follow the order of the operations. */
module StoreModel {

  type Id = string

  datatype Item = Item(id: Id, lastUsed: int)

  datatype StoreOp =
    | New(id: Id, now: int)
    | Use(id: Id, now: int)      // Get and touch
    | Delete(id: Id)

  datatype Config = Config(ttl: int, maxSessions: int)

  /** NewStore's defaults; ttl in nanoseconds. */
  function Normalized(c: Config): (n: Config)
    ensures n.ttl > 0 && n.maxSessions > 0
  {
    Config(if c.ttl <= 0 then 24 * 3600 * 1_000_000_000 else c.ttl, if c.maxSessions <= 0 then 4096 else c.maxSessions)
  }

  predicate Live(it: Item, now: int, ttl: int) { now - it.lastUsed <= ttl }

  /** evictExpiredLocked: scan from the back, stop at the first live element. */
  function EvictExpired(items: seq<Item>, now: int, ttl: int): seq<Item> {
    if items == [] || Live(items[|items|-1], now, ttl) then items
    else EvictExpired(items[..|items|-1], now, ttl)
  }

  /** evictOverLimitLocked: drop from the back. */
  function EvictOver(items: seq<Item>, limit: nat): seq<Item> {
    if |items| > limit then items[..limit] else items
  }

  function Ids(items: seq<Item>): set<Id> {
    set it | it in items :: it.id
  }

  function WithoutId(items: seq<Item>, id: Id): seq<Item> {
    if items == [] then []
    else if items[0].id == id then WithoutId(items[1..], id)
    else [items[0]] + WithoutId(items[1..], id)
  }

  function Touch(items: seq<Item>, id: Id, now: int): seq<Item> {
    if id in Ids(items) then [Item(id, now)] + WithoutId(items, id) else items
  }

  function Apply(items: seq<Item>, op: StoreOp, c: Config): seq<Item>
    requires c.maxSessions > 0
  {
    match op
    case New(id, now) =>
      EvictOver([Item(id, now)] + EvictOver(EvictExpired(items, now, c.ttl), c.maxSessions), c.maxSessions)
    case Use(id, now) => Touch(EvictExpired(items, now, c.ttl), id, now)
    case Delete(id) => WithoutId(items, id)
  }

  /** The store after a run of operations on an empty one. */
  function Run(ops: seq<StoreOp>, c: Config): seq<Item>
    requires c.maxSessions > 0
  {
    if ops == [] then [] else Apply(Run(ops[..|ops|-1], c), ops[|ops|-1], c)
  }

  // ----- What the scan evicts --------------------------------------------------------------

  /** The scan cuts the list once: everything behind the cut is expired, and the element just in
      front of it, if any, is live. */
  lemma {:induction false} ScanCuts(items: seq<Item>, now: int, ttl: int) returns (n: nat)
    ensures n <= |items| && EvictExpired(items, now, ttl) == items[..n]
    ensures forall i :: n <= i < |items| ==> !Live(items[i], now, ttl)
    ensures n > 0 ==> Live(items[n-1], now, ttl)
  {
    if items == [] || Live(items[|items|-1], now, ttl) {
      n := |items|;
      assert items[..n] == items;
    } else {
      n := ScanCuts(items[..|items|-1], now, ttl);
      assert items[..|items|-1][..n] == items[..n];
    }
  }

  function OnlyLive(items: seq<Item>, now: int, ttl: int): seq<Item> {
    if items == [] then []
    else if Live(items[0], now, ttl) then [items[0]] + OnlyLive(items[1..], now, ttl)
    else OnlyLive(items[1..], now, ttl)
  }

  lemma {:induction false} OnlyLiveOfSplit(items: seq<Item>, n: nat, now: int, ttl: int)
    requires n <= |items|
    requires forall i :: 0 <= i < n ==> Live(items[i], now, ttl)
    requires forall i :: n <= i < |items| ==> !Live(items[i], now, ttl)
    ensures OnlyLive(items, now, ttl) == items[..n]
  {
    if items == [] {
    } else if n == 0 {
      OnlyLiveOfSplit(items[1..], 0, now, ttl);
    } else {
      OnlyLiveOfSplit(items[1..], n - 1, now, ttl);
      assert items[..n] == [items[0]] + items[1..][..n-1];
    }
  }

  lemma {:induction false} OnlyLiveIsLive(items: seq<Item>, now: int, ttl: int)
    ensures forall it :: it in OnlyLive(items, now, ttl) ==> Live(it, now, ttl)
  {
    if items != [] { OnlyLiveIsLive(items[1..], now, ttl); }
  }

  /** The early stop loses nothing exactly when no expired element stands in front of a live one. */
  lemma ScanIsExactIff(items: seq<Item>, now: int, ttl: int)
    ensures EvictExpired(items, now, ttl) == OnlyLive(items, now, ttl) <==>
            forall i, j :: 0 <= i < j < |items| && Live(items[j], now, ttl) ==> Live(items[i], now, ttl)
  {
    var n := ScanCuts(items, now, ttl);
    if forall i, j :: 0 <= i < j < |items| && Live(items[j], now, ttl) ==> Live(items[i], now, ttl) {
      OnlyLiveOfSplit(items, n, now, ttl);
    } else {
      var i, j :| 0 <= i < j < |items| && Live(items[j], now, ttl) && !Live(items[i], now, ttl);
      OnlyLiveIsLive(items, now, ttl);
      assert j < n && items[..n][i] == items[i];
      assert items[i] in EvictExpired(items, now, ttl);
    }
  }

  // ----- Bounded clock skew ----------------------------------------------------------------

  /** In lock order, no operation's clock is more than skew behind an earlier one's. */
  ghost predicate Skewed(ops: seq<StoreOp>, skew: int) {
    forall i, j :: 0 <= i < j < |ops| && !ops[i].Delete? && !ops[j].Delete? ==> ops[j].now >= ops[i].now - skew
  }

  ghost predicate NearlySorted(items: seq<Item>, skew: int) {
    forall i, j :: 0 <= i < j < |items| ==> items[i].lastUsed >= items[j].lastUsed - skew
  }

  /** Every time in the store is the clock of some operation that ran. */
  ghost predicate Stamped(items: seq<Item>, ops: seq<StoreOp>) {
    forall it :: it in items ==> exists i :: 0 <= i < |ops| && !ops[i].Delete? && ops[i].now == it.lastUsed
  }

  ghost predicate Subsequence(a: seq<Item>, b: seq<Item>, at: seq<nat>) {
    && |at| == |a|
    && (forall i :: 0 <= i < |a| ==> at[i] < |b| && b[at[i]] == a[i])
    && (forall i, j :: 0 <= i < j < |a| ==> at[i] < at[j])
  }

  lemma {:induction false} WithoutIdMembers(items: seq<Item>, id: Id)
    ensures forall it :: it in WithoutId(items, id) <==> it in items && it.id != id
  {
    if items != [] {
      var head, tail := items[0], items[1..];
      WithoutIdMembers(tail, id);
      assert items == [head] + tail;
      assert forall it :: it in [head] + WithoutId(tail, id) <==> it == head || it in WithoutId(tail, id);
    }
  }

  function Shifted(at: seq<nat>): seq<nat> { seq(|at|, i requires 0 <= i < |at| => at[i] + 1) }

  lemma SubsequenceUnder(a: seq<Item>, b: seq<Item>, at: seq<nat>, longer: seq<Item>)
    requires Subsequence(a, b, at) && longer != [] && longer[1..] == b
    ensures Subsequence(a, longer, Shifted(at))
  {
    var moved := Shifted(at);
    forall i | 0 <= i < |a| ensures moved[i] < |longer| && longer[moved[i]] == a[i] {
      assert longer[1..][at[i]] == longer[at[i] + 1];
    }
  }

  lemma SubsequenceCons(a: seq<Item>, b: seq<Item>, moved: seq<nat>, x: Item)
    requires Subsequence(a, b, moved) && b != [] && b[0] == x && forall i :: 0 <= i < |moved| ==> moved[i] > 0
    ensures Subsequence([x] + a, b, [0] + moved)
  {
    var at, all := [0] + moved, [x] + a;
    forall i | 0 <= i < |all| ensures at[i] < |b| && b[at[i]] == all[i] {
      if i > 0 { assert at[i] == moved[i-1] && all[i] == a[i-1]; }
    }
    forall i, j | 0 <= i < j < |all| ensures at[i] < at[j] {
      assert at[j] == moved[j-1] && (i > 0 ==> at[i] == moved[i-1]);
    }
  }

  /** What is kept when an id goes: exactly the other items, in their order. */
  lemma {:induction false} WithoutIdCorrect(items: seq<Item>, id: Id) returns (at: seq<nat>)
    ensures Subsequence(WithoutId(items, id), items, at)
    ensures forall it :: it in WithoutId(items, id) <==> it in items && it.id != id
  {
    WithoutIdMembers(items, id);
    if items == [] {
      at := [];
    } else {
      var head, tail := items[0], items[1..];
      var rest := WithoutIdCorrect(tail, id);
      SubsequenceUnder(WithoutId(tail, id), tail, rest, items);
      SubsequenceCons(WithoutId(tail, id), items, Shifted(rest), head);
      at := if head.id == id then Shifted(rest) else [0] + Shifted(rest);
    }
  }

  lemma SubsequenceKeeps(a: seq<Item>, b: seq<Item>, at: seq<nat>, skew: int, ops: seq<StoreOp>)
    requires Subsequence(a, b, at) && NearlySorted(b, skew) && Stamped(b, ops)
    ensures NearlySorted(a, skew) && Stamped(a, ops)
  {
    forall it | it in a ensures it in b {
      var i :| 0 <= i < |a| && a[i] == it;
      assert b[at[i]] == it;
    }
  }

  lemma PrefixKeeps(a: seq<Item>, n: nat, skew: int, ops: seq<StoreOp>)
    requires n <= |a| && NearlySorted(a, skew) && Stamped(a, ops)
    ensures NearlySorted(a[..n], skew) && Stamped(a[..n], ops)
  {
    assert forall it :: it in a[..n] ==> it in a;
  }

  /** A fresh stamp goes in front of older ones. */
  lemma StampKeeps(items: seq<Item>, id: Id, now: int, ops: seq<StoreOp>, op: StoreOp, skew: int)
    requires NearlySorted(items, skew) && Stamped(items, ops) && Skewed(ops + [op], skew)
    requires !op.Delete? && op.now == now
    ensures NearlySorted([Item(id, now)] + items, skew) && Stamped([Item(id, now)] + items, ops + [op])
  {
    var longer := ops + [op];
    forall it | it in items
      ensures now >= it.lastUsed - skew
      ensures exists i :: 0 <= i < |longer| && !longer[i].Delete? && longer[i].now == it.lastUsed
    {
      var i :| 0 <= i < |ops| && !ops[i].Delete? && ops[i].now == it.lastUsed;
      assert longer[i] == ops[i] && longer[|ops|] == op;
    }
    assert longer[|ops|].now == now;
  }

  lemma StampedLonger(items: seq<Item>, ops: seq<StoreOp>, op: StoreOp)
    requires Stamped(items, ops)
    ensures Stamped(items, ops + [op])
  {
    forall it | it in items
      ensures exists i :: 0 <= i < |ops + [op]| && !(ops + [op])[i].Delete? && (ops + [op])[i].now == it.lastUsed
    {
      var i :| 0 <= i < |ops| && !ops[i].Delete? && ops[i].now == it.lastUsed;
      assert (ops + [op])[i] == ops[i];
    }
  }

  lemma NewKeepsNearlySorted(items: seq<Item>, ops: seq<StoreOp>, op: StoreOp, c: Config, skew: int)
    requires c.maxSessions > 0 && op.New?
    requires NearlySorted(items, skew) && Stamped(items, ops) && Skewed(ops + [op], skew)
    ensures NearlySorted(Apply(items, op, c), skew) && Stamped(Apply(items, op, c), ops + [op])
  {
    var n := ScanCuts(items, op.now, c.ttl);
    var live := items[..n];
    PrefixKeeps(items, n, skew, ops);
    var kept := EvictOver(live, c.maxSessions);
    PrefixKeeps(live, |kept|, skew, ops);
    assert live[..|kept|] == kept;
    StampKeeps(kept, op.id, op.now, ops, op, skew);
    var all := [Item(op.id, op.now)] + kept;
    var left := EvictOver(all, c.maxSessions);
    PrefixKeeps(all, |left|, skew, ops + [op]);
    assert all[..|left|] == left;
  }

  lemma UseKeepsNearlySorted(items: seq<Item>, ops: seq<StoreOp>, op: StoreOp, c: Config, skew: int)
    requires c.maxSessions > 0 && op.Use?
    requires NearlySorted(items, skew) && Stamped(items, ops) && Skewed(ops + [op], skew)
    ensures NearlySorted(Apply(items, op, c), skew) && Stamped(Apply(items, op, c), ops + [op])
  {
    var n := ScanCuts(items, op.now, c.ttl);
    var live := items[..n];
    PrefixKeeps(items, n, skew, ops);
    var at := WithoutIdCorrect(live, op.id);
    SubsequenceKeeps(WithoutId(live, op.id), live, at, skew, ops);
    StampKeeps(WithoutId(live, op.id), op.id, op.now, ops, op, skew);
    StampedLonger(live, ops, op);
  }

  lemma ApplyKeepsNearlySorted(items: seq<Item>, ops: seq<StoreOp>, op: StoreOp, c: Config, skew: int)
    requires c.maxSessions > 0
    requires NearlySorted(items, skew) && Stamped(items, ops) && Skewed(ops + [op], skew)
    ensures NearlySorted(Apply(items, op, c), skew) && Stamped(Apply(items, op, c), ops + [op])
  {
    match op
    case New(_, _) => NewKeepsNearlySorted(items, ops, op, c, skew);
    case Use(_, _) => UseKeepsNearlySorted(items, ops, op, c, skew);
    case Delete(id) =>
      var at := WithoutIdCorrect(items, id);
      SubsequenceKeeps(WithoutId(items, id), items, at, skew, ops);
      StampedLonger(WithoutId(items, id), ops, op);
  }

  lemma {:induction false} RunNearlySorted(ops: seq<StoreOp>, c: Config, skew: int)
    requires c.maxSessions > 0 && Skewed(ops, skew)
    ensures NearlySorted(Run(ops, c), skew) && Stamped(Run(ops, c), ops)
  {
    if ops != [] {
      var n := |ops| - 1;
      RunNearlySorted(ops[..n], c, skew);
      assert ops[..n] + [ops[n]] == ops;
      ApplyKeepsNearlySorted(Run(ops[..n], c), ops[..n], ops[n], c, skew);
    }
  }

  /** After any run with bounded skew, a scan evicts only sessions past their ttl and leaves none
      that is past it by more than the skew; with clocks in step it is the plain filter. */
  lemma ExpiryWithinSkew(ops: seq<StoreOp>, c: Config, skew: int, now: int)
    requires c.maxSessions > 0 && Skewed(ops, skew)
    ensures var items := Run(ops, c); var left := EvictExpired(items, now, c.ttl);
            && left <= items
            && (forall i :: |left| <= i < |items| ==> now - items[i].lastUsed > c.ttl)
            && (skew >= 0 ==> forall it :: it in left ==> now - it.lastUsed <= c.ttl + skew)
            && (skew == 0 ==> left == OnlyLive(items, now, c.ttl))
  {
    RunNearlySorted(ops, c, skew);
    ScanWithinSkew(Run(ops, c), now, c.ttl, skew);
  }

  lemma ScanWithinSkew(items: seq<Item>, now: int, ttl: int, skew: int)
    requires NearlySorted(items, skew)
    ensures var left := EvictExpired(items, now, ttl);
            && left <= items
            && (forall i :: |left| <= i < |items| ==> now - items[i].lastUsed > ttl)
            && (skew >= 0 ==> forall it :: it in left ==> now - it.lastUsed <= ttl + skew)
            && (skew == 0 ==> left == OnlyLive(items, now, ttl))
  {
    var n := ScanCuts(items, now, ttl);
    if skew == 0 { OnlyLiveOfSplit(items, n, now, ttl); }
    if skew >= 0 {
      forall i | 0 <= i < n ensures now - items[i].lastUsed <= ttl + skew {
        assert i < n - 1 ==> items[i].lastUsed >= items[n-1].lastUsed - skew;
      }
    }
  }

  /** Clocks read before the lock can leave an expired session in the store: one clock is six behind
      the other, both ids are new, and the scan stops at the live session behind the expired one. */
  lemma ScanCanLeaveExpired() returns (ops: seq<StoreOp>, c: Config, now: int)
    ensures c.maxSessions > 0 && FreshIds(ops) && Skewed(ops, 6) && forall i :: 0 <= i < |ops| ==> ops[i].New? && ops[i].now <= now
    ensures EvictExpired(Run(ops, c), now, c.ttl) == Run(ops, c) != OnlyLive(Run(ops, c), now, c.ttl)
    ensures exists it :: it in EvictExpired(Run(ops, c), now, c.ttl) && !Live(it, now, c.ttl)
  {
    var a, b := Item("a", 10), Item("b", 4);
    c, now := Config(5, 2), 12;
    ops := [New("a", 10), New("b", 4)];
    assert ops[..1] == [New("a", 10)] && ops[..1][..0] == [];
    assert Run(ops[..1], c) == [a] by { assert Run([], c) == []; }
    assert EvictExpired([a], 4, c.ttl) == [a];
    assert Run(ops, c) == [b, a];
    assert EvictExpired([b, a], now, c.ttl) == [b, a];
    OnlyLiveIsLive([b, a], now, c.ttl);
    assert b in [b, a] && !Live(b, now, c.ttl);
  }

  // ----- A bounded LRU ---------------------------------------------------------------------

  /** Ids are never reused (UUIDs). */
  ghost predicate FreshIds(ops: seq<StoreOp>) {
    forall i, j :: 0 <= i < j < |ops| && ops[i].New? && ops[j].New? ==> ops[i].id != ops[j].id
  }

  ghost predicate Mentions(op: StoreOp, id: Id) {
    !op.Delete? && op.id == id
  }

  /** Position of the last operation that created or used the session, -1 if none. */
  ghost function LastAccess(ops: seq<StoreOp>, id: Id): (n: int)
    ensures -1 <= n < |ops|
    ensures n >= 0 ==> Mentions(ops[n], id)
    ensures forall i :: n < i < |ops| ==> !Mentions(ops[i], id)
  {
    if ops == [] then -1
    else if Mentions(ops[|ops|-1], id) then |ops| - 1
    else LastAccess(ops[..|ops|-1], id)
  }

  ghost predicate Created(ops: seq<StoreOp>, id: Id) {
    exists n :: 0 <= n < |ops| && ops[n].New? && ops[n].id == id
  }

  /** The list is ordered by last access, latest first. */
  ghost predicate Lru(items: seq<Item>, ops: seq<StoreOp>) {
    && (forall i, j :: 0 <= i < j < |items| ==> LastAccess(ops, items[i].id) > LastAccess(ops, items[j].id))
    && (forall it :: it in items ==> LastAccess(ops, it.id) >= 0 && Created(ops, it.id))
  }

  lemma LruOfSubsequence(a: seq<Item>, b: seq<Item>, at: seq<nat>, ops: seq<StoreOp>)
    requires Subsequence(a, b, at) && Lru(b, ops)
    ensures Lru(a, ops)
  {
    forall it | it in a ensures it in b {
      var i :| 0 <= i < |a| && a[i] == it;
      assert b[at[i]] == it;
    }
  }

  lemma LruOfPrefix(a: seq<Item>, n: nat, ops: seq<StoreOp>)
    requires n <= |a| && Lru(a, ops)
    ensures Lru(a[..n], ops)
  {
    assert forall it :: it in a[..n] ==> it in a;
  }

  lemma AccessExtends(ops: seq<StoreOp>, op: StoreOp, id: Id)
    ensures LastAccess(ops + [op], id) == if Mentions(op, id) then |ops| else LastAccess(ops, id)
    ensures Created(ops, id) ==> Created(ops + [op], id)
  {
    assert (ops + [op])[..|ops|] == ops;
    if Created(ops, id) {
      var n :| 0 <= n < |ops| && ops[n].New? && ops[n].id == id;
      assert (ops + [op])[n] == ops[n];
    }
  }

  lemma LruExtends(items: seq<Item>, ops: seq<StoreOp>, op: StoreOp)
    requires Lru(items, ops) && forall it :: it in items ==> !Mentions(op, it.id)
    ensures Lru(items, ops + [op])
  {
    forall it | it in items
      ensures LastAccess(ops + [op], it.id) == LastAccess(ops, it.id) && Created(ops + [op], it.id)
    {
      AccessExtends(ops, op, it.id);
    }
  }

  lemma LruPushes(items: seq<Item>, ops: seq<StoreOp>, op: StoreOp, it: Item)
    requires Lru(items, ops) && Mentions(op, it.id) && Created(ops + [op], it.id)
    requires forall x :: x in items ==> x.id != it.id
    ensures Lru([it] + items, ops + [op])
  {
    LruExtends(items, ops, op);
    AccessExtends(ops, op, it.id);
    assert forall x :: x in [it] + items <==> x == it || x in items;
    forall x | x in items ensures LastAccess(ops + [op], x.id) < |ops| { AccessExtends(ops, op, x.id); }
  }

  /** A fresh id is in no list the earlier operations made. */
  lemma NewIsAbsent(items: seq<Item>, ops: seq<StoreOp>, op: StoreOp)
    requires op.New? && FreshIds(ops + [op]) && Lru(items, ops)
    ensures forall it :: it in items ==> it.id != op.id
    ensures Created(ops + [op], op.id)
  {
    var longer := ops + [op];
    assert longer[|ops|] == op;
    forall it | it in items ensures it.id != op.id {
      var n :| 0 <= n < |ops| && ops[n].New? && ops[n].id == it.id;
      assert longer[n] == ops[n];
    }
  }

  /** What NewSession makes of the list: the new session in front and, when the live ones already
      fill the store, the back element gone. */
  lemma NewDropsAtMostTheBack(items: seq<Item>, id: Id, now: int, c: Config)
    requires c.maxSessions > 0 && |items| <= c.maxSessions
    ensures var live := EvictExpired(items, now, c.ttl);
            Apply(items, New(id, now), c) ==
              [Item(id, now)] + (if |live| < c.maxSessions then live else live[..|live|-1])
  {
    var n := ScanCuts(items, now, c.ttl);
    var live := items[..n];
    assert EvictOver(live, c.maxSessions) == live;
    if |live| == c.maxSessions {
      assert ([Item(id, now)] + live)[..c.maxSessions] == [Item(id, now)] + live[..|live|-1];
    }
  }

  lemma NewKeepsLru(items: seq<Item>, ops: seq<StoreOp>, op: StoreOp, c: Config)
    requires c.maxSessions > 0 && |items| <= c.maxSessions && op.New?
    requires Lru(items, ops) && FreshIds(ops + [op])
    ensures Lru(Apply(items, op, c), ops + [op]) && |Apply(items, op, c)| <= c.maxSessions
  {
    NewDropsAtMostTheBack(items, op.id, op.now, c);
    var n := ScanCuts(items, op.now, c.ttl);
    var live := items[..n];
    var kept := if n < c.maxSessions then live else live[..n-1];
    LruOfPrefix(items, n, ops);
    LruOfPrefix(live, |kept|, ops);
    assert live[..|kept|] == kept;
    NewIsAbsent(kept, ops, op);
    LruPushes(kept, ops, op, Item(op.id, op.now));
  }

  lemma ApplyKeepsLru(items: seq<Item>, ops: seq<StoreOp>, op: StoreOp, c: Config)
    requires c.maxSessions > 0 && |items| <= c.maxSessions
    requires Lru(items, ops) && FreshIds(ops + [op])
    ensures Lru(Apply(items, op, c), ops + [op]) && |Apply(items, op, c)| <= c.maxSessions
  {
    match op
    case New(_, _) => NewKeepsLru(items, ops, op, c);
    case Use(id, now) =>
      var n := ScanCuts(items, now, c.ttl);
      LruOfPrefix(items, n, ops);
      UseKeepsLru(items[..n], ops, id, now);
    case Delete(id) =>
      var at := WithoutIdCorrect(items, id);
      LruOfSubsequence(WithoutId(items, id), items, at, ops);
      LruExtends(WithoutId(items, id), ops, op);
      SubsequenceShorter(WithoutId(items, id), items, at);
  }

  lemma UseKeepsLru(items: seq<Item>, ops: seq<StoreOp>, id: Id, now: int)
    requires Lru(items, ops)
    ensures Lru(Touch(items, id, now), ops + [Use(id, now)]) && |Touch(items, id, now)| <= |items|
  {
    if id in Ids(items) {
      var it :| it in items && it.id == id;
      AccessExtends(ops, Use(id, now), id);
      var at := WithoutIdCorrect(items, id);
      LruOfSubsequence(WithoutId(items, id), items, at, ops);
      LruPushes(WithoutId(items, id), ops, Use(id, now), Item(id, now));
      WithoutIdShorter(items, id);
    } else {
      LruExtends(items, ops, Use(id, now));
    }
  }

  lemma {:induction false} WithoutIdShorter(items: seq<Item>, id: Id)
    ensures |WithoutId(items, id)| <= |items|
    ensures id in Ids(items) ==> |WithoutId(items, id)| < |items|
  {
    if items != [] {
      WithoutIdShorter(items[1..], id);
      if id in Ids(items) && items[0].id != id {
        var it :| it in items && it.id == id;
        assert it in items[1..];
      }
    }
  }

  lemma SubsequenceShorter(a: seq<Item>, b: seq<Item>, at: seq<nat>)
    requires Subsequence(a, b, at)
    ensures |a| <= |b|
  {
    if |a| > 0 { StrictlyIncreasing(at, |a| - 1); }
  }

  lemma {:induction false} StrictlyIncreasing(at: seq<nat>, i: nat)
    requires i < |at| && forall i, j :: 0 <= i < j < |at| ==> at[i] < at[j]
    ensures at[i] >= i
  {
    if i > 0 { StrictlyIncreasing(at, i - 1); }
  }

  /** Over every run with fresh ids: never more than the limit, ordered by last access; so the back
      element, the one an over-limit eviction takes, is the least recently used. */
  lemma {:induction false} RunIsBoundedLru(ops: seq<StoreOp>, c: Config)
    requires c.maxSessions > 0 && FreshIds(ops)
    ensures |Run(ops, c)| <= c.maxSessions && Lru(Run(ops, c), ops)
    ensures ops != [] && ops[|ops|-1].New? ==> Run(ops, c) != [] && Run(ops, c)[0].id == ops[|ops|-1].id
  {
    if ops != [] {
      var n := |ops| - 1;
      RunIsBoundedLru(ops[..n], c);
      assert ops[..n] + [ops[n]] == ops;
      ApplyKeepsLru(Run(ops[..n], c), ops[..n], ops[n], c);
      if ops[n].New? { NewDropsAtMostTheBack(Run(ops[..n], c), ops[n].id, ops[n].now, c); }
    }
  }

  // ----- Who is found ----------------------------------------------------------------------

  /** A lookup finds a session exactly when it, or one behind it in the list, is within its ttl. */
  lemma UseFindsIff(items: seq<Item>, id: Id, now: int, c: Config)
    requires c.maxSessions > 0
    ensures id in Ids(Apply(items, Use(id, now), c)) <==>
            exists i, j :: 0 <= i <= j < |items| && items[i].id == id && now - items[j].lastUsed <= c.ttl
  {
    var n := ScanCuts(items, now, c.ttl);
    TouchKeepsIds(items[..n], id, now);
    if id in Ids(items[..n]) {
      var it :| it in items[..n] && it.id == id;
      var i :| 0 <= i < n && items[..n][i] == it;
      assert items[i].id == id && Live(items[n-1], now, c.ttl);
    }
    if i, j :| 0 <= i <= j < |items| && items[i].id == id && now - items[j].lastUsed <= c.ttl {
      assert Live(items[j], now, c.ttl) && i < n && items[..n][i] == items[i] && items[i] in items[..n];
    }
  }

  lemma TouchKeepsIds(items: seq<Item>, id: Id, now: int)
    ensures id in Ids(Touch(items, id, now)) <==> id in Ids(items)
  {
    if id in Ids(items) {
      var touched := Touch(items, id, now);
      assert touched[0] == Item(id, now) && touched[0] in touched;
    }
  }

  /** Every session in the store carries the clock of the last operation that mentions it. */
  ghost predicate StampedLast(items: seq<Item>, ops: seq<StoreOp>) {
    forall it :: it in items ==> LastAccess(ops, it.id) >= 0 && it.lastUsed == ops[LastAccess(ops, it.id)].now
  }

  lemma StampedLastKept(items: seq<Item>, kept: seq<Item>, ops: seq<StoreOp>, op: StoreOp)
    requires StampedLast(items, ops) && forall it :: it in kept ==> it in items && !Mentions(op, it.id)
    ensures StampedLast(kept, ops + [op])
  {
    forall it | it in kept
      ensures LastAccess(ops + [op], it.id) >= 0 && it.lastUsed == (ops + [op])[LastAccess(ops + [op], it.id)].now
    {
      AccessExtends(ops, op, it.id);
    }
  }

  lemma StampedLastFront(kept: seq<Item>, ops: seq<StoreOp>, op: StoreOp)
    requires !op.Delete? && StampedLast(kept, ops + [op])
    ensures StampedLast([Item(op.id, op.now)] + kept, ops + [op])
  {
    AccessExtends(ops, op, op.id);
    assert (ops + [op])[|ops|] == op;
  }

  lemma ApplyStampsLast(items: seq<Item>, ops: seq<StoreOp>, op: StoreOp, c: Config)
    requires c.maxSessions > 0 && |items| <= c.maxSessions
    requires StampedLast(items, ops) && Lru(items, ops) && FreshIds(ops + [op])
    ensures StampedLast(Apply(items, op, c), ops + [op])
  {
    match op
    case New(id, now) =>
      NewDropsAtMostTheBack(items, id, now, c);
      var n := ScanCuts(items, now, c.ttl);
      var live := items[..n];
      var kept := if |live| < c.maxSessions then live else live[..|live|-1];
      NewIsAbsent(items, ops, op);
      StampedLastKept(items, kept, ops, op);
      StampedLastFront(kept, ops, op);
    case Use(id, now) =>
      var n := ScanCuts(items, now, c.ttl);
      TouchStampsLast(items, items[..n], ops, id, now);
    case Delete(id) =>
      var at := WithoutIdCorrect(items, id);
      StampedLastKept(items, WithoutId(items, id), ops, op);
  }

  lemma TouchStampsLast(items: seq<Item>, live: seq<Item>, ops: seq<StoreOp>, id: Id, now: int)
    requires StampedLast(items, ops) && forall it :: it in live ==> it in items
    ensures StampedLast(Touch(live, id, now), ops + [Use(id, now)])
  {
    var at := WithoutIdCorrect(live, id);
    StampedLastKept(items, WithoutId(live, id), ops, Use(id, now));
    if id in Ids(live) {
      StampedLastFront(WithoutId(live, id), ops, Use(id, now));
    } else {
      assert forall it :: it in live ==> it.id in Ids(live);
      StampedLastKept(items, live, ops, Use(id, now));
    }
  }

  lemma {:induction false} RunStampsLast(ops: seq<StoreOp>, c: Config)
    requires c.maxSessions > 0 && FreshIds(ops)
    ensures StampedLast(Run(ops, c), ops)
  {
    if ops != [] {
      var n := |ops| - 1;
      RunStampsLast(ops[..n], c);
      RunIsBoundedLru(ops[..n], c);
      assert ops[..n] + [ops[n]] == ops;
      ApplyStampsLast(Run(ops[..n], c), ops[..n], ops[n], c);
    }
  }

  lemma RunOneMore(ops: seq<StoreOp>, op: StoreOp, c: Config)
    requires c.maxSessions > 0
    ensures Run(ops + [op], c) == Apply(Run(ops, c), op, c)
  {
    assert (ops + [op])[..|ops|] == ops;
  }

  /** Whoever is found was last accessed no longer ago than the ttl and the skew. */
  lemma FoundMeansRecent(ops: seq<StoreOp>, c: Config, skew: nat, id: Id, now: int)
    requires c.maxSessions > 0 && FreshIds(ops) && Skewed(ops, skew)
    requires id in Ids(Run(ops + [Use(id, now)], c))
    ensures var n := LastAccess(ops, id); n >= 0 && now - ops[n].now <= c.ttl + skew
  {
    var items := Run(ops, c);
    RunOneMore(ops, Use(id, now), c);
    RunNearlySorted(ops, c, skew);
    RunStampsLast(ops, c);
    var it := FoundItem(items, c, skew, id, now);
  }

  lemma FoundItem(items: seq<Item>, c: Config, skew: nat, id: Id, now: int) returns (it: Item)
    requires c.maxSessions > 0 && NearlySorted(items, skew) && id in Ids(Apply(items, Use(id, now), c))
    ensures it in items && it.id == id && now - it.lastUsed <= c.ttl + skew
  {
    UseFindsIff(items, id, now, c);
    var i, j :| 0 <= i <= j < |items| && items[i].id == id && now - items[j].lastUsed <= c.ttl;
    it := items[i];
  }

  /** The ids that operations behind position n created or used. */
  ghost function AccessedSince(ops: seq<StoreOp>, n: int): set<Id> {
    set j | 0 <= j < |ops| && n < j && !ops[j].Delete? :: ops[j].id
  }

  lemma AccessedOneMore(ops: seq<StoreOp>, op: StoreOp, n: int)
    requires n < |ops|
    ensures AccessedSince(ops + [op], n) == AccessedSince(ops, n) + (if op.Delete? then {} else {op.id})
  {
    var longer := ops + [op];
    forall id | id in AccessedSince(longer, n) ensures id in AccessedSince(ops, n) || (!op.Delete? && id == op.id) {
      var j :| 0 <= j < |longer| && n < j && !longer[j].Delete? && longer[j].id == id;
      if j < |ops| { assert ops[j] == longer[j]; }
    }
    forall id | id in AccessedSince(ops, n) ensures id in AccessedSince(longer, n) {
      var j :| 0 <= j < |ops| && n < j && !ops[j].Delete? && ops[j].id == id;
      assert longer[j] == ops[j];
    }
    assert longer[|ops|] == op;
  }

  lemma {:induction false} IdsCount(items: seq<Item>)
    requires forall i, j :: 0 <= i < j < |items| ==> items[i].id != items[j].id
    ensures |Ids(items)| == |items|
  {
    if items != [] {
      var n := |items| - 1;
      IdsCount(items[..n]);
      assert items == items[..n] + [items[n]];
      assert Ids(items) == Ids(items[..n]) + {items[n].id};
      forall it | it in items[..n] ensures it.id != items[n].id {
        var i :| 0 <= i < n && items[i] == it;
      }
    }
  }

  /** In front of a session stand only sessions accessed after it, so it is no further back than these are many. */
  lemma FrontWasAccessed(items: seq<Item>, ops: seq<StoreOp>, i: nat)
    requires Lru(items, ops) && i < |items|
    ensures var n := LastAccess(ops, items[i].id);
            Ids(items[..i]) <= AccessedSince(ops, n) && |Ids(items[..i])| == i && items[i].id !in Ids(items[..i])
  {
    forall j, k | 0 <= j < k <= i ensures items[j].id != items[k].id {
      assert LastAccess(ops, items[j].id) > LastAccess(ops, items[k].id);
    }
    IdsCount(items[..i]);
    forall id | id in Ids(items[..i]) ensures id in AccessedSince(ops, LastAccess(ops, items[i].id)) {
      var it :| it in items[..i] && it.id == id;
      var j :| 0 <= j < i && items[j] == it;
      assert Mentions(ops[LastAccess(ops, id)], id);
    }
  }

  lemma BackIsFar(items: seq<Item>, ops: seq<StoreOp>, op: StoreOp, i: nat)
    requires op.New? && FreshIds(ops + [op]) && Lru(items, ops) && i < |items|
    ensures |AccessedSince(ops + [op], LastAccess(ops, items[i].id))| >= i + 1
  {
    var n := LastAccess(ops, items[i].id);
    FrontWasAccessed(items, ops, i);
    NewIsAbsent(items, ops, op);
    AccessedOneMore(ops, op, n);
    var front := Ids(items[..i]) + {op.id};
    assert op.id !in Ids(items[..i]);
    SubsetCount(front, AccessedSince(ops + [op], n));
  }

  lemma SubsetCount<T>(a: set<T>, b: set<T>)
    requires a <= b
    ensures |a| <= |b|
  {
    assert b == a + (b - a);
  }

  /** One operation that neither mentions nor deletes a session within its ttl, with room left for it. */
  lemma StaysStep(items: seq<Item>, ops: seq<StoreOp>, op: StoreOp, c: Config, it: Item)
    requires c.maxSessions > 0 && |items| <= c.maxSessions && it in items
    requires Lru(items, ops) && FreshIds(ops + [op]) && op.id != it.id
    requires !op.Delete? ==> op.now - it.lastUsed <= c.ttl
    requires |AccessedSince(ops + [op], LastAccess(ops, it.id))| < c.maxSessions
    ensures it in Apply(items, op, c)
  {
    var i :| 0 <= i < |items| && items[i] == it;
    if op.Delete? {
      var at := WithoutIdCorrect(items, op.id);
    } else {
      var n := ScanCuts(items, op.now, c.ttl);
      var live := items[..n];
      assert i < n && live[i] == it;
      if op.New? {
        NewDropsAtMostTheBack(items, op.id, op.now, c);
        BackIsFar(items, ops, op, i);
        if |live| == c.maxSessions { assert live[..|live|-1][i] == it; }
      } else {
        var at := WithoutIdCorrect(live, op.id);
      }
    }
  }

  /** Since position n, where the session was accessed, no clock was past its ttl, no operation deleted
      it, and fewer other sessions were accessed than the store holds. */
  ghost predicate Undropped(ops: seq<StoreOp>, c: Config, id: Id, n: nat) {
    && n < |ops| && Mentions(ops[n], id)
    && (forall j :: n < j < |ops| ==> ops[j].id != id && (!ops[j].Delete? ==> ops[j].now - ops[n].now <= c.ttl))
    && |AccessedSince(ops, n)| < c.maxSessions
  }

  lemma {:induction false} LastIs(ops: seq<StoreOp>, id: Id, n: nat)
    requires n < |ops| && Mentions(ops[n], id) && forall j :: n < j < |ops| ==> ops[j].id != id
    ensures LastAccess(ops, id) == n
  {
    assert !(LastAccess(ops, id) < n);
  }

  lemma {:induction false} StillThere(ops: seq<StoreOp>, c: Config, id: Id, n: nat)
    requires c.maxSessions > 0 && FreshIds(ops) && Undropped(ops, c, id, n) && id in Ids(Run(ops[..n+1], c))
    ensures Item(id, ops[n].now) in Run(ops, c)
    decreases |ops|
  {
    var m := |ops| - 1;
    var before, op := ops[..m], ops[m];
    assert before + [op] == ops;
    LastIs(ops, id, n);
    if m == n {
      assert ops[..n+1] == ops;
      RunStampsLast(ops, c);
      var it :| it in Run(ops, c) && it.id == id;
    } else {
      AccessedOneMore(before, op, n);
      SubsetCount(AccessedSince(before, n), AccessedSince(ops, n));
      assert before[..n+1] == ops[..n+1];
      StillThere(before, c, id, n);
      LastIs(before, id, n);
      RunIsBoundedLru(before, c);
      StaysStep(Run(before, c), before, op, c, Item(id, ops[n].now));
      RunOneMore(before, op, c);
    }
  }

  /** Whoever was accessed within the ttl of every clock since, and was neither deleted nor pushed out, is found. */
  lemma RecentMeansFound(ops: seq<StoreOp>, c: Config, id: Id, n: nat, now: int)
    requires c.maxSessions > 0 && FreshIds(ops) && Undropped(ops, c, id, n) && id in Ids(Run(ops[..n+1], c))
    requires now - ops[n].now <= c.ttl
    ensures id in Ids(Run(ops + [Use(id, now)], c))
  {
    StillThere(ops, c, id, n);
    var items := Run(ops, c);
    var i :| 0 <= i < |items| && items[i] == Item(id, ops[n].now);
    RunOneMore(ops, Use(id, now), c);
    UseFindsIff(items, id, now, c);
  }

  /** With clocks at most skew apart it is enough that the last access is within the ttl less the skew. */
  lemma RecentMeansFoundWithinSkew(ops: seq<StoreOp>, c: Config, skew: nat, id: Id, n: nat, now: int)
    requires c.maxSessions > 0 && FreshIds(ops) && Skewed(ops + [Use(id, now)], skew)
    requires n < |ops| && Mentions(ops[n], id) && id in Ids(Run(ops[..n+1], c))
    requires forall j :: n < j < |ops| ==> ops[j].id != id
    requires |AccessedSince(ops, n)| < c.maxSessions
    requires now - ops[n].now <= c.ttl - skew
    ensures id in Ids(Run(ops + [Use(id, now)], c))
  {
    var longer := ops + [Use(id, now)];
    forall j | n < j < |ops| && !ops[j].Delete? ensures ops[j].now - ops[n].now <= c.ttl {
      assert longer[j] == ops[j] && longer[|ops|] == Use(id, now);
    }
    RecentMeansFound(ops, c, id, n, now);
  }

  /** Within the ttl alone is not enough: a lookup of somebody else whose clock is one ahead evicts it. */
  lemma WithinTtlCanBeLost() returns (ops: seq<StoreOp>, c: Config, id: Id, now: int)
    ensures c.maxSessions > 0 && FreshIds(ops) && Skewed(ops + [Use(id, now)], 1)
    ensures |ops| > 0 && ops[0].New? && ops[0].id == id && id in Ids(Run(ops[..1], c)) && forall j :: 1 <= j < |ops| ==> ops[j].id != id
    ensures |AccessedSince(ops, 0)| < c.maxSessions && now - ops[0].now <= c.ttl
    ensures id !in Ids(Run(ops + [Use(id, now)], c))
  {
    var a := Item("a", 0);
    c, id, now := Config(5, 2), "a", 5;
    ops := [New("a", 0), Use("b", 6)];
    assert ops[..1] == [New("a", 0)] && ops[..1][..0] == [];
    assert Run(ops[..1], c) == [a] by { assert Run([], c) == []; }
    assert a in [a];
    assert EvictExpired([a], 6, c.ttl) == [] by { assert [a][..0] == []; }
    assert Run(ops, c) == [];
    RunOneMore(ops, Use(id, now), c);
    AccessedOneMore(ops[..1], ops[1], 0);
    assert ops[..1] + [ops[1]] == ops;
    assert AccessedSince(ops[..1], 0) == {};
  }

  // ----- Closed sessions -------------------------------------------------------------------

  /** Sessions that have left the list; leaving is what closes a session. */
  ghost function Closed(ops: seq<StoreOp>, c: Config): set<Id>
    requires c.maxSessions > 0
  {
    if ops == [] then {} else
      var before, op := ops[..|ops|-1], ops[|ops|-1];
      Closed(before, c) + (Ids(Run(before, c)) + (if op.New? then {op.id} else {}) - Ids(Run(ops, c)))
  }

  lemma ApplyIds(items: seq<Item>, op: StoreOp, c: Config)
    requires c.maxSessions > 0
    ensures Ids(Apply(items, op, c)) <= Ids(items) + (if op.New? then {op.id} else {})
  {
    if op.Delete? {
      var at := WithoutIdCorrect(items, op.id);
    } else {
      var n := ScanCuts(items, op.now, c.ttl);
      assert forall it :: it in items[..n] ==> it in items;
      var at := WithoutIdCorrect(items[..n], op.id);
      assert Ids(items[..n]) <= Ids(items);
      forall it | it in Apply(items, op, c) ensures it.id in Ids(items) + (if op.New? then {op.id} else {}) {
        if op.New? {
          assert it == Item(op.id, op.now) || it in items[..n];
        } else {
          assert it in items[..n] || it == Item(op.id, op.now);
        }
      }
    }
  }

  /** A session is open or closed, never both, and exactly the created ones are either; once closed
      it stays closed. */
  lemma {:induction false} OpenXorClosed(ops: seq<StoreOp>, c: Config, id: Id)
    requires c.maxSessions > 0 && FreshIds(ops)
    ensures Created(ops, id) <==> id in Ids(Run(ops, c)) || id in Closed(ops, c)
    ensures !(id in Ids(Run(ops, c)) && id in Closed(ops, c))
    ensures ops != [] ==> Closed(ops[..|ops|-1], c) <= Closed(ops, c)
  {
    if ops != [] {
      var n := |ops| - 1;
      OpenXorClosed(ops[..n], c, id);
      ApplyIds(Run(ops[..n], c), ops[n], c);
      CreatedStep(ops, id);
    }
  }

  lemma CreatedStep(ops: seq<StoreOp>, id: Id)
    requires ops != [] && FreshIds(ops)
    ensures var n := |ops| - 1;
            Created(ops, id) <==> Created(ops[..n], id) || (ops[n].New? && ops[n].id == id)
    ensures var n := |ops| - 1; ops[n].New? && ops[n].id == id ==> !Created(ops[..n], id)
  {
    var n := |ops| - 1;
    if Created(ops, id) {
      var i :| 0 <= i < |ops| && ops[i].New? && ops[i].id == id;
      assert i < n ==> ops[..n][i] == ops[i];
    }
    if Created(ops[..n], id) {
      var i :| 0 <= i < n && ops[..n][i].New? && ops[..n][i].id == id;
      assert ops[i] == ops[..n][i];
    }
  }
}
