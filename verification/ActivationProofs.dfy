/** Invariants of every run of `ActivationProtocol`, and the theorems they give. */
module ActivationProofs {
  import opened SkillTypes
  import opened ActiveList
  import opened ActivationProtocol

  // ----- The invariant ---------------------------------------------------------------------

  ghost predicate SessionOk(se: Session) {
    && Rep(se.view, se.maxActive)
    && se.view == Replay(se.log)
    && se.view.version == |se.log|
  }

  ghost predicate HandlesOk(log: seq<Op>, c: CallId, r: Request, o: Outcome)
    requires o.Handles?
  {
    && r.base <= o.entry < |log|
    && log[o.entry] == Activate(c, r.mode, Dedup(r.keys))
    && o.missing <= Replay(log[..o.entry+1]).active
    && o.kept == Without(Replay(log[..o.entry+1]).order, o.missing)
    && (o.missing != {} ==> o.entry + 1 < |log| && log[o.entry+1] == Removal(c, o.missing))
  }

  ghost predicate HoldingOk(se: Session, c: CallId, call: Call)
    requires call.Holding?
  {
    && se.lock == Some(c)
    && call.at <= |se.view.order|
    && call.missing <= Elems(se.view.order[..call.at])
    && call.kept == Without(se.view.order[..call.at], call.missing)
    && (call.purpose.ForActivation? ==>
          var r := call.purpose.r;
          && r.sid == call.held
          && r.base <= call.purpose.entry
          && |se.log| == call.purpose.entry + 1
          && se.log[call.purpose.entry] == Activate(c, r.mode, Dedup(r.keys)))
  }

  ghost predicate CheckingOk(se: Session, call: Call)
    requires call.Checking?
  {
    && call.req == Dedup(call.r.keys)
    && call.round < MAX_ROUNDS
    && call.snapshot.version <= |se.log|
    && call.r.base + call.round <= call.snapshot.version
    && call.snapshot == Replay(se.log[..call.snapshot.version])
    && call.next == NextOrder(call.r.mode, call.snapshot.order, call.req)
    && (se.maxActive > 0 ==> |call.next| <= se.maxActive)
  }

  ghost predicate CallOk(sessions: map<SessionId, Session>, c: CallId, call: Call) {
    match call
    case Validating(r, at, req) =>
      r.sid in sessions && r.base <= |sessions[r.sid].log| && at < |r.keys| && req == Dedup(r.keys[..at])
    case Ready(r, req, round) =>
      r.sid in sessions && req == Dedup(r.keys) && round < MAX_ROUNDS && r.base + round <= |sessions[r.sid].log|
    case Checking(r, _, _, _, _, _, _) => r.sid in sessions && CheckingOk(sessions[r.sid], call)
    case Holding(_, held, _, _, _) => held in sessions && HoldingOk(sessions[held], c, call)
    case Activated(r, o) =>
      && r.sid in sessions
      && (o.Handles? ==> HandlesOk(sessions[r.sid].log, c, r, o))
      && (o == Failed(RetriesExhausted) ==> r.base + MAX_ROUNDS <= |sessions[r.sid].log|)
    case Unloading(sid, _) => sid in sessions
    case Asking(sid) => sid in sessions
    case Listing(sid, order, at, kept, missing) => sid in sessions && at <= |order|
    case Removing(_, todo) => todo.Some? ==> todo.value <= sessions.Keys
    case Unloaded(_, _) => true
    case Listed(_) => true
  }

  /** The call that wrote an `Activate` entry stands at or past its commit, for that very entry. */
  ghost predicate CommittedAt(call: Call, sid: SessionId, i: nat, mode: LoadMode, req: seq<Key>) {
    || (call.Holding? && call.purpose.ForActivation? && call.purpose.entry == i &&
        call.held == sid == call.purpose.r.sid && mode == call.purpose.r.mode && req == Dedup(call.purpose.r.keys))
    || (call.Activated? && call.outcome.Handles? && call.outcome.entry == i &&
        call.r.sid == sid && mode == call.r.mode && req == Dedup(call.r.keys))
  }

  /** Phases a call can be in after having written. */
  ghost predicate MayHaveWritten(call: Call) {
    call.Holding? || call.Unloaded? || call.Listed? || call.Removing? || (call.Activated? && call.outcome.Handles?)
  }

  ghost predicate EntryOk(s: State, sid: SessionId, i: nat, op: Op) {
    && op.call in s.calls
    && MayHaveWritten(s.calls[op.call])
    && (op.Activate? ==> CommittedAt(s.calls[op.call], sid, i, op.mode, op.req))
  }

  ghost predicate SessionsOk(s: State) {
    && (forall sid :: sid in s.sessions ==> SessionOk(s.sessions[sid]))
    && (forall sid :: sid in s.sessions ==> (sid in s.store <==> !s.sessions[sid].closed))
    && s.store <= s.sessions.Keys
  }

  ghost predicate LocksOk(s: State) {
    forall sid :: sid in s.sessions && s.sessions[sid].lock.Some? ==>
      var c := s.sessions[sid].lock.value;
      c in s.calls && s.calls[c].Holding? && s.calls[c].held == sid
  }

  ghost predicate CallsOk(s: State) {
    forall c :: c in s.calls ==> CallOk(s.sessions, c, s.calls[c])
  }

  ghost predicate LogsOk(s: State) {
    forall sid, i :: sid in s.sessions && 0 <= i < |s.sessions[sid].log| ==> EntryOk(s, sid, i, s.sessions[sid].log[i])
  }

  /** A key the current lock holder has not examined yet is not settled. */
  ghost predicate Settled(s: State, sid: SessionId, k: Key) {
    sid in s.sessions &&
    match s.sessions[sid].lock
    case None => k in s.sessions[sid].view.active
    case Some(c) => c in s.calls && s.calls[c].Holding? && k in s.calls[c].kept
  }

  ghost predicate OrphansOk(s: State) {
    forall sid, k :: sid in s.sessions && !s.sessions[sid].closed && Settled(s, sid, k) ==> Covered(s, sid, k)
  }

  ghost predicate Inv(s: State) {
    SessionsOk(s) && LocksOk(s) && CallsOk(s) && LogsOk(s) && OrphansOk(s)
  }

  // ----- A local step: what its effect must satisfy ----------------------------------------

  /** How call c may change a session: under its lock or a free one, adding at most one entry of its own. */
  ghost predicate EditOk(se: Session, se': Session, c: CallId) {
    && SessionOk(se')
    && se'.closed == se.closed && se'.maxActive == se.maxActive
    && (se.lock.None? || se.lock == Some(c))
    && (se'.lock.None? || se'.lock == Some(c))
    && se.log <= se'.log
    && |se'.log| <= |se.log| + 1
  }

  /** The key is settled in a session that looks like `se` while its lock holder looks like `holder`. */
  ghost predicate SettledIn(se: Session, holder: Call, k: Key) {
    if se.lock.None? then k in se.view.active else holder.Holding? && k in holder.kept
  }

  ghost predicate EffectOk(s: State, c: CallId, e: Effect) {
    && (e.session.Some? ==>
          && e.sid in s.sessions && EditOk(s.sessions[e.sid], e.session.value, c)
          && (e.session.value.lock == Some(c) ==> e.call.Holding? && e.call.held == e.sid)
          && (|e.session.value.log| > |s.sessions[e.sid].log| ==>
                EntryOk(Install(s, c, e), e.sid, |s.sessions[e.sid].log|, e.session.value.log[|s.sessions[e.sid].log|])))
    && CallOk(Install(s, c, e).sessions, c, e.call)
    && (c in s.calls ==>
          && (s.calls[c].Holding? ==>
                || (e.session.Some? && e.sid == s.calls[c].held && e.session.value.lock.None?)
                || (e.session.None? && e.call.Holding? && e.call.held == s.calls[c].held))
          && (MayHaveWritten(s.calls[c]) ==> MayHaveWritten(e.call))
          && (forall sid, i, m, q :: CommittedAt(s.calls[c], sid, i, m, q) ==> CommittedAt(e.call, sid, i, m, q)))
    // settled keys were settled before or have just been seen in the catalog
    && (e.session.Some? ==> forall k :: SettledIn(e.session.value, e.call, k) ==>
          k in s.catalog || (c in s.calls && SettledIn(s.sessions[e.sid], s.calls[c], k)))
    && (e.session.None? && e.call.Holding? ==> forall k :: k in e.call.kept ==>
          k in s.catalog || (c in s.calls && s.calls[c].Holding? && k in s.calls[c].kept))
    // a removal stops covering a session only when the key has gone from it, or it is closed
    && (c in s.calls ==> forall sid, k ::
          (sid in s.sessions && !s.sessions[sid].closed && Pending(s.calls[c], sid, k) && !Pending(e.call, sid, k)) ==>
            (e.session.Some? && e.sid == sid && e.session.value.lock.None? && k !in e.session.value.view.active))
  }

  // ----- Such an effect keeps the invariant ------------------------------------------------

  ghost predicate Grows(se: Session, se': Session) {
    && se.log <= se'.log
    && (se.closed ==> se'.closed)
    && se'.maxActive == se.maxActive
  }

  ghost predicate Framed(se: Session, se': Session) {
    se'.view == se.view && se'.log == se.log && se'.lock == se.lock
  }

  ghost predicate Evolves(a: map<SessionId, Session>, b: map<SessionId, Session>, actor: Option<CallId>) {
    forall sid :: sid in a ==>
      && sid in b
      && Grows(a[sid], b[sid])
      && (a[sid].lock.Some? && a[sid].lock != actor ==> Framed(a[sid], b[sid]))
  }

  /** Calls other than the actor keep their claims: they speak about log prefixes only, and
      about the current list only while holding the lock. */
  lemma CallStable(a: map<SessionId, Session>, b: map<SessionId, Session>, actor: Option<CallId>, c: CallId, call: Call)
    requires Evolves(a, b, actor) && Some(c) != actor && CallOk(a, c, call)
    ensures CallOk(b, c, call)
  {
    match call
    case Validating(r, _, _) => assert Grows(a[r.sid], b[r.sid]);
    case Ready(r, _, _) => assert Grows(a[r.sid], b[r.sid]);
    case Checking(r, _, _, _, _, _, _) =>
      assert Grows(a[r.sid], b[r.sid]);
      PrefixOfPrefix(a[r.sid].log, b[r.sid].log, call.snapshot.version);
    case Holding(_, held, _, _, _) => assert Framed(a[held], b[held]);
    case Activated(r, o) =>
      assert Grows(a[r.sid], b[r.sid]);
      if o.Handles? {
        PrefixOfPrefix(a[r.sid].log, b[r.sid].log, o.entry + 1);
      }
    case _ =>
  }

  lemma PrefixOfPrefix<T>(a: seq<T>, b: seq<T>, n: nat)
    requires a <= b && n <= |a|
    ensures a[..n] == b[..n]
  {}

  lemma InstallCallsOk(s: State, c: CallId, e: Effect)
    requires CallsOk(s) && EffectOk(s, c, e)
    ensures CallsOk(Install(s, c, e))
  {
    var s' := Install(s, c, e);
    assert Evolves(s.sessions, s'.sessions, Some(c));
    forall c' | c' in s'.calls ensures CallOk(s'.sessions, c', s'.calls[c']) {
      if c' != c { CallStable(s.sessions, s'.sessions, Some(c), c', s.calls[c']); }
    }
  }

  lemma InstallLocksOk(s: State, c: CallId, e: Effect)
    requires LocksOk(s) && EffectOk(s, c, e)
    ensures LocksOk(Install(s, c, e))
  {}

  lemma InstallLogsOk(s: State, c: CallId, e: Effect)
    requires LogsOk(s) && EffectOk(s, c, e)
    ensures LogsOk(Install(s, c, e))
  {
    var s' := Install(s, c, e);
    forall sid, i | sid in s'.sessions && 0 <= i < |s'.sessions[sid].log|
      ensures EntryOk(s', sid, i, s'.sessions[sid].log[i])
    {
      if i < |s.sessions[sid].log| {
        assert s'.sessions[sid].log[i] == s.sessions[sid].log[i];
        assert EntryOk(s, sid, i, s.sessions[sid].log[i]);
      }
    }
  }

  lemma InstallOrphansOk(s: State, c: CallId, e: Effect)
    requires LocksOk(s) && OrphansOk(s) && EffectOk(s, c, e)
    ensures OrphansOk(Install(s, c, e))
  {
    var s' := Install(s, c, e);
    forall sid, k | sid in s'.sessions && !s'.sessions[sid].closed && Settled(s', sid, k)
      ensures Covered(s', sid, k)
    {
      if k !in s.catalog {
        SettledBefore(s, c, e, sid, k);
        var c' :| c' in s.calls && Pending(s.calls[c'], sid, k);
        assert c' in s'.calls && Pending(s'.calls[c'], sid, k);
      }
    }
  }

  lemma SettledBefore(s: State, c: CallId, e: Effect, sid: SessionId, k: Key)
    requires LocksOk(s) && EffectOk(s, c, e)
    requires sid in Install(s, c, e).sessions && Settled(Install(s, c, e), sid, k) && k !in s.catalog
    ensures Settled(s, sid, k)
  {
    var s' := Install(s, c, e);
    if e.session.Some? && e.sid == sid {
      assert SettledIn(e.session.value, e.call, k);
      assert SettledIn(s.sessions[sid], s.calls[c], k);
    }
  }

  lemma InstallInv(s: State, c: CallId, e: Effect)
    requires Inv(s) && EffectOk(s, c, e)
    ensures Inv(Install(s, c, e))
  {
    InstallCallsOk(s, c, e);
    InstallLocksOk(s, c, e);
    InstallLogsOk(s, c, e);
    InstallOrphansOk(s, c, e);
  }

  // ----- Every local step has such an effect -----------------------------------------------

  lemma ReplaySnoc(log: seq<Op>, op: Op)
    ensures Replay(log + [op]) == Apply(Replay(log), op)
  {
    assert (log + [op])[..|log|] == log;
  }

  lemma WriteOk(se: Session, op: Op)
    requires SessionOk(se)
    requires op.Activate? ==>
      NoDup(op.req) && (se.maxActive > 0 ==> |NextOrder(op.mode, se.view.order, op.req)| <= se.maxActive)
    ensures SessionOk(Write(se, op)) && se.log <= Write(se, op).log
  {
    ReplaySnoc(se.log, op);
    match op
    case Activate(_, mode, req) =>
      NextOrderKeepsRep(mode, se.view.order, req);
      CommitKeepsRep(se.view, NextOrder(mode, se.view.order, req), se.maxActive);
    case Removal(_, rm) =>
      DropKeepsRep(se.view, rm, se.maxActive);
  }

  /** The heart of optimistic concurrency: the versions agree, so the list is the snapshot, so
      what was computed from the snapshot is what the current list calls for. */
  lemma VersionMatchMeansUnchanged(se: Session, call: Call)
    requires SessionOk(se) && call.Checking? && CheckingOk(se, call)
    requires se.view.version == call.snapshot.version
    ensures call.snapshot == se.view
    ensures call.next == NextOrder(call.r.mode, se.view.order, call.req)
  {
    assert se.log[..|se.log|] == se.log;
  }

  /** A step that moves only its own call, neither from nor to a writing phase. */
  lemma PhaseEffectOk(s: State, c: CallId, call: Call)
    requires CallOk(s.sessions, c, call) && !call.Holding?
    requires c in s.calls ==> !MayHaveWritten(s.calls[c])
    ensures EffectOk(s, c, Phase(call))
  {}

  lemma StartOk(s: State, c: CallId, se: Session, r: Request)
    requires c !in s.calls && r.sid in s.sessions && s.sessions[r.sid] == se && r.base == |se.log|
    ensures EffectOk(s, c, OnStart(se, r))
  {
    PhaseEffectOk(s, c, OnStart(se, r).call);
  }

  lemma ValidateOk(s: State, c: CallId, r: Request, at: nat, req: seq<Key>)
    requires c in s.calls && s.calls[c] == Validating(r, at, req) && CallOk(s.sessions, c, s.calls[c])
    ensures EffectOk(s, c, OnValidate(s.catalog, r, at, req))
  {
    assert r.keys[..at+1][..at] == r.keys[..at];
    assert r.keys[..|r.keys|] == r.keys;
    PhaseEffectOk(s, c, OnValidate(s.catalog, r, at, req).call);
  }

  lemma SnapshotOk(s: State, c: CallId, se: Session, r: Request, req: seq<Key>, round: nat)
    requires c in s.calls && s.calls[c] == Ready(r, req, round) && CallOk(s.sessions, c, s.calls[c])
    requires s.sessions[r.sid] == se && SessionOk(se)
    ensures EffectOk(s, c, OnSnapshot(se, r, req, round))
  {
    assert se.log[..|se.log|] == se.log;
    PhaseEffectOk(s, c, OnSnapshot(se, r, req, round).call);
  }

  lemma CommitEditOk(c: CallId, se: Session, call: Call)
    requires SessionOk(se) && call.Checking? && CheckingOk(se, call)
    requires !se.closed && se.view.version == call.snapshot.version && se.lock.None?
    ensures var e := OnCommit(c, se, call);
            e.session.Some? && EditOk(se, e.session.value, c) && HoldingOk(e.session.value, c, e.call)
  {
    VersionMatchMeansUnchanged(se, call);
    DedupCorrect(call.r.keys);
    WriteOk(se, Activate(c, call.r.mode, call.req));
  }

  lemma CommitOk(s: State, c: CallId, se: Session, call: Call)
    requires c in s.calls && s.calls[c] == call && call.Checking? && CallOk(s.sessions, c, call)
    requires s.sessions[call.r.sid] == se && SessionOk(se) && se.lock.None?
    ensures EffectOk(s, c, OnCommit(c, se, call))
  {
    var e := OnCommit(c, se, call);
    if e.session.None? {
      PhaseEffectOk(s, c, e.call);
    } else {
      CommitEditOk(c, se, call);
      assert CallOk(Install(s, c, e).sessions, c, e.call);
      assert EntryOk(Install(s, c, e), e.sid, |se.log|, Activate(c, call.r.mode, call.req));
    }
  }

  /** Examining one more key keeps kept/missing a partition of what has been examined. */
  lemma KeptStep(order: seq<Key>, at: nat, kept: seq<Key>, missing: set<Key>)
    requires NoDup(order) && at < |order|
    requires missing <= Elems(order[..at]) && kept == Without(order[..at], missing)
    ensures kept + [order[at]] == Without(order[..at+1], missing) && missing <= Elems(order[..at+1])
    ensures kept == Without(order[..at+1], missing + {order[at]}) && missing + {order[at]} <= Elems(order[..at+1])
  {
    assert order[at] !in order[..at];
    assert order[..at+1] == order[..at] + [order[at]];
    WithoutStep(order, at, missing);
    WithoutStep(order, at, missing + {order[at]});
    WithoutFresh(order[..at], missing, order[at]);
  }

  lemma HoldEffectOk(s: State, c: CallId, call: Call)
    requires c in s.calls && s.calls[c].Holding? && call.Holding?
    requires call.purpose == s.calls[c].purpose && call.held == s.calls[c].held
    requires CallOk(s.sessions, c, call)
    requires forall k :: k in call.kept ==> k in s.catalog || k in s.calls[c].kept
    ensures EffectOk(s, c, Phase(call))
  {}

  lemma CheckHandleOk(s: State, c: CallId, se: Session, call: Call)
    requires c in s.calls && s.calls[c] == call && call.Holding? && CallOk(s.sessions, c, call)
    requires s.sessions[call.held] == se && SessionOk(se) && call.at < |se.view.order|
    ensures EffectOk(s, c, OnCheckHandle(s.catalog, se, call))
  {
    CheckHandleHolds(s.catalog, c, se, call);
    HoldEffectOk(s, c, OnCheckHandle(s.catalog, se, call).call);
  }

  lemma CheckHandleHolds(catalog: map<Key, SkillInsert>, c: CallId, se: Session, call: Call)
    requires SessionOk(se) && call.Holding? && HoldingOk(se, c, call) && call.at < |se.view.order|
    ensures HoldingOk(se, c, OnCheckHandle(catalog, se, call).call)
  {
    KeptStep(se.view.order, call.at, call.kept, call.missing);
  }

  lemma ReleaseEditOk(c: CallId, se: Session, call: Call)
    requires SessionOk(se) && call.Holding? && HoldingOk(se, c, call) && call.at == |se.view.order|
    ensures var e := OnRelease(c, se, call);
            && e.session.Some? && EditOk(se, e.session.value, c)
            && Elems(call.kept) == e.session.value.view.active
            && (call.purpose.ForActivation? ==>
                  HandlesOk(e.session.value.log, c, call.purpose.r, Handles(call.kept, call.missing, call.purpose.entry)))
  {
    assert se.view.order[..call.at] == se.view.order;
    WriteOk(se, Removal(c, call.missing));
    WithoutMembers(se.view.order, call.missing);
    if call.purpose.ForActivation? {
      var entry := call.purpose.entry;
      assert se.log[..entry+1] == se.log;
      assert (se.log + [Removal(c, call.missing)])[..entry+1] == se.log;
    }
  }

  lemma ReleaseOk(s: State, c: CallId, se: Session, call: Call)
    requires c in s.calls && s.calls[c] == call && call.Holding? && CallOk(s.sessions, c, call)
    requires s.sessions[call.held] == se && SessionOk(se) && call.at == |se.view.order|
    ensures EffectOk(s, c, OnRelease(c, se, call))
  {
    ReleaseEditOk(c, se, call);
    ReleaseCallOk(s, c, se, call);
    ReleaseSettles(c, se, call);
  }

  lemma ReleaseCallOk(s: State, c: CallId, se: Session, call: Call)
    requires call.Holding? && CallOk(s.sessions, c, call)
    requires s.sessions[call.held] == se && SessionOk(se) && call.at == |se.view.order|
    ensures var e := OnRelease(c, se, call); CallOk(Install(s, c, e).sessions, c, e.call)
  {
    ReleaseEditOk(c, se, call);
  }

  lemma ReleaseSettles(c: CallId, se: Session, call: Call)
    requires SessionOk(se) && call.Holding? && HoldingOk(se, c, call) && call.at == |se.view.order|
    ensures var e := OnRelease(c, se, call);
      e.session.Some? && forall k :: SettledIn(e.session.value, e.call, k) ==> k in call.kept
  {
    ReleaseEditOk(c, se, call);
    var e := OnRelease(c, se, call);
    forall k | SettledIn(e.session.value, e.call, k) ensures k in call.kept { assert k in Elems(call.kept); }
  }

  lemma RemovalEditOk(se: Session, c: CallId, rm: set<Key>)
    requires SessionOk(se) && se.lock.None?
    ensures EditOk(se, Write(se, Removal(c, rm)).(lock := Some(c)), c)
    ensures EditOk(se, WritePrune(se, c, rm), c)
    ensures WritePrune(se, c, rm).view.active == se.view.active - rm
  {
    WriteOk(se, Removal(c, rm));
  }

  lemma UnloadOk(s: State, c: CallId, se: Session, sid: SessionId, what: Option<set<Key>>)
    requires c in s.calls && s.calls[c] == Unloading(sid, what)
    requires sid in s.sessions && s.sessions[sid] == se && SessionOk(se) && se.lock.None?
    ensures EffectOk(s, c, OnUnload(c, se, sid, what))
  {
    RemovalEditOk(se, c, if what.None? then se.view.active else what.value);
    var e := OnUnload(c, se, sid, what);
    assert CallOk(Install(s, c, e).sessions, c, e.call);
  }

  lemma ListPruneOk(s: State, c: CallId, se: Session, call: Call)
    requires c in s.calls && s.calls[c] == call && call.Listing?
    requires call.sid in s.sessions && s.sessions[call.sid] == se && SessionOk(se) && se.lock.None?
    ensures EffectOk(s, c, OnListPrune(c, se, call))
  {
    RemovalEditOk(se, c, call.missing);
  }

  lemma CollectOk(s: State, c: CallId, key: Key)
    requires SessionsOk(s) && c in s.calls && s.calls[c] == Removing(key, None)
    ensures EffectOk(s, c, Phase(Removing(key, Some(s.store))))
  {}

  lemma PruneNextOk(s: State, c: CallId, se: Session, call: Call, sid: SessionId, skipped: bool)
    requires c in s.calls && s.calls[c] == call && call.Removing? && call.todo.Some? && CallOk(s.sessions, c, call)
    requires sid in s.sessions && s.sessions[sid] == se && SessionOk(se)
    requires if skipped then se.closed else se.lock.None?
    ensures EffectOk(s, c, OnPruneNext(c, se, call, sid, skipped))
  {
    if !skipped { RemovalEditOk(se, c, {call.key}); }
  }

  /** Steps of calls that only read: the call's own claim is all there is to check. */
  lemma ReadStepOk(s: State, step: Step)
    requires CallsOk(s) && Enabled(s, step)
    requires step.EnsureBody? || step.Recheck? || step.StartUnload? || step.StartList? || step.CopyOrder? || step.ListKey?
    ensures EffectOk(s, step.c, EffectOf(s, step))
  {
    var c := step.c;
    assert c in s.calls ==> CallOk(s.sessions, c, s.calls[c]);
    PhaseEffectOk(s, c, EffectOf(s, step).call);
  }

  /** The steps of an activation up to its commit. */
  lemma ActivatingStepOk(s: State, step: Step)
    requires Inv(s) && Enabled(s, step)
    requires step.StartActivate? || step.ValidateKey? || step.TakeSnapshot? || step.TryCommit?
    ensures EffectOk(s, step.c, EffectOf(s, step))
  {
    var c := step.c;
    assert c in s.calls ==> CallOk(s.sessions, c, s.calls[c]);
    match step
    case StartActivate(_, sid, mode, keys) =>
      StartOk(s, c, s.sessions[sid], Request(sid, mode, keys, |s.sessions[sid].log|));
    case ValidateKey(_) => ValidateOk(s, c, s.calls[c].r, s.calls[c].at, s.calls[c].req);
    case TakeSnapshot(_) =>
      SnapshotOk(s, c, s.sessions[s.calls[c].r.sid], s.calls[c].r, s.calls[c].req, s.calls[c].round);
    case TryCommit(_) => CommitOk(s, c, s.sessions[s.calls[c].r.sid], s.calls[c]);
  }

  /** The steps that remove keys, or hold the lock for it. */
  lemma RemovingStepOk(s: State, step: Step)
    requires Inv(s) && Enabled(s, step)
    requires step.CheckHandle? || step.Release? || step.ApplyUnload? || step.ListPrune? || step.Collect? || step.PruneNext?
    ensures EffectOk(s, step.c, EffectOf(s, step))
  {
    var c := step.c;
    assert CallOk(s.sessions, c, s.calls[c]);
    match step
    case CheckHandle(_) => CheckHandleOk(s, c, s.sessions[s.calls[c].held], s.calls[c]);
    case Release(_) => ReleaseOk(s, c, s.sessions[s.calls[c].held], s.calls[c]);
    case ApplyUnload(_) => UnloadOk(s, c, s.sessions[s.calls[c].sid], s.calls[c].sid, s.calls[c].what);
    case ListPrune(_) => ListPruneOk(s, c, s.sessions[s.calls[c].sid], s.calls[c]);
    case Collect(_) => CollectOk(s, c, s.calls[c].key);
    case PruneNext(_, sid, skipped) => PruneNextOk(s, c, s.sessions[sid], s.calls[c], sid, skipped);
  }

  lemma LocalStepOk(s: State, step: Step)
    requires Inv(s) && Enabled(s, step) && !Global(step)
    ensures EffectOk(s, step.c, EffectOf(s, step))
  {
    if step.StartActivate? || step.ValidateKey? || step.TakeSnapshot? || step.TryCommit? {
      ActivatingStepOk(s, step);
    } else if step.CheckHandle? || step.Release? || step.ApplyUnload? || step.ListPrune? || step.Collect? || step.PruneNext? {
      RemovingStepOk(s, step);
    } else {
      ReadStepOk(s, step);
    }
  }

  // ----- The four global steps -------------------------------------------------------------

  /** Steps that leave calls alone, except for a fresh one that has written nothing. */
  lemma GlobalCallsOk(s: State, step: Step)
    requires SessionsOk(s) && CallsOk(s) && Enabled(s, step) && Global(step)
    ensures CallsOk(Do(s, step))
  {
    var s' := Do(s, step);
    assert Evolves(s.sessions, s'.sessions, None);
    forall c | c in s'.calls ensures CallOk(s'.sessions, c, s'.calls[c]) {
      if c in s.calls { CallStable(s.sessions, s'.sessions, None, c, s.calls[c]); }
    }
  }

  lemma GlobalSessionsOk(s: State, step: Step)
    requires SessionsOk(s) && LocksOk(s) && LogsOk(s) && Enabled(s, step) && Global(step)
    ensures SessionsOk(Do(s, step)) && LocksOk(Do(s, step)) && LogsOk(Do(s, step))
  {
    GlobalLogsOk(s, step);
  }

  lemma GlobalLogsOk(s: State, step: Step)
    requires LogsOk(s) && Enabled(s, step) && Global(step)
    ensures LogsOk(Do(s, step))
  {
    var s' := Do(s, step);
    forall sid, i | sid in s'.sessions && 0 <= i < |s'.sessions[sid].log|
      ensures EntryOk(s', sid, i, s'.sessions[sid].log[i])
    {
      assert sid in s.sessions && s.sessions[sid].log == s'.sessions[sid].log;
      assert EntryOk(s, sid, i, s.sessions[sid].log[i]);
    }
  }

  lemma GlobalOrphansOk(s: State, step: Step)
    requires LocksOk(s) && OrphansOk(s) && Enabled(s, step) && Global(step)
    ensures OrphansOk(Do(s, step))
  {
    var s' := Do(s, step);
    forall sid, k | sid in s'.sessions && !s'.sessions[sid].closed && Settled(s', sid, k)
      ensures Covered(s', sid, k)
    {
      assert Settled(s, sid, k) && Covered(s, sid, k);
      if k in s.catalog {
        if k !in s'.catalog { assert Pending(s'.calls[step.c], sid, k); }
      } else {
        var c :| c in s.calls && Pending(s.calls[c], sid, k);
        assert c in s'.calls && Pending(s'.calls[c], sid, k);
      }
    }
  }

  // ----- Every run -------------------------------------------------------------------------

  lemma StepInv(s: State, step: Step)
    requires Inv(s) && Enabled(s, step)
    ensures Inv(Do(s, step))
  {
    if Global(step) {
      GlobalCallsOk(s, step);
      GlobalSessionsOk(s, step);
      GlobalOrphansOk(s, step);
    } else {
      LocalStepOk(s, step);
      InstallInv(s, step.c, EffectOf(s, step));
    }
  }

  lemma {:induction false} RunInv(steps: seq<Step>)
    requires Feasible(steps)
    ensures Inv(Exec(steps))
  {
    if steps != [] {
      var n := |steps| - 1;
      RunInv(steps[..n]);
      StepInv(Exec(steps[..n]), steps[n]);
    }
  }
}
