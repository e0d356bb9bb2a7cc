/** The interleaved system of activations, unloads, listings, catalog changes, removals and
    session closes, at lock granularity.

    One step is one critical section under a session's mutex, one critical section under the
    store's mutex, or one catalog call.  `activeHandlesLocked` reads the catalog key by key while
    the session mutex is held, so each of its reads is a step of its own and the catalog may move
    in between.  The `closed` flag is atomic and may flip at any time, held mutex or not.

    Every session carries a log of the operations that changed it and every call remembers the
    version it started at.  Both are bookkeeping: no step looks at them. */
module ActivationProtocol {
  import opened SkillTypes
  import opened ActiveList

  type SessionId = nat
  type CallId = nat

  // ----- Atomic operations on one session --------------------------------------------------

  datatype Op =
    | Activate(call: CallId, mode: LoadMode, req: seq<Key>)
    | Removal(call: CallId, rm: set<Key>)

  /** The sequential meaning of an operation: an activation applies its mode to the list it
      finds, at once and completely. */
  function Apply(v: View, op: Op): View {
    match op
    case Activate(_, mode, req) => Commit(v, NextOrder(mode, v.order, req))
    case Removal(_, rm) => Drop(v, rm)
  }

  function Replay(log: seq<Op>): View {
    if log == [] then EMPTY else Apply(Replay(log[..|log|-1]), log[|log|-1])
  }

  // ----- State -----------------------------------------------------------------------------

  datatype Session = Session(view: View, closed: bool, lock: Option<CallId>, maxActive: int, log: seq<Op>)

  datatype Outcome =
    | Handles(kept: seq<Key>, missing: set<Key>, entry: nat)
    | Failed(error: ActivateError)

  /** An activation request; `base` is the session's version when the call began. */
  datatype Request = Request(sid: SessionId, mode: LoadMode, keys: seq<Key>, base: nat)

  datatype Purpose = ForActivation(r: Request, entry: nat) | ForUnload

  datatype Call =
    | Validating(r: Request, at: nat, req: seq<Key>)
    | Ready(r: Request, req: seq<Key>, round: nat)
    | Checking(r: Request, req: seq<Key>, round: nat, snapshot: View, next: seq<Key>, ensured: nat, found: nat)
    | Holding(purpose: Purpose, held: SessionId, at: nat, kept: seq<Key>, missing: set<Key>)
    | Activated(r: Request, outcome: Outcome)
    | Unloading(sid: SessionId, what: Option<set<Key>>)
    | Unloaded(sid: SessionId, kept: seq<Key>)
    | Asking(sid: SessionId)
    | Listing(sid: SessionId, order: seq<Key>, at: nat, kept: seq<Key>, missing: set<Key>)
    | Listed(kept: seq<Key>)
    | Removing(key: Key, todo: Option<set<SessionId>>)

  datatype State = State(
    catalog: map<Key, SkillInsert>,
    sessions: map<SessionId, Session>,
    store: set<SessionId>,
    calls: map<CallId, Call>)

  const INIT := State(map[], map[], {}, map[])

  datatype Step =
    | StartActivate(c: CallId, sid: SessionId, mode: LoadMode, keys: seq<Key>)
    | ValidateKey(c: CallId)
    | TakeSnapshot(c: CallId)
    | EnsureBody(c: CallId, ok: bool)
    | Recheck(c: CallId)
    | TryCommit(c: CallId)
    | CheckHandle(c: CallId)
    | Release(c: CallId)
    | StartUnload(c: CallId, sid: SessionId, what: Option<set<Key>>)
    | ApplyUnload(c: CallId)
    | StartList(c: CallId, sid: SessionId)
    | CopyOrder(c: CallId)
    | ListKey(c: CallId)
    | ListPrune(c: CallId)
    | AddSkill(key: Key, insert: SkillInsert)
    | RemoveSkill(c: CallId, key: Key)
    | Collect(c: CallId)
    | PruneNext(c: CallId, sid: SessionId, skipped: bool)
    | NewSession(sid: SessionId, maxActive: int)
    | CloseSession(sid: SessionId)

  /** What a call's step changes: its own phase and at most one session. */
  datatype Effect = Effect(call: Call, sid: SessionId, session: Option<Session>)

  function Install(s: State, c: CallId, e: Effect): State {
    State(s.catalog,
          if e.session.Some? then s.sessions[e.sid := e.session.value] else s.sessions,
          s.store,
          s.calls[c := e.call])
  }

  function Phase(call: Call): Effect { Effect(call, 0, None) }

  function Write(se: Session, op: Op): Session {
    se.(view := Apply(se.view, op), log := se.log + [op])
  }

  /** pruneKeys and pruneKey: no write when nothing was active. */
  function WritePrune(se: Session, c: CallId, rm: set<Key>): Session {
    if se.view.active !! rm then se else Write(se, Removal(c, rm))
  }

  // ----- Steps -----------------------------------------------------------------------------

  predicate Known(s: State, sid: SessionId) { sid in s.sessions }

  predicate Unlocked(s: State, sid: SessionId) { sid in s.sessions && s.sessions[sid].lock.None? }

  ghost predicate Enabled(s: State, step: Step) {
    match step
    case StartActivate(c, sid, mode, keys) => c !in s.calls && Known(s, sid)
    case ValidateKey(c) => c in s.calls && s.calls[c].Validating? && s.calls[c].at < |s.calls[c].r.keys|
    case TakeSnapshot(c) => c in s.calls && s.calls[c].Ready? && Unlocked(s, s.calls[c].r.sid)
    case EnsureBody(c, ok) => c in s.calls && s.calls[c].Checking? && s.calls[c].ensured < |s.calls[c].next|
    case Recheck(c) => c in s.calls && s.calls[c].Checking? && s.calls[c].ensured == |s.calls[c].next| &&
                       s.calls[c].found < |s.calls[c].next|
    case TryCommit(c) => c in s.calls && s.calls[c].Checking? && s.calls[c].ensured == |s.calls[c].next| &&
                         s.calls[c].found == |s.calls[c].next| && Unlocked(s, s.calls[c].r.sid)
    case CheckHandle(c) => c in s.calls && s.calls[c].Holding? && Known(s, s.calls[c].held) &&
                           s.calls[c].at < |s.sessions[s.calls[c].held].view.order|
    case Release(c) => c in s.calls && s.calls[c].Holding? && Known(s, s.calls[c].held) &&
                       s.calls[c].at == |s.sessions[s.calls[c].held].view.order|
    case StartUnload(c, sid, what) => c !in s.calls && Known(s, sid) && !s.sessions[sid].closed
    case ApplyUnload(c) => c in s.calls && s.calls[c].Unloading? && Unlocked(s, s.calls[c].sid)
    case StartList(c, sid) => c !in s.calls && Known(s, sid) && !s.sessions[sid].closed
    case CopyOrder(c) => c in s.calls && s.calls[c].Asking? && Unlocked(s, s.calls[c].sid)
    case ListKey(c) => c in s.calls && s.calls[c].Listing? && s.calls[c].at < |s.calls[c].order|
    case ListPrune(c) => c in s.calls && s.calls[c].Listing? && s.calls[c].at == |s.calls[c].order| &&
                         Unlocked(s, s.calls[c].sid)
    case AddSkill(key, insert) => key !in s.catalog
    case RemoveSkill(c, key) => c !in s.calls && key in s.catalog
    case Collect(c) => c in s.calls && s.calls[c].Removing? && s.calls[c].todo.None?
    case PruneNext(c, sid, skipped) => c in s.calls && s.calls[c].Removing? && s.calls[c].todo.Some? &&
                                       sid in s.calls[c].todo.value && Known(s, sid) &&
                                       (if skipped then s.sessions[sid].closed else Unlocked(s, sid))
    case NewSession(sid, maxActive) => sid !in s.sessions
    case CloseSession(sid) => sid in s.store && Known(s, sid)
  }

  function Fail(r: Request, e: ActivateError): Effect {
    Phase(Activated(r, Failed(e)))
  }

  /** ActivateKeys, entry: the closed check and the empty-request check. */
  function OnStart(se: Session, r: Request): Effect {
    if se.closed then Fail(r, SessionNotFound)
    else if r.keys == [] then Fail(r, InvalidArgument)
    else Phase(Validating(r, 0, []))
  }

  /** One iteration of the validation loop. */
  function OnValidate(catalog: map<Key, SkillInsert>, r: Request, at: nat, req: seq<Key>): Effect
    requires at < |r.keys|
  {
    var k := r.keys[at];
    if k !in req && k !in catalog then Fail(r, SkillNotFound)
    else if k !in req && catalog[k] != Instructions then Fail(r, InvalidArgument)
    else
      var req' := if k in req then req else req + [k];
      if at + 1 == |r.keys| then Phase(Ready(r, req', 0)) else Phase(Validating(r, at + 1, req'))
  }

  /** Snapshot under the lock; the next list and its bound are computed without it. */
  function OnSnapshot(se: Session, r: Request, req: seq<Key>, round: nat): Effect {
    var next := NextOrder(r.mode, se.view.order, req);
    if se.closed then Fail(r, SessionNotFound)
    else if se.maxActive > 0 && |next| > se.maxActive then Fail(r, InvalidArgument)
    else Phase(Checking(r, req, round, se.view, next, 0, 0))
  }

  function OnEnsureBody(call: Call, ok: bool): Effect
    requires call.Checking?
  {
    if ok then Phase(Checking(call.r, call.req, call.round, call.snapshot, call.next, call.ensured + 1, call.found))
    else Fail(call.r, BodyFailed)
  }

  /** The existence check just before the commit. */
  function OnRecheck(catalog: map<Key, SkillInsert>, call: Call): Effect
    requires call.Checking? && call.found < |call.next|
  {
    if call.next[call.found] in catalog then
      Phase(Checking(call.r, call.req, call.round, call.snapshot, call.next, call.ensured, call.found + 1))
    else Fail(call.r, SkillNotFound)
  }

  /** Commit under the lock if the version is still the snapshot's; the lock stays held. */
  function OnCommit(c: CallId, se: Session, call: Call): Effect
    requires call.Checking?
  {
    var r := call.r;
    if se.closed then Fail(r, SessionNotFound)
    else if se.view.version != call.snapshot.version then
      if call.round + 1 == MAX_ROUNDS then Fail(r, RetriesExhausted)
      else Phase(Ready(r, call.req, call.round + 1))
    else
      var se' := Session(Commit(se.view, call.next), se.closed, Some(c), se.maxActive,
                         se.log + [Activate(c, r.mode, call.req)]);
      Effect(Holding(ForActivation(r, |se.log|), r.sid, 0, [], {}), r.sid, Some(se'))
  }

  /** activeHandlesLocked, one catalog read. */
  function OnCheckHandle(catalog: map<Key, SkillInsert>, se: Session, call: Call): Effect
    requires call.Holding? && call.at < |se.view.order|
  {
    var k := se.view.order[call.at];
    if k in catalog then Phase(Holding(call.purpose, call.held, call.at + 1, call.kept + [k], call.missing))
    else Phase(Holding(call.purpose, call.held, call.at + 1, call.kept, call.missing + {k}))
  }

  /** activeHandlesLocked, the deletion of the missing keys, and the unlock. */
  function OnRelease(c: CallId, se: Session, call: Call): Effect
    requires call.Holding?
  {
    var se' := if call.missing == {} then se else Write(se, Removal(c, call.missing));
    var done := match call.purpose
      case ForActivation(r, entry) => Activated(r, Handles(call.kept, call.missing, entry))
      case ForUnload => Unloaded(call.held, call.kept);
    Effect(done, call.held, Some(se'.(lock := None)))
  }

  /** toolUnload's critical section up to activeHandlesLocked; it does not look at `closed`. */
  function OnUnload(c: CallId, se: Session, sid: SessionId, what: Option<set<Key>>): Effect {
    var rm := if what.None? then se.view.active else what.value;
    Effect(Holding(ForUnload, sid, 0, [], {}), sid, Some(Write(se, Removal(c, rm)).(lock := Some(c))))
  }

  function OnListKey(catalog: map<Key, SkillInsert>, call: Call): Effect
    requires call.Listing? && call.at < |call.order|
  {
    var k := call.order[call.at];
    if k in catalog then Phase(Listing(call.sid, call.order, call.at + 1, call.kept + [k], call.missing))
    else Phase(Listing(call.sid, call.order, call.at + 1, call.kept, call.missing + {k}))
  }

  /** pruneKeys, which does look at `closed` under the lock. */
  function OnListPrune(c: CallId, se: Session, call: Call): Effect
    requires call.Listing?
  {
    Effect(Listed(call.kept), call.sid, Some(if se.closed then se else WritePrune(se, c, call.missing)))
  }

  /** pruneKey on one collected session; a session seen closed is skipped. */
  function OnPruneNext(c: CallId, se: Session, call: Call, sid: SessionId, skipped: bool): Effect
    requires call.Removing? && call.todo.Some?
  {
    Effect(Removing(call.key, Some(call.todo.value - {sid})), sid,
           if skipped then None else Some(WritePrune(se, c, {call.key})))
  }

  /** Steps that move the catalog or the store rather than a call already under way. */
  predicate Global(step: Step) {
    step.AddSkill? || step.RemoveSkill? || step.NewSession? || step.CloseSession?
  }

  function EffectOf(s: State, step: Step): Effect
    requires Enabled(s, step) && !Global(step)
  {
    match step
    case StartActivate(c, sid, mode, keys) => OnStart(s.sessions[sid], Request(sid, mode, keys, |s.sessions[sid].log|))
    case ValidateKey(c) => OnValidate(s.catalog, s.calls[c].r, s.calls[c].at, s.calls[c].req)
    case TakeSnapshot(c) => OnSnapshot(s.sessions[s.calls[c].r.sid], s.calls[c].r, s.calls[c].req, s.calls[c].round)
    case EnsureBody(c, ok) => OnEnsureBody(s.calls[c], ok)
    case Recheck(c) => OnRecheck(s.catalog, s.calls[c])
    case TryCommit(c) => OnCommit(c, s.sessions[s.calls[c].r.sid], s.calls[c])
    case CheckHandle(c) => OnCheckHandle(s.catalog, s.sessions[s.calls[c].held], s.calls[c])
    case Release(c) => OnRelease(c, s.sessions[s.calls[c].held], s.calls[c])
    case StartUnload(c, sid, what) => Phase(Unloading(sid, what))
    case ApplyUnload(c) => OnUnload(c, s.sessions[s.calls[c].sid], s.calls[c].sid, s.calls[c].what)
    case StartList(c, sid) => Phase(Asking(sid))
    case CopyOrder(c) => Phase(Listing(s.calls[c].sid, s.sessions[s.calls[c].sid].view.order, 0, [], {}))
    case ListKey(c) => OnListKey(s.catalog, s.calls[c])
    case ListPrune(c) => OnListPrune(c, s.sessions[s.calls[c].sid], s.calls[c])
    case Collect(c) => Phase(Removing(s.calls[c].key, Some(s.store)))
    case PruneNext(c, sid, skipped) => OnPruneNext(c, s.sessions[sid], s.calls[c], sid, skipped)
  }

  function Do(s: State, step: Step): State
    requires Enabled(s, step)
  {
    match step
    case AddSkill(key, insert) => s.(catalog := s.catalog[key := insert])
    case RemoveSkill(c, key) => s.(catalog := s.catalog - {key}, calls := s.calls[c := Removing(key, None)])
    case NewSession(sid, maxActive) =>
      s.(sessions := s.sessions[sid := Session(EMPTY, false, None, maxActive, [])], store := s.store + {sid})
    case CloseSession(sid) =>
      s.(sessions := s.sessions[sid := s.sessions[sid].(closed := true)], store := s.store - {sid})
    case _ => Install(s, step.c, EffectOf(s, step))
  }

  // ----- Runs ------------------------------------------------------------------------------

  ghost predicate Feasible(steps: seq<Step>)
    decreases |steps|, 0
  {
    steps == [] || (Feasible(steps[..|steps|-1]) && Enabled(Exec(steps[..|steps|-1]), steps[|steps|-1]))
  }

  /** The state a run reaches from the empty runtime. */
  ghost function Exec(steps: seq<Step>): State
    requires Feasible(steps)
    decreases |steps|, 1
  {
    if steps == [] then INIT else Do(Exec(steps[..|steps|-1]), steps[|steps|-1])
  }

  // ----- What the properties speak about ---------------------------------------------------

  /** A removal that has left the catalog and has not yet pruned this session. */
  ghost predicate Pending(call: Call, sid: SessionId, k: Key) {
    call.Removing? && call.key == k && (call.todo.None? || sid in call.todo.value)
  }

  ghost predicate Covered(s: State, sid: SessionId, k: Key) {
    k in s.catalog || exists c :: c in s.calls && Pending(s.calls[c], sid, k)
  }

  /** Log positions written by call c. */
  ghost predicate NoEntryBy(log: seq<Op>, c: CallId) {
    forall i :: 0 <= i < |log| ==> log[i].call != c
  }
}
