/** Why an activation fails: every error has its reason in one of the call's own steps. */
module ActivationFailures {
  import opened SkillTypes
  import opened ActiveList
  import opened ActivationProtocol
  import opened ActivationProofs

  /** The request asks for more keys than the session may have active. */
  ghost predicate TooMany(se: Session, r: Request) {
    se.maxActive > 0 && |Elems(r.keys) + (if r.mode == Add then se.view.active else {})| > se.maxActive
  }

  /** In state s this step of call c gives a request r this error. */
  ghost predicate Reason(s: State, step: Step, c: CallId, r: Request, e: ActivateError) {
    r.sid in s.sessions &&
    var se := s.sessions[r.sid];
    match e
    case SessionNotFound => se.closed && (step == StartActivate(c, r.sid, r.mode, r.keys) || step == TakeSnapshot(c) || step == TryCommit(c))
    case InvalidArgument =>
      || (step == StartActivate(c, r.sid, r.mode, r.keys) && r.keys == [])
      || (step == ValidateKey(c) && exists k :: k in r.keys && k in s.catalog && s.catalog[k] == UserMessage)
      || (step == TakeSnapshot(c) && !se.closed && TooMany(se, r))
    case SkillNotFound =>
      || (step == ValidateKey(c) && exists k :: k in r.keys && k !in s.catalog)
      || (step == Recheck(c) && c in s.calls && s.calls[c].Checking? && exists k :: k in s.calls[c].next && k !in s.catalog)
    case BodyFailed => step == EnsureBody(c, false)
    case RetriesExhausted =>
      step == TryCommit(c) && c in s.calls && s.calls[c].Checking? && se.view.version != s.calls[c].snapshot.version
  }

  ghost predicate FailedAt(steps: seq<Step>, c: CallId, r: Request, e: ActivateError, n: nat) {
    n < |steps| && Feasible(steps[..n]) && Reason(Exec(steps[..n]), steps[n], c, r, e)
  }

  ghost predicate Explained(steps: seq<Step>, c: CallId, call: Call) {
    call.Activated? && call.outcome.Failed? && exists n: nat :: FailedAt(steps, c, call.r, call.outcome.error, n)
  }

  ghost predicate Fails(s: State, c: CallId) { c in s.calls && s.calls[c].Activated? && s.calls[c].outcome.Failed? }

  /** An error is given for its reason only: a closed session, a key that is not in the catalog, a
      user-message skill, an empty or too long request, a body that would not load, or a list that
      others changed. */
  lemma {:induction false} FailureHasReason(steps: seq<Step>, c: CallId)
    requires Feasible(steps) && Fails(Exec(steps), c)
    ensures Explained(steps, c, Exec(steps).calls[c])
    decreases |steps|
  {
    var m := |steps| - 1;
    var before := Exec(steps[..m]);
    var r, e := Exec(steps).calls[c].r, Exec(steps).calls[c].outcome.error;
    if c in before.calls && before.calls[c] == Exec(steps).calls[c] {
      FailureHasReason(steps[..m], c);
      var n: nat :| FailedAt(steps[..m], c, r, e, n);
      assert steps[..m][..n] == steps[..n] && steps[..m][n] == steps[n];
      assert FailedAt(steps, c, r, e, n);
    } else {
      RunInv(steps[..m]);
      FailsFor(before, steps[m], c);
      assert FailedAt(steps, c, r, e, m);
    }
  }

  /** The step by which a call fails. */
  lemma FailingStep(s: State, step: Step, c: CallId)
    requires Enabled(s, step) && Fails(Do(s, step), c) && !(c in s.calls && s.calls[c] == Do(s, step).calls[c])
    ensures !Global(step) && step.c == c
    ensures step.StartActivate? || step.ValidateKey? || step.TakeSnapshot? || step.EnsureBody? || step.Recheck? || step.TryCommit?
    ensures Do(s, step).calls[c] == EffectOf(s, step).call
  {}

  lemma FailsFor(s: State, step: Step, c: CallId)
    requires Inv(s) && Enabled(s, step) && Fails(Do(s, step), c) && !(c in s.calls && s.calls[c] == Do(s, step).calls[c])
    ensures var Activated(r, Failed(e)) := Do(s, step).calls[c]; Reason(s, step, c, r, e)
  {
    FailingStep(s, step, c);
    assert c in s.calls ==> CallOk(s.sessions, c, s.calls[c]);
    match step
    case ValidateKey(_) => ValidationFails(s, c);
    case TakeSnapshot(_) => SnapshotFails(s, c);
    case Recheck(_) => RecheckFails(s, c);
    case _ =>
  }

  lemma ValidationFails(s: State, c: CallId)
    requires Enabled(s, ValidateKey(c)) && CallOk(s.sessions, c, s.calls[c])
    requires var call := OnValidate(s.catalog, s.calls[c].r, s.calls[c].at, s.calls[c].req).call;
             call.Activated? && call.outcome.Failed?
    ensures var Activated(r, Failed(e)) := OnValidate(s.catalog, s.calls[c].r, s.calls[c].at, s.calls[c].req).call;
            Reason(s, ValidateKey(c), c, r, e)
  {
    var k := s.calls[c].r.keys[s.calls[c].at];
    assert k in s.calls[c].r.keys;
  }

  lemma SnapshotFails(s: State, c: CallId)
    requires Inv(s) && Enabled(s, TakeSnapshot(c)) && CallOk(s.sessions, c, s.calls[c])
    requires var call := OnSnapshot(s.sessions[s.calls[c].r.sid], s.calls[c].r, s.calls[c].req, s.calls[c].round).call;
             call.Activated? && call.outcome.Failed?
    ensures var Activated(r, Failed(e)) :=
              OnSnapshot(s.sessions[s.calls[c].r.sid], s.calls[c].r, s.calls[c].req, s.calls[c].round).call;
            Reason(s, TakeSnapshot(c), c, r, e)
  {
    var r := s.calls[c].r;
    var se := s.sessions[r.sid];
    assert SessionOk(se);
    BoundCounts(se, r);
  }

  /** The bound counts keys, however often the request names them. */
  lemma BoundCounts(se: Session, r: Request)
    requires SessionOk(se)
    ensures TooMany(se, r) <==> se.maxActive > 0 && |NextOrder(r.mode, se.view.order, Dedup(r.keys))| > se.maxActive
  {
    DedupCorrect(r.keys);
    NextOrderCount(r.mode, se.view.order, Dedup(r.keys));
  }

  lemma RecheckFails(s: State, c: CallId)
    requires Enabled(s, Recheck(c))
    requires var call := OnRecheck(s.catalog, s.calls[c]).call; call.Activated? && call.outcome.Failed?
    requires CallOk(s.sessions, c, s.calls[c])
    ensures var Activated(r, Failed(e)) := OnRecheck(s.catalog, s.calls[c]).call; Reason(s, Recheck(c), c, r, e)
  {
    assert s.calls[c].next[s.calls[c].found] in s.calls[c].next;
  }

  /** And a request that asks for too many keys of an open session gets no further than the snapshot. */
  lemma TooManyAreRefused(steps: seq<Step>, c: CallId)
    requires Feasible(steps) && Enabled(Exec(steps), TakeSnapshot(c))
    ensures var s := Exec(steps); var r := s.calls[c].r; var now := Do(s, TakeSnapshot(c)).calls[c];
            && (now.Checking? <==> !s.sessions[r.sid].closed && !TooMany(s.sessions[r.sid], r))
            && (now == Activated(r, Failed(InvalidArgument)) <==> !s.sessions[r.sid].closed && TooMany(s.sessions[r.sid], r))
  {
    RunInv(steps);
    var s := Exec(steps);
    assert CallOk(s.sessions, c, s.calls[c]);
    assert SessionOk(s.sessions[s.calls[c].r.sid]);
    BoundCounts(s.sessions[s.calls[c].r.sid], s.calls[c].r);
  }

  /** A call on a closed session or without keys is refused at once, any other goes on to its keys. */
  lemma StartMeans(steps: seq<Step>, c: CallId, sid: SessionId, mode: LoadMode, keys: seq<Key>)
    requires Feasible(steps) && Enabled(Exec(steps), StartActivate(c, sid, mode, keys))
    ensures var se := Exec(steps).sessions[sid]; var now := Do(Exec(steps), StartActivate(c, sid, mode, keys)).calls[c];
            && now.r.sid == sid && now.r.mode == mode && now.r.keys == keys && now.r.base == se.view.version
            && (now.Validating? <==> !se.closed && keys != [])
            && (now.Activated? ==> now.outcome == Failed(if se.closed then SessionNotFound else InvalidArgument))
  {
    RunInv(steps);
    assert SessionOk(Exec(steps).sessions[sid]);
  }

  /** A key the request has not named before has to be in the catalog as an instruction skill. */
  lemma ValidateMeans(steps: seq<Step>, c: CallId)
    requires Feasible(steps) && Enabled(Exec(steps), ValidateKey(c))
    ensures var s := Exec(steps); var call := s.calls[c]; var k, now := call.r.keys[call.at], Do(s, ValidateKey(c)).calls[c];
            && (now.Activated? <==> k !in call.r.keys[..call.at] && !(k in s.catalog && s.catalog[k] == Instructions))
            && (now.Activated? ==> now.outcome == Failed(if k in s.catalog then InvalidArgument else SkillNotFound))
  {
    RunInv(steps);
    var call := Exec(steps).calls[c];
    assert CallOk(Exec(steps).sessions, c, call);
    DedupCorrect(call.r.keys[..call.at]);
  }
}
