/** What every run of the interleaved system guarantees. */
module ActivationTheorems {
  import opened SkillTypes
  import opened ActiveList
  import opened ActivationProtocol
  import opened ActivationProofs

  // ----- No orphaned key -------------------------------------------------------------------

  /** An active key of an open session whose lock is free is in the catalog, or some removal has
      deleted it there and still has this session to prune. */
  lemma NoOrphanedKey(steps: seq<Step>, sid: SessionId, k: Key)
    requires Feasible(steps)
    requires var s := Exec(steps);
             sid in s.sessions && !s.sessions[sid].closed && s.sessions[sid].lock.None? && k in s.sessions[sid].view.active
    ensures Covered(Exec(steps), sid, k)
  {
    RunInv(steps);
    assert Settled(Exec(steps), sid, k);
  }

  /** Once every removal has finished its prunes, what is active is in the catalog. */
  lemma QuiescentSessionsAreClean(steps: seq<Step>, sid: SessionId)
    requires Feasible(steps)
    requires var s := Exec(steps); sid in s.sessions && !s.sessions[sid].closed && s.sessions[sid].lock.None?
    requires forall c :: c in Exec(steps).calls && Exec(steps).calls[c].Removing? ==>
               Exec(steps).calls[c].todo == Some({})
    ensures Exec(steps).sessions[sid].view.active <= Exec(steps).catalog.Keys
  {
    var s := Exec(steps);
    forall k | k in s.sessions[sid].view.active ensures k in s.catalog {
      NoOrphanedKey(steps, sid, k);
      assert forall c :: c in s.calls ==> !Pending(s.calls[c], sid, k);
    }
  }

  // ----- Linearizability -------------------------------------------------------------------

  /** At every moment the list is what the logged operations make of it, one after the other,
      each applied to the whole list at once; and it is well formed. */
  lemma ListIsReplayOfLog(steps: seq<Step>, sid: SessionId)
    requires Feasible(steps) && sid in Exec(steps).sessions
    ensures var se := Exec(steps).sessions[sid];
            se.view == Replay(se.log) && se.view.version == |se.log| && Rep(se.view, se.maxActive)
  {
    RunInv(steps);
  }

  /** A successful activation is one logged operation: an entry of this very call that lies after the
      call began and applies its mode and its request, without repetitions, to the list found there;
      no other entry of any session is an activation by this call.  The call reports that list
      without the keys it found missing from the catalog; their removal, by the same call, is the
      very next entry. */
  lemma ActivationLinearizes(steps: seq<Step>, c: CallId)
    requires Feasible(steps) && c in Exec(steps).calls
    requires Exec(steps).calls[c].Activated? && Exec(steps).calls[c].outcome.Handles?
    ensures var s := Exec(steps); var Activated(r, Handles(kept, missing, entry)) := s.calls[c];
            && r.sid in s.sessions && r.base <= entry < |s.sessions[r.sid].log|
            && var log := s.sessions[r.sid].log;
            && log[entry] == Activate(c, r.mode, Dedup(r.keys))
            && (missing != {} ==> entry + 1 < |log| && log[entry+1] == Removal(c, missing))
            && Replay(log[..entry+1]).order == NextOrder(r.mode, Replay(log[..entry]).order, Dedup(r.keys))
            && kept == Without(Replay(log[..entry+1]).order, missing)
            && (missing != {} ==> entry + 1 < |log| && Replay(log[..entry+2]).order == kept)
            && (missing == {} ==> Replay(log[..entry+1]).order == kept)
            && (forall sid, i | sid in s.sessions && 0 <= i < |s.sessions[sid].log| ::
                  s.sessions[sid].log[i].Activate? && s.sessions[sid].log[i].call == c ==> sid == r.sid && i == entry)
  {
    RunInv(steps);
    var s := Exec(steps);
    var Activated(r, o) := s.calls[c];
    assert CallOk(s.sessions, c, s.calls[c]);
    HandlesMean(s.sessions[r.sid].log, c, r, o);
    OneActivationEntry(s, c);
  }

  lemma HandlesMean(log: seq<Op>, c: CallId, r: Request, o: Outcome)
    requires o.Handles? && HandlesOk(log, c, r, o)
    ensures Replay(log[..o.entry+1]).order == NextOrder(r.mode, Replay(log[..o.entry]).order, Dedup(r.keys))
    ensures o.missing != {} ==> o.entry + 1 < |log| && Replay(log[..o.entry+2]).order == o.kept
    ensures o.missing == {} ==> Replay(log[..o.entry+1]).order == o.kept
  {
    assert log[..o.entry+1][..o.entry] == log[..o.entry];
    if o.missing != {} {
      assert log[..o.entry+2][..o.entry+1] == log[..o.entry+1];
    } else {
      WithoutNothing(Replay(log[..o.entry+1]).order, {});
    }
  }

  lemma OneActivationEntry(s: State, c: CallId)
    requires LogsOk(s) && c in s.calls && s.calls[c].Activated? && s.calls[c].outcome.Handles?
    ensures forall sid, i | sid in s.sessions && 0 <= i < |s.sessions[sid].log| ::
              s.sessions[sid].log[i].Activate? && s.sessions[sid].log[i].call == c ==>
                sid == s.calls[c].r.sid && i == s.calls[c].outcome.entry
  {
    var r, entry := s.calls[c].r, s.calls[c].outcome.entry;
    forall sid, i | sid in s.sessions && 0 <= i < |s.sessions[sid].log| &&
                    s.sessions[sid].log[i].Activate? && s.sessions[sid].log[i].call == c
      ensures sid == r.sid && i == entry
    {
      assert EntryOk(s, sid, i, s.sessions[sid].log[i]);
    }
  }

  /** A call that failed, for whatever reason, has written nothing anywhere. */
  lemma FailureChangesNothing(steps: seq<Step>, c: CallId)
    requires Feasible(steps) && c in Exec(steps).calls
    requires Exec(steps).calls[c].Activated? && Exec(steps).calls[c].outcome.Failed?
    ensures forall sid :: sid in Exec(steps).sessions ==> NoEntryBy(Exec(steps).sessions[sid].log, c)
  {
    RunInv(steps);
    var s := Exec(steps);
    forall sid, i | sid in s.sessions && 0 <= i < |s.sessions[sid].log| ensures s.sessions[sid].log[i].call != c {
      assert EntryOk(s, sid, i, s.sessions[sid].log[i]);
    }
  }

  /** The retry error means the session's version rose by at least five while the call ran, every
      time through somebody else. */
  lemma RetryErrorNeedsFiveOthers(steps: seq<Step>, c: CallId)
    requires Feasible(steps) && c in Exec(steps).calls
    requires Exec(steps).calls[c].Activated? && Exec(steps).calls[c].outcome == Failed(RetriesExhausted)
    ensures var s := Exec(steps); var r := s.calls[c].r;
            && r.sid in s.sessions
            && s.sessions[r.sid].view.version == |s.sessions[r.sid].log| >= r.base + 5
            && NoEntryBy(s.sessions[r.sid].log[r.base..], c)
  {
    RunInv(steps);
    var s := Exec(steps);
    var r := s.calls[c].r;
    assert CallOk(s.sessions, c, s.calls[c]);
    FailureChangesNothing(steps, c);
    assert NoEntryBy(s.sessions[r.sid].log, c);
    assert SessionOk(s.sessions[r.sid]);
  }

  /** Logs only grow, bounds stay, and a closed session never reopens. */
  lemma {:induction false} SessionsOnlyAdvance(steps: seq<Step>, n: nat, sid: SessionId)
    requires Feasible(steps) && n <= |steps| && Feasible(steps[..n]) && sid in Exec(steps[..n]).sessions
    ensures sid in Exec(steps).sessions
    ensures Grows(Exec(steps[..n]).sessions[sid], Exec(steps).sessions[sid])
  {
    if n == |steps| {
      assert steps[..n] == steps;
    } else {
      var m := |steps| - 1;
      assert steps[..m][..n] == steps[..n];
      SessionsOnlyAdvance(steps[..m], n, sid);
      RunInv(steps[..m]);
      StepAdvances(Exec(steps[..m]), steps[m], sid);
    }
  }

  lemma StepAdvances(s: State, step: Step, sid: SessionId)
    requires Inv(s) && Enabled(s, step) && sid in s.sessions
    ensures sid in Do(s, step).sessions && Grows(s.sessions[sid], Do(s, step).sessions[sid])
  {
    if Global(step) {
      GlobalAdvances(s, step, sid);
    } else {
      LocalStepOk(s, step);
      EffectAdvances(s, step.c, EffectOf(s, step), sid);
    }
  }

  lemma GlobalAdvances(s: State, step: Step, sid: SessionId)
    requires Enabled(s, step) && Global(step) && sid in s.sessions
    ensures sid in Do(s, step).sessions && Grows(s.sessions[sid], Do(s, step).sessions[sid])
  {}

  lemma EffectAdvances(s: State, c: CallId, e: Effect, sid: SessionId)
    requires EffectOk(s, c, e) && sid in s.sessions
    ensures sid in Install(s, c, e).sessions && Grows(s.sessions[sid], Install(s, c, e).sessions[sid])
  {}

  // ----- Which skills can become active ----------------------------------------------------

  /** Every AddSkill of the run registers one of these (key, insert) pairs. */
  ghost predicate AddsWithin(steps: seq<Step>, allowed: set<(Key, SkillInsert)>) {
    forall i :: 0 <= i < |steps| && steps[i].AddSkill? ==> (steps[i].key, steps[i].insert) in allowed
  }

  ghost predicate Unambiguous(allowed: set<(Key, SkillInsert)>) {
    forall k :: !((k, Instructions) in allowed && (k, UserMessage) in allowed)
  }

  /** No session's active list holds a key the catalog has as a user-message skill. */
  ghost predicate OnlyInstructionsActive(s: State) {
    forall sid, k :: sid in s.sessions && k in s.sessions[sid].view.active && k in s.catalog ==> s.catalog[k] == Instructions
  }

  ghost predicate NeverMessage(keys: seq<Key>, allowed: set<(Key, SkillInsert)>) {
    forall k :: k in keys ==> (k, UserMessage) !in allowed
  }

  ghost predicate CallInsertOk(call: Call, allowed: set<(Key, SkillInsert)>) {
    match call
    case Validating(_, _, req) => NeverMessage(req, allowed)
    case Ready(_, req, _) => NeverMessage(req, allowed)
    case Checking(_, req, _, _, next, _, _) => NeverMessage(req, allowed) && NeverMessage(next, allowed)
    case _ => true
  }

  ghost predicate InsertInv(s: State, allowed: set<(Key, SkillInsert)>) {
    && (forall k :: k in s.catalog ==> (k, s.catalog[k]) in allowed)
    && (forall sid :: sid in s.sessions ==> NeverMessage(s.sessions[sid].view.order, allowed))
    && (forall c :: c in s.calls ==> CallInsertOk(s.calls[c], allowed))
  }

  lemma LocalInsertOk(s: State, step: Step, allowed: set<(Key, SkillInsert)>)
    requires Enabled(s, step) && !Global(step) && InsertInv(s, allowed) && Unambiguous(allowed)
    ensures var e := EffectOf(s, step);
            && CallInsertOk(e.call, allowed)
            && (e.session.Some? ==> NeverMessage(e.session.value.view.order, allowed))
  {
    var c := step.c;
    assert c in s.calls ==> CallInsertOk(s.calls[c], allowed);
    match step
    case TakeSnapshot(_) =>
      var se := s.sessions[s.calls[c].r.sid];
      WithoutMembers(se.view.order, Elems(s.calls[c].req));
    case Release(_) => WithoutMembers(s.sessions[s.calls[c].held].view.order, s.calls[c].missing);
    case ApplyUnload(_) =>
      var se := s.sessions[s.calls[c].sid];
      WithoutMembers(se.view.order, if s.calls[c].what.None? then se.view.active else s.calls[c].what.value);
    case ListPrune(_) => WithoutMembers(s.sessions[s.calls[c].sid].view.order, s.calls[c].missing);
    case PruneNext(_, sid, _) => WithoutMembers(s.sessions[sid].view.order, {s.calls[c].key});
    case _ =>
  }

  lemma StepInsertInv(s: State, step: Step, allowed: set<(Key, SkillInsert)>)
    requires Enabled(s, step) && InsertInv(s, allowed) && Unambiguous(allowed)
    requires step.AddSkill? ==> (step.key, step.insert) in allowed
    ensures InsertInv(Do(s, step), allowed)
  {
    if Global(step) {
      GlobalInsertInv(s, step, allowed);
    } else {
      LocalInsertOk(s, step, allowed);
      InstallInsertInv(s, step.c, EffectOf(s, step), allowed);
    }
  }

  lemma GlobalInsertInv(s: State, step: Step, allowed: set<(Key, SkillInsert)>)
    requires Enabled(s, step) && Global(step) && InsertInv(s, allowed)
    requires step.AddSkill? ==> (step.key, step.insert) in allowed
    ensures InsertInv(Do(s, step), allowed)
  {}

  lemma InstallInsertInv(s: State, c: CallId, e: Effect, allowed: set<(Key, SkillInsert)>)
    requires InsertInv(s, allowed) && CallInsertOk(e.call, allowed)
    requires e.session.Some? ==> NeverMessage(e.session.value.view.order, allowed)
    ensures InsertInv(Install(s, c, e), allowed)
  {}

  lemma {:induction false} RunInsertInv(steps: seq<Step>, allowed: set<(Key, SkillInsert)>)
    requires Feasible(steps) && AddsWithin(steps, allowed) && Unambiguous(allowed)
    ensures InsertInv(Exec(steps), allowed)
  {
    if steps != [] {
      var n := |steps| - 1;
      RunInsertInv(steps[..n], allowed);
      assert steps[n].AddSkill? ==> (steps[n].key, steps[n].insert) in allowed;
      StepInsertInv(Exec(steps[..n]), steps[n], allowed);
    }
  }

  lemma Extend(steps: seq<Step>, step: Step) returns (longer: seq<Step>)
    requires Feasible(steps) && Enabled(Exec(steps), step)
    ensures longer == steps + [step] && Feasible(longer) && Exec(longer) == Do(Exec(steps), step)
  {
    longer := steps + [step];
    assert longer[..|steps|] == steps;
  }

  /** A registered key passes validation. */
  lemma ValidatedOnce(k: Key) returns (steps: seq<Step>)
    ensures Feasible(steps) && AddsWithin(steps, {(k, Instructions), (k, UserMessage)})
    ensures Exec(steps) == State(map[k := Instructions], map[0 := Session(EMPTY, false, None, 0, [])], {0},
                                 map[0 := Ready(Request(0, Replace, [k], 0), [k], 0)])
  {
    var se := Session(EMPTY, false, None, 0, []);
    var r := Request(0, Replace, [k], 0);
    steps := Extend([], NewSession(0, 0));
    steps := Extend(steps, AddSkill(k, Instructions));
    assert Exec(steps) == State(map[k := Instructions], map[0 := se], {0}, map[]);
    steps := Extend(steps, StartActivate(0, 0, Replace, [k]));
    assert Exec(steps) == State(map[k := Instructions], map[0 := se], {0}, map[0 := Validating(r, 0, [])]);
    assert [] + [k] == [k];
    assert OnValidate(map[k := Instructions], r, 0, []) == Phase(Ready(r, [k], 0));
    steps := Extend(steps, ValidateKey(0));
  }

  /** Up to the moment the validated key has been removed and registered again. */
  lemma ReregisteredAfterValidation(k: Key) returns (steps: seq<Step>)
    ensures Feasible(steps) && AddsWithin(steps, {(k, Instructions), (k, UserMessage)})
    ensures Exec(steps) == State(map[k := UserMessage], map[0 := Session(EMPTY, false, None, 0, [])], {0},
                                 map[0 := Ready(Request(0, Replace, [k], 0), [k], 0), 1 := Removing(k, None)])
  {
    steps := ValidatedOnce(k);
    steps := Extend(steps, RemoveSkill(1, k));
    assert Exec(steps).catalog == map[];
    steps := Extend(steps, AddSkill(k, UserMessage));
  }

  /** Nothing is under way: every call has returned and no lock is held. */
  ghost predicate Quiescent(s: State) {
    && (forall c :: c in s.calls ==> Returned(s.calls[c]))
    && (forall sid :: sid in s.sessions ==> s.sessions[sid].lock.None?)
  }

  ghost predicate Returned(call: Call) {
    call.Activated? || call.Unloaded? || call.Listed? || (call.Removing? && call.todo == Some({}))
  }

  /** Up to the moment the validated key has been removed and registered again, the removal over. */
  lemma RemovedAndReregistered(k: Key) returns (steps: seq<Step>)
    ensures Feasible(steps) && AddsWithin(steps, {(k, Instructions), (k, UserMessage)})
    ensures Exec(steps) == State(map[k := UserMessage], map[0 := Session(EMPTY, false, None, 0, [])], {0},
                                 map[0 := Ready(Request(0, Replace, [k], 0), [k], 0), 1 := Removing(k, Some({}))])
  {
    steps := ReregisteredAfterValidation(k);
    var ready := Ready(Request(0, Replace, [k], 0), [k], 0);
    steps := Extend(steps, Collect(1));
    assert Exec(steps).calls == map[0 := ready, 1 := Removing(k, Some({0}))];
    assert {0} - {0} == {};
    steps := Extend(steps, PruneNext(1, 0, false));
    assert Exec(steps).sessions == map[0 := Session(EMPTY, false, None, 0, [])];
  }

  /** The insert check runs once, before the retry loop, and the check before the commit asks for
      existence only: a removal and a re-registration with another insert fit in between.  The run
      ends with nothing under way, and the user-message skill stays active in an open session. */
  lemma InsertCheckCanGoStale(k: Key) returns (steps: seq<Step>)
    ensures Feasible(steps) && AddsWithin(steps, {(k, Instructions), (k, UserMessage)})
    ensures var s := Exec(steps);
            && Quiescent(s) && 0 in s.sessions && !s.sessions[0].closed
            && k in s.sessions[0].view.active && k in s.catalog && s.catalog[k] == UserMessage
            && !OnlyInstructionsActive(s)
  {
    steps := CommittedUnderTheNewRegistration(k);
    assert [] + [k] == [k] && [k][0] == k;
    steps := Extend(steps, CheckHandle(0));
    assert Exec(steps).calls[0] == Holding(ForActivation(Request(0, Replace, [k], 0), 0), 0, 1, [k], {});
    steps := Extend(steps, Release(0));
    assert k in Exec(steps).sessions[0].view.active;
  }

  lemma CommittedUnderTheNewRegistration(k: Key) returns (steps: seq<Step>)
    ensures Feasible(steps) && AddsWithin(steps, {(k, Instructions), (k, UserMessage)})
    ensures Exec(steps) == State(map[k := UserMessage],
                                 map[0 := Session(Commit(EMPTY, [k]), false, Some(0), 0, [Activate(0, Replace, [k])])], {0},
                                 map[0 := Holding(ForActivation(Request(0, Replace, [k], 0), 0), 0, 0, [], {}),
                                     1 := Removing(k, Some({}))])
  {
    steps := CheckedAgainstTheNewRegistration(k);
    var s := Exec(steps);
    CommitsHere(k);
    steps := Extend(steps, TryCommit(0));
    assert s.sessions[0] == Session(EMPTY, false, None, 0, []);
    assert Exec(steps).sessions == map[0 := Session(Commit(EMPTY, [k]), false, Some(0), 0, [Activate(0, Replace, [k])])];
  }

  lemma CommitsHere(k: Key)
    ensures var r := Request(0, Replace, [k], 0);
            OnCommit(0, Session(EMPTY, false, None, 0, []), Checking(r, [k], 0, EMPTY, [k], 1, 1)) ==
              Effect(Holding(ForActivation(r, 0), 0, 0, [], {}), 0,
                     Some(Session(Commit(EMPTY, [k]), false, Some(0), 0, [Activate(0, Replace, [k])])))
  {
    assert [] + [Activate(0, Replace, [k])] == [Activate(0, Replace, [k])];
  }

  lemma CheckedAgainstTheNewRegistration(k: Key) returns (steps: seq<Step>)
    ensures Feasible(steps) && AddsWithin(steps, {(k, Instructions), (k, UserMessage)})
    ensures Exec(steps) == State(map[k := UserMessage], map[0 := Session(EMPTY, false, None, 0, [])], {0},
                                 map[0 := Checking(Request(0, Replace, [k], 0), [k], 0, EMPTY, [k], 1, 1),
                                     1 := Removing(k, Some({}))])
  {
    steps := RemovedAndReregistered(k);
    var r := Request(0, Replace, [k], 0);
    steps := Extend(steps, TakeSnapshot(0));
    assert Exec(steps).calls[0] == Checking(r, [k], 0, EMPTY, [k], 0, 0);
    steps := Extend(steps, EnsureBody(0, true));
    assert Exec(steps).calls[0] == Checking(r, [k], 0, EMPTY, [k], 1, 0);
    steps := Extend(steps, Recheck(0));
  }

  /** Instruction skills stay the only active ones in every run exactly when no key may be
      registered both as instructions and as a user message; and it is no different for the states
      of a run in which nothing is under way. */
  lemma OnlyInstructionsActiveIff(allowed: set<(Key, SkillInsert)>)
    ensures Unambiguous(allowed) <==>
            forall steps :: Feasible(steps) && AddsWithin(steps, allowed) ==> OnlyInstructionsActive(Exec(steps))
    ensures Unambiguous(allowed) <==>
            forall steps :: Feasible(steps) && AddsWithin(steps, allowed) && Quiescent(Exec(steps)) ==>
                              OnlyInstructionsActive(Exec(steps))
  {
    if Unambiguous(allowed) {
      forall steps | Feasible(steps) && AddsWithin(steps, allowed) ensures OnlyInstructionsActive(Exec(steps)) {
        RunInsertInv(steps, allowed);
        RunInv(steps);
        var s := Exec(steps);
        forall sid, k | sid in s.sessions && k in s.sessions[sid].view.active && k in s.catalog
          ensures s.catalog[k] == Instructions
        {
          assert SessionOk(s.sessions[sid]) && k in Elems(s.sessions[sid].view.order);
        }
      }
    } else {
      var k :| (k, Instructions) in allowed && (k, UserMessage) in allowed;
      var steps := InsertCheckCanGoStale(k);
      assert AddsWithin(steps, allowed);
    }
  }
}
