/** Invariants of every run of `BodyLoading`, and the theorems they give. */
module BodyProofs {
  import opened SkillTypes
  import opened BodyLoading

  // ----- The invariant ---------------------------------------------------------------------

  /** An entry waits for an open channel made for it, or holds what its registration stored, or is untouched. */
  ghost predicate SlotOk(s: State, k: Key, slot: Slot) {
    && slot.reg < s.b.regs
    && (slot.wait.Some? ==>
          && slot.body.None? && slot.err.None?
          && slot.wait.value in s.begun && s.begun[slot.wait.value] == Origin(k, slot.reg)
          && slot.wait.value !in s.b.closed)
    && !(slot.body.Some? && slot.err.Some?)
    && (slot.body.Some? ==> slot.reg in s.stored && s.stored[slot.reg] == Body(slot.body.value))
    && (slot.err.Some? ==> slot.reg in s.stored && s.stored[slot.reg] == Err(slot.err.value))
    && (slot.body.None? && slot.err.None? ==> slot.reg !in s.stored)
  }

  ghost predicate BodiesOk(s: State) {
    && !s.b.panicked
    && (forall k :: k in s.b.byKey ==> SlotOk(s, k, s.b.byKey[k]))
    && (forall k, k' :: k in s.b.byKey && k' in s.b.byKey && s.b.byKey[k].reg == s.b.byKey[k'].reg ==> k == k')
    && (forall ch: Chan :: ch in s.begun <==> ch < s.b.chans)
    && (forall ch :: ch in s.b.closed ==> ch < s.b.chans)
    && (forall ch :: ch in s.begun ==> s.begun[ch].reg < s.b.regs)
    && (forall reg :: reg in s.stored ==> reg < s.b.regs && s.stored[reg] != Err(ContextError))
  }

  /** The history of a call that keeps waiting: distinct closed channels, and after the first wait
      never anything in the entry. */
  ghost predicate WaitsOk(s: State, waited: seq<Chan>, seen: seq<Slot>) {
    && |waited| <= |seen|
    && NoDup(waited)
    && (forall i :: 0 <= i < |waited| ==> waited[i] in s.b.closed && seen[i].wait == Some(waited[i]))
    && (forall i :: 0 <= i < |seen| ==> seen[i].body.None? && seen[i].err.None?)
  }

  ghost predicate CallOk(s: State, call: Call) {
    match call
    case Entering(k, waited, seen) => WaitsOk(s, waited, seen) && |seen| == |waited| < MAX_ROUNDS
    case Waiting(k, waited, seen, ch) =>
      && WaitsOk(s, waited, seen) && |seen| == |waited| + 1 && |waited| < MAX_ROUNDS
      && seen[|waited|].wait == Some(ch) && ch !in waited
      && ch in s.begun && (ch in s.b.closed || Current(s.b, k, ch))
    case Loading(k, ch, reg) =>
      && ch in s.begun && s.begun[ch] == Origin(k, reg)
      && reg < s.b.regs
      && (Current(s.b, k, ch) || (ch in s.b.closed && !Registered(s.b, k, reg)))
    case Returned(k, answer) => AnswerOk(s, answer)
  }

  ghost predicate AnswerOk(s: State, answer: Answer) {
    match answer
    case FromCache(reg, res) => reg in s.stored && s.stored[reg] == res
    case FromLoad(reg, ch, res, published) => published ==> reg in s.stored && s.stored[reg] == res
    case GaveUp(waited, seen) => WaitsOk(s, waited, seen) && |waited| == |seen| == MAX_ROUNDS
    case _ => true
  }

  ghost predicate CallsOk(s: State) {
    && (forall c :: c in s.calls ==> CallOk(s, s.calls[c]))
    && (forall c, c' | c in s.calls && c' in s.calls && s.calls[c].Loading? && s.calls[c'].Loading? ::
          s.calls[c].ch == s.calls[c'].ch ==> c == c')
  }

  ghost predicate HasLoader(s: State, ch: Chan) {
    exists c :: c in s.calls && s.calls[c].Loading? && s.calls[c].ch == ch
  }

  ghost predicate LoadersOk(s: State) {
    forall k :: k in s.b.byKey && s.b.byKey[k].wait.Some? ==> HasLoader(s, s.b.byKey[k].wait.value)
  }

  ghost predicate PubsOk(s: State) {
    && (forall i :: 0 <= i < |s.pubs| ==>
          && s.pubs[i].ch in s.begun && s.begun[s.pubs[i].ch].reg == s.pubs[i].reg
          && s.pubs[i].reg in s.stored && s.stored[s.pubs[i].reg] == s.pubs[i].res)
    && (forall i, j :: 0 <= i < j < |s.pubs| ==> s.pubs[i].reg != s.pubs[j].reg)
  }

  ghost predicate Inv(s: State) {
    BodiesOk(s) && CallsOk(s) && LoadersOk(s) && PubsOk(s)
  }

  // ----- What a step leaves alone ----------------------------------------------------------

  ghost predicate Registered(b: Bodies, k: Key, reg: nat) {
    k in b.byKey && b.byKey[k].reg == reg
  }

  /** Channels stay closed, loads keep their origin, registrations keep what they stored, and an
      entry stops waiting on a channel only by its being closed. */
  ghost predicate Advances(s: State, s': State) {
    && s.b.closed <= s'.b.closed
    && (forall ch :: ch in s.begun ==> ch in s'.begun && s'.begun[ch] == s.begun[ch])
    && (forall reg :: reg in s.stored ==> reg in s'.stored && s'.stored[reg] == s.stored[reg])
    && (forall k, ch :: Current(s.b, k, ch) ==> Current(s'.b, k, ch) || ch in s'.b.closed)
    && s.b.regs <= s'.b.regs
    && (forall k, reg: nat :: Registered(s'.b, k, reg) && reg < s.b.regs ==> Registered(s.b, k, reg))
  }

  lemma StepAdvances(s: State, step: Step)
    requires BodiesOk(s) && CallsOk(s) && Enabled(s, step)
    ensures Advances(s, Do(s, step))
  {
    match step
    case AddSkill(_, _) => assert s.b.regs !in s.stored;
    case RemoveSkill(_) =>
    case LookAt(c) => LookAdvances(s, c, s.calls[c].k, s.calls[c].waited, s.calls[c].seen);
    case FinishLoad(c, res) =>
      assert CallOk(s, s.calls[c]);
      FinishAdvances(s, c, res);
    case _ =>
  }

  lemma LookAdvances(s: State, c: CallId, k: Key, waited: seq<Chan>, seen: seq<Slot>)
    requires BodiesOk(s)
    ensures Advances(s, DoLook(s, c, k, waited, seen))
  {
    var s' := DoLook(s, c, k, waited, seen);
    if Inspect(s.b, k).1.Lead? {
      LeadAdvances(s, s', k);
    } else {
      CallsOnlyAdvances(s, s');
    }
  }

  lemma LeadAdvances(s: State, s': State, k: Key)
    requires BodiesOk(s) && Inspect(s.b, k).1.Lead?
    requires s'.b == Inspect(s.b, k).0 && s'.begun == s.begun[s.b.chans := Origin(k, s.b.byKey[k].reg)] && s'.stored == s.stored
    ensures Advances(s, s')
  {
    assert s.b.chans !in s.begun;
  }

  lemma CallsOnlyAdvances(s: State, s': State)
    requires s' == s.(calls := s'.calls)
    ensures Advances(s, s')
  {}

  lemma FinishAdvances(s: State, c: CallId, res: LoadResult)
    requires BodiesOk(s) && Enabled(s, FinishLoad(c, res)) && CallOk(s, s.calls[c])
    ensures Advances(s, DoFinish(s, c, s.calls[c], res))
  {
    var Loading(k, ch, reg) := s.calls[c];
    if Current(s.b, k, ch) { assert SlotOk(s, k, s.b.byKey[k]); }
  }

  lemma CallStable(s: State, s': State, call: Call)
    requires Advances(s, s') && CallOk(s, call)
    requires call.Loading? ==> LoadUndisturbed(s, s', call)
    ensures CallOk(s', call)
  {}

  /** A live load stays current, or its registration has been removed. */
  ghost predicate LoadUndisturbed(s: State, s': State, call: Call)
    requires call.Loading?
  {
    Current(s.b, call.k, call.ch) ==>
      Current(s'.b, call.k, call.ch) || (call.ch in s'.b.closed && !Registered(s'.b, call.k, call.reg))
  }

  lemma OthersLeaveLoadsAlone(s: State, step: Step, c: CallId)
    requires BodiesOk(s) && CallsOk(s) && Enabled(s, step) && c in s.calls && s.calls[c].Loading?
    requires !(step.FinishLoad? && step.c == c)
    ensures LoadUndisturbed(s, Do(s, step), s.calls[c])
  {
    match step
    case FinishLoad(c', res) => assert s.calls[c'].ch != s.calls[c].ch;
    case _ =>
  }

  // ----- The invariant, step by step -------------------------------------------------------

  lemma FinishBodiesOk(s: State, c: CallId, res: LoadResult)
    requires BodiesOk(s) && Enabled(s, FinishLoad(c, res)) && CallOk(s, s.calls[c])
    ensures BodiesOk(DoFinish(s, c, s.calls[c], res))
  {
    var Loading(k, ch, reg) := s.calls[c];
    if Current(s.b, k, ch) {
      assert SlotOk(s, k, s.b.byKey[k]);
      var s' := DoFinish(s, c, s.calls[c], res);
      forall k' | k' in s'.b.byKey ensures SlotOk(s', k', s'.b.byKey[k']) {
        assert SlotOk(s, k', s.b.byKey[k']);
      }
    }
  }

  /** The part of SlotOk that a step must keep for entries it does not touch. */
  lemma SlotStable(s: State, s': State, k: Key, slot: Slot)
    requires SlotOk(s, k, slot)
    requires s.b.regs <= s'.b.regs
    requires slot.wait.Some? ==> slot.wait.value in s'.begun && s'.begun[slot.wait.value] == s.begun[slot.wait.value]
    requires slot.wait.Some? ==> slot.wait.value !in s'.b.closed
    requires slot.reg in s.stored ==> slot.reg in s'.stored && s'.stored[slot.reg] == s.stored[slot.reg]
    requires slot.reg in s'.stored ==> slot.reg in s.stored
    ensures SlotOk(s', k, slot)
  {}

  lemma AddBodiesOk(s: State, k: Key, skillBody: string)
    requires BodiesOk(s) && Enabled(s, AddSkill(k, skillBody))
    ensures BodiesOk(Do(s, AddSkill(k, skillBody)))
  {
    var s' := Do(s, AddSkill(k, skillBody));
    forall k' | k' in s'.b.byKey ensures SlotOk(s', k', s'.b.byKey[k']) {
      if k' != k { SlotStable(s, s', k', s.b.byKey[k']); }
    }
  }

  lemma RemoveBodiesOk(s: State, k: Key)
    requires BodiesOk(s) && Enabled(s, RemoveSkill(k))
    ensures BodiesOk(Do(s, RemoveSkill(k)))
  {
    var s' := Do(s, RemoveSkill(k));
    assert SlotOk(s, k, s.b.byKey[k]);
    forall k' | k' in s'.b.byKey ensures SlotOk(s', k', s'.b.byKey[k']) {
      assert SlotOk(s, k', s.b.byKey[k']);
      SlotStable(s, s', k', s.b.byKey[k']);
    }
  }

  lemma LookBodiesOk(s: State, c: CallId, k: Key, waited: seq<Chan>, seen: seq<Slot>)
    requires BodiesOk(s)
    ensures BodiesOk(DoLook(s, c, k, waited, seen))
  {
    var s' := DoLook(s, c, k, waited, seen);
    if Inspect(s.b, k).1.Lead? {
      LeadBodiesOk(s, s', k);
    } else {
      CallsOnlyBodiesOk(s, s');
    }
  }

  lemma LeadBodiesOk(s: State, s': State, k: Key)
    requires BodiesOk(s) && Inspect(s.b, k).1.Lead?
    requires s'.b == Inspect(s.b, k).0 && s'.begun == s.begun[s.b.chans := Origin(k, s.b.byKey[k].reg)] && s'.stored == s.stored
    ensures BodiesOk(s')
  {
    forall k' | k' in s'.b.byKey ensures SlotOk(s', k', s'.b.byKey[k']) {
      assert SlotOk(s, k', s.b.byKey[k']);
      if k' != k { SlotStable(s, s', k', s.b.byKey[k']); }
    }
  }

  lemma StepBodiesOk(s: State, step: Step)
    requires BodiesOk(s) && CallsOk(s) && Enabled(s, step)
    ensures BodiesOk(Do(s, step))
  {
    match step
    case AddSkill(k, skillBody) => AddBodiesOk(s, k, skillBody);
    case RemoveSkill(k) => RemoveBodiesOk(s, k);
    case LookAt(c) => LookBodiesOk(s, c, s.calls[c].k, s.calls[c].waited, s.calls[c].seen);
    case FinishLoad(c, res) => FinishBodiesOk(s, c, res);
    case _ => CallsOnlyBodiesOk(s, Do(s, step));
  }

  lemma CallsOnlyBodiesOk(s: State, s': State)
    requires BodiesOk(s) && s' == s.(calls := s'.calls)
    ensures BodiesOk(s')
  {
    forall k | k in s'.b.byKey ensures SlotOk(s', k, s'.b.byKey[k]) {
      SlotStable(s, s', k, s.b.byKey[k]);
    }
  }

  lemma LookCallOk(s: State, c: CallId)
    requires BodiesOk(s) && Enabled(s, LookAt(c)) && CallOk(s, s.calls[c])
    ensures var s' := Do(s, LookAt(c)); CallOk(s', s'.calls[c])
  {
    var Entering(k, waited, seen) := s.calls[c];
    if k in s.b.byKey {
      var slot := s.b.byKey[k];
      assert SlotOk(s, k, slot);
      if slot.wait.Some? {
        assert forall i :: 0 <= i < |waited| ==> (seen + [slot])[i] == seen[i];
      }
    }
  }

  lemma ActorOk(s: State, step: Step)
    requires BodiesOk(s) && CallsOk(s) && Enabled(s, step) && !step.AddSkill? && !step.RemoveSkill?
    ensures var s' := Do(s, step); step.c in s'.calls && CallOk(s', s'.calls[step.c])
  {
    var c := step.c;
    assert c in s.calls ==> CallOk(s, s.calls[c]);
    match step
    case LookAt(_) => LookCallOk(s, c);
    case Wake(_) => WakeCallOk(s, c);
    case FinishLoad(_, res) =>
      var Loading(k, ch, reg) := s.calls[c];
      if Current(s.b, k, ch) { assert SlotOk(s, k, s.b.byKey[k]); }
    case _ =>
  }

  lemma WakeCallOk(s: State, c: CallId)
    requires Enabled(s, Wake(c)) && CallOk(s, s.calls[c])
    ensures var s' := Do(s, Wake(c)); CallOk(s', s'.calls[c])
  {
    var Waiting(k, waited, seen, ch) := s.calls[c];
    var s' := Do(s, Wake(c));
    assert WaitsOk(s', waited + [ch], seen);
  }

  lemma StepCallsOk(s: State, step: Step)
    requires BodiesOk(s) && CallsOk(s) && Enabled(s, step)
    ensures CallsOk(Do(s, step))
  {
    var s' := Do(s, step);
    StepAdvances(s, step);
    forall c | c in s'.calls ensures CallOk(s', s'.calls[c]) {
      if !step.AddSkill? && !step.RemoveSkill? && c == step.c {
        ActorOk(s, step);
      } else {
        if s.calls[c].Loading? { OthersLeaveLoadsAlone(s, step, c); }
        CallStable(s, s', s.calls[c]);
      }
    }
    LoadersDistinct(s, step);
  }

  /** A new loader gets a channel nobody has seen. */
  lemma LoadersDistinct(s: State, step: Step)
    requires BodiesOk(s) && CallsOk(s) && Enabled(s, step)
    ensures var s' := Do(s, step);
            forall c, c' | c in s'.calls && c' in s'.calls && s'.calls[c].Loading? && s'.calls[c'].Loading? ::
              s'.calls[c].ch == s'.calls[c'].ch ==> c == c'
  {
    var s' := Do(s, step);
    forall c, c' | c in s'.calls && c' in s'.calls && s'.calls[c].Loading? && s'.calls[c'].Loading? &&
                   s'.calls[c].ch == s'.calls[c'].ch
      ensures c == c'
    {
      LoaderIsOldOrNew(s, step, c);
      LoaderIsOldOrNew(s, step, c');
    }
  }

  lemma LoaderIsOldOrNew(s: State, step: Step, c: CallId)
    requires BodiesOk(s) && CallsOk(s) && Enabled(s, step) && c in Do(s, step).calls && Do(s, step).calls[c].Loading?
    ensures || (c in s.calls && s.calls[c] == Do(s, step).calls[c] && s.calls[c].ch < s.b.chans)
            || (step == LookAt(c) && Do(s, step).calls[c].ch == s.b.chans)
  {
    if c in s.calls && s.calls[c].Loading? {
      LoadKeepsOrigin(s, step, c);
      assert CallOk(s, s.calls[c]);
    }
  }

  lemma LoadKeepsOrigin(s: State, step: Step, c: CallId)
    requires Enabled(s, step) && c in s.calls && s.calls[c].Loading?
    requires c in Do(s, step).calls && Do(s, step).calls[c].Loading?
    ensures Do(s, step).calls[c] == s.calls[c]
  {}

  lemma FinishEndsWait(b: Bodies, k: Key, ch: Chan, res: LoadResult)
    ensures !Current(Finish(b, k, ch, res), k, ch)
  {}

  lemma LoadEndsByFinishing(s: State, step: Step, c: CallId)
    requires Enabled(s, step) && c in s.calls && s.calls[c].Loading? && !(step.FinishLoad? && step.c == c)
    ensures c in Do(s, step).calls && Do(s, step).calls[c] == s.calls[c]
  {}

  /** A loader leaves only by finishing, and a wait begins only with its loader. */
  lemma LoaderStays(s: State, step: Step, k: Key, ch: Chan)
    requires BodiesOk(s) && CallsOk(s) && Enabled(s, step) && HasLoader(s, ch)
    requires Current(s.b, k, ch) && Current(Do(s, step).b, k, ch)
    ensures HasLoader(Do(s, step), ch)
  {
    var s' := Do(s, step);
    var c :| c in s.calls && s.calls[c].Loading? && s.calls[c].ch == ch;
    assert CallOk(s, s.calls[c]) && SlotOk(s, k, s.b.byKey[k]);
    assert s.calls[c].k == k;
    if step.FinishLoad? {
      FinishEndsWait(s.b, s.calls[step.c].k, s.calls[step.c].ch, step.res);
    }
    LoadEndsByFinishing(s, step, c);
  }

  lemma WaitBeginsWithLoader(s: State, step: Step, k: Key, ch: Chan)
    requires Enabled(s, step) && !Current(s.b, k, ch) && Current(Do(s, step).b, k, ch)
    ensures HasLoader(Do(s, step), ch)
  {
    assert step.LookAt?;
    assert Do(s, step).calls[step.c].Loading?;
  }

  lemma StepLoadersOk(s: State, step: Step)
    requires BodiesOk(s) && CallsOk(s) && LoadersOk(s) && Enabled(s, step)
    ensures LoadersOk(Do(s, step))
  {
    var s' := Do(s, step);
    forall k | k in s'.b.byKey && s'.b.byKey[k].wait.Some? ensures HasLoader(s', s'.b.byKey[k].wait.value) {
      var ch := s'.b.byKey[k].wait.value;
      if Current(s.b, k, ch) {
        LoaderStays(s, step, k, ch);
      } else {
        WaitBeginsWithLoader(s, step, k, ch);
      }
    }
  }

  lemma StepPubsOk(s: State, step: Step)
    requires BodiesOk(s) && CallsOk(s) && PubsOk(s) && Enabled(s, step)
    ensures PubsOk(Do(s, step))
  {
    StepAdvances(s, step);
    if step.FinishLoad? {
      assert CallOk(s, s.calls[step.c]);
      FinishPubsOk(s, step.c, step.res);
    } else {
      PubsStable(s, Do(s, step));
    }
  }

  lemma PubsStable(s: State, s': State)
    requires PubsOk(s) && Advances(s, s') && s'.pubs == s.pubs
    ensures PubsOk(s')
  {}

  lemma FinishPubsOk(s: State, c: CallId, res: LoadResult)
    requires BodiesOk(s) && PubsOk(s) && Enabled(s, FinishLoad(c, res)) && CallOk(s, s.calls[c])
    ensures PubsOk(DoFinish(s, c, s.calls[c], res))
  {
    var Loading(k, ch, reg) := s.calls[c];
    if Current(s.b, k, ch) { assert SlotOk(s, k, s.b.byKey[k]); }
  }

  lemma StepInv(s: State, step: Step)
    requires Inv(s) && Enabled(s, step)
    ensures Inv(Do(s, step))
  {
    StepBodiesOk(s, step);
    StepCallsOk(s, step);
    StepLoadersOk(s, step);
    StepPubsOk(s, step);
  }

  lemma {:induction false} RunInv(steps: seq<Step>)
    requires Feasible(steps)
    ensures Inv(Exec(steps))
  {
    if steps != [] {
      var n := |steps| - 1;
      RunInv(steps[..n]);
      StepInv(Exec(steps[..n]), steps[n]);
    }
  }

  // ----- Theorems --------------------------------------------------------------------------

  /** No channel is ever closed twice: finishBodyLoad and Remove never close the same one. */
  lemma ChannelsCloseOnce(steps: seq<Step>)
    requires Feasible(steps)
    ensures !Exec(steps).b.panicked
  {
    RunInv(steps);
  }

  /** A call becomes a load by finding an entry nobody loads, of the registration it notes. */
  lemma LoadBegins(s: State, step: Step, c: CallId)
    requires Enabled(s, step) && !(c in s.calls && s.calls[c].Loading?)
    requires c in Do(s, step).calls && Do(s, step).calls[c].Loading?
    ensures var call := Do(s, step).calls[c];
            && step == LookAt(c) && Registered(s.b, call.k, call.reg) && s.b.byKey[call.k].wait.None?
  {}

  /** Two live loads of a key never belong to the same registration, be it in the catalog still or not. */
  lemma {:induction false} SingleFlight(steps: seq<Step>, c: CallId, c': CallId)
    requires Feasible(steps)
    requires var s := Exec(steps); c in s.calls && c' in s.calls && s.calls[c].Loading? && s.calls[c'].Loading?
    requires var s := Exec(steps); s.calls[c].k == s.calls[c'].k && s.calls[c].reg == s.calls[c'].reg
    ensures c == c'
    decreases |steps|
  {
    var n := |steps| - 1;
    RunInv(steps[..n]);
    FlightStep(Exec(steps[..n]), steps[n], c, c');
    if c != c' { SingleFlight(steps[..n], c, c'); }
  }

  /** Two live loads of one registration would have been two already before the step. */
  lemma FlightStep(s: State, step: Step, c: CallId, c': CallId)
    requires Inv(s) && Enabled(s, step)
    requires var s' := Do(s, step); c in s'.calls && c' in s'.calls && s'.calls[c].Loading? && s'.calls[c'].Loading?
    requires var s' := Do(s, step); s'.calls[c].k == s'.calls[c'].k && s'.calls[c].reg == s'.calls[c'].reg
    ensures c == c' || (c in s.calls && c' in s.calls && s.calls[c] == Do(s, step).calls[c] && s.calls[c'] == Do(s, step).calls[c'])
  {
    if c in s.calls && s.calls[c].Loading? {
      LoadKeepsOrigin(s, step, c);
      if c' in s.calls && s.calls[c'].Loading? {
        LoadKeepsOrigin(s, step, c');
      } else {
        NoSecondLoad(s, step, c, c');
      }
    } else if c != c' {
      LoadBegins(s, step, c);
      LoadKeepsOrigin(s, step, c');
      NoSecondLoad(s, step, c', c);
    }
  }

  lemma NoSecondLoad(s: State, step: Step, c: CallId, c': CallId)
    requires Inv(s) && Enabled(s, step) && c in s.calls && s.calls[c].Loading?
    requires !(c' in s.calls && s.calls[c'].Loading?) && c' in Do(s, step).calls && Do(s, step).calls[c'].Loading?
    ensures s.calls[c].k != Do(s, step).calls[c'].k || s.calls[c].reg != Do(s, step).calls[c'].reg
  {
    LoadBegins(s, step, c');
    assert CallOk(s, s.calls[c]);
  }

  /** A load whose registration is still in the catalog is the one its entry waits for. */
  lemma LiveLoaderIsCurrent(steps: seq<Step>, c: CallId)
    requires Feasible(steps)
    requires var s := Exec(steps);
             c in s.calls && s.calls[c].Loading? && s.calls[c].k in s.b.byKey && s.b.byKey[s.calls[c].k].reg == s.calls[c].reg
    ensures var s := Exec(steps); Current(s.b, s.calls[c].k, s.calls[c].ch)
  {
    RunInv(steps);
    assert CallOk(Exec(steps), Exec(steps).calls[c]);
  }

  /** A waiter's channel is closed already, or it is the one the key's entry waits for and a live
      load, whose finishing closes it, is there. */
  lemma NoLostWakeup(steps: seq<Step>, c: CallId)
    requires Feasible(steps)
    requires var s := Exec(steps); c in s.calls && s.calls[c].Waiting? && s.calls[c].ch !in s.b.closed
    ensures var s := Exec(steps);
            && Current(s.b, s.calls[c].k, s.calls[c].ch)
            && (exists l :: l in s.calls && s.calls[l].Loading? && s.calls[l].ch == s.calls[c].ch &&
                            (forall res :: s.calls[c].ch in Do(s, FinishLoad(l, res)).b.closed))
  {
    RunInv(steps);
    var s := Exec(steps);
    var Waiting(k, _, _, ch) := s.calls[c];
    assert CallOk(s, s.calls[c]);
    assert HasLoader(s, ch);
    var l :| l in s.calls && s.calls[l].Loading? && s.calls[l].ch == ch;
    assert CallOk(s, s.calls[l]) && SlotOk(s, k, s.b.byKey[k]);
    forall res ensures ch in Do(s, FinishLoad(l, res)).b.closed {
      assert Current(s.b, s.calls[l].k, ch);
    }
  }

  /** Every publication belongs to the registration its load began in, a registration has at most
      one, and what it holds is never a context cancellation. */
  lemma PublicationsStayHome(steps: seq<Step>)
    requires Feasible(steps)
    ensures var s := Exec(steps);
            && (forall i :: 0 <= i < |s.pubs| ==> s.pubs[i].ch in s.begun && s.begun[s.pubs[i].ch].reg == s.pubs[i].reg)
            && (forall i, j :: 0 <= i < j < |s.pubs| ==> s.pubs[i].reg != s.pubs[j].reg)
            && (forall k :: k in s.b.byKey ==> s.b.byKey[k].err != Some(ContextError))
  {
    RunInv(steps);
    var s := Exec(steps);
    assert forall k :: k in s.b.byKey ==> SlotOk(s, k, s.b.byKey[k]);
  }

  /** A finish whose load began in another registration of the key leaves the entry as it was. */
  lemma StaleFinishIsIgnored(steps: seq<Step>, c: CallId, res: LoadResult)
    requires Feasible(steps)
    requires var s := Exec(steps);
             c in s.calls && s.calls[c].Loading? && s.calls[c].k in s.b.byKey && s.b.byKey[s.calls[c].k].reg != s.calls[c].reg
    ensures Do(Exec(steps), FinishLoad(c, res)).b == Exec(steps).b
  {
    RunInv(steps);
    var s := Exec(steps);
    assert CallOk(s, s.calls[c]) && SlotOk(s, s.calls[c].k, s.b.byKey[s.calls[c].k]);
  }

  /** Within one registration a stored body or error stays as it is, however the run goes on. */
  lemma {:induction false} StoredOutcomeSticks(steps: seq<Step>, n: nat, k: Key)
    requires Feasible(steps) && n <= |steps| && Feasible(steps[..n])
    requires var s, s' := Exec(steps[..n]), Exec(steps);
             k in s.b.byKey && k in s'.b.byKey && s.b.byKey[k].reg == s'.b.byKey[k].reg
    ensures var slot, slot' := Exec(steps[..n]).b.byKey[k], Exec(steps).b.byKey[k];
            && (slot.body.Some? ==> slot'.body == slot.body && slot'.err.None?)
            && (slot.err.Some? ==> slot'.err == slot.err && slot'.body.None?)
  {
    RunInv(steps[..n]);
    RunInv(steps);
    RunAdvances(steps, n);
    assert SlotOk(Exec(steps[..n]), k, Exec(steps[..n]).b.byKey[k]);
    assert SlotOk(Exec(steps), k, Exec(steps).b.byKey[k]);
  }

  lemma {:induction false} RunAdvances(steps: seq<Step>, n: nat)
    requires Feasible(steps) && n <= |steps| && Feasible(steps[..n])
    ensures forall reg :: reg in Exec(steps[..n]).stored ==>
              reg in Exec(steps).stored && Exec(steps).stored[reg] == Exec(steps[..n]).stored[reg]
  {
    if n == |steps| {
      assert steps[..n] == steps;
    } else {
      var m := |steps| - 1;
      assert steps[..m][..n] == steps[..n];
      RunAdvances(steps[..m], n);
      RunInv(steps[..m]);
      StepAdvances(Exec(steps[..m]), steps[m]);
    }
  }

  // ----- When an answer is given -------------------------------------------------------------

  /** What EnsureBody comes to when it looks at the entry: it fails exactly when the key is not in the
      catalog, is served exactly what the registration holds if it holds anything, waits exactly for a
      load in flight, and loads itself exactly when there is nothing to serve and nobody to wait for. */
  lemma LookMeans(steps: seq<Step>, c: CallId)
    requires Feasible(steps) && Enabled(Exec(steps), LookAt(c))
    ensures var s := Exec(steps); var k := s.calls[c].k; var now := Do(s, LookAt(c)).calls[c];
            && (now == Returned(k, NotFound) <==> k !in s.b.byKey)
            && (k in s.b.byKey ==>
                  var slot := s.b.byKey[k];
                  && (slot.reg in s.stored <==> now == Returned(k, FromCache(slot.reg, HeldBy(s, slot.reg))))
                  && (slot.reg in s.stored <==> now.Returned?)
                  && (now.Waiting? <==> slot.wait.Some?) && (now.Waiting? ==> slot.wait == Some(now.ch))
                  && (now.Loading? <==> slot.body.None? && slot.err.None? && slot.wait.None?)
                  && (now.Loading? ==> now.k == k && now.reg == slot.reg && Current(Do(s, LookAt(c)).b, k, now.ch)))
  {
    RunInv(steps);
    var s := Exec(steps);
    if s.calls[c].k in s.b.byKey { assert SlotOk(s, s.calls[c].k, s.b.byKey[s.calls[c].k]); }
  }

  ghost function HeldBy(s: State, reg: nat): LoadResult { if reg in s.stored then s.stored[reg] else Err(ContextError) }

  /** The n-th step is call c looking for k. */
  ghost predicate LooksFor(steps: seq<Step>, c: CallId, k: Key, n: nat) {
    && n < |steps| && steps[n] == LookAt(c) && Feasible(steps[..n])
    && var s := Exec(steps[..n]); c in s.calls && s.calls[c].Entering? && s.calls[c].k == k
  }

  /** Whoever is told that a skill is not there looked when it was not. */
  lemma {:induction false} NotFoundWasAbsent(steps: seq<Step>, c: CallId)
    requires Feasible(steps) && c in Exec(steps).calls
    requires Exec(steps).calls[c].Returned? && Exec(steps).calls[c].answer == NotFound
    ensures exists n: nat :: LooksFor(steps, c, Exec(steps).calls[c].k, n) && Exec(steps).calls[c].k !in Exec(steps[..n]).b.byKey
    decreases |steps|
  {
    var m := |steps| - 1;
    var before := Exec(steps[..m]);
    var k := Exec(steps).calls[c].k;
    if c in before.calls && before.calls[c] == Exec(steps).calls[c] {
      NotFoundWasAbsent(steps[..m], c);
      var n: nat :| LooksFor(steps[..m], c, k, n) && k !in Exec(steps[..m][..n]).b.byKey;
      assert steps[..m][..n] == steps[..n];
      assert LooksFor(steps, c, k, n);
    } else {
      OnlyLooksMiss(before, steps[m], c);
      assert LooksFor(steps, c, k, m);
    }
  }

  lemma OnlyLooksMiss(s: State, step: Step, c: CallId)
    requires Enabled(s, step) && c in Do(s, step).calls && !(c in s.calls && s.calls[c] == Do(s, step).calls[c])
    requires Do(s, step).calls[c].Returned? && Do(s, step).calls[c].answer == NotFound
    ensures step == LookAt(c) && Do(s, step).calls[c].k == s.calls[c].k && s.calls[c].k !in s.b.byKey
  {}

  /** A registration whose provider sent a body holds it from the start, any other holds nothing yet. */
  lemma AddMeans(steps: seq<Step>, k: Key, skillBody: string)
    requires Feasible(steps) && Enabled(Exec(steps), AddSkill(k, skillBody))
    ensures var s := Do(Exec(steps), AddSkill(k, skillBody));
            && k in s.b.byKey && s.b.byKey[k].reg == Exec(steps).b.regs
            && (s.b.byKey[k].reg in s.stored <==> skillBody != "")
            && (skillBody != "" ==> s.stored[s.b.byKey[k].reg] == Body(skillBody))
  {
    RunInv(steps);
  }

  /** A load that finishes while its registration lasts leaves its result there, unless it was
      cancelled: then the next look loads again.  Its waiters are woken and it returns its result. */
  lemma FinishMeans(steps: seq<Step>, c: CallId, res: LoadResult)
    requires Feasible(steps) && Enabled(Exec(steps), FinishLoad(c, res))
    requires var s := Exec(steps); s.calls[c].k in s.b.byKey && s.b.byKey[s.calls[c].k].reg == s.calls[c].reg
    ensures var s, s' := Exec(steps), Do(Exec(steps), FinishLoad(c, res)); var Loading(k, ch, reg) := s.calls[c];
            && k in s'.b.byKey && s'.b.byKey[k].reg == reg && s'.b.byKey[k].wait.None? && ch in s'.b.closed
            && s'.calls[c] == Returned(k, FromLoad(reg, ch, res, res != Err(ContextError)))
            && (if res == Err(ContextError) then reg !in s'.stored && s'.b.byKey[k].body.None? && s'.b.byKey[k].err.None?
                else reg in s'.stored && s'.stored[reg] == res)
  {
    RunInv(steps);
    var s := Exec(steps);
    assert CallOk(s, s.calls[c]) && SlotOk(s, s.calls[c].k, s.b.byKey[s.calls[c].k]);
  }

  /** What a registration holds was sent with it or loaded for it. */
  ghost predicate CameFrom(steps: seq<Step>, reg: nat, res: LoadResult, n: nat) {
    && n < |steps| && Feasible(steps[..n])
    && var s := Exec(steps[..n]);
    match steps[n]
    case AddSkill(k, skillBody) => s.b.regs == reg && skillBody != "" && res == Body(skillBody)
    case FinishLoad(c, r) => c in s.calls && s.calls[c].Loading? && s.calls[c].reg == reg && r == res && res != Err(ContextError)
    case _ => false
  }

  lemma {:induction false} HeldCameFrom(steps: seq<Step>, reg: nat)
    requires Feasible(steps) && reg in Exec(steps).stored
    ensures exists n: nat :: CameFrom(steps, reg, Exec(steps).stored[reg], n)
    decreases |steps|
  {
    var m := |steps| - 1;
    var before := Exec(steps[..m]);
    if reg in before.stored {
      HeldCameFrom(steps[..m], reg);
      RunInv(steps[..m]);
      StepAdvances(before, steps[m]);
      var n: nat :| CameFrom(steps[..m], reg, before.stored[reg], n);
      assert steps[..m][..n] == steps[..n];
      assert CameFrom(steps, reg, Exec(steps).stored[reg], n);
    } else {
      RunInv(steps[..m]);
      NewlyHeld(before, steps[m], reg);
      assert CameFrom(steps, reg, Exec(steps).stored[reg], m);
    }
  }

  lemma NewlyHeld(s: State, step: Step, reg: nat)
    requires Inv(s) && Enabled(s, step) && reg !in s.stored && reg in Do(s, step).stored
    ensures (step.AddSkill? && s.b.regs == reg && step.skillBody != "" && Do(s, step).stored[reg] == Body(step.skillBody)) ||
            (step.FinishLoad? && s.calls[step.c].reg == reg && Do(s, step).stored[reg] == step.res != Err(ContextError))
  {
    if step.FinishLoad? {
      var Loading(k, ch, r) := s.calls[step.c];
      assert CallOk(s, s.calls[step.c]);
      if Current(s.b, k, ch) { assert SlotOk(s, k, s.b.byKey[k]); }
    }
  }

  ghost predicate AnswersFor(call: Call, reg: nat) {
    call.Returned? &&
    match call.answer
    case FromCache(r, _) => r == reg
    case FromLoad(r, _, _, published) => r == reg && published
    case _ => false
  }

  /** The load that published and everyone served from the entry return the same thing. */
  lemma EveryoneGetsTheSame(steps: seq<Step>, c: CallId, c': CallId, reg: nat)
    requires Feasible(steps)
    requires c in Exec(steps).calls && c' in Exec(steps).calls
    requires AnswersFor(Exec(steps).calls[c], reg) && AnswersFor(Exec(steps).calls[c'], reg)
    ensures Exec(steps).calls[c].answer.res == Exec(steps).calls[c'].answer.res
  {
    RunInv(steps);
    assert CallOk(Exec(steps), Exec(steps).calls[c]) && CallOk(Exec(steps), Exec(steps).calls[c']);
  }

  /** EnsureBody gives up only after waiting for five distinct loads, all over, each of the first
      four followed by a look at an entry that held neither body nor error and waited for the next. */
  lemma GivingUpTakesFiveLoads(steps: seq<Step>, c: CallId)
    requires Feasible(steps) && c in Exec(steps).calls
    requires Exec(steps).calls[c].Returned? && Exec(steps).calls[c].answer.GaveUp?
    ensures var s := Exec(steps); var GaveUp(waited, seen) := s.calls[c].answer;
            && |waited| == |seen| == 5 && NoDup(waited)
            && (forall i :: 0 <= i < 5 ==> waited[i] in s.b.closed)
            && (forall i :: 1 <= i < 5 ==> seen[i].body.None? && seen[i].err.None? && seen[i].wait == Some(waited[i]))
  {
    RunInv(steps);
    assert CallOk(Exec(steps), Exec(steps).calls[c]);
  }
}
