/** What a call reports rests on its own catalog reads: those of `activeHandlesLocked` under the
    session's lock for activations and unloads, those of `ActiveKeys` outside it for listings. */
module ActivationReports {
  import opened SkillTypes
  import opened ActiveList
  import opened ActivationProtocol
  import opened ActivationProofs

  // ----- Reads -----------------------------------------------------------------------------

  /** A call that goes through a list and asks the catalog for each key: under the lock of the
      session it holds, or on a copy of the list. */
  datatype Reader = Locked(purpose: Purpose, held: SessionId) | Copied(sid: SessionId, order: seq<Key>)

  ghost predicate Reading(call: Call) { call.Holding? || call.Listing? }

  ghost function ReaderOf(call: Call): Reader
    requires Reading(call)
  {
    if call.Holding? then Locked(call.purpose, call.held) else Copied(call.sid, call.order)
  }

  /** The session's lock is the call's, and for an activation its commit is the newest log entry. */
  ghost predicate AtCommit(s: State, c: CallId, w: Reader)
    requires w.Locked?
  {
    && w.held in s.sessions && s.sessions[w.held].lock == Some(c)
    && (w.purpose.ForActivation? ==>
          w.purpose.r.sid == w.held && |s.sessions[w.held].log| == w.purpose.entry + 1)
  }

  ghost predicate AtKey(order: seq<Key>, at: nat, k: Key) { at < |order| && order[at] == k }

  /** The n-th step is call c, as this reader, asking the catalog for k. */
  ghost predicate AsksFor(steps: seq<Step>, c: CallId, w: Reader, k: Key, n: nat) {
    && n < |steps| && Feasible(steps[..n])
    && var s := Exec(steps[..n]);
    && c in s.calls && Reading(s.calls[c]) && ReaderOf(s.calls[c]) == w
    && match w
       case Locked(_, held) =>
         steps[n] == CheckHandle(c) && AtCommit(s, c, w) && AtKey(s.sessions[held].view.order, s.calls[c].at, k)
       case Copied(_, order) => steps[n] == ListKey(c) && AtKey(order, s.calls[c].at, k)
  }

  /** The catalog had k when it was asked for it. */
  ghost predicate ReadPresent(steps: seq<Step>, c: CallId, w: Reader, k: Key) {
    exists n: nat :: AsksFor(steps, c, w, k, n) && k in Exec(steps[..n]).catalog
  }

  ghost predicate ReadAbsent(steps: seq<Step>, c: CallId, w: Reader, k: Key) {
    exists n: nat :: AsksFor(steps, c, w, k, n) && k !in Exec(steps[..n]).catalog
  }

  ghost predicate ReadsBehind(steps: seq<Step>, c: CallId, w: Reader, kept: seq<Key>, missing: set<Key>) {
    && (forall k :: k in kept ==> ReadPresent(steps, c, w, k))
    && (forall k :: k in missing ==> ReadAbsent(steps, c, w, k))
  }

  lemma ReadsLonger(steps: seq<Step>, c: CallId, w: Reader, kept: seq<Key>, missing: set<Key>, longer: seq<Step>)
    requires ReadsBehind(steps, c, w, kept, missing) && steps <= longer
    ensures ReadsBehind(longer, c, w, kept, missing)
  {
    forall k | k in kept ensures ReadPresent(longer, c, w, k) {
      var n: nat :| AsksFor(steps, c, w, k, n) && k in Exec(steps[..n]).catalog;
      assert longer[..n] == steps[..n];
    }
    forall k | k in missing ensures ReadAbsent(longer, c, w, k) {
      var n: nat :| AsksFor(steps, c, w, k, n) && k !in Exec(steps[..n]).catalog;
      assert longer[..n] == steps[..n];
    }
  }

  /** What a call has read so far while it goes through its list. */
  lemma {:induction false} ReadsWhileReading(steps: seq<Step>, c: CallId)
    requires Feasible(steps) && c in Exec(steps).calls
    ensures var call := Exec(steps).calls[c];
            Reading(call) ==> ReadsBehind(steps, c, ReaderOf(call), call.kept, call.missing)
    decreases |steps|
  {
    var call := Exec(steps).calls[c];
    if Reading(call) {
      var m := |steps| - 1;
      var before := Exec(steps[..m]);
      if c in before.calls && Reading(before.calls[c]) {
        var was := before.calls[c];
        ReadsWhileReading(steps[..m], c);
        ReadsLonger(steps[..m], c, ReaderOf(was), was.kept, was.missing, steps);
        if was != call { OneMoreRead(steps, c); }
      } else {
        ReadingStarts(before, steps[m], c);
      }
    }
  }

  lemma ReadingStarts(s: State, step: Step, c: CallId)
    requires Enabled(s, step) && !(c in s.calls && Reading(s.calls[c]))
    requires c in Do(s, step).calls && Reading(Do(s, step).calls[c])
    ensures Do(s, step).calls[c].kept == [] && Do(s, step).calls[c].missing == {}
  {}

  lemma OneMoreRead(steps: seq<Step>, c: CallId)
    requires steps != [] && Feasible(steps)
    requires var s := Exec(steps[..|steps|-1]); c in s.calls && Reading(s.calls[c])
    requires var s := Exec(steps); c in s.calls && Reading(s.calls[c]) && s.calls[c] != Exec(steps[..|steps|-1]).calls[c]
    ensures var was, now := Exec(steps[..|steps|-1]).calls[c], Exec(steps).calls[c];
            && ReaderOf(now) == ReaderOf(was)
            && exists k :: (now.kept == was.kept + [k] && now.missing == was.missing &&
                              ReadPresent(steps, c, ReaderOf(now), k)) ||
                           (now.kept == was.kept && now.missing == was.missing + {k} &&
                              ReadAbsent(steps, c, ReaderOf(now), k))
  {
    var m := |steps| - 1;
    var s := Exec(steps[..m]);
    ReadingMoves(s, steps[m], c);
    var k := AskedNow(steps, c);
    if k in s.catalog {
      assert ReadPresent(steps, c, ReaderOf(s.calls[c]), k);
    } else {
      assert ReadAbsent(steps, c, ReaderOf(s.calls[c]), k);
    }
  }

  /** The call after it was told whether the catalog has k. */
  ghost predicate Told(was: Call, now: Call, k: Key, present: bool)
    requires Reading(was) && Reading(now)
  {
    && ReaderOf(now) == ReaderOf(was) && now.at == was.at + 1
    && now.kept == (if present then was.kept + [k] else was.kept)
    && now.missing == (if present then was.missing else was.missing + {k})
  }

  /** Only its own read moves a call that stays in its reading phase. */
  lemma ReadingMoves(s: State, step: Step, c: CallId)
    requires Enabled(s, step) && c in s.calls && Reading(s.calls[c])
    requires c in Do(s, step).calls && Reading(Do(s, step).calls[c]) && Do(s, step).calls[c] != s.calls[c]
    ensures step == if s.calls[c].Holding? then CheckHandle(c) else ListKey(c)
    ensures var was, now := s.calls[c], Do(s, step).calls[c];
            var order := if was.Holding? then s.sessions[was.held].view.order else was.order;
            was.at < |order| && Told(was, now, order[was.at], order[was.at] in s.catalog)
  {}

  lemma AskedNow(steps: seq<Step>, c: CallId) returns (k: Key)
    requires steps != [] && Feasible(steps)
    requires var s := Exec(steps[..|steps|-1]); c in s.calls && Reading(s.calls[c])
    requires var s := Exec(steps); c in s.calls && Reading(s.calls[c]) && s.calls[c] != Exec(steps[..|steps|-1]).calls[c]
    ensures var s := Exec(steps[..|steps|-1]);
            && AsksFor(steps, c, ReaderOf(s.calls[c]), k, |steps| - 1)
            && Told(s.calls[c], Exec(steps).calls[c], k, k in s.catalog)
  {
    var m := |steps| - 1;
    var s := Exec(steps[..m]);
    RunInv(steps[..m]);
    assert CallOk(s.sessions, c, s.calls[c]);
    ReadingMoves(s, steps[m], c);
    var call := s.calls[c];
    k := if call.Holding? then s.sessions[call.held].view.order[call.at] else call.order[call.at];
  }

  /** The two steps that end a reading phase. */
  lemma ReadingEnds(s: State, step: Step, c: CallId)
    requires Enabled(s, step) && c in Do(s, step).calls && !(c in s.calls && s.calls[c] == Do(s, step).calls[c])
    ensures var now := Do(s, step).calls[c];
            && ((now.Activated? && now.outcome.Handles?) || now.Unloaded? ==>
                  && step == Release(c) && c in s.calls && s.calls[c].Holding?
                  && now == match s.calls[c].purpose
                            case ForActivation(r, entry) => Activated(r, Handles(s.calls[c].kept, s.calls[c].missing, entry))
                            case ForUnload => Unloaded(s.calls[c].held, s.calls[c].kept))
            && (now.Listed? ==>
                  && step == ListPrune(c) && c in s.calls && s.calls[c].Listing?
                  && s.calls[c].at == |s.calls[c].order| && now == Listed(s.calls[c].kept))
  {}

  // ----- Activations -----------------------------------------------------------------------

  /** Every key an activation reports was in the catalog, and every key it dropped was not, when the
      call asked for it: after its commit, under the session's lock. */
  lemma {:induction false} HandlesWereRead(steps: seq<Step>, c: CallId)
    requires Feasible(steps) && c in Exec(steps).calls
    requires Exec(steps).calls[c].Activated? && Exec(steps).calls[c].outcome.Handles?
    ensures var Activated(r, Handles(kept, missing, entry)) := Exec(steps).calls[c];
            ReadsBehind(steps, c, Locked(ForActivation(r, entry), r.sid), kept, missing)
    decreases |steps|
  {
    var m := |steps| - 1;
    var before := Exec(steps[..m]);
    var Activated(r, Handles(kept, missing, entry)) := Exec(steps).calls[c];
    if c in before.calls && before.calls[c] == Exec(steps).calls[c] {
      HandlesWereRead(steps[..m], c);
    } else {
      ReadingEnds(before, steps[m], c);
      ReadsWhileReading(steps[..m], c);
      RunInv(steps[..m]);
      assert CallOk(before.sessions, c, before.calls[c]);
    }
    ReadsLonger(steps[..m], c, Locked(ForActivation(r, entry), r.sid), kept, missing, steps);
  }

  // ----- Unloads ---------------------------------------------------------------------------

  /** The n-th step is call c taking keys out of the session's list under its lock, which leaves
      this list. */
  ghost predicate Unloads(steps: seq<Step>, c: CallId, sid: SessionId, list: seq<Key>, n: nat) {
    && n < |steps| && steps[n] == ApplyUnload(c) && Feasible(steps[..n])
    && var s := Exec(steps[..n]);
    && c in s.calls && s.calls[c].Unloading? && s.calls[c].sid == sid && Unlocked(s, sid)
    && var se := s.sessions[sid];
    list == Without(se.view.order, if s.calls[c].what.None? then se.view.active else s.calls[c].what.value)
  }

  ghost predicate HoldsForUnload(s: State, c: CallId) {
    c in s.calls && s.calls[c].Holding? && s.calls[c].purpose.ForUnload? && s.calls[c].held in s.sessions
  }

  /** Nobody else changes the list while a call holds the lock. */
  lemma LockedListStays(s: State, step: Step, c: CallId)
    requires Inv(s) && Enabled(s, step) && HoldsForUnload(s, c)
    requires HoldsForUnload(Do(s, step), c)
    ensures Do(s, step).calls[c].held == s.calls[c].held
    ensures Do(s, step).sessions[s.calls[c].held].view == s.sessions[s.calls[c].held].view
  {
    assert CallOk(s.sessions, c, s.calls[c]);
    if Global(step) {
      GlobalLeavesLists(s, step, s.calls[c].held);
    } else {
      LocalStepOk(s, step);
      if step.c == c {
        OnlyReads(s, step, c);
      } else {
        OthersStayOut(s, step.c, EffectOf(s, step), c);
      }
    }
  }

  lemma OthersStayOut(s: State, actor: CallId, e: Effect, c: CallId)
    requires EffectOk(s, actor, e) && actor != c && HoldsForUnload(s, c) && s.sessions[s.calls[c].held].lock == Some(c)
    ensures var s' := Install(s, actor, e); c in s'.calls && s'.calls[c] == s.calls[c]
    ensures Install(s, actor, e).sessions[s.calls[c].held] == s.sessions[s.calls[c].held]
  {}

  lemma GlobalLeavesLists(s: State, step: Step, sid: SessionId)
    requires Enabled(s, step) && Global(step) && sid in s.sessions
    ensures sid in Do(s, step).sessions && Do(s, step).sessions[sid].view == s.sessions[sid].view
    ensures forall c :: c in s.calls ==> c in Do(s, step).calls && Do(s, step).calls[c] == s.calls[c]
  {}

  lemma OnlyReads(s: State, step: Step, c: CallId)
    requires Enabled(s, step) && !Global(step) && step.c == c
    requires HoldsForUnload(s, c) && HoldsForUnload(Do(s, step), c)
    ensures Do(s, step).sessions == s.sessions && Do(s, step).calls[c].held == s.calls[c].held
  {}

  lemma {:induction false} UnloadingSince(steps: seq<Step>, c: CallId) returns (n: nat)
    requires Feasible(steps) && HoldsForUnload(Exec(steps), c)
    ensures var s := Exec(steps); Unloads(steps, c, s.calls[c].held, s.sessions[s.calls[c].held].view.order, n)
    decreases |steps|
  {
    n := |steps| - 1;
    var before := Exec(steps[..n]);
    if HoldsForUnload(before, c) {
      RunInv(steps[..n]);
      LockedListStays(before, steps[n], c);
      var m := UnloadingSince(steps[..n], c);
      assert steps[..n][..m] == steps[..m];
      n := m;
    } else {
      RunInv(steps[..n]);
      assert c in before.calls ==> CallOk(before.sessions, c, before.calls[c]);
      if c in before.calls && before.calls[c].Holding? { HoldingStays(before, steps[n], c); }
      UnloadStarts(before, steps[n], c);
    }
  }

  lemma HoldingStays(s: State, step: Step, c: CallId)
    requires Enabled(s, step) && c in s.calls && s.calls[c].Holding? && c in Do(s, step).calls && Do(s, step).calls[c].Holding?
    ensures Do(s, step).calls[c].purpose == s.calls[c].purpose
  {}

  lemma UnloadStarts(s: State, step: Step, c: CallId)
    requires Enabled(s, step) && !(c in s.calls && s.calls[c].Holding?)
    requires HoldsForUnload(Do(s, step), c)
    ensures step == ApplyUnload(c)
    ensures Do(s, step).calls[c].held == s.calls[c].sid
  {}

  /** An unload reports the list it leaves, without the keys it read as missing; each reported key
      was in the catalog when the call asked for it, under the lock under which it unloaded. */
  lemma {:induction false} UnloadWasRead(steps: seq<Step>, c: CallId)
    returns (list: seq<Key>, missing: set<Key>, n: nat)
    requires Feasible(steps) && c in Exec(steps).calls && Exec(steps).calls[c].Unloaded?
    ensures var Unloaded(sid, kept) := Exec(steps).calls[c];
            && Unloads(steps, c, sid, list, n)
            && missing <= Elems(list) && kept == Without(list, missing)
            && ReadsBehind(steps, c, Locked(ForUnload, sid), kept, missing)
    decreases |steps|
  {
    var m := |steps| - 1;
    var before := Exec(steps[..m]);
    var Unloaded(sid, kept) := Exec(steps).calls[c];
    if c in before.calls && before.calls[c] == Exec(steps).calls[c] {
      list, missing, n := UnloadWasRead(steps[..m], c);
    } else {
      ReadingEnds(before, steps[m], c);
      list, missing, n := UnloadSoFar(steps[..m], c);
    }
    assert steps[..m][..n] == steps[..n];
    ReadsLonger(steps[..m], c, Locked(ForUnload, sid), kept, missing, steps);
  }

  lemma UnloadSoFar(steps: seq<Step>, c: CallId) returns (list: seq<Key>, missing: set<Key>, n: nat)
    requires Feasible(steps) && Enabled(Exec(steps), Release(c)) && Exec(steps).calls[c].purpose.ForUnload?
    ensures var call := Exec(steps).calls[c];
            && Unloads(steps, c, call.held, list, n)
            && missing == call.missing <= Elems(list) && call.kept == Without(list, missing)
            && ReadsBehind(steps, c, Locked(ForUnload, call.held), call.kept, missing)
  {
    RunInv(steps);
    ReadsWhileReading(steps, c);
    list, missing := ReleasedList(Exec(steps), c);
    n := UnloadingSince(steps, c);
  }

  lemma ReleasedList(s: State, c: CallId) returns (list: seq<Key>, missing: set<Key>)
    requires Inv(s) && Enabled(s, Release(c)) && s.calls[c].purpose.ForUnload?
    ensures var call := s.calls[c];
            && HoldsForUnload(s, c) && list == s.sessions[call.held].view.order && missing == call.missing
            && missing <= Elems(list) && call.kept == Without(list, missing)
  {
    var call := s.calls[c];
    assert CallOk(s.sessions, c, call);
    list, missing := s.sessions[call.held].view.order, call.missing;
    assert list[..call.at] == list;
  }

  // ----- Listings --------------------------------------------------------------------------

  /** The n-th step is call c copying the session's list. */
  ghost predicate Copies(steps: seq<Step>, c: CallId, sid: SessionId, order: seq<Key>, n: nat) {
    && n < |steps| && steps[n] == CopyOrder(c) && Feasible(steps[..n])
    && var s := Exec(steps[..n]);
    c in s.calls && s.calls[c] == Asking(sid) && Unlocked(s, sid) && order == s.sessions[sid].view.order
  }

  /** What has been examined is split into kept and missing. */
  ghost predicate Halfway(call: Call)
    requires call.Listing?
  {
    && NoDup(call.order) && call.at <= |call.order|
    && call.missing <= Elems(call.order[..call.at])
    && call.kept == Without(call.order[..call.at], call.missing)
  }

  lemma {:induction false} ListingSince(steps: seq<Step>, c: CallId) returns (n: nat)
    requires Feasible(steps) && c in Exec(steps).calls && Exec(steps).calls[c].Listing?
    ensures var call := Exec(steps).calls[c]; Halfway(call) && Copies(steps, c, call.sid, call.order, n)
    decreases |steps|
  {
    var m := |steps| - 1;
    var before := Exec(steps[..m]);
    if c in before.calls && before.calls[c].Listing? {
      n := ListingSince(steps[..m], c);
      assert steps[..m][..n] == steps[..n];
      HalfwayMoves(before, steps[m], c);
    } else {
      n := m;
      RunInv(steps[..m]);
      ListingStarts(before, steps[m], c);
      assert SessionOk(before.sessions[before.calls[c].sid]);
    }
  }

  lemma HalfwayMoves(s: State, step: Step, c: CallId)
    requires Enabled(s, step) && c in s.calls && s.calls[c].Listing? && Halfway(s.calls[c])
    requires c in Do(s, step).calls && Do(s, step).calls[c].Listing?
    ensures var was, now := s.calls[c], Do(s, step).calls[c]; Halfway(now) && now.sid == was.sid && now.order == was.order
  {
    var was, now := s.calls[c], Do(s, step).calls[c];
    if was != now {
      ReadingMoves(s, step, c);
      HalfwayTold(was, now, was.order[was.at] in s.catalog);
    }
  }

  lemma HalfwayTold(was: Call, now: Call, present: bool)
    requires was.Listing? && Halfway(was) && was.at < |was.order|
    requires now.Listing? && Told(was, now, was.order[was.at], present)
    ensures Halfway(now)
  {
    KeptStep(was.order, was.at, was.kept, was.missing);
  }

  lemma ListingStarts(s: State, step: Step, c: CallId)
    requires Enabled(s, step) && !(c in s.calls && s.calls[c].Listing?)
    requires c in Do(s, step).calls && Do(s, step).calls[c].Listing?
    ensures var now := Do(s, step).calls[c];
            && step == CopyOrder(c) && s.calls[c] == Asking(now.sid)
            && Unlocked(s, now.sid) && now == Listing(now.sid, s.sessions[now.sid].view.order, 0, [], {})
  {}

  /** A listing reports a list the session had while the call ran, without the keys it read as
      missing; each reported key was in the catalog when the call asked for it. */
  lemma {:induction false} ListingWasRead(steps: seq<Step>, c: CallId)
    returns (sid: SessionId, order: seq<Key>, missing: set<Key>, n: nat)
    requires Feasible(steps) && c in Exec(steps).calls && Exec(steps).calls[c].Listed?
    ensures var kept := Exec(steps).calls[c].kept;
            && Copies(steps, c, sid, order, n)
            && missing <= Elems(order) && kept == Without(order, missing)
            && ReadsBehind(steps, c, Copied(sid, order), kept, missing)
    decreases |steps|
  {
    var m := |steps| - 1;
    var before := Exec(steps[..m]);
    var kept := Exec(steps).calls[c].kept;
    if c in before.calls && before.calls[c] == Exec(steps).calls[c] {
      sid, order, missing, n := ListingWasRead(steps[..m], c);
    } else {
      ReadingEnds(before, steps[m], c);
      ReadsWhileReading(steps[..m], c);
      n := ListingSince(steps[..m], c);
      var call := before.calls[c];
      sid, order, missing := call.sid, call.order, call.missing;
      assert order[..call.at] == order;
    }
    assert steps[..m][..n] == steps[..n];
    ReadsLonger(steps[..m], c, Copied(sid, order), kept, missing, steps);
  }

  /** With its last step a listing takes what it found missing out of the list of an open session, and
      leaves a closed one alone. */
  lemma ListingPrunes(steps: seq<Step>, c: CallId)
    requires Feasible(steps) && Enabled(Exec(steps), ListPrune(c))
    ensures var s := Exec(steps); var sid, missing := s.calls[c].sid, s.calls[c].missing;
            var was, now := s.sessions[sid], Do(s, ListPrune(c)).sessions[sid];
            && now.view.active == (if was.closed then was.view.active else was.view.active - missing)
            && now.view.order == (if was.closed then was.view.order else Without(was.view.order, missing))
  {
    RunInv(steps);
    var s := Exec(steps);
    var se := s.sessions[s.calls[c].sid];
    assert SessionOk(se);
    DropKeepsRep(se.view, s.calls[c].missing, se.maxActive);
  }
}
