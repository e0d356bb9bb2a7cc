/** What a successful activation has checked: each requested key before the first round, and in the
    round that committed every key of the list it installed. */
module ActivationChecks {
  import opened SkillTypes
  import opened ActiveList
  import opened ActivationProtocol
  import opened ActivationProofs

  /** The n-th step is call c finding k in the catalog as an instruction skill. */
  ghost predicate ValidatesAt(steps: seq<Step>, c: CallId, k: Key, n: nat) {
    && n < |steps| && steps[n] == ValidateKey(c) && Feasible(steps[..n])
    && k in Exec(steps[..n]).catalog && Exec(steps[..n]).catalog[k] == Instructions
  }

  /** The n-th step is call c, in this round, loading the body of k. */
  ghost predicate EnsuresAt(steps: seq<Step>, c: CallId, round: nat, k: Key, n: nat) {
    && n < |steps| && steps[n] == EnsureBody(c, true) && Feasible(steps[..n])
    && var s := Exec(steps[..n]);
    c in s.calls && s.calls[c].Checking? && s.calls[c].round == round && AtPlace(s.calls[c].next, s.calls[c].ensured, k)
  }

  /** The n-th step is call c, in this round, finding k still in the catalog. */
  ghost predicate RechecksAt(steps: seq<Step>, c: CallId, round: nat, k: Key, n: nat) {
    && n < |steps| && steps[n] == Recheck(c) && Feasible(steps[..n])
    && var s := Exec(steps[..n]);
    && c in s.calls && s.calls[c].Checking? && s.calls[c].round == round && AtPlace(s.calls[c].next, s.calls[c].found, k)
    && k in s.catalog
  }

  ghost predicate AtPlace(order: seq<Key>, i: nat, k: Key) { i < |order| && order[i] == k }

  ghost predicate Validated(steps: seq<Step>, c: CallId, k: Key) { exists n: nat :: ValidatesAt(steps, c, k, n) }

  ghost predicate Ensured(steps: seq<Step>, c: CallId, round: nat, k: Key) { exists n: nat :: EnsuresAt(steps, c, round, k, n) }

  ghost predicate Rechecked(steps: seq<Step>, c: CallId, round: nat, k: Key) { exists n: nat :: RechecksAt(steps, c, round, k, n) }

  ghost predicate AllValidated(steps: seq<Step>, c: CallId, keys: seq<Key>) { forall k :: k in keys ==> Validated(steps, c, k) }

  /** What the call has checked so far. */
  ghost predicate ChecksBehind(steps: seq<Step>, c: CallId, call: Call) {
    match call
    case Validating(_, _, req) => AllValidated(steps, c, req)
    case Ready(_, req, _) => AllValidated(steps, c, req)
    case Checking(_, req, round, _, next, ensured, found) =>
      && AllValidated(steps, c, req) && ensured <= |next| && found <= |next|
      && (forall i :: 0 <= i < ensured ==> Ensured(steps, c, round, next[i]))
      && (forall i :: 0 <= i < found ==> Rechecked(steps, c, round, next[i]))
    case _ => true
  }

  lemma ValidatedLonger(steps: seq<Step>, longer: seq<Step>, c: CallId, k: Key)
    requires steps <= longer && Validated(steps, c, k)
    ensures Validated(longer, c, k)
  {
    var n: nat :| ValidatesAt(steps, c, k, n);
    assert longer[..n] == steps[..n];
    assert ValidatesAt(longer, c, k, n);
  }

  lemma EnsuredLonger(steps: seq<Step>, longer: seq<Step>, c: CallId, round: nat, k: Key)
    requires steps <= longer
    ensures Ensured(steps, c, round, k) ==> Ensured(longer, c, round, k)
    ensures Rechecked(steps, c, round, k) ==> Rechecked(longer, c, round, k)
  {
    if n: nat :| EnsuresAt(steps, c, round, k, n) {
      assert longer[..n] == steps[..n];
      assert EnsuresAt(longer, c, round, k, n);
    }
    if n: nat :| RechecksAt(steps, c, round, k, n) {
      assert longer[..n] == steps[..n];
      assert RechecksAt(longer, c, round, k, n);
    }
  }

  lemma ChecksLonger(steps: seq<Step>, longer: seq<Step>, c: CallId, call: Call)
    requires steps <= longer && ChecksBehind(steps, c, call)
    ensures ChecksBehind(longer, c, call)
  {
    if call.Validating? || call.Ready? || call.Checking? {
      forall k | k in call.req ensures Validated(longer, c, k) { ValidatedLonger(steps, longer, c, k); }
    }
    if call.Checking? {
      forall i | 0 <= i < |call.next|
        ensures Ensured(steps, c, call.round, call.next[i]) ==> Ensured(longer, c, call.round, call.next[i])
        ensures Rechecked(steps, c, call.round, call.next[i]) ==> Rechecked(longer, c, call.round, call.next[i])
      {
        EnsuredLonger(steps, longer, c, call.round, call.next[i]);
      }
    }
  }

  /** How a call moves on through its checks. */
  lemma CheckMoves(s: State, step: Step, c: CallId)
    requires Enabled(s, step) && c in Do(s, step).calls && !(c in s.calls && s.calls[c] == Do(s, step).calls[c])
    ensures var now := Do(s, step).calls[c];
            && (now.Validating? ==> now.req == [] || step == ValidateKey(c))
            && (now.Ready? ==> step == ValidateKey(c) || (step == TryCommit(c) && s.calls[c].Checking? && now.req == s.calls[c].req))
            && (now.Checking? ==>
                  || (step == TakeSnapshot(c) && s.calls[c].Ready? && now.req == s.calls[c].req && now.ensured == now.found == 0)
                  || (step == EnsureBody(c, true) && s.calls[c].Checking? && now == s.calls[c].(ensured := s.calls[c].ensured + 1))
                  || (step == Recheck(c) && s.calls[c].Checking? && now == s.calls[c].(found := s.calls[c].found + 1) &&
                      s.calls[c].next[s.calls[c].found] in s.catalog))
  {}

  lemma ValidationMoves(s: State, c: CallId)
    requires Enabled(s, ValidateKey(c))
    ensures var now, k := Do(s, ValidateKey(c)).calls[c], s.calls[c].r.keys[s.calls[c].at];
            now.Validating? || now.Ready? ==>
              now.req == s.calls[c].req || (now.req == s.calls[c].req + [k] && k in s.catalog && s.catalog[k] == Instructions)
  {}

  lemma {:induction false} CheckedSoFar(steps: seq<Step>, c: CallId)
    requires Feasible(steps) && c in Exec(steps).calls
    ensures ChecksBehind(steps, c, Exec(steps).calls[c])
    decreases |steps|
  {
    var m := |steps| - 1;
    var s, now := Exec(steps[..m]), Exec(steps).calls[c];
    if c in s.calls {
      CheckedSoFar(steps[..m], c);
      ChecksLonger(steps[..m], steps, c, s.calls[c]);
    }
    if !(c in s.calls && s.calls[c] == now) {
      CheckMoves(s, steps[m], c);
      if steps[m] == ValidateKey(c) {
        OneMoreValidated(steps, c);
      } else if steps[m] == EnsureBody(c, true) && now.Checking? {
        OneMoreEnsured(steps, c);
      } else if steps[m] == Recheck(c) && now.Checking? {
        OneMoreRechecked(steps, c);
      }
    }
  }

  lemma OneMoreValidated(steps: seq<Step>, c: CallId)
    requires steps != [] && Feasible(steps) && steps[|steps|-1] == ValidateKey(c)
    requires ChecksBehind(steps, c, Exec(steps[..|steps|-1]).calls[c])
    ensures ChecksBehind(steps, c, Exec(steps).calls[c])
  {
    var m := |steps| - 1;
    var s := Exec(steps[..m]);
    ValidationMoves(s, c);
    var k := s.calls[c].r.keys[s.calls[c].at];
    if k in s.catalog && s.catalog[k] == Instructions { assert ValidatesAt(steps, c, k, m); }
    assert Exec(steps).calls[c] == OnValidate(s.catalog, s.calls[c].r, s.calls[c].at, s.calls[c].req).call;
  }

  lemma OneMoreEnsured(steps: seq<Step>, c: CallId)
    requires steps != [] && Feasible(steps) && steps[|steps|-1] == EnsureBody(c, true)
    requires var was := Exec(steps[..|steps|-1]).calls[c];
             ChecksBehind(steps, c, was) && Exec(steps).calls[c] == was.(ensured := was.ensured + 1)
    ensures ChecksBehind(steps, c, Exec(steps).calls[c])
  {
    var m := |steps| - 1;
    var was := Exec(steps[..m]).calls[c];
    assert EnsuresAt(steps, c, was.round, was.next[was.ensured], m);
    StillBehind(steps, c, was);
  }

  lemma StillBehind(steps: seq<Step>, c: CallId, was: Call)
    requires was.Checking? && ChecksBehind(steps, c, was)
    ensures was.ensured < |was.next| && Ensured(steps, c, was.round, was.next[was.ensured]) ==>
              ChecksBehind(steps, c, was.(ensured := was.ensured + 1))
    ensures was.found < |was.next| && Rechecked(steps, c, was.round, was.next[was.found]) ==>
              ChecksBehind(steps, c, was.(found := was.found + 1))
  {}

  lemma OneMoreRechecked(steps: seq<Step>, c: CallId)
    requires steps != [] && Feasible(steps) && steps[|steps|-1] == Recheck(c)
    requires var s := Exec(steps[..|steps|-1]); var was := s.calls[c];
             && ChecksBehind(steps, c, was) && Exec(steps).calls[c] == was.(found := was.found + 1)
             && was.next[was.found] in s.catalog
    ensures ChecksBehind(steps, c, Exec(steps).calls[c])
  {
    var m := |steps| - 1;
    var was := Exec(steps[..m]).calls[c];
    assert RechecksAt(steps, c, was.round, was.next[was.found], m);
    StillBehind(steps, c, was);
  }

  /** The n-th step is call c committing as this entry the list it computed. */
  ghost predicate CommitsAt(steps: seq<Step>, c: CallId, r: Request, entry: nat, n: nat) {
    && n < |steps| && steps[n] == TryCommit(c) && Feasible(steps[..n])
    && var s := Exec(steps[..n]);
    && c in s.calls && s.calls[c].Checking? && s.calls[c].r == r
    && r.sid in s.sessions && |s.sessions[r.sid].log| == entry
    && s.calls[c].next == NextOrder(r.mode, s.sessions[r.sid].view.order, Dedup(r.keys))
  }

  ghost predicate HasCommitted(call: Call, r: Request, entry: nat) {
    || (call.Holding? && call.purpose == ForActivation(r, entry))
    || (call.Activated? && call.r == r && call.outcome.Handles? && call.outcome.entry == entry)
  }

  /** The commit behind a call that has one. */
  lemma {:induction false} CommittedBefore(steps: seq<Step>, c: CallId, r: Request, entry: nat) returns (n: nat)
    requires Feasible(steps) && c in Exec(steps).calls && HasCommitted(Exec(steps).calls[c], r, entry)
    ensures CommitsAt(steps, c, r, entry, n)
    ensures var call := Exec(steps[..n]).calls[c]; call.ensured == call.found == |call.next|
    decreases |steps|
  {
    var m := |steps| - 1;
    var s := Exec(steps[..m]);
    RunInv(steps[..m]);
    if c in s.calls && HasCommitted(s.calls[c], r, entry) {
      n := CommittedBefore(steps[..m], c, r, entry);
      CommitsLonger(steps[..m], steps, c, r, entry, n);
    } else {
      n := m;
      CommitHere(s, steps[m], c, r, entry);
    }
  }

  lemma CommitsLonger(steps: seq<Step>, longer: seq<Step>, c: CallId, r: Request, entry: nat, n: nat)
    requires steps <= longer && CommitsAt(steps, c, r, entry, n)
    ensures CommitsAt(longer, c, r, entry, n) && longer[..n] == steps[..n]
  {
    assert longer[..n] == steps[..n];
  }

  lemma CommitHere(s: State, step: Step, c: CallId, r: Request, entry: nat)
    requires Inv(s) && Enabled(s, step) && !(c in s.calls && HasCommitted(s.calls[c], r, entry))
    requires c in Do(s, step).calls && HasCommitted(Do(s, step).calls[c], r, entry)
    ensures step == TryCommit(c) && s.calls[c].r == r && |s.sessions[r.sid].log| == entry
    ensures s.calls[c].next == NextOrder(r.mode, s.sessions[r.sid].view.order, Dedup(r.keys))
  {
    OnlyCommits(s, step, c, r, entry);
    assert CallOk(s.sessions, c, s.calls[c]) && SessionOk(s.sessions[r.sid]);
    VersionMatchMeansUnchanged(s.sessions[r.sid], s.calls[c]);
  }

  lemma OnlyCommits(s: State, step: Step, c: CallId, r: Request, entry: nat)
    requires Enabled(s, step) && !(c in s.calls && HasCommitted(s.calls[c], r, entry))
    requires c in Do(s, step).calls && HasCommitted(Do(s, step).calls[c], r, entry)
    ensures step == TryCommit(c) && s.calls[c].r == r && |s.sessions[r.sid].log| == entry
    ensures s.sessions[r.sid].view.version == s.calls[c].snapshot.version
  {}

  /** A successful activation found each requested key in the catalog as an instruction skill; and in the
      round in which it committed it loaded the body of every key of the list it installed and
      found the key still in the catalog. */
  lemma SuccessWasChecked(steps: seq<Step>, c: CallId) returns (n: nat)
    requires Feasible(steps) && c in Exec(steps).calls
    requires Exec(steps).calls[c].Activated? && Exec(steps).calls[c].outcome.Handles?
    ensures var Activated(r, Handles(_, _, entry)) := Exec(steps).calls[c];
            && CommitsAt(steps, c, r, entry, n)
            && (forall k :: k in r.keys ==> Validated(steps, c, k))
            && (forall k :: k in Exec(steps[..n]).calls[c].next ==>
                  Ensured(steps, c, Exec(steps[..n]).calls[c].round, k) && Rechecked(steps, c, Exec(steps[..n]).calls[c].round, k))
  {
    var Activated(r, Handles(_, _, entry)) := Exec(steps).calls[c];
    n := CommittedBefore(steps, c, r, entry);
    var s := Exec(steps[..n]);
    CheckedSoFar(steps[..n], c);
    ChecksLonger(steps[..n], steps, c, s.calls[c]);
    RunInv(steps[..n]);
    assert CallOk(s.sessions, c, s.calls[c]);
    DedupCorrect(r.keys);
    assert forall k :: k in r.keys ==> k in s.calls[c].req;
  }
}
