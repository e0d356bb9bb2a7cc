/** A session of internal/session/session.go and tools_impl.go.  Every method below is one critical
    section under the session mutex; its effect on (activeOrder, activeSet, stateVersion) is the
    pure function of `ActiveList` that the interleaved system uses for the same section. */
module Sessions {
  import opened SkillTypes
  import opened ActiveList

  /** The i-th key is mentioned for the first time and cannot be activated. */
  predicate Offends(keys: seq<Key>, known: seq<bool>, instructs: seq<bool>, i: int)
    requires |known| == |instructs| == |keys|
  {
    0 <= i < |keys| && keys[i] !in keys[..i] && !(known[i] && instructs[i])
  }

  /** It is the first such key. */
  predicate FirstOffence(keys: seq<Key>, known: seq<bool>, instructs: seq<bool>, i: int)
    requires |known| == |instructs| == |keys|
  {
    Offends(keys, known, instructs, i) && forall j :: 0 <= j < i ==> !Offends(keys, known, instructs, j)
  }

  lemma DedupNext(keys: seq<Key>, i: nat)
    requires i < |keys|
    ensures keys[i] in Dedup(keys[..i]) <==> keys[i] in keys[..i]
    ensures Dedup(keys[..i+1]) == if keys[i] in Dedup(keys[..i]) then Dedup(keys[..i]) else Dedup(keys[..i]) + [keys[i]]
  {
    DedupCorrect(keys[..i]);
    assert keys[..i+1][..i] == keys[..i];
  }

  /** The validation loop of ActivateKeys: first occurrences, in order.  `known` is the catalog's
      answer for each position, `instructs` whether it found insert=instructions.  The first key
      that cannot be activated decides the error. */
  method ValidateKeys(keys: seq<Key>, known: seq<bool>, instructs: seq<bool>)
    returns (req: seq<Key>, error: Option<ActivateError>)
    requires |known| == |instructs| == |keys|
    ensures error.None? ==> req == Dedup(keys) && NoDup(req)
    ensures error.None? <==> forall i :: 0 <= i < |keys| ==> !Offends(keys, known, instructs, i)
    ensures error.Some? ==> exists i :: FirstOffence(keys, known, instructs, i) && error == Some(if known[i] then InvalidArgument else SkillNotFound)
  {
    req := [];
    for i := 0 to |keys|
      invariant req == Dedup(keys[..i])
      invariant forall j :: 0 <= j < i ==> !Offends(keys, known, instructs, j)
    {
      DedupNext(keys, i);
      if keys[i] in req { continue; }
      if !known[i] || !instructs[i] { assert FirstOffence(keys, known, instructs, i); }
      if !known[i] { return req, Some(SkillNotFound); }
      if !instructs[i] { return req, Some(InvalidArgument); }
      req := req + [keys[i]];
    }
    assert keys[..|keys|] == keys;
    DedupCorrect(keys);
    error := None;
  }

  /** The next list, computed from a snapshot without the lock. */
  method ComputeNext(mode: LoadMode, currentOrder: seq<Key>, currentSet: set<Key>, req: seq<Key>)
    returns (nextOrder: seq<Key>, nextSet: set<Key>)
    requires Elems(currentOrder) == currentSet
    ensures nextOrder == NextOrder(mode, currentOrder, req) && nextSet == Elems(nextOrder)
  {
    nextOrder, nextSet := [], {};
    if mode == Add {
      var reqSet: set<Key> := {};
      for i := 0 to |req|
        invariant reqSet == Elems(req[..i])
      {
        reqSet := reqSet + {req[i]};
      }
      assert req[..|req|] == req;
      for i := 0 to |currentOrder|
        invariant nextOrder == Without(currentOrder[..i], Elems(req)) && nextSet == Elems(nextOrder)
      {
        WithoutStep(currentOrder, i, Elems(req));
        var k := currentOrder[i];
        if k in reqSet { continue; }
        if k !in currentSet { continue; }
        nextSet := nextSet + {k};
        nextOrder := nextOrder + [k];
      }
      assert currentOrder[..|currentOrder|] == currentOrder;
    }
    ghost var kept := nextOrder;
    for i := 0 to |req|
      invariant nextOrder == kept + req[..i] && nextSet == Elems(nextOrder)
    {
      nextSet := nextSet + {req[i]};
      nextOrder := nextOrder + [req[i]];
    }
    assert req[..|req|] == req;
  }

  /** The keys among the first n for which the catalog had no answer. */
  function Absent(order: seq<Key>, present: seq<bool>, n: nat): set<Key>
    requires n <= |order| == |present|
  {
    set i | 0 <= i < n && !present[i] :: order[i]
  }

  lemma AbsentStep(order: seq<Key>, present: seq<bool>, n: nat)
    requires n < |order| == |present|
    ensures Absent(order, present, n + 1) == Absent(order, present, n) + (if present[n] then {} else {order[n]})
    ensures Absent(order, present, n) <= Elems(order[..n])
  {
    forall x | x in Absent(order, present, n) ensures x in Elems(order[..n]) {
      var i :| 0 <= i < n && !present[i] && order[i] == x;
      assert order[..n][i] == x;
    }
    if !present[n] { assert order[n] in Absent(order, present, n + 1); }
  }

  /** Each key of the list is kept or dropped as the catalog answered for it. */
  lemma PresentOnes(order: seq<Key>, present: seq<bool>)
    requires NoDup(order) && |present| == |order|
    ensures var out := Without(order, Absent(order, present, |order|));
            && (forall i :: 0 <= i < |order| ==> (order[i] in out <==> present[i]))
            && (forall k :: k in out ==> k in order)
  {
    WithoutMembers(order, Absent(order, present, |order|));
    forall i | 0 <= i < |order| ensures order[i] in Absent(order, present, |order|) <==> !present[i] {}
  }

  // ----- Interference ----------------------------------------------------------------------

  /** What other goroutines may do to a session between two critical sections of a call. */
  datatype Other =
    | Prunes(keys: seq<Key>)
    | Unloads(rm: set<Key>)
    | UnloadsAll
    | Activates(mode: LoadMode, keys: seq<Key>)
    | Closes

  datatype Status = Status(view: View, closed: bool)

  function AfterOne(s: Status, maxActive: int, o: Other): Status {
    match o
    case Prunes(keys) => if s.closed then s else s.(view := Prune(s.view, Elems(keys)))
    case Unloads(rm) => s.(view := Drop(s.view, rm))
    case UnloadsAll => s.(view := Drop(s.view, s.view.active))
    case Activates(mode, keys) =>
      var next := NextOrder(mode, s.view.order, Dedup(keys));
      if s.closed || (maxActive > 0 && |next| > maxActive) then s else s.(view := Commit(s.view, next))
    case Closes => s.(closed := true)
  }

  function After(s: Status, maxActive: int, ops: seq<Other>): Status {
    if ops == [] then s else AfterOne(After(s, maxActive, ops[..|ops|-1]), maxActive, ops[|ops|-1])
  }

  lemma {:induction false} AfterConcat(s: Status, maxActive: int, a: seq<Other>, b: seq<Other>)
    ensures After(s, maxActive, a + b) == After(After(s, maxActive, a), maxActive, b)
  {
    if b == [] {
      assert a + b == a;
    } else {
      AfterConcat(s, maxActive, a, b[..|b|-1]);
      assert (a + b)[..|a+b|-1] == a + b[..|b|-1];
    }
  }

  /** Every write moves the version, so an unmoved version means an unmoved list. */
  lemma {:induction false} VersionTells(s: Status, maxActive: int, ops: seq<Other>)
    ensures After(s, maxActive, ops).view.version >= s.view.version
    ensures After(s, maxActive, ops).view.version == s.view.version ==> After(s, maxActive, ops).view == s.view
  {
    if ops != [] { VersionTells(s, maxActive, ops[..|ops|-1]); }
  }

  /** What a call meets in one round: others before the snapshot and before the commit, and the
      catalog's answers. */
  datatype Round = Round(before: seq<Other>, during: seq<Other>, bodiesOk: bool, stillThere: bool, present: nat -> bool)

  datatype RoundResult = Again | Stop(error: ActivateError) | Done(handles: seq<Key>)

  // ----- What a call comes to --------------------------------------------------------------

  function Answers(here: nat -> bool, n: nat): (present: seq<bool>)
    ensures |present| == n && forall i :: 0 <= i < n ==> present[i] == here(i)
  {
    seq(n, i requires 0 <= i < n => here(i))
  }

  /** The keys of a list the catalog does not have when asked for the i-th. */
  function MissingFrom(order: seq<Key>, here: nat -> bool): set<Key> {
    Absent(order, Answers(here, |order|), |order|)
  }

  /** A successful activation of req on the state it finds: the mode is applied to the whole list
      at once, then the missing keys are dropped. */
  function Installed(found: Status, mode: LoadMode, req: seq<Key>, missing: set<Key>): Status {
    var installed := Commit(found.view, NextOrder(mode, found.view.order, req));
    found.(view := if missing == {} then installed else Drop(installed, missing))
  }

  /** How rounds end.  `others` is everything that ran before the end, in order. */
  datatype End =
    | Overtaken(others: seq<Other>)
    | Stopped(others: seq<Other>, error: ActivateError)
    | Succeeded(others: seq<Other>, missing: set<Key>)

  /** What stops a round, if anything does; the checks before the I/O see only what ran before them. */
  function OneRound(s: Status, maxActive: int, mode: LoadMode, req: seq<Key>, round: Round): End {
    var found := After(s, maxActive, round.before);
    var reached := After(found, maxActive, round.during);
    var all := round.before + round.during;
    if found.closed then Stopped(round.before, SessionNotFound)
    else if maxActive > 0 && |NextOrder(mode, found.view.order, req)| > maxActive then Stopped(round.before, InvalidArgument)
    else if !round.bodiesOk then Stopped(all, BodyFailed)
    else if !round.stillThere then Stopped(all, SkillNotFound)
    else if reached.closed then Stopped(all, SessionNotFound)
    else if reached.view.version != found.view.version then Overtaken(all)
    else Succeeded(all, MissingFrom(NextOrder(mode, reached.view.order, req), round.present))
  }

  function Then(others: seq<Other>, end: End): End {
    match end
    case Overtaken(more) => Overtaken(others + more)
    case Stopped(more, e) => Stopped(others + more, e)
    case Succeeded(more, missing) => Succeeded(others + more, missing)
  }

  /** Rounds go on for as long as each is overtaken. */
  function Rounds(s: Status, maxActive: int, mode: LoadMode, req: seq<Key>, world: seq<Round>, others: seq<Other>): End {
    if world == [] then Overtaken(others)
    else
      var end := Then(others, OneRound(After(s, maxActive, others), maxActive, mode, req, world[0]));
      if end.Overtaken? then Rounds(s, maxActive, mode, req, world[1..], end.others) else end
  }

  /** Everything others do during the first n rounds. */
  function AllOps(world: seq<Round>, n: nat): seq<Other>
    requires n <= |world|
  {
    if n == 0 then [] else AllOps(world, n - 1) + (world[n-1].before + world[n-1].during)
  }

  /** The end of the n-th round, had all the earlier ones been overtaken. */
  function RoundEnd(s: Status, maxActive: int, mode: LoadMode, req: seq<Key>, world: seq<Round>, n: nat): End
    requires n < |world|
  {
    OneRound(After(s, maxActive, AllOps(world, n)), maxActive, mode, req, world[n])
  }

  ghost predicate OvertakenUntil(s: Status, maxActive: int, mode: LoadMode, req: seq<Key>, world: seq<Round>, n: nat)
    requires n <= |world|
  {
    forall i :: 0 <= i < n ==> RoundEnd(s, maxActive, mode, req, world, i).Overtaken?
  }

  ghost predicate EndsAt(s: Status, maxActive: int, mode: LoadMode, req: seq<Key>, world: seq<Round>, n: nat, end: End)
    requires n < |world|
  {
    OvertakenUntil(s, maxActive, mode, req, world, n) &&
    end == Then(AllOps(world, n), RoundEnd(s, maxActive, mode, req, world, n))
  }

  /** The first round that is not overtaken decides; if there is none the call is overtaken. */
  lemma {:induction false} RoundsEnd(s: Status, maxActive: int, mode: LoadMode, req: seq<Key>, world: seq<Round>, n: nat)
    requires n <= |world| && OvertakenUntil(s, maxActive, mode, req, world, n)
    ensures var end := Rounds(s, maxActive, mode, req, world[n..], AllOps(world, n));
      && (end.Overtaken? <==> OvertakenUntil(s, maxActive, mode, req, world, |world|))
      && (end.Overtaken? ==> end.others == AllOps(world, |world|))
      && (!end.Overtaken? ==> exists i :: n <= i < |world| && EndsAt(s, maxActive, mode, req, world, i, end))
    decreases |world| - n
  {
    if n < |world| {
      assert world[n..][0] == world[n] && world[n..][1..] == world[n+1..];
      if RoundEnd(s, maxActive, mode, req, world, n).Overtaken? {
        RoundsEnd(s, maxActive, mode, req, world, n + 1);
      } else {
        assert EndsAt(s, maxActive, mode, req, world, n, Then(AllOps(world, n), RoundEnd(s, maxActive, mode, req, world, n)));
      }
    }
  }

  /** A round leads to success exactly when the session is open, the list fits, the I/O succeeds,
      the keys are still there, and nothing is written between snapshot and commit. */
  predicate Undisturbed(s: Status, maxActive: int, mode: LoadMode, req: seq<Key>, round: Round) {
    var found := After(s, maxActive, round.before);
    var reached := After(found, maxActive, round.during);
    && (maxActive <= 0 || |NextOrder(mode, found.view.order, req)| <= maxActive)
    && round.bodiesOk && round.stillThere && !found.closed && !reached.closed && reached.view == found.view
  }

  /** The call succeeds exactly when its first round that is not overtaken is undisturbed; it then
      acts on the list as everything others did until then has left it. */
  lemma SucceedsIff(s: Status, maxActive: int, mode: LoadMode, req: seq<Key>, world: seq<Round>)
    ensures Rounds(s, maxActive, mode, req, world, []).Succeeded? <==>
            exists n :: 0 <= n < |world| && OvertakenUntil(s, maxActive, mode, req, world, n) &&
                        Undisturbed(After(s, maxActive, AllOps(world, n)), maxActive, mode, req, world[n])
  {
    RoundsEnd(s, maxActive, mode, req, world, 0);
    assert world[0..] == world;
    var end := Rounds(s, maxActive, mode, req, world, []);
    if end.Succeeded? {
      var i :| 0 <= i < |world| && EndsAt(s, maxActive, mode, req, world, i, end);
      RoundSucceedsIff(After(s, maxActive, AllOps(world, i)), maxActive, mode, req, world[i]);
    }
    forall n | 0 <= n < |world| && OvertakenUntil(s, maxActive, mode, req, world, n) &&
               Undisturbed(After(s, maxActive, AllOps(world, n)), maxActive, mode, req, world[n])
      ensures end.Succeeded?
    {
      RoundSucceedsIff(After(s, maxActive, AllOps(world, n)), maxActive, mode, req, world[n]);
      FirstRoundDecides(s, maxActive, mode, req, world, n);
    }
  }

  lemma RoundSucceedsIff(s: Status, maxActive: int, mode: LoadMode, req: seq<Key>, round: Round)
    ensures OneRound(s, maxActive, mode, req, round).Succeeded? <==> Undisturbed(s, maxActive, mode, req, round)
  {
    VersionTells(After(s, maxActive, round.before), maxActive, round.during);
  }

  lemma {:induction false} SkipOvertaken(s: Status, maxActive: int, mode: LoadMode, req: seq<Key>, world: seq<Round>, n: nat)
    requires n <= |world| && OvertakenUntil(s, maxActive, mode, req, world, n)
    ensures Rounds(s, maxActive, mode, req, world, []) == Rounds(s, maxActive, mode, req, world[n..], AllOps(world, n))
  {
    if n == 0 {
      assert world[0..] == world;
    } else {
      SkipOvertaken(s, maxActive, mode, req, world, n - 1);
      assert RoundEnd(s, maxActive, mode, req, world, n - 1).Overtaken?;
      TailFrom(world, n);
      RoundsStep(s, maxActive, mode, req, world[n-1..], world[n..], AllOps(world, n - 1));
    }
  }

  lemma RoundsStep(s: Status, maxActive: int, mode: LoadMode, req: seq<Key>, world: seq<Round>, rest: seq<Round>, others: seq<Other>)
    requires world != [] && world[1..] == rest
    requires OneRound(After(s, maxActive, others), maxActive, mode, req, world[0]).Overtaken?
    ensures Rounds(s, maxActive, mode, req, world, others) ==
            Rounds(s, maxActive, mode, req, rest, others + (world[0].before + world[0].during))
  {}

  lemma TailFrom(world: seq<Round>, n: nat)
    requires 0 < n <= |world|
    ensures world[n-1..] == [world[n-1]] + world[n..]
    ensures world[n-1..][0] == world[n-1] && world[n-1..][1..] == world[n..]
  {}

  lemma FirstRoundDecides(s: Status, maxActive: int, mode: LoadMode, req: seq<Key>, world: seq<Round>, n: nat)
    requires n < |world| && OvertakenUntil(s, maxActive, mode, req, world, n)
    requires !RoundEnd(s, maxActive, mode, req, world, n).Overtaken?
    ensures Rounds(s, maxActive, mode, req, world, []) == Then(AllOps(world, n), RoundEnd(s, maxActive, mode, req, world, n))
  {
    SkipOvertaken(s, maxActive, mode, req, world, n);
    assert world[n..][0] == world[n];
  }

  lemma RoundMovesVersion(s: Status, maxActive: int, mode: LoadMode, req: seq<Key>, round: Round)
    ensures OneRound(s, maxActive, mode, req, round).Overtaken? ==>
      After(s, maxActive, round.before + round.during).view.version > s.view.version
  {
    VersionTells(s, maxActive, round.before);
    VersionTells(After(s, maxActive, round.before), maxActive, round.during);
    AfterConcat(s, maxActive, round.before, round.during);
  }

  /** The version at the end is at least one higher for every overtaken round. */
  lemma {:induction false} OvertakingMovesVersion(s: Status, maxActive: int, mode: LoadMode, req: seq<Key>, world: seq<Round>, n: nat)
    requires n <= |world| && OvertakenUntil(s, maxActive, mode, req, world, n)
    ensures After(s, maxActive, AllOps(world, n)).view.version >= s.view.version + n
  {
    if n > 0 {
      OvertakingMovesVersion(s, maxActive, mode, req, world, n - 1);
      var earlier, round := AllOps(world, n - 1), world[n-1];
      assert OneRound(After(s, maxActive, earlier), maxActive, mode, req, round).Overtaken? by {
        assert RoundEnd(s, maxActive, mode, req, world, n - 1).Overtaken?;
      }
      OneMoreMove(s, maxActive, mode, req, earlier, round);
    }
  }

  lemma OneMoreMove(s: Status, maxActive: int, mode: LoadMode, req: seq<Key>, earlier: seq<Other>, round: Round)
    requires OneRound(After(s, maxActive, earlier), maxActive, mode, req, round).Overtaken?
    ensures After(s, maxActive, earlier + (round.before + round.during)).view.version >
            After(s, maxActive, earlier).view.version
  {
    RoundMovesVersion(After(s, maxActive, earlier), maxActive, mode, req, round);
    AfterConcat(s, maxActive, earlier, round.before + round.during);
  }

  /** The retry error needs five rounds that others overtook, hence five moves of the version. */
  lemma RetriesNeedFive(s: Status, maxActive: int, mode: LoadMode, req: seq<Key>, world: seq<Round>)
    requires Rounds(s, maxActive, mode, req, world, []).Overtaken?
    ensures OvertakenUntil(s, maxActive, mode, req, world, |world|)
    ensures After(s, maxActive, Rounds(s, maxActive, mode, req, world, []).others).view.version >= s.view.version + |world|
  {
    assert world[0..] == world;
    RoundsEnd(s, maxActive, mode, req, world, 0);
    OvertakingMovesVersion(s, maxActive, mode, req, world, |world|);
  }

  // ----- What the answers mean -------------------------------------------------------------

  lemma {:induction false} AfterKeepsRep(s: Status, maxActive: int, ops: seq<Other>)
    requires Rep(s.view, maxActive)
    ensures Rep(After(s, maxActive, ops).view, maxActive)
  {
    if ops != [] {
      var before := After(s, maxActive, ops[..|ops|-1]);
      AfterKeepsRep(s, maxActive, ops[..|ops|-1]);
      match ops[|ops|-1]
      case Prunes(keys) => DropKeepsRep(before.view, Elems(keys), maxActive);
      case Unloads(rm) => DropKeepsRep(before.view, rm, maxActive);
      case UnloadsAll => DropKeepsRep(before.view, before.view.active, maxActive);
      case Activates(mode, keys) =>
        DedupCorrect(keys);
        NextOrderKeepsRep(mode, before.view.order, Dedup(keys));
      case Closes =>
    }
  }

  /** Each way a round can be stopped, by what it finds; the bound counts keys, not requests. */
  lemma RoundMeans(s: Status, maxActive: int, mode: LoadMode, req: seq<Key>, round: Round)
    requires Rep(s.view, maxActive) && NoDup(req)
    ensures var end, found := OneRound(s, maxActive, mode, req, round), After(s, maxActive, round.before);
            var reached := After(found, maxActive, round.during);
            var tooMany := maxActive > 0 && |Elems(req) + (if mode == Add then found.view.active else {})| > maxActive;
            && (end.Stopped? && end.error == InvalidArgument <==> !found.closed && tooMany)
            && (end.Stopped? && end.error == BodyFailed <==> !found.closed && !tooMany && !round.bodiesOk)
            && (end.Stopped? && end.error == SkillNotFound <==>
                  !found.closed && !tooMany && round.bodiesOk && !round.stillThere)
            && (end.Stopped? && end.error == SessionNotFound <==>
                  found.closed || (!tooMany && round.bodiesOk && round.stillThere && reached.closed))
            && !(end.Stopped? && end.error == RetriesExhausted)
            && (end.Succeeded? <==> !found.closed && !tooMany && round.bodiesOk && round.stillThere &&
                                    !reached.closed && reached.view == found.view)
  {
    var found := After(s, maxActive, round.before);
    AfterKeepsRep(s, maxActive, round.before);
    NextOrderCount(mode, found.view.order, req);
    VersionTells(found, maxActive, round.during);
  }

  /** What round n stopped at. */
  ghost predicate StoppedBy(s: Status, maxActive: int, mode: LoadMode, keys: seq<Key>, world: seq<Round>, n: nat, e: ActivateError) {
    && n < |world|
    && var found := After(After(s, maxActive, AllOps(world, n)), maxActive, world[n].before);
       var reached := After(found, maxActive, world[n].during);
    match e
    case SessionNotFound => reached.closed
    case InvalidArgument =>
      !found.closed && maxActive > 0 && |Elems(keys) + (if mode == Add then found.view.active else {})| > maxActive
    case BodyFailed => !found.closed && !world[n].bodiesOk
    case SkillNotFound => !found.closed && !world[n].stillThere
    case RetriesExhausted => false
  }

  lemma {:induction false} ClosedStays(s: Status, maxActive: int, ops: seq<Other>)
    ensures s.closed ==> After(s, maxActive, ops).closed
  {
    if ops != [] { ClosedStays(s, maxActive, ops[..|ops|-1]); }
  }

  /** An error other than the retry error has its reason in one of the rounds. */
  lemma ErrorMeans(s: Status, maxActive: int, mode: LoadMode, req: seq<Key>, world: seq<Round>)
    requires Rep(s.view, maxActive) && NoDup(req) && Rounds(s, maxActive, mode, req, world, []).Stopped?
    ensures exists n :: StoppedBy(s, maxActive, mode, req, world, n, Rounds(s, maxActive, mode, req, world, []).error)
  {
    var end := Rounds(s, maxActive, mode, req, world, []);
    RoundsEnd(s, maxActive, mode, req, world, 0);
    assert world[0..] == world;
    var n: nat :| n < |world| && EndsAt(s, maxActive, mode, req, world, n, end);
    var start := After(s, maxActive, AllOps(world, n));
    AfterKeepsRep(s, maxActive, AllOps(world, n));
    RoundMeans(start, maxActive, mode, req, world[n]);
    ClosedStays(After(start, maxActive, world[n].before), maxActive, world[n].during);
    assert StoppedBy(s, maxActive, mode, req, world, n, end.error);
  }

  /** A first round nobody interferes with, with bodies to load and keys that stay, decides by the bound alone. */
  lemma QuietCall(s: Status, maxActive: int, mode: LoadMode, req: seq<Key>, world: seq<Round>)
    requires Rep(s.view, maxActive) && NoDup(req) && !s.closed && world != []
    requires world[0].before == [] && world[0].during == [] && world[0].bodiesOk && world[0].stillThere
    ensures var end := Rounds(s, maxActive, mode, req, world, []);
            if maxActive <= 0 || |Elems(req) + (if mode == Add then s.view.active else {})| <= maxActive
            then end.Succeeded? && end.others == []
            else end == Stopped([], InvalidArgument)
  {
    RoundMeans(s, maxActive, mode, req, world[0]);
  }

  /** Such a call that misses no key is what the others' activations are. */
  lemma QuietCallIsActivation(s: Status, maxActive: int, mode: LoadMode, keys: seq<Key>, world: seq<Round>)
    requires Rep(s.view, maxActive) && !s.closed && world != []
    requires world[0].before == [] && world[0].during == [] && world[0].bodiesOk && world[0].stillThere
    requires forall i: nat :: world[0].present(i)
    ensures AfterOne(s, maxActive, Activates(mode, keys)) ==
            match Rounds(s, maxActive, mode, Dedup(keys), world, [])
            case Succeeded(_, missing) => Installed(s, mode, Dedup(keys), missing)
            case _ => s
  {
    DedupCorrect(keys);
    QuietCall(s, maxActive, mode, Dedup(keys), world);
    NextOrderCount(mode, s.view.order, Dedup(keys));
    assert MissingFrom(NextOrder(mode, s.view.order, Dedup(keys)), world[0].present) == {};
  }

  /** The list v is what is left of the request's list over `found`, for just the keys the catalog answered for. */
  ghost predicate KeepsThePresent(v: View, found: View, mode: LoadMode, req: seq<Key>, present: nat -> bool) {
    var next := NextOrder(mode, found.order, req);
    && (forall i :: 0 <= i < |next| ==> (next[i] in v.order <==> present(i)))
    && (forall k :: k in v.order ==> k in next)
  }

  /** A call that succeeds leaves, of the list it asks for on top of what others left, exactly the keys
      the catalog answered for in the round that succeeded. */
  lemma SuccessMeans(s: Status, maxActive: int, mode: LoadMode, req: seq<Key>, world: seq<Round>)
    requires Rep(s.view, maxActive) && NoDup(req) && Rounds(s, maxActive, mode, req, world, []).Succeeded?
    ensures var Succeeded(others, missing) := Rounds(s, maxActive, mode, req, world, []);
            var found := After(s, maxActive, others);
            exists n :: 0 <= n < |world| && others == AllOps(world, n) + (world[n].before + world[n].during) &&
                        KeepsThePresent(Installed(found, mode, req, missing).view, found.view, mode, req, world[n].present)
  {
    var end := Rounds(s, maxActive, mode, req, world, []);
    RoundsEnd(s, maxActive, mode, req, world, 0);
    assert world[0..] == world;
    var n: nat :| n < |world| && EndsAt(s, maxActive, mode, req, world, n, end);
    AfterKeepsRep(s, maxActive, end.others);
    RoundMissing(s, maxActive, mode, req, AllOps(world, n), world[n]);
    InstalledKeeps(After(s, maxActive, end.others), mode, req, world[n].present);
  }

  lemma RoundMissing(s: Status, maxActive: int, mode: LoadMode, req: seq<Key>, earlier: seq<Other>, round: Round)
    requires OneRound(After(s, maxActive, earlier), maxActive, mode, req, round).Succeeded?
    ensures var all := earlier + (round.before + round.during);
            Then(earlier, OneRound(After(s, maxActive, earlier), maxActive, mode, req, round)) ==
              Succeeded(all, MissingFrom(NextOrder(mode, After(s, maxActive, all).view.order, req), round.present))
  {
    AfterConcat(s, maxActive, earlier, round.before + round.during);
    AfterConcat(After(s, maxActive, earlier), maxActive, round.before, round.during);
  }

  lemma InstalledKeeps(found: Status, mode: LoadMode, req: seq<Key>, present: nat -> bool)
    requires NoDup(found.view.order) && NoDup(req)
    ensures var missing := MissingFrom(NextOrder(mode, found.view.order, req), present);
            KeepsThePresent(Installed(found, mode, req, missing).view, found.view, mode, req, present)
  {
    var next := NextOrder(mode, found.view.order, req);
    NextOrderKeepsRep(mode, found.view.order, req);
    var here := Answers(present, |next|);
    PresentOnes(next, here);
    InstalledOrder(found, mode, req, Absent(next, here, |next|));
  }

  lemma InstalledOrder(found: Status, mode: LoadMode, req: seq<Key>, missing: set<Key>)
    ensures Installed(found, mode, req, missing).view.order == Without(NextOrder(mode, found.view.order, req), missing)
  {
    WithoutNothing(NextOrder(mode, found.view.order, req), {});
  }

  /** Both, for a request with repetitions. */
  lemma RequestMeans(s: Status, maxActive: int, mode: LoadMode, keys: seq<Key>, world: seq<Round>)
    requires Rep(s.view, maxActive) && !s.closed && world != []
    ensures var end := Rounds(s, maxActive, mode, Dedup(keys), world, []);
            && (end.Stopped? ==>
                  end.error != RetriesExhausted && exists n :: StoppedBy(s, maxActive, mode, keys, world, n, end.error))
            && (world[0].before == world[0].during == [] && world[0].bodiesOk && world[0].stillThere ==>
                  && !end.Overtaken?
                  && (end.Succeeded? <==>
                        maxActive <= 0 || |Elems(keys) + (if mode == Add then s.view.active else {})| <= maxActive))
  {
    var req, end := Dedup(keys), Rounds(s, maxActive, mode, Dedup(keys), world, []);
    DedupCorrect(keys);
    if end.Stopped? {
      ErrorMeans(s, maxActive, mode, req, world);
      var n :| StoppedBy(s, maxActive, mode, req, world, n, end.error);
      assert StoppedBy(s, maxActive, mode, keys, world, n, end.error);
    }
    if world[0].before == world[0].during == [] && world[0].bodiesOk && world[0].stillThere {
      QuietCall(s, maxActive, mode, req, world);
    }
  }

  class Session {
    const maxActive: int
    /** The slice activeOrder: the first `count` cells of its backing array. */
    var backing: array<Key>
    var count: nat
    var activeSet: set<Key>
    var stateVersion: nat
    var closed: bool

    ghost predicate Sliced()
      reads this
    {
      count <= backing.Length
    }

    ghost function View(): View
      requires Sliced()
      reads this, backing
    {
      ActiveList.View(backing[..count], activeSet, stateVersion)
    }

    ghost predicate Valid()
      reads this, backing
    {
      Sliced() && Rep(View(), maxActive)
    }

    constructor (maxActive: int)
      ensures Valid() && View() == EMPTY && !closed && this.maxActive == maxActive && fresh(backing)
    {
      this.maxActive := maxActive;
      backing := new Key[0];
      count, activeSet, stateVersion, closed := 0, {}, 0, false;
    }

    /** ActivateKeys, the snapshot. */
    method Snapshot() returns (order: seq<Key>, active: set<Key>, version: nat)
      requires Valid()
      ensures ActiveList.View(order, active, version) == View()
    {
      order, active, version := backing[..count], activeSet, stateVersion;
    }

    /** ActivateKeys, the commit: it happens exactly if nothing has been written since the snapshot. */
    method TryCommit(nextOrder: seq<Key>, nextSet: set<Key>, version: nat) returns (committed: bool)
      requires Valid() && NoDup(nextOrder) && nextSet == Elems(nextOrder)
      requires maxActive > 0 ==> |nextOrder| <= maxActive
      modifies this`backing, this`count, this`activeSet, this`stateVersion
      ensures Valid() && (if committed then fresh(backing) else backing == old(backing))
      ensures committed <==> !closed && old(stateVersion) == version
      ensures View() == if committed then Commit(old(View()), nextOrder) else old(View())
    {
      if closed || stateVersion != version { return false; }
      var order := new Key[|nextOrder|](i requires 0 <= i < |nextOrder| => nextOrder[i]);
      assert order[..] == nextOrder;
      backing, count := order, |nextOrder|;
      activeSet := nextSet;
      stateVersion := stateVersion + 1;
      return true;
    }

    /** append to a prefix of the slice: the next cell is overwritten. */
    method AppendInPlace(kept: nat, k: Key)
      requires Sliced() && kept < count
      modifies backing
      ensures backing[..kept+1] == old(backing[..kept]) + [k]
      ensures forall j :: kept < j < count ==> backing[j] == old(backing[j])
    {
      backing[kept] := k;
      assert backing[..kept] == old(backing[..kept]);
    }

    /** slices.DeleteFunc: compaction in the same backing array, the freed tail cleared. */
    method DeleteKeys(rm: set<Key>)
      requires Sliced()
      modifies this`count, backing
      ensures Sliced() && backing[..count] == Without(old(backing[..count]), rm)
    {
      ghost var was := backing[..count];
      var kept := 0;
      for i := 0 to count
        invariant kept <= i <= count == old(count) && backing == old(backing)
        invariant backing[..kept] == Without(was[..i], rm)
        invariant forall j :: i <= j < count ==> backing[j] == was[j]
      {
        WithoutStep(was, i, rm);
        if backing[i] !in rm {
          AppendInPlace(kept, backing[i]);
          kept := kept + 1;
        }
      }
      assert was[..|was|] == was;
      for i := kept to count
        invariant count == old(count) && backing == old(backing)
        invariant backing[..kept] == Without(was, rm)
      {
        backing[i] := ProviderSkillKey("", "", "");
      }
      count := kept;
    }

    /** toolUnload's filter, which overwrites activeOrder[:0] in place and drops what the set no
        longer holds. */
    method FilterInPlace(rm: set<Key>)
      requires Sliced()
      modifies this`count, backing
      ensures Sliced() && backing[..count] == Without(old(backing[..count]), rm + (Elems(old(backing[..count])) - activeSet))
    {
      ghost var was := backing[..count];
      ghost var gone := rm + (Elems(was) - activeSet);
      var kept := 0;
      for i := 0 to count
        invariant kept <= i <= count == old(count) && backing == old(backing)
        invariant backing[..kept] == Without(was[..i], gone)
        invariant forall j :: i <= j < count ==> backing[j] == was[j]
      {
        var k := backing[i];
        WithoutStep(was, i, gone);
        assert k in gone <==> k in rm || k !in activeSet by { assert k in Elems(was); }
        if k in rm { continue; }
        if k !in activeSet { continue; }
        AppendInPlace(kept, k);
        kept := kept + 1;
      }
      assert was[..|was|] == was;
      count := kept;
    }

    /** activeHandlesLocked: `present[i]` is what the catalog answered for the i-th key. */
    method ActiveHandles(present: seq<bool>) returns (out: seq<Key>)
      requires Valid() && |present| == count
      modifies this`count, this`activeSet, this`stateVersion, backing
      ensures Valid()
      ensures var missing := Absent(old(backing[..count]), present, |present|);
              && out == Without(old(backing[..count]), missing) == backing[..count]
              && View() == if missing == {} then old(View()) else Drop(old(View()), missing)
      ensures forall i :: 0 <= i < |present| ==> (old(backing[..count])[i] in out <==> present[i])
      ensures forall k :: k in out ==> k in old(backing[..count])
    {
      ghost var was := backing[..count];
      out := [];
      var missing: set<Key> := {};
      for i := 0 to count
        invariant missing == Absent(was, present, i)
        invariant out == Without(was[..i], missing)
        modifies {}
      {
        AbsentStep(was, present, i);
        WithoutStep(was, i, missing);
        WithoutStep(was, i, missing + {was[i]});
        assert was[i] !in was[..i];
        WithoutFresh(was[..i], missing, was[i]);
        if present[i] {
          assert was[i] !in missing;
          out := out + [backing[i]];
        } else {
          missing := missing + {backing[i]};
        }
      }
      assert was[..|was|] == was;
      PresentOnes(was, present);
      DropKeepsRep(View(), missing, maxActive);
      if missing != {} {
        activeSet := activeSet - missing;
        DeleteKeys(missing);
        stateVersion := stateVersion + 1;
      } else {
        WithoutNothing(was, {});
      }
    }

    /** pruneKeys. */
    method PruneKeys(keys: seq<Key>)
      requires Valid()
      modifies this`count, this`activeSet, this`stateVersion, backing
      ensures Valid()
      ensures View() == if old(closed) then old(View()) else Prune(old(View()), Elems(keys))
      ensures activeSet == if old(closed) then old(activeSet) else old(activeSet) - Elems(keys)
      ensures stateVersion == old(stateVersion) + if old(closed) || old(activeSet) !! Elems(keys) then 0 else 1
    {
      DropKeepsRep(View(), Elems(keys), maxActive);
      if keys == [] || closed { return; }
      var rm: set<Key> := {};
      for i := 0 to |keys|
        invariant rm == Elems(keys[..i])
      {
        rm := rm + {keys[i]};
      }
      assert keys[..|keys|] == keys;
      var changed := !(activeSet !! rm);
      activeSet := activeSet - rm;
      if !changed { return; }
      DeleteKeys(rm);
      stateVersion := stateVersion + 1;
    }

    /** pruneKey; the closed check comes before the lock, so it is the caller's step. */
    method PruneKey(k: Key)
      requires Valid()
      modifies this`count, this`activeSet, this`stateVersion, backing
      ensures Valid() && View() == Prune(old(View()), {k})
      ensures activeSet == old(activeSet) - {k} && stateVersion == old(stateVersion) + if k in old(activeSet) then 1 else 0
    {
      DropKeepsRep(View(), {k}, maxActive);
      if k !in activeSet { return; }
      activeSet := activeSet - {k};
      stateVersion := stateVersion + 1;
      DeleteKeys({k});
    }

    /** toolUnload with all=true. */
    method UnloadAll()
      requires Valid()
      modifies this`backing, this`count, this`activeSet, this`stateVersion
      ensures Valid() && fresh(backing)
      ensures View() == Drop(old(View()), old(activeSet))
      ensures count == 0 && activeSet == {} && stateVersion == old(stateVersion) + 1
    {
      WithoutAll(View().order, activeSet);
      activeSet := {};
      backing, count := new Key[0], 0;
      stateVersion := stateVersion + 1;
    }

    /** toolUnload for a set of keys; the version moves even when nothing was active. */
    method Unload(rm: set<Key>)
      requires Valid()
      modifies this`count, this`activeSet, this`stateVersion, backing
      ensures Valid() && View() == Drop(old(View()), rm)
      ensures activeSet == old(activeSet) - rm && stateVersion == old(stateVersion) + 1
    {
      DropKeepsRep(View(), rm, maxActive);
      ghost var was := backing[..count];
      activeSet := activeSet - rm;
      FilterInPlace(rm);
      assert rm + (Elems(was) - activeSet) == rm + (Elems(was) * rm) == rm;
      stateVersion := stateVersion + 1;
    }

    ghost function Now(): Status
      requires Sliced()
      reads this, backing
    {
      Status(View(), closed)
    }

    /** One whole operation of somebody else's. */
    method Act(o: Other)
      requires Valid()
      modifies this, backing
      ensures Valid() && (backing == old(backing) || fresh(backing))
      ensures Now() == AfterOne(old(Now()), maxActive, o)
    {
      match o {
        case Prunes(keys) => PruneKeys(keys);
        case Unloads(rm) => Unload(rm);
        case UnloadsAll => UnloadAll();
        case Activates(mode, keys) => ActivateAtOnce(mode, keys);
        case Closes => closed := true;
      }
    }

    /** An activation nobody gets in the way of. */
    method ActivateAtOnce(mode: LoadMode, keys: seq<Key>)
      requires Valid()
      modifies this`backing, this`count, this`activeSet, this`stateVersion
      ensures Valid() && (backing == old(backing) || fresh(backing))
      ensures Now() == AfterOne(old(Now()), maxActive, Activates(mode, keys))
    {
      var req := Dedup(keys);
      DedupCorrect(keys);
      var order, active, version := Snapshot();
      var next, nextSet := ComputeNext(mode, order, active, req);
      NextOrderKeepsRep(mode, order, req);
      if !(maxActive > 0 && |next| > maxActive) {
        var committed := TryCommit(next, nextSet, version);
      }
    }

    method Interfere(ops: seq<Other>)
      requires Valid()
      modifies this, backing
      ensures Valid() && (backing == old(backing) || fresh(backing))
      ensures Now() == After(old(Now()), maxActive, ops)
    {
      for i := 0 to |ops|
        invariant Valid() && (backing == old(backing) || fresh(backing))
        invariant Now() == After(old(Now()), maxActive, ops[..i])
      {
        assert ops[..i+1][..i] == ops[..i];
        Act(ops[i]);
      }
      assert ops[..|ops|] == ops;
    }

    /** One round of the retry loop: snapshot, computation and I/O without the lock, commit. */
    method TryRound(mode: LoadMode, req: seq<Key>, round: Round) returns (result: RoundResult)
      requires Valid() && NoDup(req)
      modifies this, backing
      ensures Valid() && (backing == old(backing) || fresh(backing))
      ensures match OneRound(old(Now()), maxActive, mode, req, round)
              case Overtaken(others) => result == Again && Now() == After(old(Now()), maxActive, others)
              case Stopped(others, e) => result == Stop(e) && Now() == After(old(Now()), maxActive, others)
              case Succeeded(others, missing) =>
                result == Done(View().order) && Now() == Installed(After(old(Now()), maxActive, others), mode, req, missing)
    {
      ghost var start := Now();
      AfterConcat(start, maxActive, round.before, round.during);
      Interfere(round.before);
      if closed { return Stop(SessionNotFound); }
      var order, active, version := Snapshot();
      var next, nextSet := ComputeNext(mode, order, active, req);
      NextOrderKeepsRep(mode, order, req);
      if maxActive > 0 && |next| > maxActive { return Stop(InvalidArgument); }
      result := LoadAndCommit(mode, req, next, nextSet, version, round);
    }

    /** From the snapshot on: the I/O without the lock, while others run, and the commit. */
    method LoadAndCommit(mode: LoadMode, req: seq<Key>, next: seq<Key>, nextSet: set<Key>, version: nat, round: Round)
      returns (result: RoundResult)
      requires Valid() && !closed && version == stateVersion
      requires next == NextOrder(mode, View().order, req) && NoDup(next) && nextSet == Elems(next)
      requires maxActive > 0 ==> |next| <= maxActive
      modifies this, backing
      ensures Valid() && (backing == old(backing) || fresh(backing))
      ensures var reached := After(old(Now()), maxActive, round.during);
        if !round.bodiesOk then result == Stop(BodyFailed) && Now() == reached
        else if !round.stillThere then result == Stop(SkillNotFound) && Now() == reached
        else if reached.closed then result == Stop(SessionNotFound) && Now() == reached
        else if reached.view.version != old(stateVersion) then result == Again && Now() == reached
        else
          && result == Done(View().order)
          && Now() == Installed(reached, mode, req, MissingFrom(NextOrder(mode, reached.view.order, req), round.present))
    {
      VersionTells(Now(), maxActive, round.during);
      Interfere(round.during);
      if !round.bodiesOk { return Stop(BodyFailed); }
      if !round.stillThere { return Stop(SkillNotFound); }
      if closed { return Stop(SessionNotFound); }
      result := CommitAndReport(next, nextSet, version, round.present);
    }

    /** The commit and, under the same lock, the handles. */
    method CommitAndReport(next: seq<Key>, nextSet: set<Key>, version: nat, here: nat -> bool) returns (result: RoundResult)
      requires Valid() && !closed && NoDup(next) && nextSet == Elems(next) && (maxActive > 0 ==> |next| <= maxActive)
      modifies this`backing, this`count, this`activeSet, this`stateVersion, backing
      ensures Valid() && (backing == old(backing) || fresh(backing))
      ensures var missing := MissingFrom(next, here);
        if old(stateVersion) != version then result == Again && View() == old(View())
        else
          && result == Done(View().order)
          && View() == if missing == {} then Commit(old(View()), next) else Drop(Commit(old(View()), next), missing)
    {
      var committed := TryCommit(next, nextSet, version);
      if !committed { return Again; }
      var present := Answers(here, |next|);
      var handles := ActiveHandles(present);
      return Done(handles);
    }

    /** ActivateKeys with its retry loop; `world` is what others do between its critical sections and
        what the catalog answers.  A call that is refused at once changes nothing.  Otherwise an error
        leaves exactly what others did until then, and success applies the mode and the request,
        without repetitions, to the list they left and drops what the catalog has lost. */
    method ActivateKeys(mode: LoadMode, keys: seq<Key>, known: seq<bool>, instructs: seq<bool>, world: seq<Round>)
      returns (handles: seq<Key>, error: Option<ActivateError>)
      requires Valid() && |known| == |instructs| == |keys| && |world| == MAX_ROUNDS
      modifies this, backing
      ensures Valid()
      ensures old(closed) ==> error == Some(SessionNotFound) && Now() == old(Now())
      ensures !old(closed) && keys == [] ==> error == Some(InvalidArgument) && Now() == old(Now())
      ensures !old(closed) ==> forall i :: FirstOffence(keys, known, instructs, i) ==>
        error == Some(if known[i] then InvalidArgument else SkillNotFound) && Now() == old(Now())
      ensures !old(closed) && keys != [] && (forall i :: 0 <= i < |keys| ==> !Offends(keys, known, instructs, i)) ==>
        match Rounds(old(Now()), maxActive, mode, Dedup(keys), world, [])
        case Overtaken(others) => error == Some(RetriesExhausted) && Now() == After(old(Now()), maxActive, others)
        case Stopped(others, e) => error == Some(e) && Now() == After(old(Now()), maxActive, others)
        case Succeeded(others, missing) =>
          && error.None? && handles == View().order
          && Now() == Installed(After(old(Now()), maxActive, others), mode, Dedup(keys), missing)
      ensures !old(closed) && keys != [] && (forall i :: 0 <= i < |keys| && keys[i] !in keys[..i] ==> known[i] && instructs[i]) ==>
        && (world[0].before == world[0].during == [] && world[0].bodiesOk && world[0].stillThere ==>
              (error.None? <==> maxActive <= 0 || |Elems(keys) + (if mode == Add then old(activeSet) else {})| <= maxActive))
        && (error.Some? && error != Some(RetriesExhausted) ==>
              exists n :: StoppedBy(old(Now()), maxActive, mode, keys, world, n, error.value))
    {
      handles := [];
      if closed { error := Some(SessionNotFound); return; }
      if keys == [] { error := Some(InvalidArgument); return; }
      var req;
      req, error := ValidateKeys(keys, known, instructs);
      if error.Some? { return; }
      ghost var start, others: seq<Other> := Now(), [];
      RequestMeans(start, maxActive, mode, keys, world);
      assert world[0..] == world;
      for round := 0 to MAX_ROUNDS
        invariant Valid() && (backing == old(backing) || fresh(backing))
        invariant Now() == After(start, maxActive, others)
        invariant Rounds(start, maxActive, mode, req, world[round..], others) == Rounds(start, maxActive, mode, req, world, [])
      {
        assert world[round..][0] == world[round] && world[round..][1..] == world[round+1..];
        ghost var end := OneRound(Now(), maxActive, mode, req, world[round]);
        AfterConcat(start, maxActive, others, end.others);
        var result := TryRound(mode, req, world[round]);
        others := others + end.others;
        match result {
          case Again =>
          case Stop(e) => error := Some(e); return;
          case Done(h) => handles, error := h, None; return;
        }
      }
      error := Some(RetriesExhausted);
    }
  }
}
