/** Runtime.AddSkill and Runtime.RemoveSkill (runtime.go): the trimming guard in front of the catalog,
    and what holds of the handles after any number of such calls. */
module CatalogRuns {
  import opened SkillTypes
  import opened Text
  import opened HandleNames
  import opened Catalogs

  /** What the catalog has registered. */
  datatype Registry = Registry(defs: Defs, byDef: map<SkillDef, Key>)

  const NOTHING := Registry(map[], map[])

  datatype Op = AddSkill(def: SkillDef, idx: Indexed) | RemoveSkill(def: SkillDef)

  // ----- The operations --------------------------------------------------------------------

  /** Definitions are taken as the user wrote them or not at all. */
  predicate NoOuterSpace(d: SkillDef) {
    TrimSpace(d.kind) == d.kind && TrimSpace(d.name) == d.name && TrimSpace(d.location) == d.location
  }

  function AddRefused(r: Registry, def: SkillDef, idx: Indexed): Option<AddError> {
    if !NoOuterSpace(def) then Some(InvalidArgument)
    else match AddGuard(def, idx)
      case Some(e) => Some(e)
      case None => if idx.key in r.defs || def in r.byDef then Some(AlreadyExists) else None
  }

  function Apply(r: Registry, op: Op): Registry {
    match op
    case AddSkill(def, idx) =>
      if AddRefused(r, def, idx).None? && idx.Indexed? then Registry(r.defs[idx.key := def], r.byDef[def := idx.key]) else r
    case RemoveSkill(def) =>
      if NoOuterSpace(def) && def in r.byDef then Registry(r.defs - {r.byDef[def]}, r.byDef - {def}) else r
  }

  function Run(ops: seq<Op>): Registry {
    if ops == [] then NOTHING else Apply(Run(ops[..|ops|-1]), ops[|ops|-1])
  }

  function RegistryOf(c: Catalog): Registry
    reads c
  {
    Registry(DefsOf(c.byKey), c.byDef)
  }

  method AddSkill(c: Catalog, def: SkillDef, idx: Indexed) returns (error: Option<AddError>)
    requires c.Valid()
    modifies c
    ensures c.Valid()
    ensures error == AddRefused(old(RegistryOf(c)), def, idx)
    ensures RegistryOf(c) == Apply(old(RegistryOf(c)), Op.AddSkill(def, idx))
    ensures error.None? ==> RegistryOf(c) == Registry(old(RegistryOf(c)).defs[idx.key := def], old(c.byDef)[def := idx.key])
    ensures error.None? <==> Registrable(def, idx) && idx.key !in old(c.byKey) && def !in old(c.byDef)
    ensures error == Some(AlreadyExists) <==> Registrable(def, idx) && (idx.key in old(c.byKey) || def in old(c.byDef))
    ensures error.Some? ==> RegistryOf(c) == old(RegistryOf(c))
  {
    RefusedIff(def, idx);
    if !NoOuterSpace(def) { return Some(InvalidArgument); }
    error := c.Add(def, idx);
  }

  /** What is asked of a definition and of the provider's answer for it: no field of the definition has
      outer white space or is empty, and the key names the same skill at a location that is not blank. */
  ghost predicate Registrable(def: SkillDef, idx: Indexed) {
    && Trimmed(def.kind) && Trimmed(def.name) && Trimmed(def.location)
    && def.kind != "" && def.name != "" && def.location != ""
    && idx.Indexed? && idx.insert.Some?
    && idx.key.kind == def.kind && idx.key.name == def.name && !AllSpace(idx.key.location)
  }

  lemma RefusedIff(def: SkillDef, idx: Indexed)
    ensures NoOuterSpace(def) && AddGuard(def, idx).None? <==> Registrable(def, idx)
    ensures AddGuard(def, idx) != Some(AlreadyExists)
  {
    TrimmedFixed(def.kind);
    TrimmedFixed(def.name);
    TrimmedFixed(def.location);
    if idx.Indexed? { BlankIff(idx.key.location); }
  }

  /** The key is what the sessions are pruned of next; None when the definition is refused or unknown. */
  method RemoveSkill(c: Catalog, def: SkillDef) returns (removed: Option<Key>)
    requires c.Valid()
    modifies c
    ensures c.Valid()
    ensures removed == if NoOuterSpace(def) && def in old(c.byDef) then Some(old(c.byDef)[def]) else None
    ensures RegistryOf(c) == Apply(old(RegistryOf(c)), Op.RemoveSkill(def))
  {
    if !NoOuterSpace(def) { return None; }
    removed := c.Remove(def);
  }

  // ----- Every run -------------------------------------------------------------------------

  /** Definitions that pass the guard and the catalog's own checks. */
  predicate Admissible(d: SkillDef) {
    NoOuterSpace(d) && d.kind != "" && d.name != "" && d.location != ""
  }

  /** Keys and definitions are in step, and only admissible definitions are in. */
  ghost predicate RegistryOk(r: Registry) {
    && (forall k :: k in r.defs ==>
          && k.kind == r.defs[k].kind && k.name == r.defs[k].name && Admissible(r.defs[k])
          && r.defs[k] in r.byDef && r.byDef[r.defs[k]] == k)
    && (forall d :: d in r.byDef ==> r.byDef[d] in r.defs && r.defs[r.byDef[d]] == d)
  }

  lemma {:induction false} RunOk(ops: seq<Op>)
    ensures RegistryOk(Run(ops))
  {
    if ops != [] {
      RunOk(ops[..|ops|-1]);
      ApplyOk(Run(ops[..|ops|-1]), ops[|ops|-1]);
    }
  }

  lemma ApplyOk(r: Registry, op: Op)
    requires RegistryOk(r)
    ensures RegistryOk(Apply(r, op))
  {
    if op.RemoveSkill? && op.def in r.byDef { OneLess(r, op.def); }
    if op.AddSkill? && AddRefused(r, op.def, op.idx).None? && op.idx.Indexed? {
      Accepted(r, op.def, op.idx);
      OneMore(r, op.idx.key, op.def);
    }
  }

  lemma Accepted(r: Registry, d: SkillDef, idx: Indexed)
    requires AddRefused(r, d, idx).None?
    ensures Admissible(d) && idx.Indexed? && idx.key.kind == d.kind && idx.key.name == d.name
    ensures idx.key !in r.defs && d !in r.byDef
  {
    assert !Blank(d.kind) && !Blank(d.name) && !Blank(d.location);
  }

  lemma OneLess(r: Registry, d: SkillDef)
    requires RegistryOk(r) && d in r.byDef
    ensures RegistryOk(Registry(r.defs - {r.byDef[d]}, r.byDef - {d}))
  {}

  lemma OneMore(r: Registry, k: Key, d: SkillDef)
    requires RegistryOk(r) && k !in r.defs && d !in r.byDef && Admissible(d) && k.kind == d.kind && k.name == d.name
    ensures RegistryOk(Registry(r.defs[k := d], r.byDef[d := k]))
  {}

  /** Every AddSkill of the run is for one of these definitions. */
  ghost predicate AddsWithin(ops: seq<Op>, allowed: set<SkillDef>) {
    forall i :: 0 <= i < |ops| && ops[i].AddSkill? ==> ops[i].def in allowed
  }

  lemma {:induction false} OnlyAllowed(ops: seq<Op>, allowed: set<SkillDef>)
    requires AddsWithin(ops, allowed)
    ensures Run(ops).defs.Values <= allowed
  {
    if ops != [] {
      var n := |ops| - 1;
      OnlyAllowed(ops[..n], allowed);
      var before := Run(ops[..n]);
      forall k | k in Run(ops).defs ensures Run(ops).defs[k] in allowed {
        assert k in before.defs && Run(ops).defs[k] == before.defs[k] ==> before.defs[k] in before.defs.Values;
        assert ops[n].AddSkill? ==> ops[n].def in allowed;
      }
    }
  }

  ghost predicate HexHash(hash: SkillDef -> string) { forall d :: HexString(hash(d)) }

  lemma RunIsWellFormed(ops: seq<Op>, hash: SkillDef -> string)
    requires HexHash(hash)
    ensures WellFormed(Run(ops).defs, hash)
  {
    RunOk(ops);
    var defs := Run(ops).defs;
    forall k | k in defs
      ensures Trimmed(defs[k].name) && defs[k].name != "" && Trimmed(defs[k].location) && HexString(hash(defs[k]))
    {
      TrimmedFixed(defs[k].name);
      TrimmedFixed(defs[k].location);
    }
  }

  /** Whatever order the index was rebuilt in, every registered key is found through its own handle. */
  ghost predicate HandlesWork(defs: Defs, hash: SkillDef -> string) {
    forall index :: IndexOk(index, defs, hash) ==> RoundTrips(index, defs, hash)
  }

  // ----- When every run keeps the handles apart --------------------------------------------

  /** Two of the definitions with one name, location and hash. */
  ghost predicate Twins(hash: SkillDef -> string, d: SkillDef, d': SkillDef) {
    Admissible(d) && Admissible(d') && d != d' && SameGroup(d, d') && hash(d) == hash(d')
  }

  /** Two definitions of one name, a third named like the first of them hashed, a fourth like the
      third hashed, all at one location. */
  ghost predicate Chain(hash: SkillDef -> string, d1: SkillDef, d2: SkillDef, d3: SkillDef, d4: SkillDef) {
    && Admissible(d1) && Admissible(d2) && Admissible(d3) && Admissible(d4)
    && d1 != d2 && SameGroup(d1, d2) && d1.location == d3.location == d4.location
    && d3.name == Hashed(hash, d1) && d4.name == Hashed(hash, d3)
  }

  ghost predicate Safe(allowed: set<SkillDef>, hash: SkillDef -> string) {
    && (forall d, d' :: d in allowed && d' in allowed ==> !Twins(hash, d, d'))
    && (forall d1, d2, d3, d4 :: d1 in allowed && d2 in allowed && d3 in allowed && d4 in allowed ==>
          !Chain(hash, d1, d2, d3, d4))
  }

  ghost predicate NoNul(allowed: set<SkillDef>) {
    forall d :: d in allowed ==> '\0' !in d.name && '\0' !in d.location
  }

  /** In every run, handles lead back to their keys after every operation, exactly when the definitions
      that may be added hold neither twins nor a chain. */
  lemma HandlesWorkIff(allowed: set<SkillDef>, hash: SkillDef -> string)
    requires HexHash(hash) && NoNul(allowed)
    ensures Safe(allowed, hash) <==> forall ops :: AddsWithin(ops, allowed) ==> HandlesWork(Run(ops).defs, hash)
  {
    if Safe(allowed, hash) {
      forall ops | AddsWithin(ops, allowed) ensures HandlesWork(Run(ops).defs, hash) {
        SafeRun(ops, allowed, hash);
      }
    } else {
      var ds := Unsafe(allowed, hash);
      BrokenRun(ds, allowed, hash);
    }
  }

  /** Without '#' in names only twins are left to fear. */
  lemma SafeWithoutHashSigns(allowed: set<SkillDef>, hash: SkillDef -> string)
    requires forall d :: d in allowed ==> '#' !in d.name
    ensures Safe(allowed, hash) <==> forall d, d' :: d in allowed && d' in allowed ==> !Twins(hash, d, d')
  {
    forall d1, d2, d3, d4 | d1 in allowed && d2 in allowed && d3 in allowed && d4 in allowed
      ensures !Chain(hash, d1, d2, d3, d4)
    {
      PlainIsNotHashed(d3, d1, hash);
    }
  }

  lemma SafeRun(ops: seq<Op>, allowed: set<SkillDef>, hash: SkillDef -> string)
    requires HexHash(hash) && NoNul(allowed) && Safe(allowed, hash) && AddsWithin(ops, allowed)
    ensures HandlesWork(Run(ops).defs, hash)
  {
    var r := Run(ops);
    RunOk(ops);
    OnlyAllowed(ops, allowed);
    RunIsWellFormed(ops, hash);
    assert forall k :: k in r.defs ==> r.defs[k] in r.defs.Values;
    forall k, k' | k in r.defs && k' in r.defs && k != k' && SameGroup(r.defs[k], r.defs[k'])
      ensures hash(r.defs[k]) != hash(r.defs[k'])
    {
      assert !Twins(hash, r.defs[k], r.defs[k']);
    }
    forall k, k' | k in r.defs && k' in r.defs ensures !Overruns(r.defs, hash, k', k) {
      OverrunsIff(r.defs, hash, k', k);
      if Overruns(r.defs, hash, k', k) {
        var j, i := ChainIn(r, hash, k', k);
        assert false;
      }
    }
    HandleIndexIsBijectionIff(r.defs, hash);
  }

  lemma ChainIn(r: Registry, hash: SkillDef -> string, k': Key, k: Key) returns (j: Key, i: Key)
    requires RegistryOk(r) && k in r.defs && k' in r.defs
    requires r.defs[k].location == r.defs[k'].location && r.defs[k].name == Hashed(hash, r.defs[k'])
    requires NamedAsHashed(r.defs, hash, k')
    ensures j in r.defs && i in r.defs && Chain(hash, r.defs[j], r.defs[i], r.defs[k'], r.defs[k])
  {
    j :| j in r.defs && Shared(r.defs, j) && r.defs[j].location == r.defs[k'].location && r.defs[k'].name == Hashed(hash, r.defs[j]);
    i :| i in r.defs && i != j && SameGroup(r.defs[i], r.defs[j]);
  }

  // ----- Runs that break them --------------------------------------------------------------

  function KeyOf(d: SkillDef): Key { ProviderSkillKey(d.kind, d.name, d.location) }

  function Plainly(d: SkillDef): Op { Op.AddSkill(d, Indexed(KeyOf(d), Some(Instructions), "")) }

  /** Adding these definitions one after the other, each under the key that reads like it. */
  function Adds(ds: seq<SkillDef>): (ops: seq<Op>)
    ensures |ops| == |ds| && forall i :: 0 <= i < |ds| ==> ops[i] == Plainly(ds[i])
  {
    if ds == [] then [] else Adds(ds[..|ds|-1]) + [Plainly(ds[|ds|-1])]
  }

  /** Exactly these definitions are registered. */
  ghost predicate Holds(r: Registry, ds: seq<SkillDef>) {
    && (forall d :: d in ds ==> d in r.byDef && r.byDef[d] == KeyOf(d) && KeyOf(d) in r.defs && r.defs[KeyOf(d)] == d)
    && (forall d :: d in r.byDef ==> d in ds)
    && (forall k :: k in r.defs ==> r.defs[k] in ds && k == KeyOf(r.defs[k]))
  }

  lemma HoldsOneMore(r: Registry, ds: seq<SkillDef>, d: SkillDef)
    requires Holds(r, ds) && d !in ds && Admissible(d)
    ensures Holds(Apply(r, Plainly(d)), ds + [d])
  {
    PlainlyAccepted(d);
    assert KeyOf(d) !in r.defs && d !in r.byDef;
  }

  lemma PlainlyAccepted(d: SkillDef)
    requires Admissible(d)
    ensures AddGuard(d, Plainly(d).idx).None?
  {}

  lemma {:induction false} AddsRegister(ds: seq<SkillDef>)
    requires NoDup(ds) && forall i :: 0 <= i < |ds| ==> Admissible(ds[i])
    ensures Holds(Run(Adds(ds)), ds)
  {
    if ds != [] {
      var n := |ds| - 1;
      AddsRegister(ds[..n]);
      RunOneMore(ds[..n], ds[n]);
      HoldsOneMore(Run(Adds(ds[..n])), ds[..n], ds[n]);
      assert ds == ds[..n] + [ds[n]];
    }
  }

  lemma RunOneMore(ds: seq<SkillDef>, d: SkillDef)
    ensures Run(Adds(ds + [d])) == Apply(Run(Adds(ds)), Plainly(d))
  {
    assert (ds + [d])[..|ds|] == ds;
    assert Adds(ds + [d]) == Adds(ds) + [Plainly(d)];
    assert (Adds(ds) + [Plainly(d)])[..|ds|] == Adds(ds);
  }

  ghost predicate Breaks(ds: seq<SkillDef>, hash: SkillDef -> string) {
    || (|ds| == 2 && Twins(hash, ds[0], ds[1]))
    || (|ds| == 4 && Chain(hash, ds[0], ds[1], ds[2], ds[3]))
  }

  lemma Unsafe(allowed: set<SkillDef>, hash: SkillDef -> string) returns (ds: seq<SkillDef>)
    requires !Safe(allowed, hash)
    ensures Breaks(ds, hash) && forall i :: 0 <= i < |ds| ==> ds[i] in allowed
  {
    if d, d' :| d in allowed && d' in allowed && Twins(hash, d, d') {
      return [d, d'];
    }
    var d1, d2, d3, d4 :| d1 in allowed && d2 in allowed && d3 in allowed && d4 in allowed && Chain(hash, d1, d2, d3, d4);
    ds := FourOf(hash, d1, d2, d3, d4);
  }

  lemma FourOf(hash: SkillDef -> string, d1: SkillDef, d2: SkillDef, d3: SkillDef, d4: SkillDef) returns (ds: seq<SkillDef>)
    requires Chain(hash, d1, d2, d3, d4)
    ensures ds == [d1, d2, d3, d4] && Breaks(ds, hash)
  {
    ds := [d1, d2, d3, d4];
    assert ds[0] == d1 && ds[1] == d2 && ds[2] == d3 && ds[3] == d4;
  }

  lemma BrokenRun(ds: seq<SkillDef>, allowed: set<SkillDef>, hash: SkillDef -> string)
    requires HexHash(hash) && NoNul(allowed) && Breaks(ds, hash) && forall i :: 0 <= i < |ds| ==> ds[i] in allowed
    ensures AddsWithin(Adds(ds), allowed) && !HandlesWork(Run(Adds(ds)).defs, hash)
  {
    BreaksIsNoDup(ds, hash);
    AddsRegister(ds);
    RunIsWellFormed(Adds(ds), hash);
    BrokenRegistry(Run(Adds(ds)), ds, allowed, hash);
    AddsStayWithin(ds, allowed);
  }

  lemma AddsStayWithin(ds: seq<SkillDef>, allowed: set<SkillDef>)
    requires forall i :: 0 <= i < |ds| ==> ds[i] in allowed
    ensures AddsWithin(Adds(ds), allowed)
  {
    var ops := Adds(ds);
    assert forall i :: 0 <= i < |ds| ==> ops[i] == Plainly(ds[i]);
  }

  lemma BrokenRegistry(r: Registry, ds: seq<SkillDef>, allowed: set<SkillDef>, hash: SkillDef -> string)
    requires Holds(r, ds) && WellFormed(r.defs, hash) && Breaks(ds, hash)
    requires NoNul(allowed) && forall i :: 0 <= i < |ds| ==> ds[i] in allowed
    ensures !HandlesWork(r.defs, hash)
  {
    assert NulFree(r.defs);
    if |ds| == 2 {
      TwinsCollide(r, hash, ds);
    } else {
      ChainOverruns(r, hash, ds);
    }
    HandleIndexIsBijectionIff(r.defs, hash);
  }

  lemma TwinsCollide(r: Registry, hash: SkillDef -> string, ds: seq<SkillDef>)
    requires |ds| == 2 && Twins(hash, ds[0], ds[1]) && Holds(r, ds)
    ensures !NoGroupCollision(r.defs, hash)
  {
    var k, k' := KeyOf(ds[0]), KeyOf(ds[1]);
    assert k in r.defs && k' in r.defs && k != k' && SameGroup(r.defs[k], r.defs[k']);
  }

  lemma BreaksIsNoDup(ds: seq<SkillDef>, hash: SkillDef -> string)
    requires Breaks(ds, hash)
    ensures NoDup(ds) && forall i :: 0 <= i < |ds| ==> Admissible(ds[i])
  {
    if |ds| == 4 {
      ChainLengthens(hash, ds[0], ds[1], ds[2], ds[3]);
      FourDiffer(ds);
    }
  }

  lemma FourDiffer(ds: seq<SkillDef>)
    requires |ds| == 4 && ds[0] != ds[1] && |ds[0].name| == |ds[1].name| < |ds[2].name| < |ds[3].name|
    ensures NoDup(ds)
  {}

  lemma ChainLengthens(hash: SkillDef -> string, d1: SkillDef, d2: SkillDef, d3: SkillDef, d4: SkillDef)
    requires Chain(hash, d1, d2, d3, d4)
    ensures |d1.name| == |d2.name| < |d3.name| < |d4.name|
  {
    HashedLonger(hash, d1);
    HashedLonger(hash, d3);
  }

  lemma ChainOverruns(r: Registry, hash: SkillDef -> string, ds: seq<SkillDef>)
    requires WellFormed(r.defs, hash) && NulFree(r.defs) && Holds(r, ds)
    requires |ds| == 4 && Chain(hash, ds[0], ds[1], ds[2], ds[3])
    ensures !NoOverrun(r.defs, hash)
  {
    ChainLengthens(hash, ds[0], ds[1], ds[2], ds[3]);
    ChainPlaced(r, ds);
    KeysOverrun(r.defs, hash, KeyOf(ds[0]), KeyOf(ds[2]), KeyOf(ds[3]));
  }

  lemma ChainPlaced(r: Registry, ds: seq<SkillDef>)
    requires Holds(r, ds) && |ds| == 4 && ds[0] != ds[1] && SameGroup(ds[0], ds[1])
    requires |ds[0].name| == |ds[1].name| < |ds[2].name| < |ds[3].name|
    ensures forall i :: 0 <= i < 4 ==> KeyOf(ds[i]) in r.defs && r.defs[KeyOf(ds[i])] == ds[i]
    ensures Shared(r.defs, KeyOf(ds[0])) && !Shared(r.defs, KeyOf(ds[2])) && !Shared(r.defs, KeyOf(ds[3]))
  {
    assert forall i :: 0 <= i < 4 ==> ds[i] in ds;
    Together(r, ds, 0, 1);
    Alone(r, ds, 2);
    Alone(r, ds, 3);
  }

  lemma KeysOverrun(defs: Defs, hash: SkillDef -> string, k1: Key, k3: Key, k4: Key)
    requires WellFormed(defs, hash) && NulFree(defs) && k1 in defs && k3 in defs && k4 in defs
    requires Shared(defs, k1) && !Shared(defs, k3) && !Shared(defs, k4)
    requires defs[k1].location == defs[k3].location == defs[k4].location
    requires defs[k3].name == Hashed(hash, defs[k1]) && defs[k4].name == Hashed(hash, defs[k3])
    ensures !NoOverrun(defs, hash)
  {
    assert NamedAsHashed(defs, hash, k3);
    OverrunsIff(defs, hash, k3, k4);
  }

  lemma Together(r: Registry, ds: seq<SkillDef>, n: nat, m: nat)
    requires Holds(r, ds) && n < |ds| && m < |ds| && ds[n] != ds[m] && SameGroup(ds[n], ds[m])
    ensures KeyOf(ds[n]) in r.defs && r.defs[KeyOf(ds[n])] == ds[n] && Shared(r.defs, KeyOf(ds[n]))
  {
    assert ds[n] in ds && ds[m] in ds;
    assert SameGroup(r.defs[KeyOf(ds[m])], r.defs[KeyOf(ds[n])]);
  }

  /** A name of a length of its own is nobody else's. */
  lemma Alone(r: Registry, ds: seq<SkillDef>, n: nat)
    requires Holds(r, ds) && n < |ds|
    requires forall i :: 0 <= i < |ds| && i != n ==> |ds[i].name| != |ds[n].name|
    ensures KeyOf(ds[n]) in r.defs && r.defs[KeyOf(ds[n])] == ds[n] && !Shared(r.defs, KeyOf(ds[n]))
  {
    assert ds[n] in ds;
  }

  /** In a catalog that such a run led to, every handle given out leads back. */
  lemma ResolvesAfterRun(c: Catalog, ops: seq<Op>, allowed: set<SkillDef>, k: Key)
    requires c.Valid() && RegistryOf(c) == Run(ops)
    requires HexHash(c.hash) && NoNul(allowed) && Safe(allowed, c.hash) && AddsWithin(ops, allowed) && k in c.byKey
    ensures Resolve(c.handleIndex, SkillHandle(c.byKey[k].llmName, c.byKey[k].def.location)) == Some(k)
  {
    SafeRun(ops, allowed, c.hash);
    assert c.byKey[k].llmName == LlmName(DefsOf(c.byKey), c.hash, k);
    assert Resolve(c.handleIndex, HandleOf(DefsOf(c.byKey), c.hash, k)) == Some(k);
  }
}
