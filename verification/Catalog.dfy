/** The skill catalog of internal/catalog/catalog.go.  Every method is one critical section under
    the catalog mutex; its effect on bodies is the pure function of the same name in
    `BodyLoading`, its effect on handles is `HandleNames`. */
module Catalogs {
  import opened SkillTypes
  import opened Text
  import opened HandleNames
  import BL = BodyLoading

  datatype Entry = Entry(def: SkillDef, insert: SkillInsert, llmName: string, slot: BL.Slot)

  /** What the provider's Index call answered; `insert` is None for an unsupported value. */
  datatype Indexed = NoProvider | IndexFailed | Indexed(key: Key, insert: Option<SkillInsert>, skillBody: string)

  datatype AddError = InvalidArgument | ProviderMissing | ProviderFailed | AlreadyExists

  /** The checks Add makes before it takes the lock. */
  function AddGuard(def: SkillDef, idx: Indexed): Option<AddError> {
    if Blank(def.kind) || Blank(def.name) || Blank(def.location) then Some(InvalidArgument)
    else match idx
      case NoProvider => Some(ProviderMissing)
      case IndexFailed => Some(ProviderFailed)
      case Indexed(key, insert, _) =>
        if key.kind != def.kind || key.name != def.name then Some(InvalidArgument)
        else if Blank(key.kind) || Blank(key.name) || Blank(key.location) then Some(InvalidArgument)
        else if insert.None? then Some(InvalidArgument)
        else None
  }

  function DefsOf(byKey: map<Key, Entry>): Defs {
    map k | k in byKey :: byKey[k].def
  }

  function SlotsOf(byKey: map<Key, Entry>): map<Key, BL.Slot> {
    map k | k in byKey :: byKey[k].slot
  }

  function InsertsOf(byKey: map<Key, Entry>): map<Key, SkillInsert> {
    map k | k in byKey :: byKey[k].insert
  }

  /** byKey and byDef are mutual inverses. */
  ghost predicate LinkedMaps(byKey: map<Key, Entry>, byDef: map<SkillDef, Key>) {
    && (forall k :: k in byKey ==>
          k.kind == byKey[k].def.kind && k.name == byKey[k].def.name && byKey[k].def in byDef && byDef[byKey[k].def] == k)
    && (forall d :: d in byDef ==> byDef[d] in byKey && byKey[byDef[d]].def == d)
  }

  lemma LinkOneMore(byKey: map<Key, Entry>, byDef: map<SkillDef, Key>, k: Key, e: Entry)
    requires LinkedMaps(byKey, byDef) && k !in byKey && e.def !in byDef && k.kind == e.def.kind && k.name == e.def.name
    ensures LinkedMaps(byKey[k := e], byDef[e.def := k])
  {}

  lemma PartsOneMore(byKey: map<Key, Entry>, k: Key, e: Entry)
    ensures DefsOf(byKey[k := e]) == DefsOf(byKey)[k := e.def]
    ensures SlotsOf(byKey[k := e]) == SlotsOf(byKey)[k := e.slot]
    ensures InsertsOf(byKey[k := e]) == InsertsOf(byKey)[k := e.insert]
  {}

  lemma UndoOneMore<X, Y>(m: map<X, Y>, x: X, y: Y)
    requires x !in m
    ensures m[x := y] - {x} == m
  {}

  lemma LinkOneLess(byKey: map<Key, Entry>, byDef: map<SkillDef, Key>, d: SkillDef)
    requires LinkedMaps(byKey, byDef) && d in byDef
    ensures LinkedMaps(byKey - {byDef[d]}, byDef - {d})
    ensures DefsOf(byKey - {byDef[d]}) == DefsOf(byKey) - {byDef[d]}
    ensures SlotsOf(byKey - {byDef[d]}) == SlotsOf(byKey) - {byDef[d]}
    ensures InsertsOf(byKey - {byDef[d]}) == InsertsOf(byKey) - {byDef[d]}
  {}

  /** The same entries, except perhaps for their names. */
  ghost predicate Renamed(a: map<Key, Entry>, b: map<Key, Entry>) {
    a.Keys == b.Keys && forall k :: k in a ==> b[k] == a[k].(llmName := b[k].llmName)
  }

  /** Every entry carries the name of the first pass. */
  ghost predicate FirstNamed(byKey: map<Key, Entry>, hash: SkillDef -> string) {
    forall k {:trigger FirstName(DefsOf(byKey), hash, k)} :: k in byKey ==>
      byKey[k].llmName == FirstName(DefsOf(byKey), hash, k)
  }

  /** Every entry carries its final name. */
  ghost predicate FinallyNamed(byKey: map<Key, Entry>, hash: SkillDef -> string) {
    forall k {:trigger LlmName(DefsOf(byKey), hash, k)} :: k in byKey ==>
      byKey[k].llmName == LlmName(DefsOf(byKey), hash, k)
  }

  lemma NamesKept(a: map<Key, Entry>, b: map<Key, Entry>, hash: SkillDef -> string)
    requires FinallyNamed(a, hash) && DefsOf(a) == DefsOf(b)
    requires a.Keys == b.Keys && forall k :: k in a ==> a[k].llmName == b[k].llmName
    ensures FinallyNamed(b, hash)
  {
    forall k | k in b ensures b[k].llmName == LlmName(DefsOf(b), hash, k) {
      assert a[k].llmName == LlmName(DefsOf(a), hash, k);
    }
  }

  lemma RenamedKeepsDefs(a: map<Key, Entry>, b: map<Key, Entry>)
    requires Renamed(a, b)
    ensures DefsOf(a) == DefsOf(b) && SlotsOf(a) == SlotsOf(b) && InsertsOf(a) == InsertsOf(b)
  {}

  /** Entries are determined by what they hold besides their names, which the definitions fix. */
  lemma EntriesDetermined(a: map<Key, Entry>, b: map<Key, Entry>, hash: SkillDef -> string)
    requires DefsOf(a) == DefsOf(b) && SlotsOf(a) == SlotsOf(b) && InsertsOf(a) == InsertsOf(b)
    requires FinallyNamed(a, hash) && FinallyNamed(b, hash)
    ensures a == b
  {
    forall k | k in a ensures k in b && a[k] == b[k] {
      assert k in DefsOf(a) && k in DefsOf(b) && DefsOf(a)[k] == a[k].def && DefsOf(b)[k] == b[k].def;
      assert SlotsOf(a)[k] == a[k].slot && SlotsOf(b)[k] == b[k].slot;
      assert InsertsOf(a)[k] == a[k].insert && InsertsOf(b)[k] == b[k].insert;
      assert a[k].llmName == LlmName(DefsOf(a), hash, k) && b[k].llmName == LlmName(DefsOf(b), hash, k);
    }
    forall k | k in b ensures k in a { assert k in DefsOf(b) && k in DefsOf(a); }
  }

  lemma AtMostOne<T>(s: set<T>, a: T, b: T)
    requires |s| == 1 && a in s && b in s
    ensures a == b
  {
    assert |s - {a}| == 0;
    assert b !in s - {a};
  }

  lemma MoreThanOne<T>(s: set<T>, a: T)
    requires |s| > 1 && a in s
    ensures exists b :: b in s && b != a
  {
    assert |s - {a}| > 0;
    var b :| b in s - {a};
  }

  lemma RenamedTwice(a: map<Key, Entry>, b: map<Key, Entry>, c: map<Key, Entry>, byDef: map<SkillDef, Key>)
    requires Renamed(a, b) && Renamed(b, c) && LinkedMaps(a, byDef)
    ensures Renamed(a, c) && LinkedMaps(c, byDef)
  {}

  /** Entries that have gained a key and lost it again, up to names. */
  lemma EntriesRestored(a: map<Key, Entry>, b: map<Key, Entry>, k: Key, d: SkillDef, i: SkillInsert, slot: BL.Slot, hash: SkillDef -> string)
    requires k !in a && FinallyNamed(a, hash) && FinallyNamed(b, hash)
    requires DefsOf(b) == DefsOf(a)[k := d] - {k} && InsertsOf(b) == InsertsOf(a)[k := i] - {k}
    requires SlotsOf(b) == SlotsOf(a)[k := slot] - {k}
    ensures b == a
  {
    UndoOneMore(DefsOf(a), k, d);
    UndoOneMore(InsertsOf(a), k, i);
    UndoOneMore(SlotsOf(a), k, slot);
    EntriesDetermined(a, b, hash);
  }

  datatype Group = Group(name: string, location: string)

  function GroupIn(byKey: map<Key, Entry>, k: Key): Group
    requires k in byKey
  {
    Group(k.name, byKey[k].def.location)
  }

  ghost predicate NamesAgree(byKey: map<Key, Entry>) {
    forall k :: k in byKey ==> k.name == byKey[k].def.name
  }

  lemma SharedMeansTwo(byKey: map<Key, Entry>, members: set<Key>, g: Group, k: Key)
    requires NamesAgree(byKey) && k in members && members == set k | k in byKey && GroupIn(byKey, k) == g
    ensures Shared(DefsOf(byKey), k) <==> |members| != 1
  {
    var defs := DefsOf(byKey);
    if Shared(defs, k) {
      var k' :| k' in defs && k' != k && SameGroup(defs[k'], defs[k]);
      assert k' in members;
      if |members| == 1 { AtMostOne(members, k, k'); }
    }
    if |members| != 1 {
      MoreThanOne(members, k);
      var k' :| k' in members && k' != k;
      assert SameGroup(defs[k'], defs[k]);
    }
  }

  function CountKeyOf(e: Entry): string { CountKey(e.llmName, e.def.location) }

  ghost function Sharing(byKey: map<Key, Entry>, name: string, among: set<Key>): set<Key> {
    set k | k in among && k in byKey && CountKeyOf(byKey[k]) == name
  }

  lemma SharingStep(byKey: map<Key, Entry>, done: set<Key>, k: Key)
    requires k in byKey && k !in done
    ensures |Sharing(byKey, CountKeyOf(byKey[k]), done + {k})| == |Sharing(byKey, CountKeyOf(byKey[k]), done)| + 1
    ensures forall s {:trigger Sharing(byKey, s, done + {k})} :: s != CountKeyOf(byKey[k]) ==>
      Sharing(byKey, s, done + {k}) == Sharing(byKey, s, done)
  {
    var s := CountKeyOf(byKey[k]);
    assert Sharing(byKey, s, done + {k}) == Sharing(byKey, s, done) + {k};
  }

  lemma CountMeansClash(byKey: map<Key, Entry>, hash: SkillDef -> string, k: Key)
    requires FirstNamed(byKey, hash) && k in byKey
    ensures Clashes(DefsOf(byKey), hash, k) <==> |Sharing(byKey, CountKeyOf(byKey[k]), byKey.Keys)| > 1
  {
    var defs := DefsOf(byKey);
    var sharing := Sharing(byKey, CountKeyOf(byKey[k]), byKey.Keys);
    assert k in sharing;
    assert byKey[k].llmName == FirstName(defs, hash, k);
    if Clashes(defs, hash, k) {
      var k' :| k' in defs && k' != k &&
        CountKey(FirstName(defs, hash, k'), defs[k'].location) == CountKey(FirstName(defs, hash, k), defs[k].location);
      assert k' in sharing;
      if |sharing| == 1 { AtMostOne(sharing, k, k'); }
    }
    if |sharing| > 1 {
      MoreThanOne(sharing, k);
      var k' :| k' in sharing && k' != k;
      assert byKey[k'].llmName == FirstName(defs, hash, k');
    }
  }

  class Catalog {
    const hash: SkillDef -> string
    var byKey: map<Key, Entry>
    var byDef: map<SkillDef, Key>
    var handleIndex: map<SkillHandle, Key>
    var closed: set<BL.Chan>
    var panicked: bool
    var regs: nat
    var chans: nat

    ghost predicate Linked()
      reads this
    {
      LinkedMaps(byKey, byDef)
    }

    /** Names and index are the ones the current definitions call for. */
    ghost predicate Named()
      reads this
    {
      && FinallyNamed(byKey, hash)
      && IndexOk(handleIndex, DefsOf(byKey), hash)
    }

    ghost predicate Valid()
      reads this
    {
      Linked() && Named()
    }

    ghost function Bodies(): BL.Bodies
      reads this
    {
      BL.Bodies(SlotsOf(byKey), closed, panicked, regs, chans)
    }

    constructor (hash: SkillDef -> string)
      ensures Valid() && byKey == map[] && Bodies() == BL.INIT.b && this.hash == hash
    {
      this.hash := hash;
      byKey, byDef, handleIndex := map[], map[], map[];
      closed, panicked, regs, chans := {}, false, 0, 0;
    }

    // ----- Names ---------------------------------------------------------------------------

    /** Collect the entries by (name, location). */
    method GroupKeys() returns (groups: map<Group, set<Key>>)
      ensures forall k :: k in byKey ==> GroupIn(byKey, k) in groups
      ensures forall g :: g in groups ==> groups[g] != {} && groups[g] == set k | k in byKey && GroupIn(byKey, k) == g
    {
      groups := map[];
      var todo := byKey.Keys;
      while todo != {}
        invariant todo <= byKey.Keys
        invariant forall k :: k in byKey.Keys - todo ==> GroupIn(byKey, k) in groups
        invariant forall g :: g in groups ==> groups[g] != {} && groups[g] == set k | k in byKey.Keys - todo && GroupIn(byKey, k) == g
      {
        var k :| k in todo;
        var g := GroupIn(byKey, k);
        groups := groups[g := (if g in groups then groups[g] else {}) + {k}];
        todo := todo - {k};
      }
    }

    /** First pass: the plain name when the group has one member, a hashed one otherwise. */
    method FirstPass(groups: map<Group, set<Key>>)
      requires NamesAgree(byKey)
      requires forall k :: k in byKey ==> GroupIn(byKey, k) in groups
      requires forall g :: g in groups ==> groups[g] != {} && groups[g] == set k | k in byKey && GroupIn(byKey, k) == g
      modifies this`byKey
      ensures Renamed(old(byKey), byKey)
      ensures FirstNamed(byKey, hash)
    {
      ghost var defs := DefsOf(byKey);
      var todo := groups.Keys;
      while todo != {}
        invariant todo <= groups.Keys
        invariant Renamed(old(byKey), byKey) && DefsOf(byKey) == defs
        invariant forall k {:trigger FirstName(defs, hash, k)} :: k in byKey && GroupIn(byKey, k) !in todo ==>
          byKey[k].llmName == FirstName(defs, hash, k)
      {
        var g :| g in todo;
        var members := groups[g];
        ghost var before := byKey;
        NameGroup(g, members);
        RenamedKeepsDefs(before, byKey);
        todo := todo - {g};
      }
    }

    method NameGroup(g: Group, members: set<Key>)
      requires NamesAgree(byKey) && members != {} && members == set k | k in byKey && GroupIn(byKey, k) == g
      modifies this`byKey
      ensures Renamed(old(byKey), byKey)
      ensures forall k :: k in byKey && GroupIn(byKey, k) != g ==> byKey[k] == old(byKey)[k]
      ensures forall k {:trigger FirstName(DefsOf(byKey), hash, k)} :: k in members ==>
        byKey[k].llmName == FirstName(DefsOf(byKey), hash, k)
    {
      ghost var before := byKey;
      var single := |members| == 1;
      var todo := members;
      while todo != {}
        invariant todo <= members
        invariant Renamed(before, byKey)
        invariant forall k :: k in byKey && k !in members ==> byKey[k] == before[k]
        invariant forall k :: k in members - todo ==>
          byKey[k].llmName == if single then k.name else Hashed(hash, byKey[k].def)
      {
        var k :| k in todo;
        var e := byKey[k];
        byKey := byKey[k := e.(llmName := if single then k.name else Hashed(hash, e.def))];
        todo := todo - {k};
      }
      RenamedKeepsDefs(before, byKey);
      forall k | k in members ensures byKey[k].llmName == FirstName(DefsOf(byKey), hash, k) {
        SharedMeansTwo(before, members, g, k);
      }
    }

    /** How many entries carry each (name, location). */
    method CountNames() returns (count: map<string, nat>)
      ensures forall k :: k in byKey ==>
        var s := CountKeyOf(byKey[k]);
        s in count && count[s] == |Sharing(byKey, s, byKey.Keys)|
    {
      count := map[];
      var todo := byKey.Keys;
      while todo != {}
        invariant todo <= byKey.Keys
        invariant forall s :: s in count ==> count[s] == |Sharing(byKey, s, byKey.Keys - todo)|
        invariant forall s :: s !in count ==> Sharing(byKey, s, byKey.Keys - todo) == {}
      {
        var k :| k in todo;
        var s := CountKeyOf(byKey[k]);
        assert byKey.Keys - (todo - {k}) == (byKey.Keys - todo) + {k};
        SharingStep(byKey, byKey.Keys - todo, k);
        count := count[s := (if s in count then count[s] else 0) + 1];
        todo := todo - {k};
      }
      assert byKey.Keys - todo == byKey.Keys;
      forall k | k in byKey
        ensures var s := CountKeyOf(byKey[k]);
                s in count && count[s] == |Sharing(byKey, s, byKey.Keys)|
      {
        assert k in Sharing(byKey, CountKeyOf(byKey[k]), byKey.Keys);
      }
    }

    /** Second pass: rename what was counted more than once. */
    method SecondPass(count: map<string, nat>)
      requires FirstNamed(byKey, hash)
      requires forall k :: k in byKey ==>
        var s := CountKeyOf(byKey[k]);
        s in count && count[s] == |Sharing(byKey, s, byKey.Keys)|
      modifies this`byKey
      ensures Renamed(old(byKey), byKey)
      ensures FinallyNamed(byKey, hash)
    {
      ghost var before := byKey;
      var todo := byKey.Keys;
      while todo != {}
        invariant todo <= byKey.Keys
        invariant Renamed(before, byKey)
        invariant forall k :: k in todo ==> byKey[k] == before[k]
        invariant forall k :: k in byKey.Keys - todo ==>
          byKey[k].llmName == if count[CountKeyOf(before[k])] > 1
                              then Hashed(hash, before[k].def) else before[k].llmName
      {
        var k :| k in todo;
        var e := byKey[k];
        if count[CountKeyOf(e)] > 1 {
          byKey := byKey[k := e.(llmName := Hashed(hash, e.def))];
        }
        todo := todo - {k};
      }
      RenamedKeepsDefs(before, byKey);
      forall k | k in byKey ensures byKey[k].llmName == LlmName(DefsOf(byKey), hash, k) {
        CountMeansClash(before, hash, k);
        assert before[k].llmName == FirstName(DefsOf(before), hash, k);
      }
    }

    method RebuildIndex()
      requires Linked() && FinallyNamed(byKey, hash)
      modifies this`handleIndex
      ensures Valid()
    {
      ghost var defs := DefsOf(byKey);
      handleIndex := map[];
      var todo := byKey.Keys;
      while todo != {}
        invariant todo <= byKey.Keys
        invariant forall h :: h in handleIndex ==> handleIndex[h] in defs && HandleOf(defs, hash, handleIndex[h]) == h
        invariant forall k {:trigger HandleOf(defs, hash, k)} :: k in byKey.Keys - todo ==> HandleOf(defs, hash, k) in handleIndex
      {
        var k :| k in todo;
        assert byKey[k].llmName == LlmName(defs, hash, k);
        handleIndex := handleIndex[SkillHandle(byKey[k].llmName, byKey[k].def.location) := k];
        todo := todo - {k};
      }
    }

    /** recomputeLLMNamesLocked: whatever names and index were there before, afterwards they are
        functions of the definitions. */
    method RecomputeNames()
      requires Linked()
      modifies this`byKey, this`handleIndex
      ensures Renamed(old(byKey), byKey) && Valid()
    {
      ghost var before := byKey;
      var groups := GroupKeys();
      FirstPass(groups);
      ghost var middle := byKey;
      var count := CountNames();
      SecondPass(count);
      RenamedTwice(before, middle, byKey, byDef);
      RebuildIndex();
    }

    // ----- Lifecycle -----------------------------------------------------------------------

    /** Add fails without a trace, or registers exactly the new pair; no other entry changes but in
        its name. */
    method Add(def: SkillDef, idx: Indexed) returns (error: Option<AddError>)
      requires Valid()
      modifies this`byKey, this`byDef, this`handleIndex, this`regs
      ensures Valid()
      ensures error == match AddGuard(def, idx)
                       case Some(e) => Some(e)
                       case None => if idx.key in old(byKey) || def in old(byDef) then Some(AlreadyExists) else None
      ensures error.Some? ==> byKey == old(byKey) && byDef == old(byDef) && handleIndex == old(handleIndex) && regs == old(regs)
      ensures error.None? ==>
        && DefsOf(byKey) == old(DefsOf(byKey))[idx.key := def]
        && InsertsOf(byKey) == old(InsertsOf(byKey))[idx.key := idx.insert.value]
        && byDef == old(byDef)[def := idx.key]
        && Bodies() == BL.AddEntry(old(Bodies()), idx.key, idx.skillBody)
    {
      error := AddGuard(def, idx);
      if error.Some? { return; }
      if idx.key in byKey || def in byDef {
        error := Some(AlreadyExists);
        return;
      }
      Admit(def, idx.key, idx.insert.value, idx.skillBody);
    }

    /** The registration itself; a non-empty body counts as loaded. */
    method Admit(def: SkillDef, key: Key, insert: SkillInsert, skillBody: string)
      requires Valid() && key !in byKey && def !in byDef && key.kind == def.kind && key.name == def.name
      modifies this`byKey, this`byDef, this`handleIndex, this`regs
      ensures Valid()
      ensures DefsOf(byKey) == old(DefsOf(byKey))[key := def] && InsertsOf(byKey) == old(InsertsOf(byKey))[key := insert]
      ensures byDef == old(byDef)[def := key]
      ensures Bodies() == BL.AddEntry(old(Bodies()), key, skillBody)
    {
      var slot := BL.Slot(regs, if skillBody == "" then None else Some(skillBody), None, None);
      Register(key, Entry(def, insert, "", slot));
      regs := regs + 1;
    }

    method Register(key: Key, e: Entry)
      requires Linked() && key !in byKey && e.def !in byDef && key.kind == e.def.kind && key.name == e.def.name
      modifies this`byKey, this`byDef, this`handleIndex
      ensures Valid()
      ensures DefsOf(byKey) == old(DefsOf(byKey))[key := e.def]
      ensures SlotsOf(byKey) == old(SlotsOf(byKey))[key := e.slot]
      ensures InsertsOf(byKey) == old(InsertsOf(byKey))[key := e.insert]
      ensures byDef == old(byDef)[e.def := key]
    {
      LinkOneMore(byKey, byDef, key, e);
      PartsOneMore(byKey, key, e);
      byKey := byKey[key := e];
      byDef := byDef[e.def := key];
      ghost var before := byKey;
      RecomputeNames();
      RenamedKeepsDefs(before, byKey);
    }

    /** Remove undoes Add for exactly this definition; the branch that repairs drift between the two
        maps is never taken. */
    method Remove(def: SkillDef) returns (removed: Option<Key>)
      requires Valid()
      modifies this`byKey, this`byDef, this`handleIndex, this`closed, this`panicked
      ensures Valid()
      ensures removed == if def in old(byDef) then Some(old(byDef)[def]) else None
      ensures removed.None? ==> byKey == old(byKey) && byDef == old(byDef) && handleIndex == old(handleIndex) &&
                                Bodies() == old(Bodies())
      ensures removed.Some? ==>
        && removed.value in old(byKey)
        && DefsOf(byKey) == old(DefsOf(byKey)) - {removed.value}
        && InsertsOf(byKey) == old(InsertsOf(byKey)) - {removed.value}
        && byDef == old(byDef) - {def}
        && Bodies() == BL.RemoveEntry(old(Bodies()), removed.value)
    {
      if def !in byDef { return None; }
      var canon := byDef[def];
      if canon !in byKey {
        assert false;  // drift between the two maps, which the code would repair here
      }
      var e := byKey[canon];
      if e.slot.wait.Some? {
        var ch := e.slot.wait.value;
        panicked := panicked || ch in closed;
        closed := closed + {ch};
      }
      Unregister(def);
      return Some(canon);
    }

    method Unregister(def: SkillDef)
      requires Linked() && def in byDef
      modifies this`byKey, this`byDef, this`handleIndex
      ensures Valid()
      ensures DefsOf(byKey) == old(DefsOf(byKey)) - {old(byDef)[def]}
      ensures SlotsOf(byKey) == old(SlotsOf(byKey)) - {old(byDef)[def]}
      ensures InsertsOf(byKey) == old(InsertsOf(byKey)) - {old(byDef)[def]}
      ensures byDef == old(byDef) - {def}
    {
      LinkOneLess(byKey, byDef, def);
      var e := byKey[byDef[def]];
      byKey := byKey - {byDef[def]};
      byDef := byDef - {e.def};
      ghost var before := byKey;
      RecomputeNames();
      RenamedKeepsDefs(before, byKey);
    }

    /** Taking a definition out again leaves entries, maps and index as if it had never been there. */
    method AddThenRemove(def: SkillDef, idx: Indexed) returns (error: Option<AddError>)
      requires Valid()
      requires WellFormed(DefsOf(byKey), hash) && NoGroupCollision(DefsOf(byKey), hash) && NoOverrun(DefsOf(byKey), hash)
      modifies this
      ensures Valid()
      ensures byKey == old(byKey) && byDef == old(byDef) && handleIndex == old(handleIndex)
      ensures closed == old(closed) && panicked == old(panicked)
    {
      ghost var entries, byDef0, index := byKey, byDef, handleIndex;
      assert IndexOk(index, DefsOf(entries), hash) && FinallyNamed(entries, hash);
      error := Add(def, idx);
      if error.None? {
        ghost var slot := SlotsOf(byKey)[idx.key];
        var k := Remove(def);
        EntriesRestored(entries, byKey, idx.key, def, idx.insert.value, slot, hash);
        UndoOneMore(byDef0, def, idx.key);
        IndexIsDetermined(index, handleIndex, DefsOf(entries), hash);
      }
    }

    // ----- Lookups -------------------------------------------------------------------------

    /** A handle resolves exactly when some registered key carries it in its trimmed form, and then to
        such a key. */
    method ResolveHandle(h: SkillHandle) returns (k: Option<Key>)
      requires Valid()
      ensures var trimmed := SkillHandle(TrimSpace(h.name), TrimSpace(h.location));
              && (k.Some? <==> exists x :: x in byKey && HandleOf(DefsOf(byKey), hash, x) == trimmed)
              && (k.Some? ==> k.value in byKey && HandleOf(DefsOf(byKey), hash, k.value) == trimmed)
      ensures k == Resolve(handleIndex, h)
    {
      NothingElseResolves(handleIndex, DefsOf(byKey), hash, h);
      var n := SkillHandle(TrimSpace(h.name), TrimSpace(h.location));
      k := if n in handleIndex then Some(handleIndex[n]) else None;
    }

    method HandleForKey(k: Key) returns (h: Option<SkillHandle>)
      requires Valid()
      ensures h == if k in byKey then Some(HandleOf(DefsOf(byKey), hash, k)) else None
    {
      assert k in byKey ==> byKey[k].llmName == LlmName(DefsOf(byKey), hash, k);
      h := if k in byKey then Some(SkillHandle(byKey[k].llmName, byKey[k].def.location)) else None;
    }

    /** A handle given out for a key leads back to that key. */
    method HandleThereAndBack(k: Key) returns (back: Option<Key>)
      requires Valid() && k in byKey
      requires WellFormed(DefsOf(byKey), hash) && NoGroupCollision(DefsOf(byKey), hash) && NoOverrun(DefsOf(byKey), hash)
      ensures back == Some(k)
    {
      var h := HandleForKey(k);
      back := ResolveHandle(h.value);
      IndexRoundTrips(handleIndex, DefsOf(byKey), hash);
    }

    // ----- Bodies --------------------------------------------------------------------------

    /** EnsureBody's critical section. */
    method Inspect(k: Key) returns (look: BL.Look)
      requires Valid()
      modifies this`byKey, this`chans
      ensures Valid() && DefsOf(byKey) == old(DefsOf(byKey)) && InsertsOf(byKey) == old(InsertsOf(byKey))
      ensures (Bodies(), look) == BL.Inspect(old(Bodies()), k)
      ensures look.Missing? <==> k !in old(byKey)
      ensures k in old(byKey) ==>
        var slot := old(byKey[k].slot);
        && (slot.body.Some? ==> look == BL.Cached(slot.body.value))
        && (slot.body.None? && slot.err.Some? ==> look == BL.Stored(slot.err.value))
        && (slot.body.None? && slot.err.None? && slot.wait.Some? ==> look == BL.WaitFor(slot.wait.value))
        && (look.Lead? <==> slot.body.None? && slot.err.None? && slot.wait.None?)
        && SlotsOf(byKey)[k] == if look.Lead? then slot.(wait := Some(look.ch)) else slot
    {
      if k !in byKey { return BL.Missing; }
      var e := byKey[k];
      if e.slot.body.Some? { return BL.Cached(e.slot.body.value); }
      if e.slot.err.Some? { return BL.Stored(e.slot.err.value); }
      if e.slot.wait.Some? { return BL.WaitFor(e.slot.wait.value); }
      var ch := chans;
      chans := chans + 1;
      SetSlot(k, e.slot.(wait := Some(ch)));
      return BL.Lead(ch);
    }

    method SetSlot(k: Key, slot: BL.Slot)
      requires Valid() && k in byKey
      modifies this`byKey
      ensures Valid() && DefsOf(byKey) == old(DefsOf(byKey)) && InsertsOf(byKey) == old(InsertsOf(byKey))
      ensures SlotsOf(byKey) == old(SlotsOf(byKey))[k := slot]
    {
      byKey := byKey[k := byKey[k].(slot := slot)];
      assert DefsOf(byKey) == old(DefsOf(byKey)) && InsertsOf(byKey) == old(InsertsOf(byKey));
      NamesKept(old(byKey), byKey, hash);
    }

    /** finishBodyLoad. */
    method FinishBodyLoad(k: Key, ch: BL.Chan, res: BL.LoadResult)
      requires Valid()
      modifies this`byKey, this`closed, this`panicked
      ensures Valid() && DefsOf(byKey) == old(DefsOf(byKey)) && InsertsOf(byKey) == old(InsertsOf(byKey))
      ensures Bodies() == BL.Finish(old(Bodies()), k, ch, res)
    {
      if k !in byKey { return; }
      var slot := byKey[k].slot;
      if slot.wait != Some(ch) { return; }
      panicked := panicked || ch in closed;
      closed := closed + {ch};
      match res {
        case Err(e) =>
          slot := if e == BL.ContextError then slot.(wait := None) else slot.(wait := None, err := Some(e));
        case Body(text) =>
          slot := slot.(wait := None, body := Some(text), err := None);
      }
      assert slot == BL.Finish(old(Bodies()), k, ch, res).byKey[k];
      SetSlot(k, slot);
    }
  }
}
