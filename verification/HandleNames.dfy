/** How the catalog names skills towards the model (recomputeLLMNamesLocked), as a function of
    the current definitions alone.  `defs` maps every registered key to the definition it was
    added with; `hash` is the eight-digit short hash of a definition. */
module HandleNames {
  import opened SkillTypes
  import opened Text

  type Key = ProviderSkillKey
  type Defs = map<Key, SkillDef>

  predicate SameGroup(a: SkillDef, b: SkillDef) {
    a.name == b.name && a.location == b.location
  }

  function Hashed(hash: SkillDef -> string, d: SkillDef): string {
    d.name + "#" + hash(d)
  }

  /** Another definition carries the same name at the same location. */
  ghost predicate Shared(defs: Defs, k: Key)
    requires k in defs
  {
    exists k' :: k' in defs && k' != k && SameGroup(defs[k'], defs[k])
  }

  /** First pass. */
  ghost function FirstName(defs: Defs, hash: SkillDef -> string, k: Key): string
    requires k in defs
  {
    if Shared(defs, k) then Hashed(hash, defs[k]) else defs[k].name
  }

  /** The string under which the second pass counts an entry. */
  function CountKey(name: string, location: string): string { name + "\0" + location }

  ghost predicate Clashes(defs: Defs, hash: SkillDef -> string, k: Key)
    requires k in defs
  {
    exists k' :: k' in defs && k' != k &&
      CountKey(FirstName(defs, hash, k'), defs[k'].location) == CountKey(FirstName(defs, hash, k), defs[k].location)
  }

  /** Second pass; it is not repeated. */
  ghost function LlmName(defs: Defs, hash: SkillDef -> string, k: Key): string
    requires k in defs
  {
    if Clashes(defs, hash, k) then Hashed(hash, defs[k]) else FirstName(defs, hash, k)
  }

  ghost function HandleOf(defs: Defs, hash: SkillDef -> string, k: Key): SkillHandle
    requires k in defs
  {
    SkillHandle(LlmName(defs, hash, k), defs[k].location)
  }

  /** What rebuilding the index leaves behind: exactly the handles in use, each leading to one of
      the entries that carry it (the one visited last). */
  ghost predicate IndexOk(index: map<SkillHandle, Key>, defs: Defs, hash: SkillDef -> string) {
    && (forall h :: h in index ==> index[h] in defs && HandleOf(defs, hash, index[h]) == h)
    && (forall k {:trigger HandleOf(defs, hash, k)} :: k in defs ==> HandleOf(defs, hash, k) in index)
  }

  /** normHandle and the lookup behind ResolveHandle. */
  function Normal(h: SkillHandle): SkillHandle {
    SkillHandle(TrimSpace(h.name), TrimSpace(h.location))
  }

  function Resolve(index: map<SkillHandle, Key>, h: SkillHandle): Option<Key> {
    if Normal(h) in index then Some(index[Normal(h)]) else None
  }

  // ----- Hypotheses ------------------------------------------------------------------------

  predicate HexDigit(c: char) { '0' <= c <= '9' || 'a' <= c <= 'f' }

  predicate HexString(s: string) { |s| == 8 && forall i :: 0 <= i < 8 ==> HexDigit(s[i]) }

  /** Names and locations as Runtime.AddSkill lets them in, hashes as shortHash writes them. */
  ghost predicate WellFormed(defs: Defs, hash: SkillDef -> string) {
    forall k :: k in defs ==>
      && Trimmed(defs[k].name) && defs[k].name != ""
      && Trimmed(defs[k].location)
      && HexString(hash(defs[k]))
  }

  /** The 32-bit hash tells apart the definitions of one (name, location) group. */
  ghost predicate NoGroupCollision(defs: Defs, hash: SkillDef -> string) {
    forall k, k' :: k in defs && k' in defs && k != k' && SameGroup(defs[k], defs[k']) ==> hash(defs[k]) != hash(defs[k'])
  }

  /** The second pass renames k', alone in its group, onto the plain name of k. */
  ghost predicate Overruns(defs: Defs, hash: SkillDef -> string, k': Key, k: Key)
    requires k in defs && k' in defs
  {
    && defs[k].location == defs[k'].location && defs[k].name == Hashed(hash, defs[k'])
    && !Shared(defs, k') && Clashes(defs, hash, k') && !Shared(defs, k) && !Clashes(defs, hash, k)
  }

  ghost predicate NoOverrun(defs: Defs, hash: SkillDef -> string) {
    forall k, k' {:trigger Overruns(defs, hash, k', k)} :: k in defs && k' in defs ==> !Overruns(defs, hash, k', k)
  }

  /** At one location no name reads like another's hashed name; so it is when no name contains '#'. */
  ghost predicate PlainNames(defs: Defs, hash: SkillDef -> string) {
    forall k, k' :: k in defs && k' in defs && defs[k].location == defs[k'].location ==>
      defs[k].name != Hashed(hash, defs[k'])
  }

  ghost predicate NulFree(defs: Defs) {
    forall k :: k in defs ==> '\0' !in defs[k].name && '\0' !in defs[k].location
  }

  // ----- Names ----------------------------------------------------------------------------

  lemma PlainIsNotHashed(d: SkillDef, d': SkillDef, hash: SkillDef -> string)
    requires '#' !in d.name
    ensures d.name != Hashed(hash, d')
  {
    assert Hashed(hash, d')[|d'.name|] == '#';
  }

  lemma NoHashSigns(defs: Defs, hash: SkillDef -> string)
    requires forall k :: k in defs ==> '#' !in defs[k].name
    ensures PlainNames(defs, hash) && NoOverrun(defs, hash)
  {
    forall k, k' | k in defs && k' in defs ensures defs[k].name != Hashed(hash, defs[k']) {
      PlainIsNotHashed(defs[k], defs[k'], hash);
    }
  }

  /** The hash has a fixed length, so a hashed name has one reading. */
  lemma HashedSplits(d: SkillDef, d': SkillDef, hash: SkillDef -> string)
    requires HexString(hash(d)) && HexString(hash(d')) && Hashed(hash, d) == Hashed(hash, d')
    ensures d.name == d'.name && hash(d) == hash(d')
  {
    var s, n := Hashed(hash, d), |d.name|;
    assert n == |d'.name|;
    assert s[..n] == d.name && s[..n] == d'.name;
    assert s[n+1..] == hash(d) && s[n+1..] == hash(d');
  }

  /** What keeps the handles of two keys apart. */
  lemma SameHandle(defs: Defs, hash: SkillDef -> string, k: Key, k': Key)
    requires WellFormed(defs, hash) && k in defs && k' in defs && k != k'
    ensures HandleOf(defs, hash, k) == HandleOf(defs, hash, k') <==>
      (SameGroup(defs[k], defs[k']) && hash(defs[k]) == hash(defs[k'])) || Overruns(defs, hash, k', k) || Overruns(defs, hash, k, k')
  {
    var d, d' := defs[k], defs[k'];
    if SameGroup(d, d') { assert Shared(defs, k) && Shared(defs, k'); }
    if Hashed(hash, d) == Hashed(hash, d') { HashedSplits(d, d', hash); }
    if HandleOf(defs, hash, k) == HandleOf(defs, hash, k') && !SameGroup(d, d') {
      if LlmName(defs, hash, k) == d.name {
        SharedIsHashed(defs, hash, k', k);
      } else {
        SharedIsHashed(defs, hash, k, k');
      }
    }
  }

  /** A name that equals the hashed name of a member of a shared group clashes. */
  lemma SharedIsHashed(defs: Defs, hash: SkillDef -> string, k': Key, k: Key)
    requires k in defs && k' in defs && k != k' && defs[k].location == defs[k'].location
    requires defs[k].name == Hashed(hash, defs[k']) && !Shared(defs, k)
    ensures Shared(defs, k') ==> Clashes(defs, hash, k)
  {}

  /** Different keys have different handles. */
  lemma HandlesDiffer(defs: Defs, hash: SkillDef -> string, k: Key, k': Key)
    requires WellFormed(defs, hash) && NoGroupCollision(defs, hash) && NoOverrun(defs, hash)
    requires k in defs && k' in defs && k != k'
    ensures HandleOf(defs, hash, k) != HandleOf(defs, hash, k')
  {
    SameHandle(defs, hash, k, k');
  }

  lemma HashedStaysTrimmed(d: SkillDef, hash: SkillDef -> string)
    requires Trimmed(d.name) && d.name != "" && HexString(hash(d))
    ensures Trimmed(Hashed(hash, d))
  {
    var s, n := Hashed(hash, d), |d.name|;
    assert s[n] == '#' && s[|s|-1] == hash(d)[7] && HexDigit(s[|s|-1]);
    assert s[0] == d.name[0] && (n >= 2 ==> s[1] == d.name[1]) && (n >= 3 ==> s[2] == d.name[2]);
  }

  /** Looking a handle up normalises it first; the handles the catalog hands out are already normal. */
  lemma HandleIsNormal(defs: Defs, hash: SkillDef -> string, k: Key)
    requires WellFormed(defs, hash) && k in defs
    ensures Normal(HandleOf(defs, hash, k)) == HandleOf(defs, hash, k)
  {
    HashedStaysTrimmed(defs[k], hash);
    TrimmedFixed(LlmName(defs, hash, k));
    TrimmedFixed(defs[k].location);
  }

  // ----- The index -------------------------------------------------------------------------

  ghost predicate RoundTrips(index: map<SkillHandle, Key>, defs: Defs, hash: SkillDef -> string) {
    forall k {:trigger HandleOf(defs, hash, k)} :: k in defs ==> Resolve(index, HandleOf(defs, hash, k)) == Some(k)
  }

  lemma IndexRoundTrips(index: map<SkillHandle, Key>, defs: Defs, hash: SkillDef -> string)
    requires WellFormed(defs, hash) && NoGroupCollision(defs, hash) && NoOverrun(defs, hash) && IndexOk(index, defs, hash)
    ensures RoundTrips(index, defs, hash)
  {
    forall k | k in defs ensures Resolve(index, HandleOf(defs, hash, k)) == Some(k) {
      HandleIsNormal(defs, hash, k);
      var h := HandleOf(defs, hash, k);
      if index[h] != k { HandlesDiffer(defs, hash, k, index[h]); }
    }
  }

  /** Only the handles of registered keys resolve, and each to a key that carries it. */
  lemma NothingElseResolves(index: map<SkillHandle, Key>, defs: Defs, hash: SkillDef -> string, h: SkillHandle)
    requires IndexOk(index, defs, hash)
    ensures var trimmed := SkillHandle(TrimSpace(h.name), TrimSpace(h.location));
            && (Resolve(index, h).Some? <==> exists k :: k in defs && HandleOf(defs, hash, k) == trimmed)
            && (Resolve(index, h).Some? ==>
                  Resolve(index, h).value in defs && HandleOf(defs, hash, Resolve(index, h).value) == trimmed)
  {
    if Resolve(index, h).Some? {
      assert HandleOf(defs, hash, index[Normal(h)]) == Normal(h);
    }
  }

  /** White space around its name and its location does not keep a handle from resolving. */
  lemma ResolvesInWhiteSpace(index: map<SkillHandle, Key>, defs: Defs, hash: SkillDef -> string, k: Key,
                             a: string, b: string, c: string, d: string)
    requires WellFormed(defs, hash) && NoGroupCollision(defs, hash) && NoOverrun(defs, hash) && IndexOk(index, defs, hash)
    requires k in defs && AllSpace(a) && AllSpace(b) && AllSpace(c) && AllSpace(d)
    ensures var h := HandleOf(defs, hash, k);
            Resolve(index, SkillHandle(a + (h.name + b), c + (h.location + d))) == Some(k)
  {
    var h := HandleOf(defs, hash, k);
    IndexRoundTrips(index, defs, hash);
    HandleIsNormal(defs, hash, k);
    TrimmedFixed(h.name);
    TrimmedFixed(h.location);
    TrimAround(a, h.name, b);
    TrimAround(c, h.location, d);
    assert Resolve(index, h) == Some(k);
  }

  /** What a handle reads like, when names at one location do not read like hashed ones: the user's own
      location, and the plain name unless another definition of that name is there; then the name,
      a '#' and the hash. */
  lemma HandleReads(defs: Defs, hash: SkillDef -> string, k: Key)
    requires WellFormed(defs, hash) && PlainNames(defs, hash) && NulFree(defs) && k in defs
    ensures var h, d := HandleOf(defs, hash, k), defs[k];
            && h.location == d.location
            && (h.name == d.name <==> forall k' :: k' in defs && k' != k ==> defs[k'].name != d.name || defs[k'].location != d.location)
            && (h.name != d.name ==> h.name == d.name + "#" + hash(d))
  {
    SecondPassIsIdleIff(defs, hash, k);
    HashedLonger(hash, defs[k]);
  }

  /** The index exists, whatever the order of the rebuild. */
  lemma SomeIndex(defs: Defs, hash: SkillDef -> string) returns (index: map<SkillHandle, Key>)
    ensures IndexOk(index, defs, hash)
  {
    var handles := set k | k in defs :: HandleOf(defs, hash, k);
    index := map h | h in handles :: (var k :| k in defs && HandleOf(defs, hash, k) == h; k);
  }

  /** Every registered key is reached through its own handle exactly when the short hash collides
      inside no (name, location) group and the second pass renames no entry onto another's name. */
  lemma HandleIndexIsBijectionIff(defs: Defs, hash: SkillDef -> string)
    requires WellFormed(defs, hash)
    ensures NoGroupCollision(defs, hash) && NoOverrun(defs, hash) <==>
            forall index :: IndexOk(index, defs, hash) ==> RoundTrips(index, defs, hash)
  {
    if NoGroupCollision(defs, hash) && NoOverrun(defs, hash) {
      forall index | IndexOk(index, defs, hash) ensures RoundTrips(index, defs, hash) {
        IndexRoundTrips(index, defs, hash);
      }
    } else {
      var k, k' := TwoAlike(defs, hash);
      var index := SomeIndex(defs, hash);
      assert Resolve(index, HandleOf(defs, hash, k)) == Resolve(index, HandleOf(defs, hash, k'));
      assert !RoundTrips(index, defs, hash);
    }
  }

  lemma TwoAlike(defs: Defs, hash: SkillDef -> string) returns (k: Key, k': Key)
    requires WellFormed(defs, hash) && !(NoGroupCollision(defs, hash) && NoOverrun(defs, hash))
    ensures k in defs && k' in defs && k != k' && HandleOf(defs, hash, k) == HandleOf(defs, hash, k')
  {
    if !NoGroupCollision(defs, hash) {
      k, k' :| k in defs && k' in defs && k != k' && SameGroup(defs[k], defs[k']) && hash(defs[k]) == hash(defs[k']);
    } else {
      k, k' :| k in defs && k' in defs && Overruns(defs, hash, k', k);
    }
    SameHandle(defs, hash, k, k');
  }

  /** The order in which entries are visited, and the operations that led here, leave no trace. */
  lemma IndexIsDetermined(a: map<SkillHandle, Key>, b: map<SkillHandle, Key>, defs: Defs, hash: SkillDef -> string)
    requires WellFormed(defs, hash) && NoGroupCollision(defs, hash) && NoOverrun(defs, hash)
    requires IndexOk(a, defs, hash) && IndexOk(b, defs, hash)
    ensures a == b
  {
    forall h | h in a ensures h in b && a[h] == b[h] {
      assert HandleOf(defs, hash, a[h]) == h;
      if a[h] != b[h] { HandlesDiffer(defs, hash, a[h], b[h]); }
    }
    forall h | h in b ensures h in a {
      assert HandleOf(defs, hash, b[h]) == h;
    }
  }

  // ----- Locality --------------------------------------------------------------------------

  lemma CountKeySplits(n: string, l: string, n': string, l': string)
    requires '\0' !in n && '\0' !in n' && CountKey(n, l) == CountKey(n', l')
    ensures n == n' && l == l'
  {
    var s := CountKey(n, l);
    assert s[|n|] == '\0' && s[|n'|] == '\0';
    assert forall i :: 0 <= i < |n| ==> s[i] == n[i];
    assert forall i :: 0 <= i < |n'| ==> s[i] == n'[i];
    assert |n| == |n'|;
    assert s[..|n|] == n && s[..|n'|] == n';
    assert s[|n|+1..] == l && s[|n'|+1..] == l';
  }

  lemma FirstNameNulFree(defs: Defs, hash: SkillDef -> string, k: Key)
    requires WellFormed(defs, hash) && NulFree(defs) && k in defs
    ensures '\0' !in FirstName(defs, hash, k)
  {}

  /** The name of k is the hashed name of a member of a shared group at its location. */
  ghost predicate NamedAsHashed(defs: Defs, hash: SkillDef -> string, k: Key)
    requires k in defs
  {
    exists k' :: k' in defs && Shared(defs, k') && defs[k'].location == defs[k].location && defs[k].name == Hashed(hash, defs[k'])
  }

  /** Without NUL bytes, an entry alone in its group clashes exactly for that reason. */
  lemma ClashesIff(defs: Defs, hash: SkillDef -> string, k: Key)
    requires WellFormed(defs, hash) && NulFree(defs) && k in defs && !Shared(defs, k)
    ensures Clashes(defs, hash, k) <==> NamedAsHashed(defs, hash, k)
  {
    if Clashes(defs, hash, k) {
      var k' :| k' in defs && k' != k &&
        CountKey(FirstName(defs, hash, k'), defs[k'].location) == CountKey(FirstName(defs, hash, k), defs[k].location);
      FirstNameNulFree(defs, hash, k);
      FirstNameNulFree(defs, hash, k');
      CountKeySplits(FirstName(defs, hash, k'), defs[k'].location, FirstName(defs, hash, k), defs[k].location);
    }
  }

  /** Without NUL bytes the second pass changes a name exactly when its owner is alone in its group and
      is named like a hashed member of another. */
  lemma SecondPassIsIdleIff(defs: Defs, hash: SkillDef -> string, k: Key)
    requires WellFormed(defs, hash) && NulFree(defs) && k in defs
    ensures LlmName(defs, hash, k) == FirstName(defs, hash, k) <==> Shared(defs, k) || !NamedAsHashed(defs, hash, k)
  {
    if !Shared(defs, k) {
      ClashesIff(defs, hash, k);
      HashedLonger(hash, defs[k]);
    }
  }

  /** Without NUL bytes an entry is renamed onto another's name exactly when three names form a chain:
      k' is named like a hashed member of a shared group, and k like the hashed k'. */
  lemma OverrunsIff(defs: Defs, hash: SkillDef -> string, k': Key, k: Key)
    requires WellFormed(defs, hash) && NulFree(defs) && k in defs && k' in defs
    ensures Overruns(defs, hash, k', k) <==>
            && defs[k].location == defs[k'].location && defs[k].name == Hashed(hash, defs[k'])
            && !Shared(defs, k) && !Shared(defs, k') && NamedAsHashed(defs, hash, k')
  {
    if !Shared(defs, k) && !Shared(defs, k') {
      ClashesIff(defs, hash, k);
      ClashesIff(defs, hash, k');
      if NamedAsHashed(defs, hash, k) && defs[k].location == defs[k'].location && defs[k].name == Hashed(hash, defs[k']) {
        var j :| j in defs && Shared(defs, j) && defs[j].location == defs[k].location && defs[k].name == Hashed(hash, defs[j]);
        HashedSplits(defs[j], defs[k'], hash);
        assert SameGroup(defs[j], defs[k']);
      }
    }
  }

  /** Adding a definition changes handles in its own (name, location) group only; read backwards,
      so does removing one. */
  lemma AddingIsLocal(defs: Defs, hash: SkillDef -> string, k0: Key, d0: SkillDef, k: Key)
    requires k0 !in defs && k in defs && !SameGroup(defs[k], d0)
    requires var more := defs[k0 := d0]; WellFormed(more, hash) && PlainNames(more, hash) && NulFree(more)
    ensures HandleOf(defs[k0 := d0], hash, k) == HandleOf(defs, hash, k)
  {
    var more := defs[k0 := d0];
    assert forall x :: x in defs ==> x in more && more[x] == defs[x];
    SecondPassIsIdleIff(more, hash, k);
    SecondPassIsIdleIff(defs, hash, k);
    if Shared(more, k) {
      var k' :| k' in more && k' != k && SameGroup(more[k'], more[k]);
      assert k' in defs;
    }
    if Shared(defs, k) {
      var k' :| k' in defs && k' != k && SameGroup(defs[k'], defs[k]);
      assert k' in more;
    }
  }

  // ----- An overrun ------------------------------------------------------------------------

  lemma PlainNameStays(defs: Defs, hash: SkillDef -> string, k: Key)
    requires k in defs && !Shared(defs, k) && !Clashes(defs, hash, k)
    ensures HandleOf(defs, hash, k) == SkillHandle(defs[k].name, defs[k].location)
  {}

  lemma ClashingNameIsHashed(defs: Defs, hash: SkillDef -> string, k: Key)
    requires k in defs && !Shared(defs, k) && Clashes(defs, hash, k)
    ensures HandleOf(defs, hash, k) == SkillHandle(Hashed(hash, defs[k]), defs[k].location)
  {}

  /** Two skills named "a", one named as the first of them is renamed, one named as that one would be. */
  lemma FourSkills(hash: SkillDef -> string) returns (defs: Defs, k1: Key, k2: Key, k3: Key, k4: Key)
    ensures defs.Keys == {k1, k2, k3, k4} && k1 != k2 && k1.name == k2.name == "a" && k1.kind != k2.kind
    ensures forall x :: x in defs ==> x.name == defs[x].name && defs[x].location == "L"
    ensures defs[k3].name == Hashed(hash, defs[k1]) && defs[k4].name == Hashed(hash, defs[k3])
  {
    k1, k2 := ProviderSkillKey("p", "a", "L"), ProviderSkillKey("q", "a", "L");
    var d1, d2 := SkillDef("p", "a", "L"), SkillDef("q", "a", "L");
    assert d1.name == "a";
    var d3 := SkillDef("p", Hashed(hash, d1), "L");
    HashedLonger(hash, d1);
    k3 := ProviderSkillKey("p", d3.name, "L");
    var d4 := SkillDef("p", Hashed(hash, d3), "L");
    HashedLonger(hash, d3);
    k4 := ProviderSkillKey("p", d4.name, "L");
    assert |k1.name| < |k3.name| < |k4.name|;
    defs := map[k1 := d1, k2 := d2, k3 := d3, k4 := d4];
  }

  lemma HashedLonger(hash: SkillDef -> string, d: SkillDef)
    ensures |Hashed(hash, d)| > |d.name|
  {}

  /** Whatever the hash, four skills at one location end up with a shared handle: the second pass
      renames one entry onto the plain name of another and is not run again. */
  lemma HashSignsInNamesCanClash(hash: SkillDef -> string) returns (defs: Defs, k: Key, k': Key)
    requires forall d :: HexString(hash(d))
    ensures k in defs && k' in defs && k != k' && HandleOf(defs, hash, k) == HandleOf(defs, hash, k')
    ensures WellFormed(defs, hash) && forall x :: x in defs ==> x.name == defs[x].name
  {
    var k1, k2;
    defs, k1, k2, k, k' := FourSkills(hash);
    FourWellFormed(defs, hash, k1, k2, k, k');
    HashedLength(hash, defs[k1]);
    HashedLength(hash, defs[k2]);
    HashedLength(hash, defs[k]);
    FourNames(defs, hash, k1, k2, k, k');
    ThirdClashes(defs, hash, k1, k);
    FourthIsPlain(defs, hash, k1, k2, k, k');
    ClashingNameIsHashed(defs, hash, k);
    PlainNameStays(defs, hash, k');
  }

  lemma FourWellFormed(defs: Defs, hash: SkillDef -> string, k1: Key, k2: Key, k3: Key, k4: Key)
    requires defs.Keys == {k1, k2, k3, k4} && forall x :: x in defs ==> defs[x].location == "L" && HexString(hash(defs[x]))
    requires defs[k1].name == defs[k2].name == "a"
    requires defs[k3].name == Hashed(hash, defs[k1]) && defs[k4].name == Hashed(hash, defs[k3])
    ensures WellFormed(defs, hash)
  {
    assert Trimmed("a") && Trimmed("L");
    HashedStaysTrimmed(defs[k1], hash);
    HashedStaysTrimmed(defs[k3], hash);
  }

  lemma HashedLength(hash: SkillDef -> string, d: SkillDef)
    requires HexString(hash(d))
    ensures |Hashed(hash, d)| == |d.name| + 9
  {}

  /** First-pass names: k1 and k2 share a group, k3 and k4 are alone in theirs. */
  lemma FourNames(defs: Defs, hash: SkillDef -> string, k1: Key, k2: Key, k3: Key, k4: Key)
    requires defs.Keys == {k1, k2, k3, k4} && k1 != k2
    requires forall x :: x in defs ==> defs[x].location == "L"
    requires |defs[k1].name| == 1 && defs[k2].name == defs[k1].name && |defs[k3].name| == 10 && |defs[k4].name| == 19
    ensures FirstName(defs, hash, k1) == Hashed(hash, defs[k1]) && FirstName(defs, hash, k2) == Hashed(hash, defs[k2])
    ensures !Shared(defs, k3) && FirstName(defs, hash, k3) == defs[k3].name
    ensures !Shared(defs, k4) && FirstName(defs, hash, k4) == defs[k4].name
  {
    assert SameGroup(defs[k2], defs[k1]) && Shared(defs, k1) && Shared(defs, k2);
  }

  lemma ThirdClashes(defs: Defs, hash: SkillDef -> string, k1: Key, k3: Key)
    requires k1 in defs && k3 in defs && k1 != k3 && defs[k1].location == defs[k3].location
    requires FirstName(defs, hash, k1) == FirstName(defs, hash, k3)
    ensures Clashes(defs, hash, k3)
  {}

  lemma FourthIsPlain(defs: Defs, hash: SkillDef -> string, k1: Key, k2: Key, k3: Key, k4: Key)
    requires defs.Keys == {k1, k2, k3, k4} && forall x :: x in defs ==> defs[x].location == "L"
    requires |FirstName(defs, hash, k1)| < 19 && |FirstName(defs, hash, k2)| < 19 && |FirstName(defs, hash, k3)| < 19
    requires |FirstName(defs, hash, k4)| == 19
    ensures !Clashes(defs, hash, k4)
  {
    forall x | x in defs && x != k4 ensures |CountKey(FirstName(defs, hash, x), "L")| < |CountKey(FirstName(defs, hash, k4), "L")| {}
  }
}
