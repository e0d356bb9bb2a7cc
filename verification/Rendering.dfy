/** RenderSkillBody (internal/catalog/artifact.go): which arguments are declared, and what the two
    passes make of a body together. */
module Rendering {
  import opened SkillTypes
  import opened Text
  import opened Lines
  import opened Sorting
  import opened Identifiers
  import opened DollarPass
  import opened BracePass
  import opened TwoPasses
  import opened Regions
  import opened LooseRegions

  // ----- Declared arguments ----------------------------------------------------------------

  /** A supplied value, even an empty one, overrides the default. */
  function ValueOf(a: SkillArgument, values: Values): string {
    if TrimSpace(a.name) in values then values[TrimSpace(a.name)] else a.default
  }

  /** Arguments with an invalid name are ignored; of several with one name the first counts. */
  function Declared(args: seq<SkillArgument>, values: Values): Values {
    if args == [] then map[]
    else if IsName(TrimSpace(args[0].name)) then Declared(args[1..], values)[TrimSpace(args[0].name) := ValueOf(args[0], values)]
    else Declared(args[1..], values)
  }

  /** The i-th is the first argument of this name, which is a valid one. */
  predicate FirstArg(args: seq<SkillArgument>, i: int, name: string) {
    0 <= i < |args| && IsName(name) && TrimSpace(args[i].name) == name && forall j :: 0 <= j < i ==> TrimSpace(args[j].name) != name
  }

  lemma {:induction false} DeclaredValue(args: seq<SkillArgument>, values: Values, name: string, i: int)
    requires FirstArg(args, i, name)
    ensures name in Declared(args, values) && Declared(args, values)[name] == ValueOf(args[i], values)
  {
    if i > 0 {
      assert forall j :: 0 <= j < i - 1 ==> args[1..][j] == args[j+1];
      DeclaredValue(args[1..], values, name, i - 1);
    }
  }

  lemma {:induction false} DeclaredOnly(args: seq<SkillArgument>, values: Values, name: string)
    requires name in Declared(args, values)
    ensures exists i :: FirstArg(args, i, name)
  {
    if IsName(TrimSpace(args[0].name)) && TrimSpace(args[0].name) == name {
      assert FirstArg(args, 0, name);
    } else {
      DeclaredOnly(args[1..], values, name);
      var i :| FirstArg(args[1..], i, name);
      assert forall j :: 0 < j < i + 1 ==> args[j] == args[1..][j-1];
      assert FirstArg(args, i + 1, name);
    }
  }

  /** What counts as declared, and its value. */
  lemma DeclaredMeans(args: seq<SkillArgument>, values: Values, name: string)
    ensures name in Declared(args, values) <==> exists i :: FirstArg(args, i, name)
    ensures name in Declared(args, values) && name in values ==> Declared(args, values)[name] == values[name]
    ensures forall i :: FirstArg(args, i, name) && name !in values ==>
      name in Declared(args, values) && Declared(args, values)[name] == args[i].default
  {
    if name in Declared(args, values) { DeclaredOnly(args, values, name); }
    forall i | FirstArg(args, i, name)
      ensures name in Declared(args, values) && Declared(args, values)[name] == ValueOf(args[i], values)
    {
      DeclaredValue(args, values, name, i);
    }
  }

  lemma {:induction false} DeclaredOneMore(args: seq<SkillArgument>, k: nat, values: Values)
    requires k < |args|
    ensures var name := TrimSpace(args[k].name); var before := Declared(args[..k], values);
      Declared(args[..k+1], values) ==
        if IsName(name) && name !in before then before[name := ValueOf(args[k], values)] else before
  {
    if k == 0 {
      DeclaredFirst(args[..1], values);
      assert args[..1][1..] == [];
    } else {
      DeclaredOneMore(args[1..], k - 1, values);
      DeclaredFirst(args[..k+1], values);
      DeclaredFirst(args[..k], values);
      assert args[..k+1][1..] == args[1..][..k] && args[..k][1..] == args[1..][..k-1];
    }
  }

  lemma DeclaredFirst(args: seq<SkillArgument>, values: Values)
    requires args != []
    ensures var rest := Declared(args[1..], values); var name := TrimSpace(args[0].name);
      Declared(args, values) == if IsName(name) then rest[name := ValueOf(args[0], values)] else rest
  {}

  method DeclaredArguments(args: seq<SkillArgument>, values: Values) returns (declared: Values)
    ensures declared == Declared(args, values)
  {
    declared := map[];
    var seen: set<string> := {};
    for k := 0 to |args|
      invariant declared == Declared(args[..k], values) && seen == declared.Keys
    {
      DeclaredOneMore(args, k, values);
      var name := TrimSpace(args[k].name);
      var ok := IsValidSkillArgumentName(name);
      if !ok || name in seen { continue; }
      seen := seen + {name};
      declared := declared[name := if name in values then values[name] else args[k].default];
    }
    assert args[..|args|] == args;
  }

  // ----- The whole of RenderSkillBody ------------------------------------------------------

  /** The names in the order sort.Strings puts them: one list, whatever order the map gave. */
  ghost predicate Listed(s: seq<string>, names: set<string>) {
    Elems(s) == names && forall i, j :: 0 <= i < j < |s| ==> Less(s[i], s[j])
  }

  method SortedNames(names: set<string>) returns (r: seq<string>)
    ensures Listed(r, names)
  {
    var left, s := names, [];
    while left != {}
      invariant left <= names && Elems(s) == names - left && NoDup(s)
      decreases left
    {
      var x :| x in left;
      assert x !in Elems(s);
      ElemsSnoc(s, x);
      left, s := left - {x}, s + [x];
    }
    LessIsOrder();
    r := Sort(s, Less);
    SortedDistinct(s, r);
  }

  lemma LessIsOrder()
    ensures StrictOrder(Less)
  {
    forall a ensures !Less(a, a) { LessTotal(a, a); }
    forall a, b, c | Less(a, b) && Less(b, c) ensures Less(a, c) { LessTransitive(a, b, c); }
  }

  lemma SortedDistinct(s: seq<string>, r: seq<string>)
    requires NoDup(s) && multiset(r) == multiset(s) && Ordered(r, Less)
    ensures Listed(r, Elems(s))
  {
    SameElements(s, r);
    forall i, j | 0 <= i < j < |r| ensures Less(r[i], r[j]) { LessTotal(r[i], r[j]); }
  }

  /** The text, the applied arguments and the unknown placeholders. */
  method RenderSkillBody(body: string, args: seq<SkillArgument>, values: Values)
    returns (text: string, applied: Values, unknown: seq<string>)
    ensures applied == Declared(args, values)
    ensures forall name :: name in applied <==> exists i :: FirstArg(args, i, name)
    ensures forall name :: name in applied && name in values ==> applied[name] == values[name]
    ensures forall name, i :: FirstArg(args, i, name) && name !in values ==> applied[name] == args[i].default
    ensures text == Braces(Dollar(body, applied), applied)
    ensures Listed(unknown, DollarNames(body) + BraceNames(Dollar(body, applied)) - applied.Keys)
  {
    applied := DeclaredArguments(args, values);
    forall name { DeclaredMeans(args, values, name); }
    var once, used1, unknown1 := RenderDollar(body, applied);
    DollarIsRendering(body, applied);
    var used2, unknown2;
    text, used2, unknown2 := RenderBraces(once, applied);
    unknown := SortedNames(unknown1 + unknown2);
  }

  /** A body is rendered as its reader expects, every placeholder of the original text replaced at the
      same time and exactly its undeclared placeholders reported as unknown, if it has no region and
      inserted values are compact, or if it has no loose region and inserted values are tame.  For compact
      values `Regions.SimultaneousIff` says that nothing less will do. */
  lemma RenderingIsSimultaneous(body: string, v: Values)
    requires (Compact(body, v) && NoRegion(body, v.Keys)) || (Tame(body, v) && NoLooseRegion(body, v.Keys))
    ensures Braces(Dollar(body, v), v) == Single(body, v)
    ensures DollarNames(body) + BraceNames(Dollar(body, v)) - v.Keys == SingleNames(body) - v.Keys
  {
    if Compact(body, v) && NoRegion(body, v.Keys) {
      NoRegionNoNewHoles(body, v);
    } else {
      NoLooseRegionNoNewHoles(body, v);
    }
    AgreeWithoutNewHoles(body, v);
  }

  // ----- Each of the conditions is needed --------------------------------------------------

  /** No placeholder in braces begins in p when s follows. */
  predicate NoHoles(p: string, s: string) {
    p == "" || (MatchBrace(p + s).None? && NoHoles(p[1..], s))
  }

  lemma {:induction false} SingleThrough(p: string, s: string, v: Values)
    requires NoDollar(p) && NoHoles(p, s)
    ensures Single(p + s, v) == p + Single(s, v)
  {
    if p == "" {
      assert p + s == s;
    } else {
      var c, q := p[0], p[1..];
      SingleThrough(q, s, v);
      Regroup(p, c, q, s);
      Regroup(p, c, q, Single(s, v));
      SinglePlain(c, q + s, v);
    }
  }

  lemma SinglePlain(c: char, s: string, v: Values)
    requires c != '$' && c != '\\' && MatchBrace([c] + s).None?
    ensures Single([c] + s, v) == [c] + Single(s, v)
  {
    assert First([c] + s) == Lit(c) && Rest([c] + s) == s;
  }

  lemma NoHoleStart(s: string)
    requires |s| < 2 || s[0] != '{' || s[1] != '{'
    ensures MatchBrace(s).None?
  {}

  lemma {:induction false} NoHoleIn(q: string)
    requires forall i :: 0 <= i < |q| - 1 ==> q[i] != '{' || q[i+1] != '{'
    ensures NoHoles(q, "")
  {
    if q != "" {
      assert q + "" == q;
      NoHoleStart(q);
      NoHoleIn(q[1..]);
    }
  }

  lemma NoHoleBefore(p: string, r: string)
    requires r != "" && r[0] == '$' && (p == "{" || p == "{{")
    ensures NoHoles(p, r)
  {
    var tail := p[|p|-1..];
    assert tail == "{" && tail[1..] == "";
    NoHoleStart(tail + r);
    assert NoHoles(tail[1..], r);
    assert NoHoles(tail, r);
    if |p| == 2 {
      assert p[1..] == tail;
      NoNameAtDollar(p + r, r);
    }
  }

  lemma NoNameAtDollar(s: string, r: string)
    requires s == "{{" + r && r != "" && r[0] == '$'
    ensures MatchBrace(s).None?
  {
    assert s[2..] == r;
    assert AfterWs(r) == r;
    assert NameAndClose(r).None?;
  }

  /** Text around one reference, with no placeholder in braces. */
  lemma ReadsAs(p: string, name: string, q: string, v: Values)
    requires IsName(name) && name in v && NoDollar(p) && NoDollar(q) && (q != "" ==> !IdChar(q[0]))
    requires NoHoles(p, "$" + name + q) && NoHoles(q, "")
    ensures Dollar(p + ("$" + name + q), v) == Single(p + ("$" + name + q), v) == p + (v[name] + q)
    ensures DollarNames(p + ("$" + name + q)) == {name}
  {
    var s := "$" + name + q;
    DollarAround(p, name, q, v);
    RefIsRecovered(name, q);
    SingleThrough(p, s, v);
    SingleThrough(q, "", v);
    assert q + "" == q;
    NoHoleStart(s);
  }

  lemma DollarAround(p: string, name: string, q: string, v: Values)
    requires IsName(name) && name in v && NoDollar(p) && NoDollar(q) && (q != "" ==> !IdChar(q[0]))
    ensures Dollar(p + ("$" + name + q), v) == p + (v[name] + q)
    ensures DollarNames(p + ("$" + name + q)) == {name}
  {
    RefIsRecovered(name, q);
    DollarThrough(p, "$" + name + q, v);
    DollarThrough(q, "", v);
    assert q + "" == q;
  }

  /** Once the dollar pass has written a placeholder, the brace pass fills it. */
  lemma HoleAppears(s: string, y: string, v: Values)
    requires IsName(y) && y in v && Dollar(s, v) == "{{" + y + "}}"
    ensures Braces(Dollar(s, v), v) == v[y]
  {
    BareHole("{{" + y + "}}", y);
    WholeHole("{{" + y + "}}", y, v);
  }

  lemma BareHole(t: string, y: string)
    requires IsName(y) && t == "{{" + y + "}}"
    ensures MatchBrace(t) == Some(Match(y, ""))
  {
    assert Inner("", y, "") == y;
    assert Braced("", y, "") + "" == t;
    MatchOfBraced("", y, "", "");
  }

  lemma WholeHole(t: string, y: string, v: Values)
    requires y in v && MatchBrace(t) == Some(Match(y, ""))
    ensures Braces(t, v) == v[y]
  {
    BraceHole(t, v);
    assert Braces("", v) == "";
    assert v[y] + "" == v[y];
  }

  lemma NoRegionStart(s: string, K: set<string>)
    requires |s| < 2 || s[0] != '{' || s[1] != '{'
    ensures !RegionAt(s, K) && !LooseRegionAt(s, K)
  {}

  lemma {:induction false} NoRegionIn(q: string, K: set<string>)
    requires NoDollar(q) && forall i :: 0 <= i < |q| - 1 ==> q[i] != '{' || q[i+1] != '{'
    ensures NoRegion(q, K) && NoLooseRegion(q, K)
  {
    if q != "" {
      NoRegionStart(q, K);
      NoRegionIn(q[1..], K);
      assert First(q) == Lit(q[0]) && Rest(q) == q[1..];
    }
  }

  /** At most one brace in front of the reference leaves no region. */
  lemma NoRegionAround(p: string, x: string, q: string, K: set<string>)
    requires IsName(x) && (q != "" ==> !IdChar(q[0])) && (p == "" || p == "{")
    requires NoDollar(q) && forall i :: 0 <= i < |q| - 1 ==> q[i] != '{' || q[i+1] != '{'
    ensures NoRegion(p + ("$" + x + q), K) && NoLooseRegion(p + ("$" + x + q), K)
  {
    var r := "$" + x + q;
    RefIsRecovered(x, q);
    NoRegionIn(q, K);
    NoRegionStart(r, K);
    if p == "" {
      assert p + r == r;
    } else {
      NoRegionStart(p + r, K);
      assert First(p + r) == Lit('{') && Rest(p + r) == r by { assert (p + r)[1..] == r; }
    }
  }

  /** `{{`, a declared reference and `}}` are a region. */
  lemma RegionAround(s: string, x: string, q: string, K: set<string>)
    requires IsName(x) && x in K && q == "}}" && s == "{{" + ("$" + x + q)
    ensures !NoRegion(s, K) && !NoLooseRegion(s, K)
  {
    var r := "$" + x + q;
    assert s[2..] == r;
    RefIsRecovered(x, q);
    assert AfterWs(r) == r && AfterWs(q) == q;
    assert AfterRun(q, K) == q by { assert First(q) == Lit('}'); }
    assert AfterRun(r, K) == q;
    assert Completes(q, K, {}, Inside, true) && Completes(r, K, {}, Before, false);
  }

  /** The reference x, with p before and q after it, turns into the placeholder y. */
  lemma SecondLook(p: string, x: string, q: string, y: string, v: Values, s: string)
    requires IsName(x) && IsName(y) && x in v && y in v && NoDollar(p) && NoDollar(q) && (q != "" ==> !IdChar(q[0]))
    requires NoHoles(p, "$" + x + q) && NoHoles(q, "") && s == p + ("$" + x + q)
    requires p + (v[x] + q) == "{{" + y + "}}"
    ensures Braces(Dollar(s, v), v) == v[y] && Single(s, v) == "{{" + y + "}}"
    ensures DollarNames(s) == {x}
  {
    ReadsAs(p, x, q, v);
    HoleAppears(s, y, v);
  }

  lemma Spell(p: string, m: string, q: string, y: string)
    ensures p == "{{" && m == y && q == "}}" ==> p + (m + q) == "{{" + y + "}}"
    ensures p == "" && m == "{{" + y + "}}" && q == "" ==> p + (m + q) == "{{" + y + "}}"
    ensures p == "{" && m == "" && q == "{" + y + "}}" ==> p + (m + q) == "{{" + y + "}}"
  {}

  /** `{{$x}}`, where the value of x is y: a placeholder no one wrote is replaced. */
  lemma ReferenceBetweenBraces(p: string, x: string, q: string, y: string, v: Values, s: string)
    requires IsName(x) && IsName(y) && x in v && y in v && v[x] == y
    requires p == "{{" && q == "}}" && s == p + ("$" + x + q)
    ensures Compact(s, v) && !NoRegion(s, v.Keys) && !NoLooseRegion(s, v.Keys)
    ensures Braces(Dollar(s, v), v) == v[y] && Single(s, v) == "{{" + y + "}}"
    ensures v[y] != "{{" + y + "}}" ==> !Agree(s, v)
  {
    NoHoleBefore(p, "$" + x + q);
    NoHoleIn(q);
    Spell(p, v[x], q, y);
    SecondLook(p, x, q, y, v, s);
    RegionAround(s, x, q, v.Keys);
    CompactName(s, x, v);
  }

  lemma CompactName(s: string, x: string, v: Values)
    requires DollarNames(s) == {x} && x in v && IsName(v[x])
    ensures Compact(s, v)
  {
    var y := v[x];
    assert NoBrace(y) && NoWs(y);
  }

  /** `$x`, where the value of x is `{{y}}`: an inserted value is itself rendered. */
  lemma BracesInValue(x: string, y: string, v: Values, s: string)
    requires IsName(x) && IsName(y) && x in v && y in v && v[x] == "{{" + y + "}}"
    requires s == "" + ("$" + x + "")
    ensures NoRegion(s, v.Keys) && NoLooseRegion(s, v.Keys) && !Tame(s, v)
    ensures Braces(Dollar(s, v), v) == v[y] && Single(s, v) == "{{" + y + "}}"
    ensures v[y] != "{{" + y + "}}" ==> !Agree(s, v)
  {
    Spell("", v[x], "", y);
    SecondLook("", x, "", y, v, s);
    NoRegionAround("", x, "", v.Keys);
    assert v[x][0] == '{';
  }

  /** `{$x{y}}`, where the value of x is empty: the braces on its two sides meet. */
  lemma EmptyValue(p: string, x: string, q: string, y: string, v: Values, s: string)
    requires IsName(x) && IsName(y) && x in v && y in v && v[x] == ""
    requires p == "{" && q == "{" + y + "}}" && s == p + ("$" + x + q)
    ensures NoRegion(s, v.Keys) && NoLooseRegion(s, v.Keys) && !Tame(s, v)
    ensures Braces(Dollar(s, v), v) == v[y] && Single(s, v) == "{{" + y + "}}"
    ensures v[y] != "{{" + y + "}}" ==> !Agree(s, v)
  {
    NoHoleBefore(p, "$" + x + q);
    assert q[1] == y[0];
    NoHoleIn(q);
    Spell(p, v[x], q, y);
    SecondLook(p, x, q, y, v, s);
    NoRegionAround(p, x, q, v.Keys);
  }
}
