/** Where a body leaves room for a placeholder that the dollar pass completes.  Without such a region
    the two passes are one simultaneous substitution; for values without white space this is also
    the only way for them to be (internal/catalog/artifact.go, lines 69 and 70). */
module Regions {
  import opened Lines
  import opened Identifiers
  import opened DollarPass
  import opened BracePass
  import opened TwoPasses

  // ----- Regions ---------------------------------------------------------------------------

  /** What follows the longest run of identifier bytes and declared references that s begins with. */
  function AfterRun(s: string, K: set<string>): (r: string)
    ensures |r| <= |s|
    decreases |s|
  {
    if s == "" then s
    else match First(s)
      case Lit(c) => if IdChar(c) then AfterRun(Rest(s), K) else s
      case Esc => s
      case Ref(name) => if name in K then AfterRun(Rest(s), K) else s
  }

  predicate RunHasRef(s: string, K: set<string>)
    decreases |s|
  {
    s != "" &&
    match First(s)
    case Lit(c) => IdChar(c) && RunHasRef(Rest(s), K)
    case Esc => false
    case Ref(name) => name in K
  }

  predicate StartsWithDigit(s: string) { s != "" && IdChar(s[0]) && !IdStart(s[0]) }

  /** `{{`, white space, a run of identifier bytes and declared references, white space, `}}`; the run
      has a reference and does not begin with a digit. */
  predicate RegionAt(s: string, K: set<string>) {
    "{{" <= s &&
    var r := AfterWs(s[2..]);
    RunHasRef(r, K) && !StartsWithDigit(r) && "}}" <= AfterWs(AfterRun(r, K))
  }

  predicate NoRegion(s: string, K: set<string>)
    decreases |s|
  {
    s == "" || (!RegionAt(s, K) && NoRegion(Rest(s), K))
  }

  /** Values that are non-empty and free of braces and white space. */
  ghost predicate Compact(s: string, v: Values) {
    Tame(s, v) && forall name :: name in DollarNames(s) && name in v ==> NoWs(v[name])
  }

  predicate NoWs(s: string) { forall i :: 0 <= i < |s| ==> !Ws(s[i]) }

  lemma {:induction false} NoRegionThrough(p: string, s: string, K: set<string>)
    requires NoDollar(p)
    ensures NoRegion(p + s, K) ==> NoRegion(s, K)
  {
    if p == "" {
      assert p + s == s;
    } else {
      var c, q := p[0], p[1..];
      NoRegionThrough(q, s, K);
      Regroup(p, c, q, s);
      assert First([c] + (q + s)) == Lit(c) && Rest([c] + (q + s)) == q + s;
    }
  }

  lemma AfterHoleNoRegion(s: string, K: set<string>)
    requires MatchBrace(s).Some?
    ensures NoRegion(s, K) ==> NoRegion(MatchBrace(s).value.rest, K)
  {
    var w1, w2 := Decompose(s);
    BracedIsPlain(w1, MatchBrace(s).value.name, w2);
    NoRegionThrough(Braced(w1, MatchBrace(s).value.name, w2), MatchBrace(s).value.rest, K);
  }

  // ----- Undoing the dollar pass inside a would-be placeholder -------------------------------

  lemma SplitPrefix(a: string, b: string, u: string, rest: string)
    requires a + b == u + rest
    ensures |a| <= |u| ==> b == u[|a|..] + rest
    ensures |a| > |u| && rest != "" ==> a[|u|] == rest[0]
    ensures a != "" && u != "" ==> a[0] == u[0]
  {
    var t := a + b;
    assert t[|a|..] == b;
    if |a| <= |u| { assert (u + rest)[|a|..] == u[|a|..] + rest; }
    if |a| > |u| && rest != "" { assert t[|u|] == a[|u|] && (u + rest)[|u|] == rest[0]; }
    if a != "" && u != "" { assert t[0] == a[0] && (u + rest)[0] == u[0]; }
  }

  /** No inserted value holds c. */
  ghost predicate Free(s: string, v: Values, c: char) {
    forall name :: name in DollarNames(s) && name in v ==> c !in v[name]
  }

  /** Output that begins with identifier bytes came from a run of these and declared references. */
  lemma {:induction false} UndoRun(s: string, v: Values, u: string, rest: string)
    requires Tame(s, v) && (forall i :: 0 <= i < |u| ==> IdChar(u[i])) && Dollar(s, v) == u + rest
    requires rest != "" && !IdChar(rest[0]) && rest[0] != '$' && Free(s, v, rest[0])
    ensures var r := AfterRun(s, v.Keys);
      && Dollar(r, v) == rest && DollarNames(r) <= DollarNames(s)
      && (!RunHasRef(s, v.Keys) ==> s == u + r)
    decreases |s|
  {
    assert (u + rest) != "";
    FirstIsPrefix(s);
    var t, q := First(s), Rest(s);
    SplitPrefix(Rendered(t, v), Dollar(q, v), u, rest);
    if t.Lit? && u == "" {
      assert u + s == s;
    } else if t.Lit? {
      UndoRun(q, v, u[1..], rest);
      Regroup(u, t.c, u[1..], AfterRun(q, v.Keys));
    } else {
      RunToken(s, v, u, rest);
      UndoRun(q, v, u[|Rendered(t, v)|..], rest);
    }
  }

  lemma RunToken(s: string, v: Values, u: string, rest: string)
    requires s != "" && !First(s).Lit?
    requires Tame(s, v) && (forall i :: 0 <= i < |u| ==> IdChar(u[i])) && Dollar(s, v) == u + rest
    requires rest != "" && !IdChar(rest[0]) && rest[0] != '$' && Free(s, v, rest[0])
    ensures First(s).Ref? && First(s).name in v && 0 < |Rendered(First(s), v)| <= |u|
  {
    var t, q := First(s), Rest(s);
    SplitPrefix(Rendered(t, v), Dollar(q, v), u, rest);
  }

  lemma {:induction false} UndoWs(s: string, v: Values, w: string, rest: string)
    requires Compact(s, v) && AllWs(w) && Dollar(s, v) == w + rest
    requires rest != "" && !Ws(rest[0])
    ensures Dollar(AfterWs(s), v) == rest && DollarNames(AfterWs(s)) <= DollarNames(s) && s == w + AfterWs(s)
    decreases |s|
  {
    assert (w + rest) != "";
    FirstIsPrefix(s);
    var t, q := First(s), Rest(s);
    SplitPrefix(Rendered(t, v), Dollar(q, v), w, rest);
    if w == "" {
      assert w + rest == rest && w + s == s;
      FirstChar(s);
    } else {
      WsToken(s, v, w, rest);
      UndoWs(q, v, w[1..], rest);
      Regroup(w, t.c, w[1..], AfterWs(q));
    }
  }

  lemma WsToken(s: string, v: Values, w: string, rest: string)
    requires Compact(s, v) && AllWs(w) && w != "" && s != "" && Dollar(s, v) == w + rest
    ensures First(s) == Lit(w[0]) && s[0] == w[0] && Rest(s) == s[1..]
  {
    FirstChar(s);
    assert Dollar(s, v)[0] == w[0];
  }

  // ----- No region, no new placeholder -----------------------------------------------------

  /** A pair of braces in front of the output was in front of the input. */
  lemma TwoBraces(s: string, v: Values, c: char, out: string) returns (r: string)
    requires Tame(s, v) && (c == '{' || c == '}') && Dollar(s, v) == [c, c] + out
    ensures s == [c, c] + r && r == s[2..] && Dollar(r, v) == out && DollarNames(r) == DollarNames(s)
  {
    TwoFront(c, out);
    HeadBrace(s, v, c, [c] + out);
    HeadBrace(Rest(s), v, c, out);
    r := Rest(Rest(s));
    TwoFront(c, r);
  }

  lemma TwoFront(c: char, s: string)
    ensures [c, c] + s == [c] + ([c] + s) && ([c, c] + s)[2..] == s
  {}

  lemma Subnames(s: string, r: string, v: Values)
    requires DollarNames(r) <= DollarNames(s)
    ensures Tame(s, v) ==> Tame(r, v)
    ensures Compact(s, v) ==> Compact(r, v)
  {}

  /** A placeholder of the output that was none of the input comes from a region. */
  lemma NewHoleHasRegion(s: string, v: Values)
    requires s != "" && Compact(s, v) && MatchBrace(s).None? && MatchBrace(Dollar(s, v)).Some?
    ensures RegionAt(s, v.Keys)
  {
    var m := MatchBrace(Dollar(s, v)).value;
    var w1, w2 := Decompose(Dollar(s, v));
    var tail := "}}" + m.rest;
    RegroupBraced(w1, m.name, w2, m.rest);
    var r := TwoBraces(s, v, '{', w1 + (m.name + (w2 + tail)));
    UndoWs(r, v, w1, m.name + (w2 + tail));
    var r1 := AfterWs(r);
    Subnames(r, r1, v);
    NewRun(r1, v, m.name, w2, m.rest);
    if !RunHasRef(r1, v.Keys) {
      var r4 := LiteralRun(r1, v, m.name, w2, m.rest);
      RegroupBraced(w1, m.name, w2, r4);
      MatchOfBraced(w1, m.name, w2, r4);
    }
  }

  lemma AfterNameStops(w2: string, rest: string)
    requires AllWs(w2)
    ensures var t := w2 + ("}}" + rest); t != "" && (Ws(t[0]) || t[0] == '}')
  {
    if w2 == "" { assert w2 + ("}}" + rest) == "}}" + rest; }
  }

  lemma CompactIsFree(s: string, v: Values, c: char)
    requires Compact(s, v) && (Ws(c) || c == '}')
    ensures Free(s, v, c)
  {}

  /** From the name on: the run, white space and the closing braces. */
  lemma NewRun(r1: string, v: Values, name: string, w2: string, rest: string)
    requires Compact(r1, v) && IsName(name) && AllWs(w2) && Dollar(r1, v) == name + (w2 + ("}}" + rest))
    ensures !StartsWithDigit(r1) && "}}" <= AfterWs(AfterRun(r1, v.Keys))
  {
    var r2 := RunEnds(r1, v, name, w2, rest);
    var r4 := TwoBraces(AfterWs(r2), v, '}', rest);
    assert Dollar(r1, v)[0] == name[0];
    FirstChar(r1);
  }

  lemma RunEnds(r1: string, v: Values, name: string, w2: string, rest: string) returns (r2: string)
    requires Compact(r1, v) && IsName(name) && AllWs(w2) && Dollar(r1, v) == name + (w2 + ("}}" + rest))
    ensures r2 == AfterRun(r1, v.Keys) && r2 == w2 + AfterWs(r2) && Tame(AfterWs(r2), v)
    ensures Dollar(AfterWs(r2), v) == "}}" + rest
    ensures !RunHasRef(r1, v.Keys) ==> r1 == name + r2
  {
    var t := w2 + ("}}" + rest);
    AfterNameStops(w2, rest);
    CompactIsFree(r1, v, t[0]);
    UndoRun(r1, v, name, t);
    r2 := AfterRun(r1, v.Keys);
    Subnames(r1, r2, v);
    UndoWs(r2, v, w2, "}}" + rest);
    Subnames(r2, AfterWs(r2), v);
  }

  lemma LiteralRun(r1: string, v: Values, name: string, w2: string, rest: string) returns (r4: string)
    requires Compact(r1, v) && IsName(name) && AllWs(w2) && Dollar(r1, v) == name + (w2 + ("}}" + rest))
    requires !RunHasRef(r1, v.Keys)
    ensures r1 == name + (w2 + ("}}" + r4))
  {
    var r2 := RunEnds(r1, v, name, w2, rest);
    r4 := TwoBraces(AfterWs(r2), v, '}', rest);
  }

  lemma {:induction false} NoRegionNoNewHoles(s: string, v: Values)
    requires Compact(s, v) && NoRegion(s, v.Keys)
    ensures NoNewHoles(s, v)
    decreases |s|
  {
    if s != "" {
      if MatchBrace(s).Some? {
        var rest := MatchBrace(s).value.rest;
        AfterHole(s, v);
        AfterHoleNoRegion(s, v.Keys);
        Subnames(s, rest, v);
        NoRegionNoNewHoles(rest, v);
      } else {
        if MatchBrace(Dollar(s, v)).Some? { NewHoleHasRegion(s, v); }
        Subnames(s, Rest(s), v);
        NoRegionNoNewHoles(Rest(s), v);
      }
    }
  }

  // ----- A region shows ----------------------------------------------------------------------

  /** Every declared name gets this value. */
  function AllTo(K: set<string>, value: string): Values { map k | k in K :: value }

  lemma Associate(a: string, b: string, c: string)
    ensures a + (b + c) == (a + b) + c
  {}

  /** What a run is written as when all declared values are one long name. */
  lemma {:induction false} RunRenders(s: string, v: Values, value: string) returns (u: string)
    requires v == AllTo(v.Keys, value) && IsName(value)
    ensures Dollar(s, v) == u + Dollar(AfterRun(s, v.Keys), v)
    ensures (forall i :: 0 <= i < |u| ==> IdChar(u[i])) && (u != "" && !StartsWithDigit(s) ==> IdStart(u[0]))
    ensures RunHasRef(s, v.Keys) ==> |u| >= |value|
    decreases |s|
  {
    if s == "" || First(s).Esc? || (First(s).Lit? && !IdChar(First(s).c)) || (First(s).Ref? && First(s).name !in v) {
      u := "";
      assert u + Dollar(s, v) == Dollar(s, v);
    } else {
      FirstChar(s);
      var more := RunRenders(Rest(s), v, value);
      u := Rendered(First(s), v) + more;
      Associate(Rendered(First(s), v), more, Dollar(AfterRun(s, v.Keys), v));
    }
  }

  /** A region comes out as a placeholder whose name is as long as the value. */
  lemma RegionShows(s: string, v: Values, value: string)
    requires v == AllTo(v.Keys, value) && IsName(value) && RegionAt(s, v.Keys)
    ensures MatchBrace(Dollar(s, v)).Some? && |MatchBrace(Dollar(s, v)).value.name| >= |value|
  {
    var r := AfterWs(s[2..]);
    var w1 := OpeningRenders(s, v);
    var u := RunRenders(r, v, value);
    var w2, rest := ClosingRenders(AfterRun(r, v.Keys), v);
    RegroupBraced(w1, u, w2, rest);
    MatchOfBraced(w1, u, w2, rest);
  }

  lemma OpeningRenders(s: string, v: Values) returns (w: string)
    requires "{{" <= s
    ensures AllWs(w) && Dollar(s, v) == "{{" + (w + Dollar(AfterWs(s[2..]), v))
  {
    var q := s[2..];
    w := SkipIsWs(q);
    assert s == "{{" + q;
    DollarThrough("{{", q, v);
    DollarThrough(w, AfterWs(q), v);
  }

  lemma ClosingRenders(s: string, v: Values) returns (w: string, rest: string)
    requires "}}" <= AfterWs(s)
    ensures AllWs(w) && Dollar(s, v) == w + ("}}" + rest)
  {
    w := SkipIsWs(s);
    var r := AfterWs(s)[2..];
    rest := Dollar(r, v);
    assert AfterWs(s) == "}}" + r;
    CloseRenders(w, r, v);
  }

  lemma CloseRenders(w: string, r: string, v: Values)
    requires AllWs(w)
    ensures Dollar(w + ("}}" + r), v) == w + ("}}" + Dollar(r, v))
  {
    DollarThrough(w, "}}" + r, v);
    DollarThrough("}}", r, v);
  }

  /** Wherever in the body the region is. */
  lemma {:induction false} RegionInOutput(s: string, v: Values, value: string) returns (x: string, y: string)
    requires v == AllTo(v.Keys, value) && IsName(value) && !NoRegion(s, v.Keys)
    ensures Dollar(s, v) == x + y && MatchBrace(y).Some? && |MatchBrace(y).value.name| >= |value|
    decreases |s|
  {
    if RegionAt(s, v.Keys) {
      RegionShows(s, v, value);
      x, y := "", Dollar(s, v);
      assert x + y == y;
    } else {
      x, y := RegionInOutput(Rest(s), v, value);
      Associate(Rendered(First(s), v), x, y);
      x := Rendered(First(s), v) + x;
    }
  }

  /** Placeholders do not overlap, so the brace pass meets every one. */
  lemma {:induction false} HoleIsMet(x: string, y: string)
    requires MatchBrace(y).Some?
    ensures MatchBrace(y).value.name in BraceNames(x + y)
    decreases |x|
  {
    var s := x + y;
    if x == "" {
      assert s == y;
      BraceHole(y, map[]);
    } else if MatchBrace(s).None? {
      HoleIsMet(x[1..], y);
      Regroup(x, x[0], x[1..], y);
      BracePlain(x[0], x[1..] + y, map[]);
    } else {
      var tail := HolesApart(x, y);
      HoleIsMet(tail, y);
      BraceHole(s, map[]);
    }
  }

  /** A placeholder that begins before another ends before it. */
  lemma HolesApart(x: string, y: string) returns (tail: string)
    requires x != "" && MatchBrace(y).Some? && MatchBrace(x + y).Some?
    ensures |tail| < |x| && MatchBrace(x + y).value.rest == tail + y
  {
    var s, m := x + y, MatchBrace(x + y).value;
    var w1, w2 := Decompose(s);
    var t := Braced(w1, m.name, w2);
    assert y[0] == '{' && y[1] == '{' && s[|x|] == y[0] && s[|x|+1] == y[1];
    OpensOnce(w1, m.name, w2);
    assert forall i :: 0 <= i < |t| ==> s[i] == t[i];
    assert |t| <= |x|;
    SplitPrefix(t, m.rest, x, y);
    tail := x[|t|..];
  }

  lemma OpensOnce(w1: string, name: string, w2: string)
    requires AllWs(w1) && IsName(name) && AllWs(w2)
    ensures var t := Braced(w1, name, w2); |t| >= 5 && forall i :: 2 <= i < |t| ==> t[i] != '{'
  {
    var u := Inner(w1, name, w2);
    assert forall i :: 0 <= i < |u| ==> u[i] != '{';
  }

  /** Names in the original text are no longer than the text. */
  lemma {:induction false} SingleNamesShort(s: string)
    ensures forall name :: name in SingleNames(s) ==> |name| <= |s|
    decreases |s|
  {
    if s != "" {
      if MatchBrace(s).Some? {
        var w1, w2 := Decompose(s);
        SingleNamesShort(MatchBrace(s).value.rest);
      } else {
        FirstIsPrefix(s);
        SingleNamesShort(Rest(s));
      }
    }
  }

  // ----- Exactly when ------------------------------------------------------------------------

  function LongName(n: nat): (s: string)
    ensures |s| == n + 1 && IsName(s) && NoBrace(s) && NoWs(s)
  {
    seq(n + 1, i requires 0 <= i < n + 1 => 'a')
  }

  /** With a region, some choice of compact values makes the passes differ. */
  lemma RegionSeparates(s: string, K: set<string>) returns (v: Values)
    requires !NoRegion(s, K)
    ensures v.Keys == K && Compact(s, v) && !Agree(s, v)
  {
    var value := LongName(|s|);
    v := AllTo(K, value);
    assert v.Keys == K;
    var x, y := RegionInOutput(s, v, value);
    HoleIsMet(x, y);
    SingleNamesShort(s);
  }

  /** For a body s and declared names K: the two passes are one simultaneous substitution, in text and
      in names, for every choice of values that are non-empty and free of braces and white space,
      exactly when the body has no region. */
  lemma SimultaneousIff(s: string, K: set<string>)
    ensures NoRegion(s, K) <==> forall v: Values :: v.Keys == K && Compact(s, v) ==> Agree(s, v)
  {
    if NoRegion(s, K) {
      forall v: Values | v.Keys == K && Compact(s, v) ensures Agree(s, v) {
        NoRegionNoNewHoles(s, v);
        AgreeWithoutNewHoles(s, v);
      }
    } else {
      var v := RegionSeparates(s, K);
    }
  }
}
