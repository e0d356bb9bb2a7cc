/** The same for values that may hold white space: where such values complete a placeholder, and that
    without such a place the two passes are one (internal/catalog/artifact.go, lines 69 and 70). */
module LooseRegions {
  import opened Lines
  import opened Identifiers
  import opened DollarPass
  import opened BracePass
  import opened TwoPasses
  import opened Regions

  // ----- Loose regions ---------------------------------------------------------------------

  /** Where in a placeholder one is: before its name, inside the name, or behind it. */
  datatype Place = Before | Inside | Behind

  function AfterBlank(q: Place): Place { if q == Inside then Behind else q }

  predicate Letter(q: Place, c: char) {
    match q
    case Before => IdStart(c)
    case Inside => IdChar(c)
    case Behind => false
  }

  /** From this place on, s finishes a placeholder when the references in W stand for white space and
      the other declared ones for letters; `ref` says whether a reference has been met already. */
  predicate Completes(s: string, K: set<string>, W: set<string>, q: Place, ref: bool)
    decreases |s|
  {
    if "}}" <= s then q != Before && ref
    else if s == "" then false
    else match First(s)
      case Lit(c) =>
        if Ws(c) then Completes(Rest(s), K, W, AfterBlank(q), ref)
        else Letter(q, c) && Completes(Rest(s), K, W, Inside, ref)
      case Esc => false
      case Ref(name) =>
        && name in K
        && if name in W then Completes(Rest(s), K, W, AfterBlank(q), true)
           else q != Behind && Completes(Rest(s), K, W, Inside, true)
  }

  /** `{{`, and what follows finishes a placeholder for some choice of the references that stand for
      white space. */
  ghost predicate LooseRegionAt(s: string, K: set<string>) {
    "{{" <= s && exists W: set<string> :: Completes(s[2..], K, W, Before, false)
  }

  ghost predicate NoLooseRegion(s: string, K: set<string>)
    decreases |s|
  {
    s == "" || (!LooseRegionAt(s, K) && NoLooseRegion(Rest(s), K))
  }

  // ----- What stands between the braces of a placeholder -------------------------------------

  /** From this place on, u finishes the inside of a placeholder. */
  predicate Shape(q: Place, u: string)
    decreases |u|
  {
    if u == "" then q != Before
    else if Ws(u[0]) then Shape(AfterBlank(q), u[1..])
    else Letter(q, u[0]) && Shape(Inside, u[1..])
  }

  lemma {:induction false} BlankShape(q: Place, w: string, u: string)
    requires AllWs(w) && w != ""
    ensures Shape(q, w + u) <==> Shape(AfterBlank(q), u)
    decreases |w|
  {
    Regroup(w, w[0], w[1..], u);
    if w[1..] == "" {
      assert w[1..] + u == u;
    } else {
      BlankShape(AfterBlank(q), w[1..], u);
    }
  }

  lemma {:induction false} BehindIsBlank(u: string)
    ensures Shape(Behind, u) <==> AllWs(u)
  {
    if u != "" {
      BehindIsBlank(u[1..]);
      assert AllWs(u) ==> AllWs(u[1..]) && Ws(u[0]);
      assert Ws(u[0]) && AllWs(u[1..]) ==> AllWs(u) by { assert u == [u[0]] + u[1..]; }
    }
  }

  /** An end that is blank also ends a name. */
  lemma BlankEndsName(u: string)
    requires AllWs(u)
    ensures Shape(Inside, u)
  {
    BehindIsBlank(u);
    if u != "" { BehindIsBlank(u[1..]); }
  }

  lemma {:induction false} LettersShape(name: string, u: string)
    requires (forall i :: 0 <= i < |name| ==> IdChar(name[i])) && AllWs(u)
    ensures Shape(Inside, name + u)
  {
    if name == "" {
      assert name + u == u;
      BlankEndsName(u);
    } else {
      LettersShape(name[1..], u);
      Regroup(name, name[0], name[1..], u);
    }
  }

  lemma InnerShape(w1: string, name: string, w2: string)
    requires AllWs(w1) && IsName(name) && AllWs(w2)
    ensures Shape(Before, Inner(w1, name, w2))
  {
    LettersShape(name[1..], w2);
    Regroup(name, name[0], name[1..], w2);
    assert Inner(w1, name, w2) == w1 + (name + w2);
    if w1 == "" {
      assert w1 + (name + w2) == name + w2;
    } else {
      BlankShape(Before, w1, name + w2);
    }
  }

  /** And what has this shape is white space, a name and white space. */
  lemma {:induction false} ShapeInside(u: string) returns (name: string, w: string)
    requires Shape(Inside, u)
    ensures u == name + w && AllWs(w) && forall i :: 0 <= i < |name| ==> IdChar(name[i])
  {
    if u == "" || Ws(u[0]) {
      name, w := "", u;
      if u != "" {
        BehindIsBlank(u[1..]);
        assert u == [u[0]] + u[1..];
      }
    } else {
      name, w := ShapeInside(u[1..]);
      Regroup([u[0]] + name, u[0], name, w);
      name := [u[0]] + name;
    }
  }

  lemma {:induction false} ShapeInner(u: string) returns (w1: string, name: string, w2: string)
    requires Shape(Before, u)
    ensures AllWs(w1) && IsName(name) && AllWs(w2) && u == Inner(w1, name, w2)
  {
    if Ws(u[0]) {
      w1, name, w2 := ShapeInner(u[1..]);
      assert u == [u[0]] + Inner(w1, name, w2) == Inner([u[0]] + w1, name, w2);
      w1 := [u[0]] + w1;
    } else {
      name, w2 := ShapeInside(u[1..]);
      w1, name := "", [u[0]] + name;
      assert u == [u[0]] + u[1..] == Inner(w1, name, w2);
    }
  }

  /** A stretch that is not all white space starts or continues the name, and the name may go on. */
  lemma {:induction false} NameThrough(q: Place, a: string, b: string)
    requires Shape(q, a + b) && !AllWs(a)
    ensures q != Behind && Shape(Inside, b)
    decreases |a|
  {
    var c, more := a[0], a[1..];
    Regroup(a, c, more, b);
    assert a == [c] + more;
    if !AllWs(more) {
      NameThrough(if Ws(c) then AfterBlank(q) else Inside, more, b);
    } else if more == "" {
      assert more + b == b;
    } else {
      BlankShape(Inside, more, b);
      BehindIsBlank(b);
      BlankEndsName(b);
    }
  }

  // ----- A new placeholder comes from a loose region -----------------------------------------

  /** The references whose values are white space. */
  ghost function Blanks(v: Values): set<string> { set name | name in v && AllWs(v[name]) }

  /** If output finishes a placeholder, then so does the text it came from, or it is that very text. */
  lemma {:induction false} OutputCompletes(s: string, v: Values, q: Place, u: string, rest: string, ref: bool) returns (end: string)
    requires Tame(s, v) && Shape(q, u) && Dollar(s, v) == u + ("}}" + rest)
    ensures Completes(s, v.Keys, Blanks(v), q, ref) || (!ref && s == u + ("}}" + end))
    decreases |s|
  {
    if u == "" {
      assert u + ("}}" + rest) == "}}" + rest;
      end := TwoBraces(s, v, '}', rest);
      assert u + ("}}" + end) == s;
    } else {
      var t, r := First(s), Rest(s);
      assert s != "" && Tame(r, v) by { assert Dollar(s, v) != ""; }
      FirstIsPrefix(s);
      TokenInShape(s, v, q, u, "}}" + rest);
      var more := u[|Rendered(t, v)|..];
      if t.Lit? {
        end := OutputCompletes(r, v, if Ws(t.c) then AfterBlank(q) else Inside, more, rest, ref);
        Regroup(u, t.c, more, "}}" + end);
      } else {
        end := OutputCompletes(r, v, if t.name in Blanks(v) then AfterBlank(q) else Inside, more, rest, true);
      }
    }
  }

  /** The first token is a part of the shape. */
  lemma TokenInShape(s: string, v: Values, q: Place, u: string, tail: string)
    requires s != "" && Tame(s, v) && Shape(q, u) && u != "" && tail != "" && tail[0] == '}' && Dollar(s, v) == u + tail
    ensures !("}}" <= s) && !First(s).Esc? && (First(s).Ref? ==> First(s).name in v)
    ensures 0 < |Rendered(First(s), v)| <= |u| && Dollar(Rest(s), v) == u[|Rendered(First(s), v)|..] + tail
    ensures First(s).Lit? ==> First(s).c == u[0]
    ensures First(s).Ref? && First(s).name in Blanks(v) ==> Shape(AfterBlank(q), u[|Rendered(First(s), v)|..])
    ensures First(s).Ref? && First(s).name !in Blanks(v) ==> q != Behind && Shape(Inside, u[|Rendered(First(s), v)|..])
  {
    var t, d := First(s), Dollar(Rest(s), v);
    var a := Rendered(t, v);
    SplitPrefix(a, d, u, tail);
    FirstChar(s);
    TokenHead(s, v);
    if t.Ref? && t.name in v {
      CutFront(a, d, u, tail);
      PieceInShape(q, a, u[|a|..]);
    }
  }

  lemma CutFront(a: string, d: string, u: string, tail: string)
    requires a + d == u + tail && |a| <= |u|
    ensures u == a + u[|a|..]
  {
    assert (a + d)[..|a|] == a && (u + tail)[..|a|] == u[..|a|];
  }

  lemma PieceInShape(q: Place, a: string, b: string)
    requires Shape(q, a + b) && a != ""
    ensures AllWs(a) ==> Shape(AfterBlank(q), b)
    ensures !AllWs(a) ==> q != Behind && Shape(Inside, b)
  {
    if AllWs(a) { BlankShape(q, a, b); } else { NameThrough(q, a, b); }
  }

  /** A placeholder of the output that was none of the input comes from a loose region. */
  lemma NewHoleHasLooseRegion(s: string, v: Values)
    requires s != "" && Tame(s, v) && MatchBrace(s).None? && MatchBrace(Dollar(s, v)).Some?
    ensures LooseRegionAt(s, v.Keys)
  {
    var m := MatchBrace(Dollar(s, v)).value;
    var w1, w2 := Decompose(Dollar(s, v));
    var u, tail := Inner(w1, m.name, w2), "}}" + m.rest;
    RegroupInner(u, m.rest);
    InnerShape(w1, m.name, w2);
    var r := TwoBraces(s, v, '{', u + tail);
    Subnames(s, r, v);
    var end := OutputCompletes(r, v, Before, u, m.rest, false);
    if !Completes(r, v.Keys, Blanks(v), Before, false) {
      RegroupInner(u, end);
      MatchOfBraced(w1, m.name, w2, end);
    }
  }

  lemma RegroupInner(u: string, rest: string)
    ensures ("{{" + u + "}}") + rest == "{{" + (u + ("}}" + rest))
  {}

  // ----- A loose region shows ----------------------------------------------------------------

  /** A blank for the references in W, a letter for the others. */
  function Telling(K: set<string>, W: set<string>): Values { map k | k in K :: if k in W then " " else "a" }

  /** What finishes a placeholder is written as its end. */
  lemma {:induction false} CompletionRenders(s: string, K: set<string>, W: set<string>, q: Place, ref: bool)
    returns (u: string, rest: string)
    requires Completes(s, K, W, q, ref)
    ensures Shape(q, u) && Dollar(s, Telling(K, W)) == u + ("}}" + rest)
    decreases |s|
  {
    var v := Telling(K, W);
    if "}}" <= s {
      u, rest := "", Dollar(s[2..], v);
      assert s == "}}" + s[2..];
      DollarThrough("}}", s[2..], v);
      assert u + ("}}" + rest) == "}}" + rest;
    } else {
      var t := First(s);
      var blank := if t.Lit? then Ws(t.c) else t.name in W;
      u, rest := CompletionRenders(Rest(s), K, W, if blank then AfterBlank(q) else Inside, ref || t.Ref?);
      var c := if t.Lit? then t.c else if blank then ' ' else 'a';
      assert Rendered(t, v) == [c];
      Regroup([c] + u, c, u, "}}" + rest);
      u := [c] + u;
    }
  }

  /** With these values the placeholder is there. */
  lemma LooseRegionShows(s: string, K: set<string>) returns (v: Values)
    requires LooseRegionAt(s, K)
    ensures v.Keys == K && (forall k :: k in K ==> v[k] != "" && NoBrace(v[k]))
    ensures MatchBrace(s).None? && MatchBrace(Dollar(s, v)).Some?
  {
    var W: set<string> :| Completes(s[2..], K, W, Before, false);
    v := Telling(K, W);
    TellingShows(s, s[2..], K, W);
    if MatchBrace(s).Some? { HoleIsNoLooseRegion(s, K, W); }
  }

  lemma TellingShows(s: string, r: string, K: set<string>, W: set<string>)
    requires s == "{{" + r && Completes(r, K, W, Before, false)
    ensures MatchBrace(Dollar(s, Telling(K, W))).Some?
  {
    var u, rest := CompletionRenders(r, K, W, Before, false);
    DollarThrough("{{", r, Telling(K, W));
    RegroupInner(u, rest);
    ShapeMatches(u, rest);
  }

  lemma ShapeMatches(u: string, rest: string)
    requires Shape(Before, u)
    ensures MatchBrace(("{{" + u + "}}") + rest).Some?
  {
    var w1, name, w2 := ShapeInner(u);
    MatchOfBraced(w1, name, w2, rest);
  }

  /** Without a reference nothing fits. */
  lemma {:induction false} LiteralsDoNotComplete(u: string, rest: string, K: set<string>, W: set<string>, q: Place)
    requires forall i :: 0 <= i < |u| ==> Ws(u[i]) || IdChar(u[i])
    ensures !Completes(u + ("}}" + rest), K, W, q, false)
  {
    if u == "" {
      assert u + ("}}" + rest) == "}}" + rest;
    } else {
      var s := u + ("}}" + rest);
      Regroup(u, u[0], u[1..], "}}" + rest);
      assert First(s) == Lit(u[0]) && Rest(s) == u[1..] + ("}}" + rest);
      LiteralsDoNotComplete(u[1..], rest, K, W, if Ws(u[0]) then AfterBlank(q) else Inside);
    }
  }

  lemma HoleIsNoLooseRegion(s: string, K: set<string>, W: set<string>)
    requires MatchBrace(s).Some?
    ensures !Completes(s[2..], K, W, Before, false)
  {
    var m := MatchBrace(s).value;
    var w1, w2 := Decompose(s);
    var u := Inner(w1, m.name, w2);
    RegroupInner(u, m.rest);
    assert s[2..] == u + ("}}" + m.rest);
    assert forall i :: 0 <= i < |u| ==> Ws(u[i]) || IdChar(u[i]);
    LiteralsDoNotComplete(u, m.rest, K, W, Before);
  }

  // ----- Exactly when no placeholder is completed --------------------------------------------

  lemma {:induction false} NoLooseRegionThrough(p: string, s: string, K: set<string>)
    requires NoDollar(p)
    ensures NoLooseRegion(p + s, K) ==> NoLooseRegion(s, K)
    ensures NoLooseRegion(s, K) && (forall i :: 0 <= i < |p| ==> p[i] != '{') ==> NoLooseRegion(p + s, K)
  {
    if p == "" {
      assert p + s == s;
    } else {
      var c, q := p[0], p[1..];
      NoLooseRegionThrough(q, s, K);
      Regroup(p, c, q, s);
      assert (p + s)[0] == c && First([c] + (q + s)) == Lit(c) && Rest([c] + (q + s)) == q + s;
    }
  }

  /** A placeholder neither is nor holds a loose region. */
  lemma AfterHoleNoLooseRegion(s: string, K: set<string>)
    requires MatchBrace(s).Some?
    ensures NoLooseRegion(s, K) <==> NoLooseRegion(MatchBrace(s).value.rest, K)
  {
    var m := MatchBrace(s).value;
    var w1, w2 := Decompose(s);
    BracedIsPlain(w1, m.name, w2);
    NoLooseRegionThrough(Braced(w1, m.name, w2), m.rest, K);
    var u := AfterOpening(s, w1, m.name, w2, m.rest);
    NoLooseRegionThrough(u, m.rest, K);
    forall W: set<string> ensures !Completes(s[2..], K, W, Before, false) { HoleIsNoLooseRegion(s, K, W); }
    OnlyAtTheFront(s, u + m.rest, K);
  }

  lemma AfterOpening(s: string, w1: string, name: string, w2: string, rest: string) returns (u: string)
    requires AllWs(w1) && IsName(name) && AllWs(w2) && s == Braced(w1, name, w2) + rest
    ensures u != "" && NoDollar(u) && (forall i :: 0 <= i < |u| ==> u[i] != '{')
    ensures s == ['{'] + (['{'] + (u + rest))
  {
    var inner := Inner(w1, name, w2);
    u := inner + "}}";
    RegroupInner(inner, rest);
    Associate(inner, "}}", rest);
    TwoFront('{', u + rest);
    assert forall i :: 0 <= i < |inner| ==> Ws(inner[i]) || IdChar(inner[i]);
  }

  lemma OnlyAtTheFront(s: string, more: string, K: set<string>)
    requires s == ['{'] + (['{'] + more) && more != "" && more[0] != '{' && !LooseRegionAt(s, K)
    ensures NoLooseRegion(s, K) <==> NoLooseRegion(more, K)
  {
    var r := ['{'] + more;
    assert s[0] == '{' && s[1..] == r && r[0] == '{' && r[1..] == more && r[1] == more[0];
    assert First(s) == Lit('{') && Rest(s) == r && First(r) == Lit('{') && Rest(r) == more;
    assert !("{{" <= r);
  }

  lemma {:induction false} NoLooseRegionNoNewHoles(s: string, v: Values)
    requires Tame(s, v) && NoLooseRegion(s, v.Keys)
    ensures NoNewHoles(s, v)
    decreases |s|
  {
    if s != "" {
      if MatchBrace(s).Some? {
        var rest := MatchBrace(s).value.rest;
        AfterHole(s, v);
        AfterHoleNoLooseRegion(s, v.Keys);
        NoLooseRegionNoNewHoles(rest, v);
      } else {
        if MatchBrace(Dollar(s, v)).Some? { NewHoleHasLooseRegion(s, v); }
        Subnames(s, Rest(s), v);
        NoLooseRegionNoNewHoles(Rest(s), v);
      }
    }
  }

  lemma {:induction false} LooseRegionMakesHole(s: string, K: set<string>) returns (v: Values)
    requires !NoLooseRegion(s, K)
    ensures v.Keys == K && Tame(s, v) && !NoNewHoles(s, v)
    ensures forall k :: k in K ==> v[k] != "" && NoBrace(v[k])
    decreases |s|
  {
    if LooseRegionAt(s, K) {
      v := LooseRegionShows(s, K);
    } else if MatchBrace(s).Some? {
      AfterHoleNoLooseRegion(s, K);
      v := LooseRegionMakesHole(MatchBrace(s).value.rest, K);
    } else {
      v := LooseRegionMakesHole(Rest(s), K);
    }
  }

  /** For a body s and declared names K: no choice of values that are non-empty and free of braces
      completes a placeholder the body does not have, exactly when the body has no loose region. */
  lemma NoNewHolesIff(s: string, K: set<string>)
    ensures NoLooseRegion(s, K) <==> forall v: Values :: v.Keys == K && Tame(s, v) ==> NoNewHoles(s, v)
  {
    if NoLooseRegion(s, K) {
      forall v: Values | v.Keys == K && Tame(s, v) ensures NoNewHoles(s, v) {
        NoLooseRegionNoNewHoles(s, v);
      }
    } else {
      var v := LooseRegionMakesHole(s, K);
    }
  }

  /** Whatever white space the inserted values hold, as long as they are non-empty and brace-free: a
      body without a loose region is rendered as by one simultaneous substitution. */
  lemma TwoPassesAreOne(s: string, v: Values)
    requires Tame(s, v) && NoLooseRegion(s, v.Keys)
    ensures Agree(s, v)
  {
    NoLooseRegionNoNewHoles(s, v);
    AgreeWithoutNewHoles(s, v);
  }
}
