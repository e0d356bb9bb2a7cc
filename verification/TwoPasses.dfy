/** The dollar pass runs first and the brace pass reads what it wrote, inserted values included.
    This module says when the result is that of one simultaneous substitution over the original
    text (internal/catalog/artifact.go, lines 69 and 70). */
module TwoPasses {
  import opened SkillTypes
  import opened Lines
  import opened Identifiers
  import opened DollarPass
  import opened BracePass

  // ----- One simultaneous substitution -----------------------------------------------------

  /** Reads the original text once, replacing both kinds of placeholders. */
  function Single(s: string, v: Values): string
    decreases |s|
  {
    if s == "" then ""
    else match MatchBrace(s)
      case Some(m) => BracePass.Filled(HoleOf(s, m), v) + Single(m.rest, v)
      case None => Rendered(First(s), v) + Single(Rest(s), v)
  }

  function SingleNames(s: string): set<string>
    decreases |s|
  {
    if s == "" then {}
    else match MatchBrace(s)
      case Some(m) => {m.name} + SingleNames(m.rest)
      case None => NameOf(First(s)) + SingleNames(Rest(s))
  }

  // ----- The two passes, one step at a time ------------------------------------------------

  function Dollar(s: string, v: Values): string
    decreases |s|
  {
    if s == "" then "" else Rendered(First(s), v) + Dollar(Rest(s), v)
  }

  function DollarNames(s: string): set<string>
    decreases |s|
  {
    if s == "" then {} else NameOf(First(s)) + DollarNames(Rest(s))
  }

  lemma {:induction false} DollarIsRendering(s: string, v: Values)
    ensures Dollar(s, v) == RenderTokens(Tokenize(s), v)
    ensures DollarNames(s) == Refs(Tokenize(s))
    decreases |s|
  {
    if s != "" {
      DollarIsRendering(Rest(s), v);
      assert Tokenize(s)[1..] == Tokenize(Rest(s));
    }
  }

  function BraceNames(s: string): set<string> { Holes(Pieces(s)) }

  lemma BraceHole(s: string, v: Values)
    requires MatchBrace(s).Some?
    ensures var m := MatchBrace(s).value;
      && Braces(s, v) == BracePass.Filled(HoleOf(s, m), v) + Braces(m.rest, v)
      && BraceNames(s) == {m.name} + BraceNames(m.rest)
  {
    var m := MatchBrace(s).value;
    PiecesCons(s, HoleOf(s, m), Pieces(m.rest));
    FillCons(HoleOf(s, m), Pieces(m.rest), v);
  }

  lemma FillCons(p: Piece, ps: seq<Piece>, v: Values)
    ensures FillPieces([p] + ps, v) == BracePass.Filled(p, v) + FillPieces(ps, v)
    ensures Holes([p] + ps) == NameIn(p) + Holes(ps)
  {
    assert ([p] + ps)[1..] == ps;
  }

  lemma BracePlain(c: char, s: string, v: Values)
    requires MatchBrace([c] + s).None?
    ensures Braces([c] + s, v) == [c] + Braces(s, v) && BraceNames([c] + s) == BraceNames(s)
  {
    assert ([c] + s)[1..] == s;
    PiecesCons([c] + s, Plain(c), Pieces(s));
    FillCons(Plain(c), Pieces(s), v);
  }

  // ----- Text that passes through unchanged ------------------------------------------------

  predicate NoDollar(p: string) { forall i :: 0 <= i < |p| ==> p[i] != '$' && p[i] != '\\' }

  predicate NoBrace(p: string) { forall i :: 0 <= i < |p| ==> p[i] != '{' && p[i] != '}' }

  lemma DollarPlain(c: char, s: string, v: Values)
    requires c != '$' && c != '\\'
    ensures Dollar([c] + s, v) == [c] + Dollar(s, v) && DollarNames([c] + s) == DollarNames(s)
  {
    assert First([c] + s) == Lit(c);
    assert Rest([c] + s) == s;
  }

  lemma {:induction false} DollarThrough(p: string, s: string, v: Values)
    requires NoDollar(p)
    ensures Dollar(p + s, v) == p + Dollar(s, v) && DollarNames(p + s) == DollarNames(s)
  {
    if p == "" {
      assert p + s == s;
    } else {
      var c, q := p[0], p[1..];
      DollarThrough(q, s, v);
      DollarPlain(c, q + s, v);
      Regroup(p, c, q, s);
      Regroup(p, c, q, Dollar(s, v));
    }
  }

  lemma NotAHole(c: char, s: string)
    requires c != '{'
    ensures MatchBrace([c] + s).None?
  {
    assert ([c] + s)[0] == c;
  }

  lemma {:induction false} BracesThrough(p: string, s: string, v: Values)
    requires NoBrace(p)
    ensures Braces(p + s, v) == p + Braces(s, v) && BraceNames(p + s) == BraceNames(s)
  {
    if p == "" {
      assert p + s == s;
    } else {
      var c, q := p[0], p[1..];
      BracesThrough(q, s, v);
      NotAHole(c, q + s);
      BracePlain(c, q + s, v);
      Regroup(p, c, q, s);
      Regroup(p, c, q, Braces(s, v));
    }
  }

  // ----- What each pass does with its own placeholders ----------------------------------------

  /** A reference becomes its value, or stays when it has none; the value is not read again. */
  lemma DollarReads(p: string, name: string, q: string, v: Values)
    requires NoDollar(p) && IsName(name) && (q != "" ==> !IdChar(q[0]))
    ensures Dollar(p + ("$" + name + q), v) == p + ((if name in v then v[name] else "$" + name) + Dollar(q, v))
    ensures DollarNames(p + ("$" + name + q)) == {name} + DollarNames(q)
  {
    RefIsRecovered(name, q);
    DollarThrough(p, "$" + name + q, v);
  }

  /** An escaped dollar sign loses its backslash and starts nothing. */
  lemma DollarUnescapes(p: string, q: string, v: Values)
    requires NoDollar(p)
    ensures Dollar(p + ("\\$" + q), v) == p + ("$" + Dollar(q, v)) && DollarNames(p + ("\\$" + q)) == DollarNames(q)
  {
    assert ("\\$" + q)[2..] == q;
    DollarThrough(p, "\\$" + q, v);
  }

  /** A dollar sign without a name and a backslash without a dollar sign stay. */
  lemma DollarLeaves(c: char, q: string, v: Values)
    requires (c == '$' && (q == "" || !IdStart(q[0]))) || (c == '\\' && (q == "" || q[0] != '$'))
    ensures Dollar([c] + q, v) == [c] + Dollar(q, v) && DollarNames([c] + q) == DollarNames(q)
  {
    LitIsRecovered(c, q);
  }

  /** A placeholder in braces becomes its value, or stays byte for byte when it has none. */
  lemma BracesRead(w1: string, name: string, w2: string, q: string, v: Values)
    requires AllWs(w1) && IsName(name) && AllWs(w2)
    ensures Braces(Braced(w1, name, w2) + q, v) == (if name in v then v[name] else Braced(w1, name, w2)) + Braces(q, v)
    ensures BraceNames(Braced(w1, name, w2) + q) == {name} + BraceNames(q)
  {
    MatchOfBraced(w1, name, w2, q);
    BraceHole(Braced(w1, name, w2) + q, v);
    TextInFront(Braced(w1, name, w2), q);
  }

  /** Where no placeholder begins the brace pass copies. */
  lemma BracesLeave(s: string, v: Values)
    requires s != "" && MatchBrace(s).None?
    ensures Braces(s, v) == [s[0]] + Braces(s[1..], v) && BraceNames(s) == BraceNames(s[1..])
  {
    assert s == [s[0]] + s[1..];
    BracePlain(s[0], s[1..], v);
  }

  // ----- When the passes agree -------------------------------------------------------------

  /** The two passes give the text and the names of the one simultaneous substitution. */
  ghost predicate Agree(s: string, v: Values) {
    Braces(Dollar(s, v), v) == Single(s, v) && DollarNames(s) + BraceNames(Dollar(s, v)) == SingleNames(s)
  }

  /** Declared values that `$name` inserts are non-empty and free of braces. */
  ghost predicate Tame(s: string, v: Values) {
    forall name :: name in DollarNames(s) && name in v ==> v[name] != "" && NoBrace(v[name])
  }

  /** Wherever the original reading passes a `{` that opens no placeholder, the output opens none. */
  ghost predicate NoNewHoles(s: string, v: Values)
    decreases |s|
  {
    s == "" ||
    match MatchBrace(s)
    case Some(m) => NoNewHoles(m.rest, v)
    case None => (s[0] == '{' ==> MatchBrace(Dollar(s, v)).None?) && NoNewHoles(Rest(s), v)
  }

  /** What a token is written as, apart from a literal brace, has no braces. */
  lemma TokenNoBrace(s: string, v: Values)
    requires s != "" && Tame(s, v) && (First(s).Lit? ==> First(s).c != '{' && First(s).c != '}')
    ensures NoBrace(Rendered(First(s), v)) && Rendered(First(s), v) != ""
  {
    ScanStops(s[1..]);
  }

  lemma TokenHead(s: string, v: Values)
    requires s != "" && Tame(s, v)
    ensures !First(s).Lit? ==> Rendered(First(s), v) != "" && Rendered(First(s), v)[0] != '{' && Rendered(First(s), v)[0] != '}'
  {
    if !First(s).Lit? { TokenNoBrace(s, v); }
  }

  /** A brace at the front of the output was at the front of the input. */
  lemma HeadBrace(s: string, v: Values, c: char, out: string)
    requires Tame(s, v) && (c == '{' || c == '}') && Dollar(s, v) == [c] + out
    ensures s != "" && First(s) == Lit(c) && s == [c] + Rest(s) && Dollar(Rest(s), v) == out
  {
    assert Dollar(s, v)[0] == c;
    FirstIsPrefix(s);
    TokenHead(s, v);
    assert ([c] + Dollar(Rest(s), v))[1..] == ([c] + out)[1..];
    assert ([c] + Dollar(Rest(s), v))[1..] == Dollar(Rest(s), v);
    assert ([c] + out)[1..] == out;
  }

  lemma BracedIsPlain(w1: string, name: string, w2: string)
    requires AllWs(w1) && IsName(name) && AllWs(w2)
    ensures NoDollar(Braced(w1, name, w2))
  {}

  lemma TextInFront(t: string, rest: string)
    ensures (t + rest)[..|t + rest| - |rest|] == t
  {}

  /** A placeholder of the original text goes through the dollar pass untouched. */
  lemma AfterHole(s: string, v: Values)
    requires MatchBrace(s).Some? && Tame(s, v)
    ensures var m := MatchBrace(s).value; var d := Dollar(m.rest, v);
      && Tame(m.rest, v) && DollarNames(s) == DollarNames(m.rest)
      && MatchBrace(Dollar(s, v)) == Some(Match(m.name, d))
      && |d| <= |Dollar(s, v)| && HoleOf(Dollar(s, v), Match(m.name, d)) == HoleOf(s, m)
  {
    var m := MatchBrace(s).value;
    var w1, w2 := Decompose(s);
    var t, d := Braced(w1, m.name, w2), Dollar(m.rest, v);
    BracedIsPlain(w1, m.name, w2);
    DollarThrough(t, m.rest, v);
    MatchOfBraced(w1, m.name, w2, d);
    TextInFront(t, m.rest);
    TextInFront(t, d);
  }

  /** What happens to the text at a position that starts no placeholder in braces. */
  lemma AfterToken(s: string, v: Values)
    requires s != "" && MatchBrace(s).None? && Tame(s, v) && (s[0] == '{' ==> MatchBrace(Dollar(s, v)).None?)
    ensures Braces(Dollar(s, v), v) == Rendered(First(s), v) + Braces(Dollar(Rest(s), v), v)
    ensures BraceNames(Dollar(s, v)) == BraceNames(Dollar(Rest(s), v))
  {
    var t, d := First(s), Dollar(Rest(s), v);
    if t.Lit? && t.c == '{' {
      BracePlain(t.c, d, v);
    } else if t.Lit? && t.c == '}' {
      NotAHole(t.c, d);
      BracePlain(t.c, d, v);
    } else {
      TokenNoBrace(s, v);
      BracesThrough(Rendered(t, v), d, v);
    }
  }

  lemma {:induction false} AgreeWithoutNewHoles(s: string, v: Values)
    requires Tame(s, v) && NoNewHoles(s, v)
    ensures Agree(s, v)
    decreases |s|
  {
    if s != "" {
      if MatchBrace(s).Some? {
        AfterHole(s, v);
        BraceHole(Dollar(s, v), v);
        AgreeWithoutNewHoles(MatchBrace(s).value.rest, v);
      } else {
        AfterToken(s, v);
        AgreeWithoutNewHoles(Rest(s), v);
      }
    }
  }
}
