/** The second pass of template rendering: `{{ name }}` placeholders
    (internal/catalog/artifact.go, renderDoubleBracePlaceholders). */
module BracePass {
  import opened SkillTypes
  import opened Text
  import opened Identifiers
  import opened Parts

  /** The white space class of the regular expression. */
  predicate Ws(c: char) { c == '\t' || c == '\n' || Code(c) == 0x0C || c == '\r' || c == ' ' }

  predicate AllWs(s: string) { forall i :: 0 <= i < |s| ==> Ws(s[i]) }

  /** The language of \{\{\s*([A-Za-z_][A-Za-z0-9_]*)\s*\}\} with its one group. */
  ghost predicate IsPlaceholder(t: string, name: string) {
    IsName(name) && exists w1, w2 :: AllWs(w1) && AllWs(w2) && t == Braced(w1, name, w2)
  }

  function Braced(w1: string, name: string, w2: string): string {
    "{{" + Inner(w1, name, w2) + "}}"
  }

  function Inner(w1: string, name: string, w2: string): string { w1 + name + w2 }

  // ----- Matching --------------------------------------------------------------------------

  function AfterWs(s: string): (r: string)
    ensures |r| <= |s|
  {
    if s == "" || !Ws(s[0]) then s else AfterWs(s[1..])
  }

  /** What follows white space and the closing braces, if that is what comes next. */
  function AfterClose(s: string): (r: Option<string>)
    ensures r.Some? ==> |r.value| + 2 <= |s|
  {
    if "}}" <= AfterWs(s) then Some(AfterWs(s)[2..]) else None
  }

  /** The group of a match and the text behind it. */
  datatype Match = Match(name: string, rest: string)

  /** From the name on. */
  function NameAndClose(s: string): (m: Option<Match>)
    ensures m.Some? ==> |m.value.rest| + 2 <= |s|
  {
    if ScanName(s) == "" then None
    else match AfterClose(AfterName(s))
      case Some(rest) => Some(Match(ScanName(s), rest))
      case None => None
  }

  /** The match that begins at the start of s, if any. */
  function MatchBrace(s: string): (m: Option<Match>)
    ensures m.Some? ==> |m.value.rest| < |s|
  {
    if "{{" <= s then NameAndClose(AfterWs(s[2..])) else None
  }

  lemma {:induction false} SkipExactly(w: string, rest: string)
    requires AllWs(w) && (rest != "" ==> !Ws(rest[0]))
    ensures AfterWs(w + rest) == rest
  {
    if w == "" {
      assert w + rest == rest;
    } else {
      SkipExactly(w[1..], rest);
      assert (w + rest)[1..] == w[1..] + rest;
    }
  }

  lemma {:induction false} SkipIsWs(s: string) returns (w: string)
    ensures AllWs(w) && s == w + AfterWs(s)
  {
    if s == "" || !Ws(s[0]) {
      w := "";
    } else {
      var c, q := s[0], s[1..];
      w := SkipIsWs(q);
      Front(s, c, q, w, AfterWs(q));
      w := [c] + w;
    }
  }

  lemma AfterCloseOf(w: string, rest: string)
    requires AllWs(w)
    ensures AfterClose(w + ("}}" + rest)) == Some(rest)
  {
    SkipExactly(w, "}}" + rest);
    assert ("}}" + rest)[2..] == rest;
  }

  lemma NameAndCloseOf(name: string, w: string, rest: string)
    requires IsName(name) && AllWs(w)
    ensures NameAndClose(name + (w + ("}}" + rest))) == Some(Match(name, rest))
  {
    ScanExactly(name, w + ("}}" + rest));
    AfterCloseOf(w, rest);
  }

  lemma MatchOfBraced(w1: string, name: string, w2: string, rest: string)
    requires AllWs(w1) && AllWs(w2) && IsName(name)
    ensures MatchBrace(Braced(w1, name, w2) + rest) == Some(Match(name, rest))
  {
    var r2 := name + (w2 + ("}}" + rest));
    RegroupBraced(w1, name, w2, rest);
    assert ("{{" + (w1 + r2))[2..] == w1 + r2;
    SkipExactly(w1, r2);
    NameAndCloseOf(name, w2, rest);
  }

  lemma RegroupBraced(w1: string, name: string, w2: string, rest: string)
    ensures Braced(w1, name, w2) + rest == "{{" + (w1 + (name + (w2 + ("}}" + rest))))
  {}

  lemma AfterCloseIs(s: string) returns (w: string)
    requires AfterClose(s).Some?
    ensures AllWs(w) && s == w + ("}}" + AfterClose(s).value)
  {
    w := SkipIsWs(s);
    assert AfterWs(s) == "}}" + AfterWs(s)[2..];
  }

  lemma NameAndCloseIs(s: string) returns (w: string)
    requires NameAndClose(s).Some?
    ensures var m := NameAndClose(s).value;
      IsName(m.name) && AllWs(w) && s == m.name + (w + ("}}" + m.rest))
  {
    ScanStops(s);
    w := AfterCloseIs(AfterName(s));
  }

  lemma OpenIs(s: string) returns (w: string)
    requires "{{" <= s
    ensures AllWs(w) && s == "{{" + (w + AfterWs(s[2..]))
  {
    w := SkipIsWs(s[2..]);
    assert s == "{{" + s[2..];
  }

  /** A match is the text of a placeholder followed by the rest. */
  lemma Decompose(s: string) returns (w1: string, w2: string)
    requires MatchBrace(s).Some?
    ensures var m := MatchBrace(s).value;
      AllWs(w1) && IsName(m.name) && AllWs(w2) && s == Braced(w1, m.name, w2) + m.rest
  {
    var r := AfterWs(s[2..]);
    var m := NameAndClose(r).value;
    w1 := OpenIs(s);
    w2 := NameAndCloseIs(r);
    RegroupBraced(w1, m.name, w2, m.rest);
  }

  /** A match begins here exactly when the text begins with a placeholder of the regular expression;
      its name and extent are then the only ones possible. */
  lemma MatchBraceIff(s: string, name: string, rest: string)
    ensures MatchBrace(s) == Some(Match(name, rest)) <==> exists t :: IsPlaceholder(t, name) && s == t + rest
  {
    if MatchBrace(s) == Some(Match(name, rest)) {
      var w1, w2 := Decompose(s);
      assert IsPlaceholder(Braced(w1, name, w2), name);
    }
    if exists t :: IsPlaceholder(t, name) && s == t + rest {
      var t :| IsPlaceholder(t, name) && s == t + rest;
      var w1, w2 :| AllWs(w1) && AllWs(w2) && t == Braced(w1, name, w2);
      MatchOfBraced(w1, name, w2, rest);
    }
  }

  // ----- Replacing -------------------------------------------------------------------------

  /** Plain bytes and matches; a match knows its whole text. */
  datatype Piece = Plain(c: char) | Hole(text: string, name: string)

  function HoleOf(s: string, m: Match): Piece
    requires |m.rest| <= |s|
  {
    Hole(s[..|s|-|m.rest|], m.name)
  }

  /** Leftmost matches, one after the other, none inside another. */
  function Pieces(s: string): seq<Piece>
    decreases |s|
  {
    if s == "" then []
    else match MatchBrace(s)
      case Some(m) => [HoleOf(s, m)] + Pieces(m.rest)
      case None => [Plain(s[0])] + Pieces(s[1..])
  }

  function Filled(p: Piece, declared: Values): string {
    match p
    case Plain(c) => [c]
    case Hole(text, name) => if name in declared then declared[name] else text
  }

  function FillPieces(ps: seq<Piece>, declared: Values): string {
    if ps == [] then "" else Filled(ps[0], declared) + FillPieces(ps[1..], declared)
  }

  function NameIn(p: Piece): set<string> { if p.Hole? then {p.name} else {} }

  function Holes(ps: seq<Piece>): set<string> {
    if ps == [] then {} else NameIn(ps[0]) + Holes(ps[1..])
  }

  /** ReplaceAllStringFunc with the declared values: replacements are not looked at again. */
  function Braces(s: string, declared: Values): string {
    FillPieces(Pieces(s), declared)
  }

  // ----- The loop over the text --------------------------------------------------------------

  /** The piece at i, and the bytes it covers. */
  function PieceAt(s: string, i: nat): (p: Piece)
    requires i < |s|
    ensures 0 < Width(p) <= |s| - i
  {
    match MatchBrace(s[i..])
    case Some(m) => HoleOf(s[i..], m)
    case None => Plain(s[i])
  }

  function Width(p: Piece): nat { if p.Hole? then |p.text| else 1 }

  lemma MatchEnd(s: string, i: nat, m: Match)
    requires i < |s| && MatchBrace(s[i..]) == Some(m)
    ensures m.rest == s[|s|-|m.rest|..]
  {
    var w1, w2 := Decompose(s[i..]);
    var t := Braced(w1, m.name, w2);
    assert s == s[..i] + (t + m.rest);
    assert s == (s[..i] + t) + m.rest;
  }

  lemma PiecesCons(s: string, p: Piece, rest: seq<Piece>)
    requires s != ""
    requires match MatchBrace(s) case Some(m) => p == HoleOf(s, m) && rest == Pieces(m.rest)
                                 case None => p == Plain(s[0]) && rest == Pieces(s[1..])
    ensures Pieces(s) == [p] + rest
  {}

  lemma PieceAtIsFirst(s: string, i: nat, j: nat)
    requires i < |s| && j == i + Width(PieceAt(s, i))
    ensures Pieces(s[i..]) == [PieceAt(s, i)] + Pieces(s[j..])
  {
    match MatchBrace(s[i..])
    case Some(m) =>
      MatchEnd(s, i, m);
      assert j == |s| - |m.rest|;
      PiecesCons(s[i..], HoleOf(s[i..], m), Pieces(m.rest));
    case None =>
      assert j == i + 1 && s[i..][1..] == s[i+1..];
      PiecesCons(s[i..], Plain(s[i]), Pieces(s[i+1..]));
  }

  function PartOf(p: Piece, declared: Values): Part {
    Part(Width(p), Filled(p, declared), if p.Hole? then Some(p.name) else None)
  }

  function PartsOf(ps: seq<Piece>, declared: Values): seq<Part> {
    seq(|ps|, i requires 0 <= i < |ps| => PartOf(ps[i], declared))
  }

  lemma {:induction false} PartsFill(ps: seq<Piece>, declared: Values)
    ensures TextOf(PartsOf(ps, declared)) == FillPieces(ps, declared) && NamesOf(PartsOf(ps, declared)) == Holes(ps)
  {
    if ps != [] {
      PartsFill(ps[1..], declared);
      assert PartsOf(ps, declared)[1..] == PartsOf(ps[1..], declared);
    }
  }

  lemma EndStep(all: seq<Piece>, declared: Values, k: nat)
    requires 0 < k <= |all|
    ensures EndOf(PartsOf(all, declared), k) == EndOf(PartsOf(all, declared), k - 1) + Width(all[k-1])
  {}

  /** What is left of the text from e on reads as what is left after k. */
  ghost predicate LeftAt(s: string, all: seq<Piece>, k: nat, e: nat) {
    k <= |all| && e <= |s| && all[k..] == Pieces(s[e..])
  }

  lemma DropOne(s: string, all: seq<Piece>, k: nat, e: nat, next: nat)
    requires k < |all| && LeftAt(s, all, k, e) && next == e + Width(all[k])
    ensures e < |s| && all[k] == PieceAt(s, e) && LeftAt(s, all, k + 1, next)
  {
    assert all[k..] != [];
    FirstLeft(s, all, k, e);
    PieceAtIsFirst(s, e, next);
    TailOf(all, k + 1, PieceAt(s, e), Pieces(s[next..]));
  }

  lemma FirstLeft(s: string, all: seq<Piece>, k: nat, e: nat)
    requires k < |all| && LeftAt(s, all, k, e)
    ensures e < |s| && all[k] == PieceAt(s, e)
  {
    assert all[k..][0] == all[k];
    PieceAtIsFirst(s, e, e + Width(PieceAt(s, e)));
  }

  lemma {:induction false} DropTo(s: string, all: seq<Piece>, declared: Values, k: nat)
    requires k <= |all| && LeftAt(s, all, 0, 0)
    ensures LeftAt(s, all, k, EndOf(PartsOf(all, declared), k))
  {
    if k > 0 {
      var ps := PartsOf(all, declared);
      DropTo(s, all, declared, k - 1);
      EndStep(all, declared, k);
      DropOne(s, all, k - 1, EndOf(ps, k - 1), EndOf(ps, k));
    }
  }

  /** The k-th piece is the one to be read at the position where the ones before it end. */
  lemma ReadAt(s: string, declared: Values, ps: seq<Part>, k: nat, i: nat)
    requires ps == PartsOf(Pieces(s), declared) && k <= |ps| && i == EndOf(ps, k)
    ensures i <= |s| && (k == |ps| <==> i == |s|)
    ensures k < |ps| ==> i < |s| && ps[k] == PartOf(PieceAt(s, i), declared)
  {
    var all := Pieces(s);
    assert s[0..] == s && all[0..] == all;
    DropTo(s, all, declared, k);
    if k < |ps| { FirstLeft(s, all, k, i); }
  }

  lemma ReadOne(s: string, declared: Values, ps: seq<Part>, k: nat, i: nat)
    requires ps == PartsOf(Pieces(s), declared) && k < |ps| && i == EndOf(ps, k)
    ensures i < |s| && ps[k] == PartOf(PieceAt(s, i), declared)
    ensures i + Width(PieceAt(s, i)) == EndOf(ps, k + 1) <= |s| && (k + 1 == |ps| <==> EndOf(ps, k + 1) == |s|)
  {
    ReadAt(s, declared, ps, k, i);
    ReadAt(s, declared, ps, k + 1, EndOf(ps, k + 1));
  }

  /** The next match or plain byte. */
  method NextPiece(s: string, declared: Values, ghost ps: seq<Part>, ghost k: nat, i: nat) returns (p: Piece)
    requires ps == PartsOf(Pieces(s), declared) && k < |ps| && i == EndOf(ps, k) && i < |s|
    ensures ps[k] == PartOf(p, declared) && (p.Plain? ==> p.c == s[i])
    ensures Width(p) > 0 && i + Width(p) == EndOf(ps, k + 1) <= |s| && (k + 1 == |ps| <==> i + Width(p) == |s|)
  {
    ReadOne(s, declared, ps, k, i);
    var m := MatchBrace(s[i..]);
    p := if m.Some? then HoleOf(s[i..], m.value) else Plain(s[i]);
  }

  /** renderDoubleBracePlaceholders. */
  method RenderBraces(s: string, declared: Values) returns (out: string, used: set<string>, unknown: set<string>)
    ensures out == Braces(s, declared)
    ensures used == Holes(Pieces(s)) * declared.Keys && unknown == Holes(Pieces(s)) - declared.Keys
  {
    out, used, unknown := "", {}, {};
    var i := 0;
    ghost var ps, k := PartsOf(Pieces(s), declared), 0;
    ReadAt(s, declared, ps, 0, 0);
    while i < |s|
      invariant 0 <= k <= |ps| && i == EndOf(ps, k) <= |s| && (k == |ps| <==> i == |s|)
      invariant Written(ps, k, declared, out, used, unknown)
      decreases |s| - i
    {
      var p := NextPiece(s, declared, ps, k, i);
      WriteOne(ps, k, declared, out, used, unknown, ps[k].text, ps[k].name);
      k := k + 1;
      if p.Plain? {
        out := out + [s[i]];
        i := i + 1;
        continue;
      }
      if p.name in declared {
        used := used + {p.name};
        out := out + declared[p.name];
      } else {
        unknown := unknown + {p.name};
        out := out + p.text;
      }
      i := i + |p.text|;
    }
    WrittenAll(ps, declared, out, used, unknown);
    PartsFill(Pieces(s), declared);
  }
}
