/** The first pass of template rendering: `$name` placeholders with the escape `\$`
    (internal/catalog/artifact.go, renderDollarPlaceholders). */
module DollarPass {
  import opened SkillTypes
  import opened Identifiers
  import opened Parts

  datatype Token = Lit(c: char) | Esc | Ref(name: string)

  function Source(t: Token): string {
    match t
    case Lit(c) => [c]
    case Esc => "\\$"
    case Ref(name) => "$" + name
  }

  function Size(t: Token): nat { match t case Lit(_) => 1 case Esc => 2 case Ref(name) => 1 + |name| }

  /** The token s begins with. */
  function First(s: string): (t: Token)
    requires s != ""
    ensures 0 < Size(t) <= |s|
  {
    if s[0] == '\\' && |s| > 1 && s[1] == '$' then Esc
    else if s[0] == '$' && ScanName(s[1..]) != "" then Ref(ScanName(s[1..]))
    else Lit(s[0])
  }

  function Rest(s: string): (r: string)
    requires s != ""
    ensures |r| < |s|
  {
    match First(s)
    case Lit(_) => s[1..]
    case Esc => s[2..]
    case Ref(_) => AfterName(s[1..])
  }

  function Tokenize(s: string): seq<Token>
    decreases |s|
  {
    if s == "" then [] else [First(s)] + Tokenize(Rest(s))
  }

  function Untokenize(ts: seq<Token>): string {
    if ts == [] then "" else Source(ts[0]) + Untokenize(ts[1..])
  }

  /** What a token turns into; an undeclared reference stays as it is. */
  function Rendered(t: Token, declared: Values): string {
    match t
    case Lit(c) => [c]
    case Esc => "$"
    case Ref(name) => Filled(name, declared)
  }

  function Filled(name: string, declared: Values): string { if name in declared then declared[name] else "$" + name }

  function RenderTokens(ts: seq<Token>, declared: Values): string {
    if ts == [] then "" else Rendered(ts[0], declared) + RenderTokens(ts[1..], declared)
  }

  function NameOf(t: Token): set<string> { if t.Ref? then {t.name} else {} }

  function Refs(ts: seq<Token>): set<string> {
    if ts == [] then {} else NameOf(ts[0]) + Refs(ts[1..])
  }

  lemma {:induction false} RefsAre(ts: seq<Token>, name: string)
    ensures name in Refs(ts) <==> Ref(name) in ts
  {
    if ts != [] {
      RefsAre(ts[1..], name);
      assert ts == [ts[0]] + ts[1..];
    }
  }

  /** With this continuation, t could not have been read as a longer reference or as an escape. */
  predicate Fits(t: Token, rest: seq<Token>) {
    match t
    case Lit(c) =>
      && (c == '\\' && rest != [] ==> rest[0] != Lit('$') && !rest[0].Ref?)
      && (c == '$' && rest != [] && rest[0].Lit? ==> !IdStart(rest[0].c))
    case Esc => true
    case Ref(name) => IsName(name) && (rest != [] && rest[0].Lit? ==> !IdChar(rest[0].c))
  }

  predicate Canonical(ts: seq<Token>) {
    ts == [] || (Fits(ts[0], ts[1..]) && Canonical(ts[1..]))
  }

  /** Un-tokenising gives the text back. */
  lemma {:induction false} TokenizeSound(s: string)
    ensures Untokenize(Tokenize(s)) == s
    decreases |s|
  {
    if s != "" {
      TokenizeSound(Rest(s));
      FirstIsPrefix(s);
    }
  }

  lemma FirstIsPrefix(s: string)
    requires s != ""
    ensures s == Source(First(s)) + Rest(s)
  {
    match First(s)
    case Lit(_) =>
    case Esc => assert s == [s[0], s[1]] + s[2..];
    case Ref(_) => RefIsPrefix(s, s[1..]);
  }

  lemma RefIsPrefix(s: string, q: string)
    requires s != "" && s[0] == '$' && q == s[1..]
    ensures s == ("$" + ScanName(q)) + AfterName(q)
  {
    ScanStops(q);
    Front(s, s[0], q, ScanName(q), AfterName(q));
  }

  lemma FirstChar(s: string)
    requires s != ""
    ensures Source(First(s))[0] == s[0]
    ensures First(s).Lit? ==> First(s).c == s[0]
  {}

  /** The reading Tokenize picks is canonical ... */
  lemma {:induction false} TokenizeCanonical(s: string)
    ensures Canonical(Tokenize(s))
    decreases |s|
  {
    if s != "" {
      var r := Rest(s);
      TokenizeCanonical(r);
      FirstFits(s);
      assert Tokenize(s)[1..] == Tokenize(r);
    }
  }

  lemma FirstFits(s: string)
    requires s != ""
    ensures Fits(First(s), Tokenize(Rest(s)))
  {
    var r := Rest(s);
    ScanStops(s[1..]);
    if r != "" { FirstChar(r); }
  }

  /** ... and it is the only canonical reading of the text. */
  lemma {:induction false} TokenizeUnique(ts: seq<Token>)
    requires Canonical(ts)
    ensures Tokenize(Untokenize(ts)) == ts
  {
    if ts != [] {
      TokenizeUnique(ts[1..]);
      FirstIsRecovered(ts[0], ts[1..]);
      TokenizeCons(Untokenize(ts), ts[0], ts[1..]);
      assert ts == [ts[0]] + ts[1..];
    }
  }

  lemma TokenizeCons(s: string, t: Token, rest: seq<Token>)
    requires s != "" && First(s) == t && Tokenize(Rest(s)) == rest
    ensures Tokenize(s) == [t] + rest
  {}

  lemma FirstIsRecovered(t: Token, rest: seq<Token>)
    requires Fits(t, rest)
    ensures var s := Source(t) + Untokenize(rest); s != "" && First(s) == t && Rest(s) == Untokenize(rest)
  {
    var r := Untokenize(rest);
    if rest != [] { FirstOfUntokenize(rest); }
    match t {
      case Lit(c) => LitIsRecovered(c, r);
      case Esc => assert ("\\$" + r)[2..] == r;
      case Ref(name) => RefIsRecovered(name, r);
    }
  }

  lemma LitIsRecovered(c: char, r: string)
    requires c == '\\' ==> r == "" || r[0] != '$'
    requires c == '$' ==> r == "" || !IdStart(r[0])
    ensures First([c] + r) == Lit(c) && Rest([c] + r) == r
  {
    assert ([c] + r)[1..] == r;
    if c == '$' { ScanStops(r); }
  }

  lemma RefIsRecovered(name: string, r: string)
    requires IsName(name) && (r != "" ==> !IdChar(r[0]))
    ensures var s := "$" + name + r; First(s) == Ref(name) && Rest(s) == r
  {
    var s := "$" + name + r;
    assert s[1..] == name + r;
    ScanExactly(name, r);
  }

  lemma FirstOfUntokenize(ts: seq<Token>)
    requires ts != []
    ensures Untokenize(ts) != ""
    ensures match ts[0] case Lit(c) => Untokenize(ts)[0] == c case Esc => Untokenize(ts)[0] == '\\' case Ref(_) => Untokenize(ts)[0] == '$'
  {}

  // ----- The byte loop ---------------------------------------------------------------------

  /** The token at i, read off the bytes. */
  function TokenAt(s: string, i: nat): (t: Token)
    requires i < |s|
    ensures 0 < Size(t) <= |s| - i
  {
    if s[i] == '\\' && i + 1 < |s| && s[i+1] == '$' then Esc
    else if s[i] == '$' && ScanName(s[i+1..]) != "" then Ref(ScanName(s[i+1..]))
    else Lit(s[i])
  }

  lemma TokenAtIsFirst(s: string, i: nat)
    requires i < |s|
    ensures TokenAt(s, i) == First(s[i..])
    ensures Rest(s[i..]) == match TokenAt(s, i) case Lit(_) => s[i+1..] case Esc => s[i+2..] case Ref(name) => s[i+1+|name|..]
  {
    assert s[i..][1..] == s[i+1..];
    match TokenAt(s, i)
    case Lit(_) =>
    case Esc => assert s[i..][2..] == s[i+2..];
    case Ref(name) => AfterNameAt(s, i + 1, name);
  }

  lemma AfterNameAt(s: string, i: nat, name: string)
    requires i <= |s| && name == ScanName(s[i..])
    ensures i + |name| <= |s| && AfterName(s[i..]) == s[i+|name|..]
  {
    ScanStops(s[i..]);
    assert s[i..][|name|..] == s[i+|name|..];
  }

  lemma RestAt(s: string, i: nat, j: nat)
    requires i < |s| && j == i + Size(TokenAt(s, i))
    ensures First(s[i..]) == TokenAt(s, i) && Rest(s[i..]) == s[j..]
  {
    TokenAtIsFirst(s, i);
    match TokenAt(s, i)
    case Lit(_) => assert j == i + 1;
    case Esc => assert j == i + 2;
    case Ref(name) => assert j == i + 1 + |name|;
  }

  lemma TokenizeAt(s: string, i: nat, j: nat)
    requires i < |s| && j == i + Size(TokenAt(s, i))
    ensures Tokenize(s[i..]) == [TokenAt(s, i)] + Tokenize(s[j..])
  {
    var q, r := s[i..], s[j..];
    RestAt(s, i, j);
    TokenizeCons(q, TokenAt(s, i), Tokenize(r));
  }

  function PartOf(t: Token, declared: Values): Part {
    Part(Size(t), Rendered(t, declared), if t.Ref? then Some(t.name) else None)
  }

  function PartsOf(ts: seq<Token>, declared: Values): seq<Part> {
    seq(|ts|, i requires 0 <= i < |ts| => PartOf(ts[i], declared))
  }

  lemma {:induction false} PartsRender(ts: seq<Token>, declared: Values)
    ensures TextOf(PartsOf(ts, declared)) == RenderTokens(ts, declared) && NamesOf(PartsOf(ts, declared)) == Refs(ts)
  {
    if ts != [] {
      PartsRender(ts[1..], declared);
      assert PartsOf(ts, declared)[1..] == PartsOf(ts[1..], declared);
    }
  }

  lemma EndStep(ts: seq<Token>, declared: Values, k: nat)
    requires 0 < k <= |ts|
    ensures EndOf(PartsOf(ts, declared), k) == EndOf(PartsOf(ts, declared), k - 1) + Size(ts[k-1])
  {}

  /** What is left of the text from e on reads as what is left after k. */
  ghost predicate LeftAt(s: string, ts: seq<Token>, k: nat, e: nat) {
    k <= |ts| && e <= |s| && ts[k..] == Tokenize(s[e..])
  }

  lemma DropOne(s: string, ts: seq<Token>, k: nat, e: nat, next: nat)
    requires k < |ts| && LeftAt(s, ts, k, e) && next == e + Size(ts[k])
    ensures e < |s| && ts[k] == TokenAt(s, e) && LeftAt(s, ts, k + 1, next)
  {
    assert ts[k..] != [];
    FirstLeft(s, ts, k, e);
    TokenizeAt(s, e, next);
    TailOf(ts, k + 1, TokenAt(s, e), Tokenize(s[next..]));
  }

  lemma FirstLeft(s: string, ts: seq<Token>, k: nat, e: nat)
    requires k < |ts| && LeftAt(s, ts, k, e)
    ensures e < |s| && ts[k] == TokenAt(s, e)
  {
    assert ts[k..][0] == ts[k];
    TokenizeAt(s, e, e + Size(TokenAt(s, e)));
  }

  lemma {:induction false} DropTo(s: string, ts: seq<Token>, declared: Values, k: nat)
    requires k <= |ts| && LeftAt(s, ts, 0, 0)
    ensures LeftAt(s, ts, k, EndOf(PartsOf(ts, declared), k))
  {
    if k > 0 {
      var ps := PartsOf(ts, declared);
      DropTo(s, ts, declared, k - 1);
      EndStep(ts, declared, k);
      DropOne(s, ts, k - 1, EndOf(ps, k - 1), EndOf(ps, k));
    }
  }

  /** The k-th token is the one to be read at the position where the ones before it end. */
  lemma ReadAt(s: string, declared: Values, ps: seq<Part>, k: nat, i: nat)
    requires ps == PartsOf(Tokenize(s), declared) && k <= |ps| && i == EndOf(ps, k)
    ensures i <= |s| && (k == |ps| <==> i == |s|)
    ensures k < |ps| ==> i < |s| && ps[k] == PartOf(TokenAt(s, i), declared)
  {
    var ts := Tokenize(s);
    assert s[0..] == s && ts[0..] == ts;
    DropTo(s, ts, declared, k);
    if k < |ps| { FirstLeft(s, ts, k, i); }
  }

  /** What the byte loop finds at a position. */
  lemma PartAt(s: string, i: nat, declared: Values)
    requires i < |s|
    ensures PartOf(TokenAt(s, i), declared) ==
              if s[i] == '\\' && i + 1 < |s| && s[i+1] == '$' then Part(2, "$", None)
              else if s[i] != '$' || ScanName(s[i+1..]) == "" then Part(1, [s[i]], None)
              else var name := ScanName(s[i+1..]);
                Part(1 + |name|, if name in declared then declared[name] else "$" + name, Some(name))
  {}

  lemma ReadOne(s: string, declared: Values, ps: seq<Part>, k: nat, i: nat)
    requires ps == PartsOf(Tokenize(s), declared) && k < |ps| && i == EndOf(ps, k)
    ensures i < |s| && ps[k] == PartOf(TokenAt(s, i), declared)
    ensures i + ps[k].size == EndOf(ps, k + 1) <= |s| && (k + 1 == |ps| <==> EndOf(ps, k + 1) == |s|)
  {
    ReadAt(s, declared, ps, k, i);
    ReadAt(s, declared, ps, k + 1, EndOf(ps, k + 1));
  }

  /** The output and the names after the tokens up to position i. */
  ghost predicate RenderedTo(s: string, declared: Values, i: nat, out: string, used: set<string>, unknown: set<string>) {
    exists k: nat :: k <= |Tokenize(s)| && i == EndOf(PartsOf(Tokenize(s), declared), k) &&
                     Written(PartsOf(Tokenize(s), declared), k, declared, out, used, unknown)
  }

  lemma RenderedStart(s: string, declared: Values)
    ensures RenderedTo(s, declared, 0, "", {}, {})
  {
    var ps := PartsOf(Tokenize(s), declared);
    assert EndOf(ps, 0) == 0 && Written(ps, 0, declared, "", {}, {});
  }

  /** The token at position i is written, and its name is sorted. */
  lemma RenderOne(s: string, declared: Values, i: nat, out: string, used: set<string>, unknown: set<string>)
    requires i < |s| && RenderedTo(s, declared, i, out, used, unknown)
    ensures var p := PartOf(TokenAt(s, i), declared); var next := i + p.size;
            && next <= |s|
            && (p.name.None? ==> RenderedTo(s, declared, next, out + p.text, used, unknown))
            && (p.name.Some? && p.name.value in declared ==>
                  RenderedTo(s, declared, next, out + p.text, used + {p.name.value}, unknown))
            && (p.name.Some? && p.name.value !in declared ==>
                  RenderedTo(s, declared, next, out + p.text, used, unknown + {p.name.value}))
  {
    var ps := PartsOf(Tokenize(s), declared);
    var k: nat :| k <= |ps| && i == EndOf(ps, k) && Written(ps, k, declared, out, used, unknown);
    ReadAt(s, declared, ps, k, i);
    ReadOne(s, declared, ps, k, i);
    WriteOne(ps, k, declared, out, used, unknown, ps[k].text, ps[k].name);
  }

  lemma RenderedAll(s: string, declared: Values, out: string, used: set<string>, unknown: set<string>)
    requires RenderedTo(s, declared, |s|, out, used, unknown)
    ensures out == RenderTokens(Tokenize(s), declared)
    ensures used == Refs(Tokenize(s)) * declared.Keys && unknown == Refs(Tokenize(s)) - declared.Keys
  {
    var ps := PartsOf(Tokenize(s), declared);
    var k: nat :| k <= |ps| && |s| == EndOf(ps, k) && Written(ps, k, declared, out, used, unknown);
    ReadAt(s, declared, ps, k, |s|);
    WrittenAll(ps, declared, out, used, unknown);
    PartsRender(Tokenize(s), declared);
  }

  /** renderDollarPlaceholders: the byte loop renders token by token. */
  method RenderDollar(s: string, declared: Values) returns (out: string, used: set<string>, unknown: set<string>)
    ensures out == RenderTokens(Tokenize(s), declared)
    ensures used == Refs(Tokenize(s)) * declared.Keys
    ensures unknown == Refs(Tokenize(s)) - declared.Keys
  {
    out, used, unknown := "", {}, {};
    var i := 0;
    RenderedStart(s, declared);
    while i < |s|
      invariant 0 <= i <= |s| && RenderedTo(s, declared, i, out, used, unknown)
      decreases |s| - i
    {
      RenderOne(s, declared, i, out, used, unknown);
      PartAt(s, i, declared);
      if s[i] == '\\' && i + 1 < |s| && s[i+1] == '$' {
        out := out + "$";
        i := i + 2;
        continue;
      }
      if s[i] != '$' {
        out := out + [s[i]];
        i := i + 1;
        continue;
      }
      var name, n := ScanIdentifier(s[i+1..]);
      if n == 0 {
        out := out + [s[i]];
        i := i + 1;
        continue;
      }
      if name in declared {
        out := out + declared[name];
        used := used + {name};
      } else {
        out := out + ("$" + name);
        unknown := unknown + {name};
      }
      i := i + 1 + n;
    }
    RenderedAll(s, declared, out, used, unknown);
  }
}
