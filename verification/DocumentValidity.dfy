/** What ParseSkillDocument accepts, ValidateSkillDocument accepts too, with one exception: a heading
    cut at 256 bytes just after white space (document.go, lines 137 to 153 and 657 to 667). */
module DocumentValidity {
  import opened SkillTypes
  import opened Text
  import opened Utf8
  import opened Lines
  import opened Identifiers
  import opened DocumentModel

  // ----- Arguments and tags ----------------------------------------------------------------

  lemma NameIsTrimmed(s: string)
    requires IsName(s)
    ensures TrimSpace(s) == s
  {
    TrimmedFixed(s);
    var n := |s|;
    assert IdChar(s[0]) && IdChar(s[n-1]) && (n >= 2 ==> IdChar(s[1]) && IdChar(s[n-2]));
  }

  lemma ArgumentIsOk(item: Yaml)
    requires ArgumentOf(item).Some? && IsName(ArgumentOf(item).value.name)
    ensures ArgumentOk(ArgumentOf(item).value)
  {
    NameIsTrimmed(ArgumentOf(item).value.name);
    if item.Dict? {
      TextFits(item.fields, "description");
      TextFits(item.fields, "default");
    }
  }

  lemma TextFits(p: Properties, key: string)
    ensures |ArgumentText(p, key)| <= MAX_ARGUMENT_BYTES
  {
    match Lookup(p, key)
    case Str(s) => TruncateIsLongest(s, MAX_ARGUMENT_BYTES);
    case _ =>
  }

  lemma {:induction false} ArgumentsFromOk(items: seq<Yaml>, args: seq<SkillArgument>)
    requires ArgumentsOk(args)
    ensures ArgumentsOk(ArgumentsFrom(items, args)) && args <= ArgumentsFrom(items, args)
  {
    if items != [] && |args| < MAX_ARGUMENTS {
      if Admissible(ArgumentOf(items[0]), args) {
        ArgumentIsOk(items[0]);
        OneMoreOk(args, ArgumentOf(items[0]).value);
        ArgumentsFromOk(items[1..], args + [ArgumentOf(items[0]).value]);
      } else {
        ArgumentsFromOk(items[1..], args);
      }
    }
  }

  lemma OneMoreOk(args: seq<SkillArgument>, a: SkillArgument)
    requires ArgumentsOk(args) && |args| < MAX_ARGUMENTS && ArgumentOk(a) && a.name !in Names(args)
    ensures ArgumentsOk(args + [a])
  {
    forall i | 0 <= i < |args| ensures args[i].name != a.name { assert args[i] in args; }
  }

  lemma {:induction false} TagsFromOk(items: seq<Yaml>, tags: seq<string>)
    requires TagsOk(tags)
    ensures TagsOk(TagsFrom(items, tags)) && tags <= TagsFrom(items, tags)
  {
    if items != [] && |tags| < MAX_TAGS {
      var t := TagOf(items[0]);
      if t != "" && |t| <= MAX_TAG_BYTES && t !in tags {
        if items[0].Str? { TrimmedFixed(items[0].s); TrimmedFixed(t); }
        TagsFromOk(items[1..], tags + [t]);
      } else {
        TagsFromOk(items[1..], tags);
      }
    }
  }

  // ----- The body stays valid text ---------------------------------------------------------

  /** Valid UTF-8 without NUL. */
  predicate Clean(s: string) { Utf8.Valid(s) && NulFree(s) }

  lemma CleanConcat(a: string, b: string)
    requires Clean(a)
    ensures Clean(a + b) <==> Clean(b)
  {
    ValidConcat(a, b);
    assert forall i :: 0 <= i < |b| ==> (a + b)[|a| + i] == b[i];
  }

  lemma CleanAround(a: string, c: char, b: string)
    requires 0 < Code(c) <= 0x7F
    ensures Clean(a + ([c] + b)) <==> Clean(a) && Clean(b)
  {
    ValidAround(a, c, b);
    var s := a + ([c] + b);
    assert forall i :: 0 <= i < |a| ==> s[i] == a[i];
    assert forall i :: 0 <= i < |b| ==> s[|a| + 1 + i] == b[i];
  }

  lemma CleanTail(c: char, s: string)
    requires 0 < Code(c) <= 0x7F
    ensures Clean([c] + s) <==> Clean(s)
  {
    CleanAround("", c, s);
    assert "" + ([c] + s) == [c] + s;
  }

  /** One character of clean text. */
  lemma CleanChar(s: string) returns (p: string, r: string)
    requires Clean(s) && s != ""
    ensures s == p + r && p == s[..CharLen(s)] && p != "" && Clean(p) && Clean(r) && |r| < |s|
    ensures Code(s[0]) <= 0x7F ==> p == [s[0]]
    ensures Code(s[0]) > 0x7F ==> forall i :: 0 <= i < |p| ==> Code(p[i]) > 0x7F
  {
    var n := CharLen(s);
    p, r := s[..n], s[n..];
    SameChar(s, p);
    assert p[n..] == "";
    assert s == p + r;
    CleanRest(p, r);
  }

  lemma CleanRest(p: string, r: string)
    requires NulFree(p + r)
    ensures NulFree(p) && NulFree(r)
  {
    assert forall i :: 0 <= i < |p| ==> (p + r)[i] == p[i];
    assert forall i :: 0 <= i < |r| ==> (p + r)[|p| + i] == r[i];
  }

  lemma {:induction false} ReplaceReturnClean(s: string)
    requires Clean(s)
    ensures Clean(ReplaceChar(s, '\r', "\n"))
    decreases |s|
  {
    if s != "" {
      var p, r := CleanChar(s);
      ReplaceReturnClean(r);
      var out := ReplaceChar(r, '\r', "\n");
      if s[0] == '\r' {
        assert s[1..] == r;
        CleanTail('\n', out);
      } else {
        ReplaceCharThrough(p, r, '\r', "\n");
        CleanConcat(p, out);
      }
    }
  }

  lemma {:induction false} ReplaceCRLFClean(s: string)
    requires Clean(s)
    ensures Clean(ReplaceCRLF(s, "\n"))
    decreases |s|
  {
    if s != "" {
      var p, r := CleanChar(s);
      if |s| >= 2 && s[0] == '\r' && s[1] == '\n' {
        assert r == [s[1]] + s[2..];
        CleanTail('\n', s[2..]);
        ReplaceCRLFClean(s[2..]);
        CleanTail('\n', ReplaceCRLF(s[2..], "\n"));
      } else if s[0] == '\r' {
        assert s[1..] == r;
        ReplaceCRLFClean(r);
        CleanTail('\r', ReplaceCRLF(r, "\n"));
      } else {
        ReplaceCRLFClean(r);
        ReplaceCRLFThrough(p, r, "\n");
        CleanConcat(p, ReplaceCRLF(r, "\n"));
      }
    }
  }

  lemma {:induction false} TrimLeadingClean(s: string)
    requires Clean(s)
    ensures Clean(TrimLeadingNewlines(s))
  {
    if s != "" && s[0] == '\n' {
      assert s == [s[0]] + s[1..];
      CleanTail('\n', s[1..]);
      TrimLeadingClean(s[1..]);
    }
  }

  lemma NormalBodyClean(s: string)
    requires Clean(s)
    ensures Clean(NormalBody(s))
  {
    ReplaceCRLFClean(s);
    ReplaceReturnClean(ReplaceCRLF(s, "\n"));
    TrimLeadingClean(ReplaceChar(ReplaceCRLF(s, "\n"), '\r', "\n"));
  }

  // ----- What follows a line stays valid text ------------------------------------------------

  lemma {:induction false} NextLineStops(s: string)
    requires Unended(NextLine(s))
    ensures NextLine(s) == s
  {
    if s != "" && s[0] != '\n' {
      var l := NextLine(s[1..]);
      assert l != "" ==> NextLine(s)[|NextLine(s)|-1] == l[|l|-1];
      NextLineStops(s[1..]);
      assert s == [s[0]] + s[1..];
    }
  }

  lemma AfterLineClean(s: string)
    requires Clean(s)
    ensures Clean(s[|NextLine(s)|..])
  {
    var line := NextLine(s);
    if Unended(line) {
      NextLineStops(s);
      assert s[|line|..] == "";
    } else {
      var n := |line| - 1;
      assert s == s[..n] + ([s[n]] + s[n+1..]);
      assert s[n] == line[n];
      CleanAround(s[..n], '\n', s[n+1..]);
    }
  }

  lemma {:induction false} ScanClean(read: string, s: string)
    requires Clean(s) && ScanFrontmatter(read, s).Ok?
    ensures Clean(ScanFrontmatter(read, s).value.1)
    decreases |s|
  {
    var line := NextLine(s);
    AfterLineClean(s);
    if !Fence(line) { ScanClean(read + line, s[|line|..]); }
  }

  lemma CutBomClean(s: string)
    requires Clean(s)
    ensures Clean(CutBom(s))
  {
    if HasBom(s) {
      var p, r := CleanChar(s);
      assert CharLen(s) == 3;
    }
  }

  /** The text after the frontmatter of an accepted document is valid UTF-8 without NUL. */
  lemma BodyTextClean(content: string)
    requires Clean(content) && SplitFrontmatter(CutBom(content)).Ok?
    ensures Clean(SplitFrontmatter(CutBom(content)).value.1)
  {
    CutBomClean(content);
    var s := CutBom(content);
    AfterLineClean(s);
    ScanClean("", s[|NextLine(s)|..]);
  }

  // ----- The display name --------------------------------------------------------------------

  lemma {:induction false} HeadingIsTrimmed(lines: seq<string>)
    ensures Trimmed(HeadingIn(lines))
  {
    if lines != [] {
      var line := TrimSpace(lines[0]);
      if "# " <= line { TrimmedFixed(line[2..]); } else { HeadingIsTrimmed(lines[1..]); }
    }
  }

  /** A heading is usable when it fits, or when the cut at 256 bytes does not leave white space at the end. */
  predicate HeadingFits(h: string) {
    |h| <= MAX_DISPLAY_NAME_BYTES || SpaceBack(Truncate(h, MAX_DISPLAY_NAME_BYTES)) == 0
  }

  lemma DisplayNameOkIff(body: string, name: string)
    requires NameOk(name)
    ensures DisplayNameOk(DisplayNameFor(body, name)) <==> HeadingFits(FirstHeading(body))
  {
    var h := FirstHeading(body);
    var t := DisplayNameFor(body, name);
    HeadingIsTrimmed(Split(body));
    TrimmedFixed(name);
    TruncateIsLongest(h, MAX_DISPLAY_NAME_BYTES);
    TrimmedFixed(t);
    if |h| > MAX_DISPLAY_NAME_BYTES { PrefixSpaceFront(t, h); }
  }

  lemma PrefixSpaceFront(t: string, h: string)
    requires t <= h && SpaceFront(h) == 0
    ensures SpaceFront(t) == 0
  {}

  // ----- Parser output is valid --------------------------------------------------------------

  /** The inserts the printer writes are read as themselves. */
  ghost predicate NormalizeLaw(env: Env) {
    forall i :: env.normalize(InsertText(i)) == Some(i)
  }

  ghost predicate Sound(env: Env, d: Document) {
    && (ValidDocument(env, d) <==> HeadingFits(FirstHeading(d.body)))
    && NameOk(d.name) && DescriptionOk(d.description) && ArgumentsOk(d.arguments) && TagsOk(d.tags) && Clean(d.body)
  }

  lemma AssembledIsSound(env: Env, p: Properties, name: string, description: string, text: string)
    requires NormalizeLaw(env) && NameOk(name) && DescriptionOk(description) && Clean(text)
    ensures Sound(env, Assemble(env, p, name, description, text))
  {
    NormalBodyClean(text);
    ArgumentsFromOk(ItemsOf(Lookup(p, "arguments")), []);
    TagsFromOk(ItemsOf(Lookup(p, "tags")), []);
    DisplayNameOkIff(NormalBody(text), name);
  }

  lemma FromPropertiesIsSound(env: Env, p: Properties, text: string, expected: string)
    requires NormalizeLaw(env) && Clean(text) && FromProperties(env, p, text, expected).Ok?
    ensures Sound(env, FromProperties(env, p, text, expected).value)
  {
    AssembledIsSound(env, p, RequiredString(p, "name").value, RequiredString(p, "description").value, text);
  }

  /** Every document the parser returns passes validation exactly when its first heading fits;
      in any case lists are bounded and without repetition, strings trimmed and bounded, and the
      body is valid UTF-8 without NUL. */
  lemma ParserOutputIsValidIff(env: Env, content: string, expected: string)
    requires NormalizeLaw(env) && Parse(env, content, expected).Ok?
    ensures Sound(env, Parse(env, content, expected).value)
  {
    BodyTextClean(content);
    var (front, text) := SplitFrontmatter(CutBom(content)).value;
    FromPropertiesIsSound(env, env.decode(front).value, text, expected);
  }

  // ----- The exception -----------------------------------------------------------------------

  /** A parsed document whose first heading is longer than 256 bytes, with a space as its 256th, does
      not pass validation. */
  lemma HeadingCutAfterSpace(env: Env, content: string, expected: string)
    requires NormalizeLaw(env) && Parse(env, content, expected).Ok?
    requires var h := FirstHeading(Parse(env, content, expected).value.body);
      |h| > MAX_DISPLAY_NAME_BYTES && h[MAX_DISPLAY_NAME_BYTES-1] == ' ' && Utf8.Valid(h[..MAX_DISPLAY_NAME_BYTES])
    ensures !ValidDocument(env, Parse(env, content, expected).value)
  {
    ParserOutputIsValidIff(env, content, expected);
    CutLeavesSpace(FirstHeading(Parse(env, content, expected).value.body));
  }

  lemma HeadingClean(text: string, h: string)
    requires text == "# " + h
    ensures Clean(text) <==> Clean(h)
  {
    CleanTail(' ', h);
    CleanTail('#', " " + h);
    assert text == "#" + (" " + h);
  }

  lemma CutLeavesSpace(h: string)
    requires |h| > MAX_DISPLAY_NAME_BYTES && h[MAX_DISPLAY_NAME_BYTES-1] == ' ' && Utf8.Valid(h[..MAX_DISPLAY_NAME_BYTES])
    ensures !HeadingFits(h)
  {
    var t := h[..MAX_DISPLAY_NAME_BYTES];
    assert Truncate(h, MAX_DISPLAY_NAME_BYTES) == t && t[|t|-1] == ' ';
  }

  lemma HeadingBody(text: string, h: string)
    requires h != "" && text == "# " + h && Trimmed(h) && OneLine(h) && NoReturn(h)
    ensures NormalBody(text) == text && FirstHeading(text) == h
  {
    NoReturnKept(text);
    SplitLast(text);
    HeadingLine(text, h);
  }

  lemma NoReturnKept(s: string)
    requires NoReturn(s)
    ensures ReplaceChar(ReplaceCRLF(s, "\n"), '\r', "\n") == s
  {
    ReplaceCRLFThrough(s, "", "\n");
    ReplaceCharThrough(s, "", '\r', "\n");
    assert s + "" == s;
  }

  /** A line that spells a heading is read as that heading. */
  lemma HeadingLine(line: string, h: string)
    requires h != "" && line == "# " + h && Trimmed(h)
    ensures TrimSpace(line) == line && "# " <= line && TrimSpace(line[2..]) == h
  {
    var n := |line|;
    TrimmedFixed(h);
    TrimmedFixed(line);
    assert line[2..] == h;
    assert line[n-1] == h[|h|-1] && (|h| >= 2 ==> line[n-2] == h[|h|-2]) && (|h| >= 3 ==> line[n-3] == h[|h|-3]);
  }
}
