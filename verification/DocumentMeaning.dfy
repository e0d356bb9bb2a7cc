/** What ParseSkillDocument and MarshalSkillDocument make of documents of any shape, field by field:
    also of those the printer never writes (document.go). */
module DocumentMeaning {
  import opened SkillTypes
  import opened Text
  import opened Utf8
  import opened Lines
  import opened Identifiers
  import opened DocumentModel
  import opened DocumentValidity
  import opened DocumentRoundTrip

  // ----- What is printed -------------------------------------------------------------------

  predicate KnownField(key: string) {
    key == "name" || key == "description" || key == "insert" || key == "arguments" || key == "tags"
  }

  /** The frontmatter says what the document says, and all else stays as it was in the raw frontmatter. */
  ghost predicate Says(p: Properties, d: Document, insert: SkillInsert) {
    && "name" in p && p["name"] == Str(d.name)
    && "description" in p && p["description"] == Str(d.description)
    && "insert" in p && p["insert"] == Str(if insert == Instructions then "instructions" else "user-message")
    && ("arguments" in p <==> d.arguments != [])
    && ("tags" in p <==> d.tags != [])
    && (d.arguments != [] ==> p["arguments"].List? && |p["arguments"].items| == |d.arguments|)
    && (d.tags != [] ==>
          p["tags"].List? && |p["tags"].items| == |d.tags| && forall i :: 0 <= i < |d.tags| ==> p["tags"].items[i] == Str(d.tags[i]))
    && (forall key :: !KnownField(key) ==> (key in p <==> key in d.raw) && (key in p ==> p[key] == d.raw[key]))
  }

  lemma PropertiesSay(d: Document, insert: SkillInsert)
    ensures Says(PropertiesOf(d, insert), d, insert)
  {}

  /** Unknown frontmatter fields come through printing and parsing unchanged, and no field is invented. */
  lemma UnknownFieldsStay(env: Env, d: Document)
    requires NormalizeLaw(env) && Prints(env, d) && CleanHeading(d)
    ensures var parsed := Parse(env, Marshal(env, d).value, "");
      && parsed.Ok?
      && Says(parsed.value.raw, d, InsertFor(env, d))
      && (forall key :: key != "name" && key != "description" && key != "insert" && key != "arguments" && key != "tags" ==>
            (key in parsed.value.raw <==> key in d.raw) &&
            (key in d.raw ==> parsed.value.raw[key] == d.raw[key]))
  {
    MarshalThenParse(env, d);
    PropertiesSay(d, InsertFor(env, d));
  }

  function WithNewline(s: string): string { if s != "" && s[|s|-1] == '\n' then s else s + "\n" }

  ghost predicate HasHeading(body: string) {
    exists i :: 0 <= i < |Split(body)| && HeadingLine(Split(body)[i])
  }

  /** Text of a document: frontmatter that says what it says between fences, a heading with the display
      name when the body has none and the name is another, and the body, ended by a newline. */
  ghost predicate PrintsAs(env: Env, d: Document, p: Properties, text: string) {
    && env.normalize(d.insert).Some? && Says(p, d, env.normalize(d.insert).value) && env.encode(p).Some?
    && var body := NormalBody(d.body);
       var front := "---\n" + TrimSpace(env.encode(p).value) + "\n---\n";
    if !HasHeading(body) && d.displayName != "" && d.displayName != d.name then
      text == front + "\n" + WithNewline("# " + d.displayName + if body == "" then "" else "\n\n" + body)
    else
      text == front + if body == "" then "" else "\n" + WithNewline(body)
  }

  lemma MarshalMeans(env: Env, d: Document)
    requires Marshal(env, d).Ok?
    ensures exists p :: PrintsAs(env, d, p, Marshal(env, d).value)
  {
    var insert := env.normalize(d.insert).value;
    var p := PropertiesOf(d, insert);
    PropertiesSay(d, insert);
    HeadingExists(NormalBody(d.body));
    PrintsThis(env, d, p);
    assert PrintsAs(env, d, p, Marshal(env, d).value);
  }

  lemma PrintsThis(env: Env, d: Document, p: Properties)
    requires ValidDocument(env, d) && p == PropertiesOf(d, env.normalize(d.insert).value) && env.encode(p).Some?
    requires FirstHeading(NormalBody(d.body)) != "" <==> HasHeading(NormalBody(d.body))
    requires Says(p, d, env.normalize(d.insert).value)
    ensures PrintsAs(env, d, p, Printed(env.encode(p).value, PrintedBody(d)))
  {
    var body, h := NormalBody(d.body), d.displayName;
    if AddsHeading(d) {
      BodyWithHeading(body, h);
    } else if body != "" {
      EndsSame(body);
    }
    var front := "---\n" + TrimSpace(env.encode(p).value) + "\n---\n";
    Reassociate(front, "\n", Ended(PrintedBody(d)));
  }

  lemma BodyWithHeading(body: string, h: string)
    ensures var b := if body == "" then "# " + h else "# " + h + "\n\n" + body;
      b != "" && Ended(b) == WithNewline("# " + h + if body == "" then "" else "\n\n" + body)
  {
    assert "# " + h + "" == "# " + h;
    assert "# " + h + "\n\n" + body == "# " + h + ("\n\n" + body);
  }

  lemma EndsSame(a: string)
    ensures a != "" ==> Ended(a) == WithNewline(a)
  {}

  // ----- The first heading -----------------------------------------------------------------

  /** A line that, trimmed, starts with a number sign and a space. */
  predicate HeadingLine(line: string) { "# " <= TrimSpace(line) }

  predicate FirstHeadingAt(ls: seq<string>, i: int) {
    0 <= i < |ls| && HeadingLine(ls[i]) && forall j :: 0 <= j < i ==> !HeadingLine(ls[j])
  }

  lemma HeadingHasText(line: string)
    requires HeadingLine(line)
    ensures TrimSpace(TrimSpace(line)[2..]) != ""
  {
    var t := TrimSpace(line);
    var r := t[2..];
    TrimmedFixed(line);
    assert t == "# " + r;
    if TrimSpace(r) == "" {
      BlankIff(r);
      BlankGoes(r);
    }
  }

  lemma BlankGoes(r: string)
    requires AllSpace(r)
    ensures |TrimRight("# " + r)| < 2
  {
    var cs :| Spaces(cs) && Joined(cs) == r;
    TrimRightThrough("# ", cs);
    assert "# "[..1] == "#";
  }

  lemma {:induction false} HeadingInMeans(ls: seq<string>)
    ensures (forall i :: 0 <= i < |ls| ==> !HeadingLine(ls[i])) ==> HeadingIn(ls) == ""
    ensures forall i :: FirstHeadingAt(ls, i) ==> HeadingIn(ls) == TrimSpace(TrimSpace(ls[i])[2..]) != ""
  {
    if ls != [] {
      HeadingInMeans(ls[1..]);
      if HeadingLine(ls[0]) { HeadingHasText(ls[0]); }
      forall i | FirstHeadingAt(ls, i) && i > 0 ensures FirstHeadingAt(ls[1..], i - 1) {
        assert forall j :: 0 <= j < i - 1 ==> ls[1..][j] == ls[j+1];
      }
    }
  }

  lemma {:induction false} SomeFirst(ls: seq<string>) returns (i: nat)
    requires exists k :: 0 <= k < |ls| && HeadingLine(ls[k])
    ensures FirstHeadingAt(ls, i)
  {
    if HeadingLine(ls[0]) {
      i := 0;
    } else {
      var k :| 0 <= k < |ls| && HeadingLine(ls[k]);
      assert ls[1..][k-1] == ls[k];
      var n := SomeFirst(ls[1..]);
      i := n + 1;
      assert forall j :: 0 < j <= n ==> ls[j] == ls[1..][j-1];
    }
  }

  /** The heading of a body is the text of its first heading line, wherever that stands, and there is
      one exactly when there is such a line. */
  lemma FirstHeadingMeans(body: string)
    ensures FirstHeading(body) != "" <==> HasHeading(body)
    ensures forall i :: FirstHeadingAt(Split(body), i) ==> FirstHeading(body) == TrimSpace(TrimSpace(Split(body)[i])[2..])
    ensures Unlines(Split(body)) == body + "\n" && forall i :: 0 <= i < |Split(body)| ==> OneLine(Split(body)[i])
  {
    HeadingInMeans(Split(body));
    if HasHeading(body) { var i := SomeFirst(Split(body)); }
    UnlinesSplit(body);
  }

  lemma HeadingExists(body: string)
    ensures FirstHeading(body) != "" <==> HasHeading(body)
  {
    FirstHeadingMeans(body);
  }

  // ----- Line ends of the body ---------------------------------------------------------------

  function Unified(s: string): string { ReplaceChar(ReplaceCRLF(s, "\n"), '\r', "\n") }

  lemma UnifiedEnd(e: string, rest: string)
    requires LineEnd(e) && (e == "\r" ==> rest == "" || rest[0] != '\n')
    ensures Unified(e + rest) == "\n" + Unified(rest)
  {
    var s, more := e + rest, ReplaceCRLF(rest, "\n");
    if e == "\r\n" {
      assert s[2..] == rest;
    } else {
      assert s[1..] == rest && ReplaceCRLF(s, "\n") == e + more;
    }
    var t := if e == "\r" then "\r" else "\n";
    assert ReplaceCRLF(s, "\n") == t + more;
    assert (t + more)[1..] == more;
  }

  lemma UnifiedLine(l: string, e: string, rest: string)
    requires FlatText(l) && LineEnd(e) && (e == "\r" ==> rest == "" || rest[0] != '\n')
    ensures Unified(l + (e + rest)) == l + ("\n" + Unified(rest))
  {
    ReplaceCRLFThrough(l, e + rest, "\n");
    ReplaceCharThrough(l, ReplaceCRLF(e + rest, "\n"), '\r', "\n");
    UnifiedEnd(e, rest);
  }

  lemma UnifiedFlat(l: string)
    requires FlatText(l)
    ensures Unified(l) == l
  {
    ReplaceCRLFThrough(l, "", "\n");
    ReplaceCharThrough(l, "", '\r', "\n");
    assert l + "" == l;
  }

  lemma {:induction false} UnifiedLines(ls: seq<string>, es: seq<string>, last: string)
    requires EndedLines(ls, es) && FlatText(last)
    ensures Unified(WithEnds(ls, es) + last) == Unlines(ls) + last
  {
    if ls == [] {
      assert WithEnds(ls, es) + last == last && Unlines(ls) + last == last;
      UnifiedFlat(last);
    } else {
      var rest := WithEnds(ls[1..], es[1..]) + last;
      UnifiedLines(ls[1..], es[1..], last);
      assert WithEnds(ls, es) + last == ls[0] + (es[0] + rest);
      if es[0] == "\r" { FirstByte(ls[1..], es[1..], last); }
      UnifiedLine(ls[0], es[0], rest);
      assert Unlines(ls) + last == ls[0] + ("\n" + (Unlines(ls[1..]) + last));
    }
  }

  /** The body that is parsed has the lines of the text, whatever their line ends, each ended by a
      newline; newlines in front are gone. */
  lemma NormalBodyMeans(ls: seq<string>, es: seq<string>, last: string)
    requires EndedLines(ls, es) && FlatText(last)
    ensures exists n: nat :: Newlines(n) + NormalBody(WithEnds(ls, es) + last) == Unlines(ls) + last
    ensures var b := NormalBody(WithEnds(ls, es) + last); b == "" || b[0] != '\n'
  {
    UnifiedLines(ls, es, last);
    var n := LeadingNewlines(Unlines(ls) + last);
  }

  function Newlines(n: nat): string { if n == 0 then "" else "\n" + Newlines(n - 1) }

  lemma {:induction false} LeadingNewlines(s: string) returns (n: nat)
    ensures Newlines(n) + TrimLeadingNewlines(s) == s
    ensures TrimLeadingNewlines(s) == "" || TrimLeadingNewlines(s)[0] != '\n'
  {
    if s != "" && s[0] == '\n' {
      var k := LeadingNewlines(s[1..]);
      n := k + 1;
      assert s == "\n" + s[1..];
      Reassociate("\n", Newlines(k), TrimLeadingNewlines(s[1..]));
    } else {
      n := 0;
      assert Newlines(0) + s == s;
    }
  }

  // ----- Where the frontmatter ends ----------------------------------------------------------

  predicate Opens(line: string) { TrimSpace(TrimLineEnd(line)) == "---" }

  predicate Closes(line: string) { TrimSpace(TrimLineEnd(line)) == "---" || TrimSpace(TrimLineEnd(line)) == "..." }

  lemma EndDoesNotMatter(line: string)
    ensures Bare(line + "\n") == TrimSpace(TrimLineEnd(line)) == Bare(line)
  {
    assert (line + "\n")[..|line|] == line;
  }

  lemma {:induction false} NextLineOfFlat(l: string)
    requires OneLine(l)
    ensures NextLine(l) == l
  {
    if l != "" {
      NextLineOfFlat(l[1..]);
      assert l == [l[0]] + l[1..];
    }
  }

  ghost predicate Inside(ls: seq<string>) { forall i :: 0 <= i < |ls| ==> OneLine(ls[i]) && !Closes(ls[i]) }

  lemma {:induction false} ScanThrough(ls: seq<string>, read: string, rest: string)
    requires Inside(ls)
    ensures ScanFrontmatter(read, Unlines(ls) + rest) == ScanFrontmatter(read + Unlines(ls), rest)
  {
    if ls == [] {
      assert Unlines(ls) + rest == rest && read + Unlines(ls) == read;
    } else {
      var l, more := ls[0], Unlines(ls[1..]);
      EndDoesNotMatter(l);
      UnlinesOf(ls, rest);
      ScanOne(l, read, more + rest);
      ScanThrough(ls[1..], read + (l + "\n"), rest);
      JoinLine(read, l, more);
    }
  }

  lemma ScanLast(read: string, last: string)
    requires OneLine(last)
    ensures ScanFrontmatter(read, last) == if Closes(last) then Ok((read, "")) else Err(UnterminatedFrontmatter)
  {
    NextLineOfFlat(last);
    EndDoesNotMatter(last);
    assert last[|last|..] == "";
  }

  /** The split of any text: the first line has to open the frontmatter, which goes on to the first line
      that closes it, with three dashes or three dots; after that line everything is body. */
  lemma SplitMeans(open: string, ls: seq<string>, close: string, rest: string)
    requires OneLine(open) && Inside(ls) && OneLine(close)
    ensures !Opens(open) ==> SplitFrontmatter(open + ("\n" + rest)) == SplitFrontmatter(open) == Err(MissingFrontmatter)
    ensures Opens(open) && Closes(close) ==>
      && SplitFrontmatter(open + ("\n" + (Unlines(ls) + (close + ("\n" + rest))))) == Ok((Unlines(ls), rest))
      && SplitFrontmatter(open + ("\n" + (Unlines(ls) + close))) == Ok((Unlines(ls), ""))
    ensures Opens(open) && !Closes(close) ==>
      SplitFrontmatter(open + ("\n" + (Unlines(ls) + close))) == SplitFrontmatter(open) == Err(UnterminatedFrontmatter)
  {
    SplitOpen(open, rest);
    ScanLast("", "");
    assert TrimLineEnd("") == "";
    if Opens(open) {
      SplitOpen(open, Unlines(ls) + close);
      ScanThrough(ls, "", close);
      ScanLast("" + Unlines(ls), close);
      SplitOpen(open, Unlines(ls) + (close + ("\n" + rest)));
      ScanThrough(ls, "", close + ("\n" + rest));
      ScanOne(close, "" + Unlines(ls), rest);
      EndDoesNotMatter(close);
      assert "" + Unlines(ls) == Unlines(ls);
    }
  }

  lemma SplitOpen(open: string, rest: string)
    requires OneLine(open)
    ensures SplitFrontmatter(open + ("\n" + rest)) == if Opens(open) then ScanFrontmatter("", rest) else Err(MissingFrontmatter)
    ensures SplitFrontmatter(open) == if Opens(open) then ScanFrontmatter("", "") else Err(MissingFrontmatter)
  {
    EndDoesNotMatter(open);
    NextLineReads(open, rest);
    NextLineOfFlat(open);
    assert |open + "\n"| == |open| + 1 && open[|open|..] == "";
  }

  // ----- What is parsed ----------------------------------------------------------------------

  /** The text of this field, cut to 4096 bytes, or nothing. */
  predicate TextIs(p: Properties, key: string, t: string) {
    t == if key in p && p[key].Str? then Truncate(p[key].s, 4096) else ""
  }

  /** What one item of `arguments` stands for: a plain string names an argument, a mapping describes one. */
  predicate Gives(item: Yaml, a: SkillArgument) {
    match item
    case Str(s) => a == SkillArgument(TrimSpace(s), "", "")
    case Dict(p) =>
      && "name" in p && p["name"].Str? && a.name == TrimSpace(p["name"].s)
      && TextIs(p, "description", a.description) && TextIs(p, "default", a.default)
    case _ => false
  }

  lemma GivesIs(item: Yaml, a: SkillArgument)
    ensures Gives(item, a) <==> ArgumentOf(item) == Some(a)
  {}

  /** The arguments kept are what the items at these positions give: valid names, each the first of its kind. */
  ghost predicate KeptArguments(items: seq<Yaml>, args: seq<SkillArgument>, at: seq<nat>) {
    && |at| == |args|
    && (forall k :: 0 <= k < |at| ==> at[k] < |items| && Gives(items[at[k]], args[k]) && IsName(args[k].name))
    && (forall j, k :: 0 <= j < k < |at| ==> at[j] < at[k] && args[j].name != args[k].name)
  }

  /** Every valid name among the first n items is among the arguments. */
  ghost predicate AllNamed(items: seq<Yaml>, n: nat, args: seq<SkillArgument>) {
    forall i, a :: 0 <= i < n && i < |items| && Gives(items[i], a) && IsName(a.name) ==> a.name in Names(args)
  }

  lemma {:induction false} ArgumentsFromMean(items: seq<Yaml>, n: nat, args: seq<SkillArgument>, at: seq<nat>) returns (all: seq<nat>)
    requires n <= |items| && KeptArguments(items, args, at) && (forall k :: 0 <= k < |at| ==> at[k] < n) && AllNamed(items, n, args)
    ensures var out := ArgumentsFrom(items[n..], args);
            KeptArguments(items, out, all) && (|out| >= 64 || AllNamed(items, |items|, out))
    decreases |items| - n
  {
    if n == |items| || |args| >= MAX_ARGUMENTS {
      all := at;
    } else {
      var arg := ArgumentOf(items[n]);
      assert items[n..][0] == items[n] && items[n..][1..] == items[n+1..];
      if Admissible(arg, args) {
        OneMoreKept(items, n, args, at);
        all := ArgumentsFromMean(items, n + 1, args + [arg.value], at + [n]);
      } else {
        NoneMoreKept(items, n, args);
        all := ArgumentsFromMean(items, n + 1, args, at);
      }
    }
  }

  lemma OneMoreKept(items: seq<Yaml>, n: nat, args: seq<SkillArgument>, at: seq<nat>)
    requires n < |items| && KeptArguments(items, args, at) && (forall k :: 0 <= k < |at| ==> at[k] < n) && AllNamed(items, n, args)
    requires Admissible(ArgumentOf(items[n]), args)
    ensures KeptArguments(items, args + [ArgumentOf(items[n]).value], at + [n])
    ensures AllNamed(items, n + 1, args + [ArgumentOf(items[n]).value])
  {
    var a := ArgumentOf(items[n]).value;
    GivesIs(items[n], a);
    forall k | 0 <= k < |args| ensures args[k].name != a.name { assert args[k] in args; }
    forall i, b | 0 <= i < n + 1 && Gives(items[i], b) && IsName(b.name) ensures b.name in Names(args + [a]) {
      if i < n {
        var c :| c in args && c.name == b.name;
        assert c in args + [a];
      } else {
        GivesIs(items[n], b);
        assert a in args + [a];
      }
    }
  }

  lemma NoneMoreKept(items: seq<Yaml>, n: nat, args: seq<SkillArgument>)
    requires n < |items| && AllNamed(items, n, args) && !Admissible(ArgumentOf(items[n]), args)
    ensures AllNamed(items, n + 1, args)
  {
    forall b | Gives(items[n], b) && IsName(b.name) ensures b.name in Names(args) { GivesIs(items[n], b); }
  }

  /** A list as it is, a string as a list of one, anything else as none. */
  ghost predicate ItemsAre(p: Properties, key: string, items: seq<Yaml>) {
    if key in p && p[key].List? then items == p[key].items
    else if key in p && p[key].Str? then items == [p[key]]
    else items == []
  }

  /** The arguments of a parsed document: what the items of the field give, in their order, the first of
      each valid name, and all of these unless sixty-four are kept. */
  lemma ArgumentsMean(p: Properties) returns (items: seq<Yaml>, at: seq<nat>)
    ensures var out := ArgumentsFrom(ItemsOf(Lookup(p, "arguments")), []);
            ItemsAre(p, "arguments", items) && KeptArguments(items, out, at) && (|out| >= 64 || AllNamed(items, |items|, out))
  {
    items := ItemsOf(Lookup(p, "arguments"));
    assert items[0..] == items;
    at := ArgumentsFromMean(items, 0, [], []);
  }

  predicate GivesTag(item: Yaml, t: string) { item.Str? && t == TrimSpace(item.s) && 0 < |t| <= 128 }

  ghost predicate KeptTags(items: seq<Yaml>, tags: seq<string>, at: seq<nat>) {
    && |at| == |tags|
    && (forall k :: 0 <= k < |at| ==> at[k] < |items| && GivesTag(items[at[k]], tags[k]))
    && (forall j, k :: 0 <= j < k < |at| ==> at[j] < at[k] && tags[j] != tags[k])
  }

  ghost predicate AllTagged(items: seq<Yaml>, n: nat, tags: seq<string>) {
    forall i, t :: 0 <= i < n && i < |items| && GivesTag(items[i], t) ==> t in tags
  }

  lemma {:induction false} TagsFromMean(items: seq<Yaml>, n: nat, tags: seq<string>, at: seq<nat>) returns (all: seq<nat>)
    requires n <= |items| && KeptTags(items, tags, at) && (forall k :: 0 <= k < |at| ==> at[k] < n) && AllTagged(items, n, tags)
    ensures var out := TagsFrom(items[n..], tags); KeptTags(items, out, all) && (|out| >= 64 || AllTagged(items, |items|, out))
    decreases |items| - n
  {
    if n == |items| || |tags| >= MAX_TAGS {
      all := at;
    } else {
      var t := TagOf(items[n]);
      assert items[n..][0] == items[n] && items[n..][1..] == items[n+1..];
      if t != "" && |t| <= MAX_TAG_BYTES && t !in tags {
        all := TagsFromMean(items, n + 1, tags + [t], at + [n]);
      } else {
        all := TagsFromMean(items, n + 1, tags, at);
      }
    }
  }

  lemma TagsMean(p: Properties) returns (items: seq<Yaml>, at: seq<nat>)
    ensures var out := TagsFrom(ItemsOf(Lookup(p, "tags")), []);
            ItemsAre(p, "tags", items) && KeptTags(items, out, at) && (|out| >= 64 || AllTagged(items, |items|, out))
  {
    items := ItemsOf(Lookup(p, "tags"));
    assert items[0..] == items;
    at := TagsFromMean(items, 0, [], []);
  }

  const BOM := [0xEF as char, 0xBB as char, 0xBF as char]

  /** The content without a byte order mark in front. */
  ghost predicate Unmarked(content: string, s: string) {
    content == BOM + s || (content == s && !(BOM <= content))
  }

  lemma CutBomMeans(content: string)
    ensures Unmarked(content, CutBom(content))
  {
    if HasBom(content) { assert content == BOM + content[3..]; }
  }

  /** A required field: a string, used without its outer white space. */
  predicate FieldIs(p: Properties, key: string, t: string) { key in p && p[key].Str? && t == TrimSpace(p[key].s) }

  /** The display name: the first heading or else the name, cut to 256 bytes. */
  ghost predicate DisplayIs(d: Document) {
    if |FirstHeading(d.body)| > 0 then d.displayName == Truncate(FirstHeading(d.body), 256)
    else d.displayName == Truncate(d.name, 256)
  }

  /** What the decoded frontmatter has to hold, whatever else it holds. */
  ghost predicate Acceptable(p: Properties, expected: string) {
    && "name" in p && p["name"].Str? && NameOk(TrimSpace(p["name"].s))
    && "description" in p && p["description"].Str? && 0 < |TrimSpace(p["description"].s)| <= 1024
    && (TrimSpace(expected) == "" || TrimSpace(expected) == TrimSpace(p["name"].s))
  }

  /** The fields of a document, by the frontmatter p and the text after it. */
  ghost predicate Reads(env: Env, d: Document, p: Properties, text: string) {
    && d.raw == p && FieldIs(p, "name", d.name) && FieldIs(p, "description", d.description)
    && d.insert == (if "insert" in p && p["insert"].Str? && env.normalize(p["insert"].s) == Some(UserMessage)
                    then "user-message" else "instructions")
    && d.arguments == ArgumentsFrom(ItemsOf(Lookup(p, "arguments")), [])
    && d.tags == TagsFrom(ItemsOf(Lookup(p, "tags")), [])
    && d.body == NormalBody(text) && DisplayIs(d)
  }

  lemma FromPropertiesMeans(env: Env, p: Properties, text: string, expected: string)
    ensures FromProperties(env, p, text, expected).Ok? <==> Acceptable(p, expected)
    ensures FromProperties(env, p, text, expected).Ok? ==> Reads(env, FromProperties(env, p, text, expected).value, p, text)
  {
    RequiredMeans(p, "name");
    RequiredMeans(p, "description");
    var name, description := RequiredString(p, "name"), RequiredString(p, "description");
    if name.Some? && description.Some? {
      DescriptionMeans(p["description"].s);
      AssembledReads(env, p, name.value, description.value, text);
    }
  }

  lemma DescriptionMeans(s: string)
    ensures DescriptionOk(TrimSpace(s)) <==> 0 < |TrimSpace(s)| <= 1024
  {
    TrimmedFixed(s);
    TrimmedFixed(TrimSpace(s));
  }

  lemma RequiredMeans(p: Properties, key: string)
    ensures RequiredString(p, key) == if key in p && p[key].Str? then Some(TrimSpace(p[key].s)) else None
  {}

  lemma AssembledReads(env: Env, p: Properties, name: string, description: string, text: string)
    requires FieldIs(p, "name", name) && FieldIs(p, "description", description)
    ensures Reads(env, Assemble(env, p, name, description, text), p, text)
  {
    InsertMeans(env, p);
    DisplayMeans(NormalBody(text), name);
  }

  lemma InsertMeans(env: Env, p: Properties)
    ensures InsertText(InsertOf(env, Lookup(p, "insert"))) ==
            (if "insert" in p && p["insert"].Str? && env.normalize(p["insert"].s) == Some(UserMessage)
             then "user-message" else "instructions")
  {}

  lemma DisplayMeans(body: string, name: string)
    ensures DisplayNameFor(body, name) == Truncate(if |FirstHeading(body)| > 0 then FirstHeading(body) else name, 256)
  {}

  /** The document is what this content, without a byte order mark, says. */
  ghost predicate ReadFrom(env: Env, d: Document, s: string) {
    && SplitFrontmatter(s).Ok? && env.decode(SplitFrontmatter(s).value.0).Some?
    && Reads(env, d, env.decode(SplitFrontmatter(s).value.0).value, SplitFrontmatter(s).value.1)
  }

  /** Which contents are accepted, and what each field of the parsed document is then. */
  lemma ParseMeans(env: Env, content: string, expected: string) returns (s: string)
    ensures Unmarked(content, s)
    ensures var parsed := Parse(env, content, expected);
      && (parsed.Ok? <==>
            && |content| <= 2_097_152 && Utf8.Valid(content) && NulFree(content)
            && SplitFrontmatter(s).Ok? && env.decode(SplitFrontmatter(s).value.0).Some?
            && Acceptable(env.decode(SplitFrontmatter(s).value.0).value, expected))
      && (parsed.Ok? ==> ReadFrom(env, parsed.value, s))
  {
    s := CutBom(content);
    CutBomMeans(content);
    var split := SplitFrontmatter(s);
    if split.Ok? && env.decode(split.value.0).Some? {
      FromPropertiesMeans(env, env.decode(split.value.0).value, split.value.1, expected);
    }
  }

  /** A byte order mark in front changes nothing. */
  lemma BomIsIgnored(env: Env, content: string, expected: string)
    requires |content| + 3 <= MAX_DOCUMENT_BYTES && !(BOM <= content)
    ensures Parse(env, BOM + content, expected) == Parse(env, content, expected)
  {
    var marked := BOM + content;
    BomIsClean();
    ValidConcat(BOM, content);
    CleanConcat(BOM, content);
    NulConcat(BOM, content);
    assert marked[3..] == content && HasBom(marked) && !HasBom(content);
  }

  lemma BomIsClean()
    ensures Clean(BOM)
  {
    assert CharLen(BOM) == 3 && BOM[3..] == "";
  }

  lemma NulConcat(a: string, b: string)
    requires NulFree(a)
    ensures NulFree(a + b) <==> NulFree(b)
  {
    assert forall i :: 0 <= i < |b| ==> (a + b)[|a| + i] == b[i];
  }
}
