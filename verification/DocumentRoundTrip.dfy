/** The printed form of a document is canonical: parsing it gives the document's fields back, and
    printing the result again gives the same bytes (document.go, lines 223 to 307). */
module DocumentRoundTrip {
  import opened SkillTypes
  import opened Text
  import opened Utf8
  import opened Lines
  import opened DocumentModel
  import opened DocumentValidity

  // ----- The frontmatter comes back --------------------------------------------------------

  ghost predicate NoFenceIn(ls: seq<string>) { forall i :: 0 <= i < |ls| ==> !Fence(ls[i] + "\n") }

  /** No line of the encoded frontmatter reads as a fence. */
  ghost predicate NoFence(front: string) { NoFenceIn(Split(front)) }

  lemma DashesAreAFence()
    ensures Bare("---\n") == "---" && Fence("---\n")
  {
    assert "---\n"[..3] == "---";
    assert TrimLineEnd("---\n") == TrimLineEnd("---");
    TrimmedFixed("---");
  }

  lemma {:induction false} UnlinesSplit(s: string)
    ensures Unlines(Split(s)) == s + "\n"
    ensures forall i :: 0 <= i < |Split(s)| ==> OneLine(Split(s)[i])
  {
    if s != "" {
      var c, ls := s[0], Split(s[1..]);
      UnlinesSplit(s[1..]);
      Regroup(s, c, s[1..], "\n");
      if c == '\n' {
        assert ([""] + ls)[1..] == ls;
      } else {
        var all := [[c] + ls[0]] + ls[1..];
        assert all[1..] == ls[1..] && all[0] == [c] + ls[0];
        assert ([c] + ls[0]) + ("\n" + Unlines(ls[1..])) == [c] + (ls[0] + ("\n" + Unlines(ls[1..])));
      }
    }
  }

  lemma UnlinesOf(ls: seq<string>, rest: string)
    requires ls != []
    ensures Unlines(ls) + rest == ls[0] + ("\n" + (Unlines(ls[1..]) + rest))
  {}

  lemma ScanOne(l: string, read: string, rest: string)
    requires OneLine(l)
    ensures ScanFrontmatter(read, l + ("\n" + rest)) ==
      if Fence(l + "\n") then Ok((read, rest)) else ScanFrontmatter(read + (l + "\n"), rest)
  {
    NextLineReads(l, rest);
    assert |l + "\n"| == |l| + 1;
  }

  /** Reading a list of lines stops at the first fence among them, if there is one. */
  lemma {:induction false} ScanLines(ls: seq<string>, read: string, tail: string)
    requires forall i :: 0 <= i < |ls| ==> OneLine(ls[i])
    ensures var r := ScanFrontmatter(read, Unlines(ls) + ("---" + ("\n" + tail)));
      && r.Ok?
      && (NoFenceIn(ls) ==> r.value == (read + Unlines(ls), tail))
      && (!NoFenceIn(ls) ==> |r.value.0| < |read| + |Unlines(ls)|)
    decreases |ls|
  {
    var end := "---" + ("\n" + tail);
    if ls == [] {
      ScanFence(read, tail);
      assert Unlines(ls) + end == end && read + Unlines(ls) == read;
    } else {
      var l, more := ls[0], Unlines(ls[1..]);
      UnlinesOf(ls, end);
      ScanOne(l, read, more + end);
      if !Fence(l + "\n") {
        ScanLines(ls[1..], read + (l + "\n"), tail);
        NoFenceTail(ls);
        JoinLine(read, l, more);
      }
    }
  }

  lemma ScanFence(read: string, tail: string)
    ensures ScanFrontmatter(read, "---" + ("\n" + tail)) == Ok((read, tail))
  {
    DashesAreAFence();
    assert "---" + "\n" == "---\n";
    ScanOne("---", read, tail);
  }

  lemma JoinLine(read: string, l: string, more: string)
    ensures (read + (l + "\n")) + more == read + (l + ("\n" + more))
  {}

  lemma NoFenceTail(ls: seq<string>)
    requires ls != [] && !Fence(ls[0] + "\n")
    ensures NoFenceIn(ls) <==> NoFenceIn(ls[1..])
  {
    if NoFenceIn(ls[1..]) {
      forall i | 0 <= i < |ls| ensures !Fence(ls[i] + "\n") {
        assert i > 0 ==> ls[i] == ls[1..][i-1];
      }
    }
    assert forall i :: 0 <= i < |ls| - 1 ==> ls[1..][i] == ls[i+1];
  }

  /** The split of a printed document gives back the encoded frontmatter and the rest exactly when
      no line of the frontmatter reads as a fence. */
  lemma SplitGivesBackIff(front: string, tail: string)
    ensures SplitFrontmatter("---\n" + front + "\n---\n" + tail) == Ok((front + "\n", tail)) <==> NoFence(front)
  {
    var s := "---\n" + front + "\n---\n" + tail;
    var ls := Split(front);
    var rest := Unlines(ls) + ("---" + ("\n" + tail));
    UnlinesSplit(front);
    FenceFirst(s, front, tail);
    SplitAfterFence(s, rest);
    ScanLines(ls, "", tail);
    assert "" + Unlines(ls) == Unlines(ls);
  }

  lemma FenceFirst(s: string, front: string, tail: string)
    requires s == "---\n" + front + "\n---\n" + tail
    ensures s == "---" + ("\n" + ((front + "\n") + ("---" + ("\n" + tail))))
  {}

  lemma SplitAfterFence(s: string, rest: string)
    requires s == "---" + ("\n" + rest)
    ensures SplitFrontmatter(s) == ScanFrontmatter("", rest)
  {
    NextLineReads("---", rest);
    assert "---" + "\n" == "---\n";
    DashesAreAFence();
  }

  // ----- The fields come back --------------------------------------------------------------

  lemma TextBack(key: string, s: string, p: Properties)
    requires |s| <= MAX_ARGUMENT_BYTES && Lookup(p, key) == (if s == "" then Null else Str(s))
    ensures ArgumentText(p, key) == s
  {}

  lemma ArgumentBack(a: SkillArgument)
    requires ArgumentOk(a)
    ensures ArgumentOf(ArgumentDict(a)) == Some(a)
  {
    var p := ArgumentDict(a).fields;
    assert Lookup(p, "name") == Str(a.name);
    TextBack("description", a.description, p);
    TextBack("default", a.default, p);
  }

  lemma ArgumentsStep(items: seq<Yaml>, args: seq<SkillArgument>, a: SkillArgument)
    requires items != [] && |args| < MAX_ARGUMENTS && ArgumentOf(items[0]) == Some(a) && Admissible(Some(a), args)
    ensures ArgumentsFrom(items, args) == ArgumentsFrom(items[1..], args + [a])
  {}

  lemma NextIsAdmissible(args: seq<SkillArgument>, k: nat)
    requires ArgumentsOk(args) && k < |args|
    ensures ArgumentOk(args[k]) && Admissible(Some(args[k]), args[..k])
  {
    forall a | a in args[..k] ensures a.name != args[k].name {
      var j :| 0 <= j < k && args[j] == a;
    }
  }

  lemma {:induction false} ArgumentsBackFrom(args: seq<SkillArgument>, k: nat)
    requires ArgumentsOk(args) && k <= |args|
    ensures ArgumentsFrom(ArgumentItems(args)[k..], args[..k]) == args
    decreases |args| - k
  {
    if k == |args| {
      assert args[..k] == args && ArgumentItems(args)[k..] == [];
    } else {
      NextIsAdmissible(args, k);
      ArgumentBack(args[k]);
      NextItem(args, k);
      ArgumentsStep(ArgumentItems(args)[k..], args[..k], args[k]);
      ArgumentsBackFrom(args, k + 1);
    }
  }

  lemma NextItem(args: seq<SkillArgument>, k: nat)
    requires k < |args|
    ensures var rest := ArgumentItems(args)[k..];
      rest != [] && rest[0] == ArgumentDict(args[k]) && rest[1..] == ArgumentItems(args)[k+1..]
    ensures args[..k] + [args[k]] == args[..k+1]
  {}

  lemma ArgumentsBack(args: seq<SkillArgument>)
    requires ArgumentsOk(args)
    ensures ArgumentsFrom(ArgumentItems(args), []) == args
  {
    ArgumentsBackFrom(args, 0);
    assert ArgumentItems(args)[0..] == ArgumentItems(args) && args[..0] == [];
  }

  lemma {:induction false} TagsBackFrom(tags: seq<string>, k: nat)
    requires TagsOk(tags) && k <= |tags|
    ensures TagsFrom(TagItems(tags)[k..], tags[..k]) == tags
    decreases |tags| - k
  {
    var items := TagItems(tags);
    if k == |tags| {
      assert tags[..k] == tags && items[k..] == [];
    } else {
      assert items[k..][0] == Str(tags[k]) && items[k..][1..] == items[k+1..];
      assert tags[..k] + [tags[k]] == tags[..k+1];
      assert TagOk(tags[k]) && tags[k] !in tags[..k];
      TagsBackFrom(tags, k + 1);
    }
  }

  lemma TagsBack(tags: seq<string>)
    requires TagsOk(tags)
    ensures TagsFrom(TagItems(tags), []) == tags
  {
    TagsBackFrom(tags, 0);
    assert TagItems(tags)[0..] == TagItems(tags) && tags[..0] == [];
  }

  lemma FieldsBack(d: Document, i: SkillInsert)
    ensures var p := PropertiesOf(d, i);
      && Lookup(p, "name") == Str(d.name) && Lookup(p, "description") == Str(d.description)
      && Lookup(p, "insert") == Str(InsertText(i))
      && ItemsOf(Lookup(p, "arguments")) == ArgumentItems(d.arguments)
      && ItemsOf(Lookup(p, "tags")) == TagItems(d.tags)
  {}

  /** Printing what was read from a printed frontmatter sets every field to what it already is. */
  lemma PropertiesStable(d: Document, e: Document, i: SkillInsert)
    requires e.raw == PropertiesOf(d, i)
    requires e.name == d.name && e.description == d.description && e.arguments == d.arguments && e.tags == d.tags
    ensures PropertiesOf(e, i) == PropertiesOf(d, i)
  {}

  // ----- The body comes back ---------------------------------------------------------------

  /** Bodies the parser returns: no carriage return and no empty line in front. */
  predicate Normal(b: string) { NoReturn(b) && (b == "" || b[0] != '\n') }

  lemma {:induction false} TrimLeadingIsNormal(s: string)
    requires NoReturn(s)
    ensures Normal(TrimLeadingNewlines(s))
  {
    if s != "" && s[0] == '\n' { TrimLeadingIsNormal(s[1..]); }
  }

  lemma NormalBodyIsNormal(s: string)
    ensures Normal(NormalBody(s))
  {
    ReplaceCharGone(ReplaceCRLF(s, "\n"), '\r', "\n");
    TrimLeadingIsNormal(ReplaceChar(ReplaceCRLF(s, "\n"), '\r', "\n"));
  }

  lemma NormalIsFixed(b: string)
    requires Normal(b)
    ensures NormalBody(b) == b && NormalBody("\n" + b) == b
  {
    NoReturnKept(b);
    NoReturnKept("\n" + b);
    assert ("\n" + b)[1..] == b;
  }

  lemma EndedIsNormal(b: string)
    requires Normal(b)
    ensures Normal(Ended(b)) && Ended(Ended(b)) == Ended(b) && (Ended(b) == "" <==> b == "")
  {}

  lemma {:induction false} SplitNewlineAtEnd(s: string)
    ensures Split(s + "\n") == Split(s) + [""]
  {
    if s == "" {
      assert s + "\n" == ['\n'] + "";
      SplitCons('\n', "");
    } else {
      var c, q := s[0], s[1..];
      Regroup(s, c, q, "\n");
      Regroup(s, c, q, "");
      SplitNewlineAtEnd(q);
      SplitCons(c, q + "\n");
      SplitCons(c, q);
      assert (Split(q) + [""])[1..] == Split(q)[1..] + [""];
    }
  }

  lemma {:induction false} HeadingIgnoresEmptyLine(ls: seq<string>)
    ensures HeadingIn(ls + [""]) == HeadingIn(ls)
  {
    if ls == [] {
      assert ls + [""] == [""] && [""][1..] == [];
    } else {
      HeadingIgnoresEmptyLine(ls[1..]);
      assert (ls + [""])[1..] == ls[1..] + [""];
    }
  }

  lemma EndedKeepsHeading(b: string)
    ensures FirstHeading(Ended(b)) == FirstHeading(b)
  {
    SplitNewlineAtEnd(b);
    HeadingIgnoresEmptyLine(Split(b));
  }

  /** A body that starts with a heading line has that heading. */
  lemma HeadingInFront(h: string, more: string)
    requires h != "" && Trimmed(h) && OneLine(h)
    ensures FirstHeading("# " + h) == h && FirstHeading(("# " + h) + ("\n" + more)) == h
  {
    var line := "# " + h;
    HeadingLine(line, h);
    SplitLast(line);
    SplitLine(line, more);
  }

  // ----- The printed document --------------------------------------------------------------

  lemma HeadingBefore(h: string, body: string)
    requires h != "" && h[0] != '\n'
    ensures var b := if body == "" then "# " + h else "# " + h + "\n\n" + body;
      && (Clean(b) <==> Clean(h) && Clean(body))
      && (NoReturn(b) <==> NoReturn(h) && NoReturn(body))
      && b[0] == '#'
  {
    HeadingClean("# " + h, h);
    ReturnsConcat("# ", h);
    if body != "" {
      CleanTail('\n', body);
      CleanAround("# " + h, '\n', "\n" + body);
      ReturnsConcat("# " + h, "\n\n" + body);
      ReturnsConcat("\n\n", body);
      assert "# " + h + "\n\n" + body == ("# " + h) + ("\n" + ("\n" + body));
      assert "# " + h + "\n\n" + body == ("# " + h) + ("\n\n" + body);
    }
  }

  lemma ReturnsConcat(a: string, b: string)
    ensures NoReturn(a + b) <==> NoReturn(a) && NoReturn(b)
  {
    assert forall i :: 0 <= i < |a| ==> (a + b)[i] == a[i];
    assert forall i :: 0 <= i < |b| ==> (a + b)[|a| + i] == b[i];
  }

  /** A display name that is printed as a heading is valid text, without a carriage return. */
  ghost predicate CleanHeading(d: Document) { AddsHeading(d) ==> Clean(d.displayName) }

  ghost predicate ReturnFreeHeading(d: Document) { AddsHeading(d) ==> NoReturn(d.displayName) }

  /** The printed body is as clean as the heading it was given, and normal unless that holds a return. */
  lemma PrintedBodyFacts(env: Env, d: Document)
    requires ValidDocument(env, d)
    ensures var b := PrintedBody(d);
      && (Clean(b) <==> CleanHeading(d)) && (NoReturn(b) <==> ReturnFreeHeading(d))
      && (NoReturn(b) ==> Normal(b))
  {
    NormalBodyIsNormal(d.body);
    NormalBodyClean(d.body);
    if AddsHeading(d) {
      TrimmedFixed(d.displayName);
      HeadingBefore(d.displayName, NormalBody(d.body));
    }
  }

  /** When the display name is one line, the first heading that is printed is the one meant. */
  lemma PrintedHeading(env: Env, d: Document)
    requires ValidDocument(env, d) && (AddsHeading(d) ==> OneLine(d.displayName))
    ensures FirstHeading(PrintedBody(d)) == if AddsHeading(d) then d.displayName else FirstHeading(NormalBody(d.body))
  {
    if AddsHeading(d) {
      var h, body := d.displayName, NormalBody(d.body);
      TrimmedFixed(h);
      HeadingInFront(h, "\n" + body);
      assert body != "" ==> PrintedBody(d) == ("# " + h) + ("\n" + ("\n" + body));
    }
  }

  lemma EndedIsClean(b: string)
    ensures Clean(Ended(b)) <==> Clean(b)
  {
    CleanAround(b, '\n', "");
    assert "\n" + "" == "\n";
    PlainIsClean("");
  }

  /** Everything after the closing fence. */
  function TailOf(b: string): string { if b == "" then "" else "\n" + Ended(b) }

  lemma PrintedIs(front: string, b: string)
    ensures Printed(front, b) == "---\n" + TrimSpace(front) + "\n---\n" + TailOf(b)
    ensures Printed(front, b) == "---\n" + (TrimSpace(front) + ("\n---\n" + TailOf(b)))
    ensures !HasBom(Printed(front, b))
  {
    Concat4("---\n", TrimSpace(front), "\n---\n", TailOf(b));
    assert Printed(front, b)[0] == '-';
  }

  lemma Concat4(a: string, b: string, c: string, d: string)
    ensures a + b + c + d == a + (b + (c + d))
  {}

  lemma TailIsClean(b: string)
    ensures Clean(TailOf(b)) <==> Clean(b)
  {
    EndedIsClean(b);
    CleanTail('\n', Ended(b));
  }

  lemma PrintedIsClean(front: string, b: string)
    requires Clean(TrimSpace(front))
    ensures Clean(Printed(front, b)) <==> Clean(b)
  {
    var f, t := TrimSpace(front), TailOf(b);
    TailIsClean(b);
    PlainIsClean("---\n");
    PlainIsClean("\n---\n");
    CleanConcat("\n---\n", t);
    CleanConcat(f, "\n---\n" + t);
    CleanConcat("---\n", f + ("\n---\n" + t));
    PrintedIs(front, b);
  }

  lemma {:induction false} PlainIsClean(s: string)
    requires forall i :: 0 <= i < |s| ==> 0 < Code(s[i]) <= 0x7F
    ensures Clean(s)
  {
    if s != "" {
      PlainIsClean(s[1..]);
      CleanTail(s[0], s[1..]);
      assert s == [s[0]] + s[1..];
    }
  }

  lemma TailNormal(b: string)
    requires Normal(b)
    ensures NormalBody(TailOf(b)) == Ended(b)
  {
    EndedIsNormal(b);
    NormalIsFixed(Ended(b));
    NormalIsFixed("");
  }

  // ----- The two laws ----------------------------------------------------------------------

  /** Decoding undoes the encoding of these properties; the text decoded is the encoded text trimmed,
      with one line end. */
  ghost predicate Decodes(env: Env, p: Properties) {
    env.encode(p).Some? ==> env.decode(TrimSpace(env.encode(p).value) + "\n") == Some(p)
  }

  function InsertFor(env: Env, d: Document): SkillInsert
    requires env.normalize(d.insert).Some?
  {
    env.normalize(d.insert).value
  }

  /** The document a printed document is read as. */
  function ReadBack(env: Env, d: Document): Document
    requires env.normalize(d.insert).Some?
  {
    var body := NormalBody(TailOf(PrintedBody(d)));
    Document(d.name, DisplayNameFor(body, d.name), d.description, InsertText(InsertFor(env, d)),
             d.arguments, d.tags, body, PropertiesOf(d, InsertFor(env, d)))
  }

  /** What has to hold of the encoded frontmatter: clean text in which no line reads as a fence. */
  ghost predicate FrontmatterPrintable(front: string) { Clean(TrimSpace(front)) && NoFence(TrimSpace(front)) }

  /** The document can be printed, and its frontmatter comes back. */
  ghost predicate Prints(env: Env, d: Document) {
    && Marshal(env, d).Ok?
    && Decodes(env, PropertiesOf(d, InsertFor(env, d)))
    && FrontmatterPrintable(env.encode(PropertiesOf(d, InsertFor(env, d))).value)
  }

  lemma FromPropertiesBack(env: Env, d: Document)
    requires NormalizeLaw(env) && ValidDocument(env, d)
    ensures FromProperties(env, PropertiesOf(d, InsertFor(env, d)), TailOf(PrintedBody(d)), "") == Ok(ReadBack(env, d))
  {
    var p := PropertiesOf(d, InsertFor(env, d));
    FieldsBack(d, InsertFor(env, d));
    ArgumentsBack(d.arguments);
    TagsBack(d.tags);
    FromRequired(env, p, TailOf(PrintedBody(d)), d.name, d.description);
  }

  lemma FromRequired(env: Env, p: Properties, text: string, name: string, description: string)
    requires Lookup(p, "name") == Str(name) && Lookup(p, "description") == Str(description)
    requires NameOk(name) && DescriptionOk(description)
    ensures FromProperties(env, p, text, "") == Ok(Assemble(env, p, name, description, text))
  {
    assert RequiredString(p, "name") == Some(name) && RequiredString(p, "description") == Some(description);
  }

  /** A printed document is parsed exactly when its heading is valid text, and then with its fields and
      the body normalised; with a return-free heading that is the printed body with a final newline. */
  lemma MarshalThenParse(env: Env, d: Document)
    requires NormalizeLaw(env) && Prints(env, d)
    ensures Parse(env, Marshal(env, d).value, "").Ok? <==> CleanHeading(d)
    ensures CleanHeading(d) ==> Parse(env, Marshal(env, d).value, "") == Ok(ReadBack(env, d))
    ensures ReturnFreeHeading(d) ==> ReadBack(env, d).body == Ended(PrintedBody(d))
  {
    var front, b := env.encode(PropertiesOf(d, InsertFor(env, d))).value, PrintedBody(d);
    PrintedBodyFacts(env, d);
    if NoReturn(b) { TailNormal(b); }
    PrintedIsClean(front, b);
    if Clean(b) { ParsePrinted(env, d, front); }
  }

  lemma ParsePrinted(env: Env, d: Document, front: string)
    requires NormalizeLaw(env) && Prints(env, d) && env.encode(PropertiesOf(d, InsertFor(env, d))) == Some(front)
    requires Clean(Printed(front, PrintedBody(d)))
    ensures Parse(env, Printed(front, PrintedBody(d)), "") == Ok(ReadBack(env, d))
  {
    PrintedIs(front, PrintedBody(d));
    SplitGivesBackIff(TrimSpace(front), TailOf(PrintedBody(d)));
    FromPropertiesBack(env, d);
  }

  // ----- The display name comes back -------------------------------------------------------

  ghost predicate Lacks(ls: seq<string>, c: char) { forall i :: 0 <= i < |ls| ==> c !in ls[i] }

  lemma {:induction false} SplitLacks(s: string, c: char)
    ensures c == '\n' || c !in s ==> Lacks(Split(s), c)
  {
    if s != "" { SplitLacks(s[1..], c); }
  }

  lemma TrimLacks(s: string, c: char)
    requires c !in s
    ensures c !in TrimSpace(s)
  {
    var i, j := TrimSpaceCorrect(s);
  }

  lemma {:induction false} HeadingLacks(ls: seq<string>, c: char)
    requires Lacks(ls, c)
    ensures c !in HeadingIn(ls)
  {
    if ls != [] {
      HeadingLacks(ls[1..], c);
      var line := TrimSpace(ls[0]);
      TrimLacks(ls[0], c);
      if "# " <= line { TrimLacks(line[2..], c); }
    }
  }

  /** A display name read from a heading has no line end of either kind. */
  lemma HeadingIsFlat(body: string)
    requires NoReturn(body)
    ensures OneLine(FirstHeading(body)) && NoReturn(FirstHeading(body))
  {
    SplitLacks(body, '\n');
    SplitLacks(body, '\r');
    HeadingLacks(Split(body), '\n');
    HeadingLacks(Split(body), '\r');
  }

  /** A display name that is printed as a heading is read back as it was exactly when it is one line,
      with neither newline nor carriage return in it. */
  lemma DisplayNameBackIff(env: Env, d: Document)
    requires NormalizeLaw(env) && Prints(env, d) && AddsHeading(d) && Clean(d.displayName)
    ensures Parse(env, Marshal(env, d).value, "").Ok?
    ensures Parse(env, Marshal(env, d).value, "").value.displayName == d.displayName <==>
            OneLine(d.displayName) && NoReturn(d.displayName)
  {
    MarshalThenParse(env, d);
    var body := ReadBack(env, d).body;
    NormalBodyIsNormal(TailOf(PrintedBody(d)));
    HeadingIsFlat(body);
    TrimmedFixed(d.displayName);
    NameReadBack(body, d);
    if OneLine(d.displayName) && NoReturn(d.displayName) {
      PrintedHeading(env, d);
      EndedKeepsHeading(PrintedBody(d));
      TruncateIsLongest(d.displayName, MAX_DISPLAY_NAME_BYTES);
    }
  }

  lemma NameReadBack(body: string, d: Document)
    requires AddsHeading(d) && TrimSpace(d.displayName) == d.displayName && NameOk(d.name)
    requires OneLine(FirstHeading(body)) && NoReturn(FirstHeading(body))
    ensures DisplayNameFor(body, d.name) == d.displayName ==> OneLine(d.displayName) && NoReturn(d.displayName)
  {
    TruncateIsLongest(FirstHeading(body), MAX_DISPLAY_NAME_BYTES);
    TruncateIsLongest(d.name, MAX_DISPLAY_NAME_BYTES);
  }

  // ----- Printing again --------------------------------------------------------------------

  /** A document that was parsed is printed without a heading of the printer's own. */
  lemma ParsedAddsNothing(env: Env, e: Document)
    requires NameOk(e.name) && Normal(e.body) && e.displayName == DisplayNameFor(e.body, e.name) && DisplayNameOk(e.displayName)
    ensures !AddsHeading(e) && PrintedBody(e) == e.body
  {
    NormalIsFixed(e.body);
  }

  /** Printing again writes the same frontmatter and the body as it was read. */
  lemma PrintAgain(env: Env, d: Document, front: string)
    requires NormalizeLaw(env) && ValidDocument(env, d) && env.encode(PropertiesOf(d, InsertFor(env, d))) == Some(front)
    ensures var e := ReadBack(env, d); var text := Printed(front, e.body);
      ValidDocument(env, e) ==> Marshal(env, e) == if |text| > MAX_DOCUMENT_BYTES then Err(EncodedTooLarge) else Ok(text)
  {
    var e := ReadBack(env, d);
    if ValidDocument(env, e) {
      PropertiesStable(d, e, InsertFor(env, d));
      NormalBodyIsNormal(TailOf(PrintedBody(d)));
      ParsedAddsNothing(env, e);
    }
  }

  /** Two printed bodies after the same frontmatter are the same text only if both hold a return or
      neither does. */
  lemma SamePrintSameReturns(front: string, a: string, b: string)
    requires Printed(front, a) == Printed(front, b)
    ensures NoReturn(a) <==> NoReturn(b)
  {
    PrintedIs(front, a);
    PrintedIs(front, b);
    var f := TrimSpace(front);
    SameTail("---\n", f + ("\n---\n" + TailOf(a)), f + ("\n---\n" + TailOf(b)));
    SameTail(f, "\n---\n" + TailOf(a), "\n---\n" + TailOf(b));
    SameTail("\n---\n", TailOf(a), TailOf(b));
    TailReturns(a);
    TailReturns(b);
  }

  lemma SameTail(p: string, a: string, b: string)
    requires p + a == p + b
    ensures a == b
  {
    assert (p + a)[|p|..] == a && (p + b)[|p|..] == b;
  }

  lemma TailReturns(b: string)
    ensures NoReturn(TailOf(b)) <==> NoReturn(b)
  {
    ReturnsConcat("\n", Ended(b));
    ReturnsConcat(b, "\n");
  }

  /** Printing, parsing and printing again gives the same bytes exactly when a heading the printer
      adds is valid text without a carriage return, and the first heading still fits as a display name. */
  lemma CanonicalFormIff(env: Env, d: Document)
    requires NormalizeLaw(env) && Prints(env, d)
    ensures var parsed := Parse(env, Marshal(env, d).value, "");
      parsed.Ok? && Marshal(env, parsed.value) == Marshal(env, d) <==>
      CleanHeading(d) && ReturnFreeHeading(d) && HeadingFits(FirstHeading(PrintedBody(d)))
  {
    var b, front := PrintedBody(d), env.encode(PropertiesOf(d, InsertFor(env, d))).value;
    MarshalThenParse(env, d);
    PrintedBodyFacts(env, d);
    EndedKeepsHeading(b);
    if CleanHeading(d) {
      ParserOutputIsValidIff(env, Marshal(env, d).value, "");
      PrintAgain(env, d, front);
      PrintsSameIff(env, d, front);
    }
  }

  /** The body that was read prints as the one that was printed exactly when that held no return. */
  lemma PrintsSameIff(env: Env, d: Document, front: string)
    requires ValidDocument(env, d)
    ensures Printed(front, ReadBack(env, d).body) == Printed(front, PrintedBody(d)) <==> NoReturn(PrintedBody(d))
  {
    var b, body := PrintedBody(d), ReadBack(env, d).body;
    PrintedBodyFacts(env, d);
    NormalBodyIsNormal(TailOf(b));
    if NoReturn(b) {
      TailNormal(b);
      EndedIsNormal(b);
    } else if Printed(front, body) == Printed(front, b) {
      SamePrintSameReturns(front, body, b);
    }
  }

  // ----- A document whose printed form is not canonical ------------------------------------

  function Letters(n: nat): (s: string)
    ensures |s| == n && forall i :: 0 <= i < n ==> s[i] == 'a'
  {
    seq(n, i requires 0 <= i < n => 'a')
  }

  /** A heading that is cut just after a space. */
  lemma LongHeading() returns (h: string)
    ensures |h| == 257 && Trimmed(h) && OneLine(h) && NoReturn(h) && Clean(h) && !HeadingFits(h)
  {
    h := Letters(255) + " b";
    assert h[256] == 'b' && h[255] == ' ';
    PlainIsClean(h);
    PlainIsClean(h[..256]);
    CutLeavesSpace(h);
  }

  lemma LetterIsTrimmed(s: string)
    requires |s| == 1 && 'a' <= s[0] <= 'z'
    ensures TrimSpace(s) == s && Clean(s) && OneLine(s)
  {
    TrimmedFixed(s);
    PlainIsClean(s);
  }

  lemma LetterIsNoFence(s: string)
    requires |s| == 1 && 'a' <= s[0] <= 'z'
    ensures NoFence(s)
  {
    LetterIsTrimmed(s);
    SplitLast(s);
    assert (s + "\n")[..1] == s;
    assert TrimLineEnd(s + "\n") == TrimLineEnd(s) == s;
  }

  /** A small document with this display name and body. */
  function Small(displayName: string, body: string): Document {
    Document("a", displayName, "d", InsertText(Instructions), [], [], body, map[])
  }

  lemma SmallIsValid(env: Env, displayName: string, body: string)
    requires NormalizeLaw(env) && DisplayNameOk(displayName) && Clean(body)
    ensures ValidDocument(env, Small(displayName, body))
  {
    LetterIsTrimmed("a");
    LetterIsTrimmed("d");
  }

  /** A codec for one document: everything is encoded as "x", everything decoded to its properties. */
  function CodecFor(d: Document): Env {
    Env(x => Some(PropertiesOf(d, Instructions)), q => Some("x"), OnlyCanonical)
  }

  lemma CodecPrints(d: Document)
    requires ValidDocument(CodecFor(d), d) && d.insert == InsertText(Instructions) && |PrintedBody(d)| < 300
    ensures NormalizeLaw(CodecFor(d)) && Prints(CodecFor(d), d)
  {
    CodecMarshals(d);
    CodecDecodes(d);
  }

  lemma CodecDecodes(d: Document)
    ensures NormalizeLaw(CodecFor(d)) && FrontmatterPrintable("x") && Decodes(CodecFor(d), PropertiesOf(d, Instructions))
  {
    LetterIsTrimmed("x");
    LetterIsNoFence("x");
  }

  lemma CodecMarshals(d: Document)
    requires ValidDocument(CodecFor(d), d) && d.insert == InsertText(Instructions) && |PrintedBody(d)| < 300
    ensures Marshal(CodecFor(d), d).Ok?
  {
    LetterIsTrimmed("x");
    PrintedIs("x", PrintedBody(d));
    assert |TailOf(PrintedBody(d))| < 310;
  }

  /** Whatever the document: when its heading is cut and ends in white space, its printed form is
      parsed to a document that does not pass validation and cannot be printed. */
  lemma CutHeadingIsNotCanonical(env: Env, d: Document)
    requires NormalizeLaw(env) && Prints(env, d) && CleanHeading(d) && ReturnFreeHeading(d)
    requires !HeadingFits(FirstHeading(PrintedBody(d)))
    ensures var parsed := Parse(env, Marshal(env, d).value, "");
      parsed.Ok? && !ValidDocument(env, parsed.value) && Marshal(env, parsed.value) == Err(InvalidDocument)
  {
    MarshalThenParse(env, d);
    ParserOutputIsValidIff(env, Marshal(env, d).value, "");
    EndedKeepsHeading(PrintedBody(d));
  }

  /** Whatever the document: a carriage return in a display name that is printed as a heading is read
      as a newline, and what is printed next differs. */
  lemma ReturnIsNotCanonical(env: Env, d: Document)
    requires NormalizeLaw(env) && Prints(env, d) && AddsHeading(d) && Clean(d.displayName) && !NoReturn(d.displayName)
    ensures var parsed := Parse(env, Marshal(env, d).value, "");
      parsed.Ok? && NoReturn(parsed.value.body) && Marshal(env, parsed.value) != Marshal(env, d)
  {
    MarshalThenParse(env, d);
    CanonicalFormIff(env, d);
    NormalBodyIsNormal(TailOf(PrintedBody(d)));
  }

  ghost predicate Rereads(env: Env, d: Document) {
    NormalizeLaw(env) && Prints(env, d) && Parse(env, Marshal(env, d).value, "").Ok?
  }

  /** What is printed after reading back what was printed. */
  function PrintedTwice(env: Env, d: Document): Result<string, MarshalError>
    requires Rereads(env, d)
  {
    Marshal(env, Parse(env, Marshal(env, d).value, "").value)
  }

  /** One document of each kind, under a codec that satisfies every hypothesis above. */
  lemma CanonicalFormCanFail() returns (cut: Document, returned: Document)
    ensures Rereads(CodecFor(cut), cut) && PrintedTwice(CodecFor(cut), cut) == Err(InvalidDocument)
    ensures returned.displayName == "a\rb"
    ensures Rereads(CodecFor(returned), returned)
    ensures PrintedTwice(CodecFor(returned), returned) != Marshal(CodecFor(returned), returned)
  {
    cut := CutWitness();
    returned := ReturnWitness();
  }

  lemma CutPrints(h: string) returns (d: Document)
    requires |h| == 257 && Trimmed(h) && OneLine(h) && NoReturn(h) && Clean(h)
    ensures NormalizeLaw(CodecFor(d)) && Prints(CodecFor(d), d) && !AddsHeading(d)
    ensures FirstHeading(PrintedBody(d)) == h
  {
    var body := "# " + h;
    d := Small("", body);
    HeadingClean(body, h);
    HeadingBody(body, h);
    SmallIsValid(CodecFor(d), "", body);
    CodecPrints(d);
  }

  lemma CutWitness() returns (d: Document)
    ensures Rereads(CodecFor(d), d) && PrintedTwice(CodecFor(d), d) == Err(InvalidDocument)
  {
    var h := LongHeading();
    d := CutPrints(h);
    CutHeadingIsNotCanonical(CodecFor(d), d);
  }

  lemma ReturnWitness() returns (d: Document)
    ensures d.displayName == "a\rb"
    ensures Rereads(CodecFor(d), d) && PrintedTwice(CodecFor(d), d) != Marshal(CodecFor(d), d)
  {
    var h := ReturnInside();
    d := HeadingPrints(h);
    ReturnIsNotCanonical(CodecFor(d), d);
  }

  lemma ReturnInside() returns (h: string)
    ensures h == "a\rb" && DisplayNameOk(h) && Clean(h) && !NoReturn(h)
  {
    h := "a\rb";
    TrimmedFixed(h);
    PlainIsClean(h);
    assert h[1] == '\r';
  }

  lemma HeadingPrints(h: string) returns (d: Document)
    requires DisplayNameOk(h) && 1 < |h| < 200
    ensures d.displayName == h && AddsHeading(d)
    ensures NormalizeLaw(CodecFor(d)) && Prints(CodecFor(d), d)
  {
    d := Small(h, "");
    SmallAddsHeading(h);
    PlainIsClean("");
    SmallIsValid(CodecFor(d), h, "");
    CodecPrints(d);
  }

  lemma SmallAddsHeading(h: string)
    requires DisplayNameOk(h) && |h| > 1
    ensures AddsHeading(Small(h, "")) && PrintedBody(Small(h, "")) == "# " + h
  {
    assert NormalBody("") == "" && FirstHeading("") == "";
  }

  function OnlyCanonical(s: string): Option<SkillInsert> {
    if s == InsertText(Instructions) then Some(Instructions)
    else if s == InsertText(UserMessage) then Some(UserMessage)
    else None
  }
}
