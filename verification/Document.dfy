/** The procedures of document.go, each proved against the functions of DocumentModel. */
module Documents {
  import opened SkillTypes
  import opened Text
  import opened Utf8
  import opened Lines
  import opened Identifiers
  import opened DocumentModel
  import opened DocumentMeaning

  /** splitSkillDocumentFrontmatter */
  method SplitSkillDocumentFrontmatter(content: string) returns (r: Result<(string, string), SplitError>)
    ensures r == SplitFrontmatter(content)
  {
    var first := NextLine(content);
    if Bare(first) != "---" { return Err(MissingFrontmatter); }
    var rest, front := content[|first|..], "";
    while true
      invariant ScanFrontmatter(front, rest) == SplitFrontmatter(content)
      decreases |rest|
    {
      var line := NextLine(rest);
      if Fence(line) { return Ok((front, rest[|line|..])); }
      if Unended(line) { return Err(UnterminatedFrontmatter); }
      front, rest := front + line, rest[|line|..];
    }
  }

  /** parseSkillDocumentArguments */
  method ParseSkillDocumentArguments(raw: Yaml) returns (output: seq<SkillArgument>)
    ensures output == ArgumentsFrom(ItemsOf(raw), [])
  {
    var items := ItemsOf(raw);
    output := [];
    var seen: set<string> := {};
    var i := 0;
    assert items[0..] == items;
    while i < |items|
      invariant 0 <= i <= |items| && seen == Names(output)
      invariant ArgumentsFrom(items[i..], output) == ArgumentsFrom(items, [])
    {
      if |output| >= MAX_ARGUMENTS { break; }
      var item := items[i];
      assert items[i..][0] == item && items[i..][1..] == items[i+1..];
      i := i + 1;
      var argument := ArgumentOf(item);
      if argument.None? { continue; }
      var ok := IsValidSkillArgumentName(argument.value.name);
      if !ok || argument.value.name in seen { continue; }
      seen := seen + {argument.value.name};
      output := output + [argument.value];
    }
  }

  /** parseSkillDocumentTags */
  method ParseSkillDocumentTags(raw: Yaml) returns (output: seq<string>)
    ensures output == TagsFrom(ItemsOf(raw), [])
  {
    var items := ItemsOf(raw);
    output := [];
    var seen: set<string> := {};
    var i := 0;
    assert items[0..] == items;
    while i < |items|
      invariant 0 <= i <= |items| && seen == Elems(output)
      invariant TagsFrom(items[i..], output) == TagsFrom(items, [])
    {
      if |output| >= MAX_TAGS { break; }
      var item := items[i];
      assert items[i..][0] == item && items[i..][1..] == items[i+1..];
      i := i + 1;
      if !item.Str? { continue; }
      var value := TrimSpace(item.s);
      if value == "" || |value| > MAX_TAG_BYTES || value in seen { continue; }
      seen := seen + {value};
      output := output + [value];
    }
  }

  /** firstSkillDocumentHeading */
  method FirstSkillDocumentHeading(body: string) returns (heading: string)
    ensures heading == FirstHeading(body)
  {
    var lines := Split(body);
    assert lines[0..] == lines;
    for i := 0 to |lines|
      invariant HeadingIn(lines[i..]) == FirstHeading(body)
    {
      var line := TrimSpace(lines[i]);
      assert lines[i..][1..] == lines[i+1..];
      if "# " <= line { return TrimSpace(line[2..]); }
    }
    return "";
  }

  method ValidateArguments(args: seq<SkillArgument>) returns (ok: bool)
    ensures ok == ArgumentsOk(args)
  {
    if |args| > MAX_ARGUMENTS { return false; }
    var seen: set<string> := {};
    for i := 0 to |args|
      invariant seen == Names(args[..i])
      invariant forall j :: 0 <= j < i ==> ArgumentOk(args[j])
      invariant forall j, k :: 0 <= j < k < i ==> args[j].name != args[k].name
    {
      var a := args[i];
      var named := IsValidSkillArgumentName(a.name);
      if a.name != TrimSpace(a.name) || !named { return false; }
      if a.name in seen {
        var b :| b in args[..i] && b.name == a.name;
        return false;
      }
      assert args[..i+1] == args[..i] + [a];
      assert forall j :: 0 <= j < i ==> args[j] in args[..i];
      seen := seen + {a.name};
      if |a.description| > MAX_ARGUMENT_BYTES || |a.default| > MAX_ARGUMENT_BYTES { return false; }
    }
    return true;
  }

  method ValidateTags(tags: seq<string>) returns (ok: bool)
    ensures ok == TagsOk(tags)
  {
    if |tags| > MAX_TAGS { return false; }
    var seen: set<string> := {};
    for i := 0 to |tags|
      invariant seen == Elems(tags[..i])
      invariant forall j :: 0 <= j < i ==> TagOk(tags[j])
      invariant NoDup(tags[..i])
    {
      var t := tags[i];
      if t == "" || t != TrimSpace(t) || |t| > MAX_TAG_BYTES { return false; }
      if t in seen {
        var j :| 0 <= j < i && tags[j] == t;
        return false;
      }
      assert tags[..i+1] == tags[..i] + [t];
      seen := seen + {t};
    }
    assert tags[..|tags|] == tags;
    return true;
  }

  /** ValidateSkillDocument */
  method ValidateSkillDocument(env: Env, d: Document) returns (ok: bool)
    ensures ok == ValidDocument(env, d)
  {
    if !NameOk(d.name) || !DescriptionOk(d.description) || !DisplayNameOk(d.displayName) { return false; }
    if env.normalize(d.insert).None? { return false; }
    var arguments := ValidateArguments(d.arguments);
    if !arguments { return false; }
    var tags := ValidateTags(d.tags);
    if !tags { return false; }
    return Utf8.Valid(d.body) && NulFree(d.body);
  }

  /** ParseSkillDocument */
  method ParseSkillDocument(env: Env, content: string, expected: string) returns (r: Result<Document, ParseError>)
    ensures r == Parse(env, content, expected)
    ensures r.Ok? ==> exists s :: Unmarked(content, s) && ReadFrom(env, r.value, s)
  {
    ghost var s := ParseMeans(env, content, expected);
    if |content| > MAX_DOCUMENT_BYTES { return Err(TooLarge); }
    if !Utf8.Valid(content) { return Err(InvalidUtf8); }
    if !NulFree(content) { return Err(HasNul); }
    var split := SplitSkillDocumentFrontmatter(CutBom(content));
    if split.Err? { return Err(NoFrontmatter(split.error)); }
    var (front, text) := split.value;
    var decoded := env.decode(front);
    if decoded.None? { return Err(BadYaml); }
    r := ReadProperties(env, decoded.value, text, expected);
  }

  method ReadProperties(env: Env, p: Properties, text: string, expected: string) returns (r: Result<Document, ParseError>)
    ensures r == FromProperties(env, p, text, expected)
  {
    var name := RequiredString(p, "name");
    if name.None? || !NameOk(name.value) { return Err(BadName); }
    var description := RequiredString(p, "description");
    if description.None? || !DescriptionOk(description.value) { return Err(BadDescription); }
    var wanted := TrimSpace(expected);
    if wanted != "" && name.value != wanted { return Err(NameMismatch); }
    var arguments := ParseSkillDocumentArguments(Lookup(p, "arguments"));
    var tags := ParseSkillDocumentTags(Lookup(p, "tags"));
    var body := NormalBody(text);
    var displayName := FirstSkillDocumentHeading(body);
    if displayName == "" { displayName := name.value; }
    if |displayName| > MAX_DISPLAY_NAME_BYTES {
      displayName := TruncateValidUTF8(displayName, MAX_DISPLAY_NAME_BYTES);
    }
    return Ok(Document(name.value, displayName, description.value, InsertText(InsertOf(env, Lookup(p, "insert"))),
                       arguments, tags, body, p));
  }

  /** MarshalSkillDocument */
  method MarshalSkillDocument(env: Env, d: Document) returns (r: Result<string, MarshalError>)
    ensures r == Marshal(env, d)
    ensures r.Ok? ==> exists p :: PrintsAs(env, d, p, r.value)
  {
    if Marshal(env, d).Ok? { MarshalMeans(env, d); }
    r := WriteSkillDocument(env, d);
  }

  method WriteSkillDocument(env: Env, d: Document) returns (r: Result<string, MarshalError>)
    ensures r == Marshal(env, d)
  {
    var ok := ValidateSkillDocument(env, d);
    if !ok { return Err(InvalidDocument); }
    var insert := env.normalize(d.insert).value;
    var p := d.raw["name" := Str(d.name)]["description" := Str(d.description)]["insert" := Str(InsertText(insert))];
    var values: seq<Yaml> := [];
    for i := 0 to |d.arguments|
      invariant values == ArgumentItems(d.arguments)[..i]
    {
      values := values + [ArgumentDict(d.arguments[i])];
    }
    assert values == ArgumentItems(d.arguments);
    p := SetList(SetList(p, "arguments", values), "tags", TagItems(d.tags));
    var front := env.encode(p);
    if front.None? { return Err(EncodeFailed); }
    var text := Printed(front.value, PrintedBody(d));
    if |text| > MAX_DOCUMENT_BYTES { return Err(EncodedTooLarge); }
    return Ok(text);
  }
}
