/** SKILL.md documents (document.go): what the parser, the validator and the printer compute.
    YAML is an abstract codec; warnings and the wording of errors are not part of this model. */
module DocumentModel {
  import opened SkillTypes
  import opened Text
  import opened Utf8
  import opened Lines
  import opened Identifiers

  const MAX_DOCUMENT_BYTES := 2_097_152
  const MAX_NAME_BYTES := 64
  const MAX_DESCRIPTION_BYTES := 1024
  const MAX_DISPLAY_NAME_BYTES := 256
  const MAX_ARGUMENTS := 64
  const MAX_ARGUMENT_BYTES := 4096
  const MAX_TAGS := 64
  const MAX_TAG_BYTES := 128

  datatype Result<+T, +E> = Ok(value: T) | Err(error: E)

  // ----- Values and collaborators ----------------------------------------------------------

  /** A decoded YAML value; Other stands for numbers, booleans, dates and the like. */
  datatype Yaml = Null | Str(s: string) | List(items: seq<Yaml>) | Dict(fields: map<string, Yaml>) | Other(id: nat)

  type Properties = map<string, Yaml>

  /** The YAML library and NormalizeSkillInsert. */
  datatype Env = Env(
    decode: string -> Option<Properties>,
    encode: Properties -> Option<string>,
    normalize: string -> Option<SkillInsert>)

  datatype Document = Document(
    name: string,
    displayName: string,
    description: string,
    insert: string,
    arguments: seq<SkillArgument>,
    tags: seq<string>,
    body: string,
    raw: Properties)

  function InsertText(i: SkillInsert): string {
    match i case Instructions => "instructions" case UserMessage => "user-message"
  }

  // ----- Validation ------------------------------------------------------------------------

  predicate NameChar(c: char) { 'a' <= c <= 'z' || '0' <= c <= '9' }

  predicate NoDoubleHyphen(s: string) { forall i :: 0 <= i < |s| - 1 ==> s[i] != '-' || s[i+1] != '-' }

  /** validateSkillDocumentName: the pattern and the rule against consecutive hyphens. */
  predicate NameOk(s: string) {
    && 0 < |s| <= MAX_NAME_BYTES && TrimSpace(s) == s
    && (forall i :: 0 <= i < |s| ==> NameChar(s[i]) || s[i] == '-')
    && NameChar(s[0]) && NameChar(s[|s|-1]) && NoDoubleHyphen(s)
  }

  predicate DescriptionOk(s: string) {
    s != "" && TrimSpace(s) == s && |s| <= MAX_DESCRIPTION_BYTES
  }

  predicate DisplayNameOk(s: string) {
    s != "" ==> TrimSpace(s) == s && |s| <= MAX_DISPLAY_NAME_BYTES
  }

  predicate ArgumentOk(a: SkillArgument) {
    TrimSpace(a.name) == a.name && IsName(a.name) && |a.description| <= MAX_ARGUMENT_BYTES && |a.default| <= MAX_ARGUMENT_BYTES
  }

  predicate ArgumentsOk(args: seq<SkillArgument>) {
    && |args| <= MAX_ARGUMENTS
    && (forall i :: 0 <= i < |args| ==> ArgumentOk(args[i]))
    && (forall i, j :: 0 <= i < j < |args| ==> args[i].name != args[j].name)
  }

  predicate TagOk(t: string) { t != "" && TrimSpace(t) == t && |t| <= MAX_TAG_BYTES }

  predicate TagsOk(tags: seq<string>) {
    |tags| <= MAX_TAGS && (forall i :: 0 <= i < |tags| ==> TagOk(tags[i])) && NoDup(tags)
  }

  predicate NulFree(s: string) { forall i :: 0 <= i < |s| ==> Code(s[i]) != 0 }

  /** ValidateSkillDocument */
  predicate ValidDocument(env: Env, d: Document) {
    && NameOk(d.name) && DescriptionOk(d.description) && DisplayNameOk(d.displayName)
    && env.normalize(d.insert).Some?
    && ArgumentsOk(d.arguments) && TagsOk(d.tags)
    && Utf8.Valid(d.body) && NulFree(d.body)
  }

  // ----- Frontmatter -----------------------------------------------------------------------

  function Bare(line: string): string { TrimSpace(TrimLineEnd(line)) }

  predicate Fence(line: string) { Bare(line) == "---" || Bare(line) == "..." }

  datatype SplitError = MissingFrontmatter | UnterminatedFrontmatter

  /** Lines up to the closing fence, added to what has been read, and everything after the fence. */
  function ScanFrontmatter(read: string, s: string): Result<(string, string), SplitError>
    decreases |s|
  {
    var line := NextLine(s);
    if Fence(line) then Ok((read, s[|line|..]))
    else if Unended(line) then Err(UnterminatedFrontmatter)
    else ScanFrontmatter(read + line, s[|line|..])
  }

  /** splitSkillDocumentFrontmatter */
  function SplitFrontmatter(s: string): Result<(string, string), SplitError> {
    var first := NextLine(s);
    if Bare(first) != "---" then Err(MissingFrontmatter) else ScanFrontmatter("", s[|first|..])
  }

  // ----- Optional fields -------------------------------------------------------------------

  function Lookup(p: Properties, key: string): Yaml { if key in p then p[key] else Null }

  /** A list as it is, a string as a one-item list, anything else as nothing. */
  function ItemsOf(raw: Yaml): seq<Yaml> {
    match raw case List(items) => items case Str(_) => [raw] case _ => []
  }

  function ArgumentText(p: Properties, key: string): string {
    match Lookup(p, key) case Str(s) => Truncate(s, MAX_ARGUMENT_BYTES) case _ => ""
  }

  /** An argument as one item gives it, before its name is checked. */
  function ArgumentOf(item: Yaml): Option<SkillArgument> {
    match item
    case Str(s) => Some(SkillArgument(TrimSpace(s), "", ""))
    case Dict(p) =>
      (match Lookup(p, "name")
       case Str(s) => Some(SkillArgument(TrimSpace(s), ArgumentText(p, "description"), ArgumentText(p, "default")))
       case _ => None)
    case _ => None
  }

  function Names(args: seq<SkillArgument>): set<string> { set a | a in args :: a.name }

  predicate Admissible(arg: Option<SkillArgument>, args: seq<SkillArgument>) {
    arg.Some? && IsName(arg.value.name) && arg.value.name !in Names(args)
  }

  /** parseSkillDocumentArguments: items left to read, arguments kept so far. */
  function ArgumentsFrom(items: seq<Yaml>, args: seq<SkillArgument>): seq<SkillArgument> {
    if items == [] || |args| >= MAX_ARGUMENTS then args
    else if Admissible(ArgumentOf(items[0]), args) then ArgumentsFrom(items[1..], args + [ArgumentOf(items[0]).value])
    else ArgumentsFrom(items[1..], args)
  }

  function TagOf(item: Yaml): string {
    match item case Str(s) => TrimSpace(s) case _ => ""
  }

  /** parseSkillDocumentTags */
  function TagsFrom(items: seq<Yaml>, tags: seq<string>): seq<string> {
    if items == [] || |tags| >= MAX_TAGS then tags
    else
      var t := TagOf(items[0]);
      if t != "" && |t| <= MAX_TAG_BYTES && t !in tags then TagsFrom(items[1..], tags + [t]) else TagsFrom(items[1..], tags)
  }

  /** parseSkillDocumentInsert */
  function InsertOf(env: Env, raw: Yaml): SkillInsert {
    match raw
    case Str(s) => (match env.normalize(s) case Some(i) => i case None => Instructions)
    case _ => Instructions
  }

  /** requiredSkillDocumentString */
  function RequiredString(p: Properties, key: string): Option<string> {
    match Lookup(p, key) case Str(s) => Some(TrimSpace(s)) case _ => None
  }

  // ----- Body ------------------------------------------------------------------------------

  function NormalBody(body: string): string {
    TrimLeadingNewlines(ReplaceChar(ReplaceCRLF(body, "\n"), '\r', "\n"))
  }

  function HeadingIn(lines: seq<string>): string {
    if lines == [] then ""
    else
      var line := TrimSpace(lines[0]);
      if "# " <= line then TrimSpace(line[2..]) else HeadingIn(lines[1..])
  }

  /** firstSkillDocumentHeading */
  function FirstHeading(body: string): string { HeadingIn(Split(body)) }

  function DisplayNameFor(body: string, name: string): string {
    var h := FirstHeading(body);
    Truncate(if h == "" then name else h, MAX_DISPLAY_NAME_BYTES)
  }

  // ----- Parser ----------------------------------------------------------------------------

  datatype ParseError =
    | TooLarge | InvalidUtf8 | HasNul | NoFrontmatter(why: SplitError) | BadYaml
    | BadName | BadDescription | NameMismatch

  predicate HasBom(s: string) {
    |s| >= 3 && Code(s[0]) == 0xEF && Code(s[1]) == 0xBB && Code(s[2]) == 0xBF
  }

  function CutBom(s: string): string { if HasBom(s) then s[3..] else s }

  /** The document the decoded properties and the text after the frontmatter make. */
  function Assemble(env: Env, p: Properties, name: string, description: string, text: string): Document {
    var body := NormalBody(text);
    Document(name, DisplayNameFor(body, name), description, InsertText(InsertOf(env, Lookup(p, "insert"))),
             ArgumentsFrom(ItemsOf(Lookup(p, "arguments")), []), TagsFrom(ItemsOf(Lookup(p, "tags")), []), body, p)
  }

  function FromProperties(env: Env, p: Properties, text: string, expected: string): Result<Document, ParseError> {
    var name := RequiredString(p, "name");
    if name.None? || !NameOk(name.value) then Err(BadName)
    else
      var description := RequiredString(p, "description");
      if description.None? || !DescriptionOk(description.value) then Err(BadDescription)
      else if TrimSpace(expected) != "" && name.value != TrimSpace(expected) then Err(NameMismatch)
      else Ok(Assemble(env, p, name.value, description.value, text))
  }

  /** ParseSkillDocument */
  function Parse(env: Env, content: string, expected: string): Result<Document, ParseError> {
    if |content| > MAX_DOCUMENT_BYTES then Err(TooLarge)
    else if !Utf8.Valid(content) then Err(InvalidUtf8)
    else if !NulFree(content) then Err(HasNul)
    else
      match SplitFrontmatter(CutBom(content))
      case Err(why) => Err(NoFrontmatter(why))
      case Ok((front, text)) =>
        match env.decode(front)
        case None => Err(BadYaml)
        case Some(p) => FromProperties(env, p, text, expected)
  }

  // ----- Printer ---------------------------------------------------------------------------

  datatype MarshalError = InvalidDocument | EncodeFailed | EncodedTooLarge

  function TextField(key: string, s: string): Properties { if s == "" then map[] else map[key := Str(s)] }

  function ArgumentDict(a: SkillArgument): Yaml {
    Dict(map["name" := Str(a.name)] + TextField("description", a.description) + TextField("default", a.default))
  }

  function ArgumentItems(args: seq<SkillArgument>): seq<Yaml> {
    seq(|args|, i requires 0 <= i < |args| => ArgumentDict(args[i]))
  }

  function TagItems(tags: seq<string>): seq<Yaml> {
    seq(|tags|, i requires 0 <= i < |tags| => Str(tags[i]))
  }

  /** An empty list removes the key. */
  function SetList(p: Properties, key: string, items: seq<Yaml>): Properties {
    if items == [] then p - {key} else p[key := List(items)]
  }

  /** Known fields replace those of the raw frontmatter; unknown ones stay. */
  function PropertiesOf(d: Document, insert: SkillInsert): Properties {
    SetList(
      SetList(d.raw["name" := Str(d.name)]["description" := Str(d.description)]["insert" := Str(InsertText(insert))],
              "arguments", ArgumentItems(d.arguments)),
      "tags", TagItems(d.tags))
  }

  /** A heading is added when the body has none and the display name says more than the name. */
  predicate AddsHeading(d: Document) {
    FirstHeading(NormalBody(d.body)) == "" && TrimSpace(d.displayName) != "" && TrimSpace(d.displayName) != d.name
  }

  function PrintedBody(d: Document): string {
    var body := NormalBody(d.body);
    var displayName := TrimSpace(d.displayName);
    if !AddsHeading(d) then body
    else if body == "" then "# " + displayName
    else "# " + displayName + "\n\n" + body
  }

  function Ended(body: string): string {
    if body == "" || body[|body|-1] == '\n' then body else body + "\n"
  }

  function Printed(front: string, body: string): string {
    "---\n" + TrimSpace(front) + "\n---\n" + (if body == "" then "" else "\n" + Ended(body))
  }

  /** MarshalSkillDocument */
  function Marshal(env: Env, d: Document): Result<string, MarshalError> {
    if !ValidDocument(env, d) then Err(InvalidDocument)
    else
      match env.encode(PropertiesOf(d, env.normalize(d.insert).value))
      case None => Err(EncodeFailed)
      case Some(front) =>
        var text := Printed(front, PrintedBody(d));
        if |text| > MAX_DOCUMENT_BYTES then Err(EncodedTooLarge) else Ok(text)
  }
}
