/** The block of available skills written into a prompt (internal/catalog/promptxml.go), and a reader
    that recovers what it says. */
module Prompt {
  import opened SkillTypes
  import opened Text
  import opened Lines
  import opened Sorting

  const START := "<<<AVAILABLE_SKILLS>>>"
  const END := "<<<END_AVAILABLE_SKILLS>>>"
  const SEPARATOR := "---"
  const NONE := "(none)"
  const NAME := "name: "
  const LOCATION := "location: "
  const DESCRIPTION := "description: "

  datatype Item = Item(name: string, description: string, location: string)

  /** Surrounding white space goes, and a line end of any kind becomes a space. */
  function TrimInline(s: string): string {
    ReplaceChar(ReplaceChar(ReplaceCRLF(TrimSpace(s), " "), '\n', " "), '\r', " ")
  }

  lemma TrimInlineIsFlat(s: string)
    ensures OneLine(TrimInline(s)) && NoReturn(TrimInline(s))
  {
    var t := ReplaceCRLF(TrimSpace(s), " ");
    ReplaceCharGone(t, '\n', " ");
    ReplaceCharKeeps(ReplaceChar(t, '\n', " "), '\r', " ", '\n');
    ReplaceCharGone(ReplaceChar(t, '\n', " "), '\r', " ");
  }

  // ----- What a field becomes --------------------------------------------------------------

  function Spread(s: string): string { ReplaceChar(ReplaceChar(ReplaceCRLF(s, " "), '\n', " "), '\r', " ") }

  /** Lines with a space for each line end. */
  function Spaced(ls: seq<string>): string {
    if ls == [] then "" else ls[0] + (" " + Spaced(ls[1..]))
  }

  lemma SpreadEnd(e: string, rest: string)
    requires LineEnd(e) && (e == "\r" ==> rest == "" || rest[0] != '\n')
    ensures Spread(e + rest) == " " + Spread(rest)
  {
    var s, more := e + rest, ReplaceCRLF(rest, " ");
    if e == "\r\n" {
      assert s[2..] == rest;
    } else {
      assert s[1..] == rest && ReplaceCRLF(s, " ") == e + more;
    }
    SpreadOne(if e == "\r\n" then ' ' else e[0], more);
  }

  lemma SpreadOne(c: char, more: string)
    requires c == ' ' || c == '\n' || c == '\r'
    ensures ReplaceChar(ReplaceChar([c] + more, '\n', " "), '\r', " ") == " " + ReplaceChar(ReplaceChar(more, '\n', " "), '\r', " ")
  {
    var once := ReplaceChar(more, '\n', " ");
    assert ([c] + more)[1..] == more;
    var d := if c == '\n' then ' ' else c;
    assert ReplaceChar([c] + more, '\n', " ") == [d] + once;
    assert ([d] + once)[1..] == once;
  }

  lemma SpreadLine(l: string, rest: string)
    requires FlatText(l)
    ensures Spread(l + rest) == l + Spread(rest)
  {
    ReplaceCRLFThrough(l, rest, " ");
    ReplaceCharThrough(l, ReplaceCRLF(rest, " "), '\n', " ");
    ReplaceCharThrough(l, ReplaceChar(ReplaceCRLF(rest, " "), '\n', " "), '\r', " ");
  }

  lemma {:induction false} SpreadLines(ls: seq<string>, es: seq<string>, last: string)
    requires EndedLines(ls, es) && FlatText(last)
    ensures Spread(WithEnds(ls, es) + last) == Spaced(ls) + last
  {
    if ls == [] {
      assert WithEnds(ls, es) + last == last + "" && Spaced(ls) + last == last;
      SpreadLine(last, "");
    } else {
      var rest := WithEnds(ls[1..], es[1..]) + last;
      SpreadLines(ls[1..], es[1..], last);
      assert WithEnds(ls, es) + last == ls[0] + (es[0] + rest);
      if es[0] == "\r" { FirstByte(ls[1..], es[1..], last); }
      SpreadLine(ls[0], es[0] + rest);
      SpreadEnd(es[0], rest);
      assert Spaced(ls) + last == ls[0] + (" " + (Spaced(ls[1..]) + last));
    }
  }

  /** A field shows its text byte for byte, without the white space around it and with one space for
      each line end inside. */
  lemma TrimInlineMeans(a: string, ls: seq<string>, es: seq<string>, last: string, b: string)
    requires AllSpace(a) && EndedLines(ls, es) && FlatText(last) && Trimmed(WithEnds(ls, es) + last) && AllSpace(b)
    ensures TrimInline(a + ((WithEnds(ls, es) + last) + b)) == Spaced(ls) + last
  {
    TrimAround(a, WithEnds(ls, es) + last, b);
    SpreadLines(ls, es, last);
  }

  // ----- Order -----------------------------------------------------------------------------

  predicate ItemLess(a: Item, b: Item) {
    if a.name == b.name then Less(a.location, b.location) else Less(a.name, b.name)
  }

  lemma ItemLessIsOrder()
    ensures StrictOrder(ItemLess)
  {
    forall a ensures !ItemLess(a, a) { LessTotal(a.location, a.location); }
    forall a, b, c | ItemLess(a, b) && ItemLess(b, c) ensures ItemLess(a, c) { ItemLessTransitive(a, b, c); }
  }

  lemma ItemLessTransitive(a: Item, b: Item, c: Item)
    requires ItemLess(a, b) && ItemLess(b, c)
    ensures ItemLess(a, c)
  {
    if a.name == b.name && b.name == c.name {
      LessTransitive(a.location, b.location, c.location);
    } else if a.name != b.name && b.name != c.name {
      LessTransitive(a.name, b.name, c.name);
      if a.name == c.name { LessTotal(a.name, a.name); }
    }
  }

  // ----- What the block says ---------------------------------------------------------------

  /** One skill as the block shows it; an empty location or description has no line. */
  datatype Entry = Entry(name: string, location: Option<string>, description: Option<string>)

  function EntryOf(it: Item): Entry {
    Entry(TrimInline(it.name),
          if it.location == "" then None else Some(TrimInline(it.location)),
          if it.description == "" then None else Some(TrimInline(it.description)))
  }

  function Entries(items: seq<Item>): seq<Entry> {
    seq(|items|, i requires 0 <= i < |items| => EntryOf(items[i]))
  }

  predicate Flat(e: Entry) {
    OneLine(e.name) && (e.location.Some? ==> OneLine(e.location.value)) && (e.description.Some? ==> OneLine(e.description.value))
  }

  lemma EntryIsFlat(it: Item)
    ensures Flat(EntryOf(it))
  {
    TrimInlineIsFlat(it.name);
    TrimInlineIsFlat(it.location);
    TrimInlineIsFlat(it.description);
  }

  function Field(tag: string, v: Option<string>): seq<string> {
    if v.Some? then [tag + v.value] else []
  }

  function EntryLines(e: Entry): (ls: seq<string>)
    ensures ls != []
  {
    [NAME + e.name] + Field(LOCATION, e.location) + Field(DESCRIPTION, e.description)
  }

  /** Entries with a separator line between them. */
  function BodyLines(es: seq<Entry>): seq<string> {
    if es == [] then [] else EntryLines(es[0]) + MoreLines(es[1..])
  }

  function MoreLines(es: seq<Entry>): seq<string> {
    if es == [] then [] else [SEPARATOR] + EntryLines(es[0]) + MoreLines(es[1..])
  }

  function BlockLines(es: seq<Entry>): seq<string> {
    [START] + if es == [] then [NONE] else BodyLines(es)
  }

  function Block(es: seq<Entry>): string { Unlines(BlockLines(es)) + END }

  // ----- The reader ------------------------------------------------------------------------

  /** The value on the first line if it carries this tag. */
  function Labelled(tag: string, ls: seq<string>): Option<string> {
    if ls != [] && tag <= ls[0] then Some(ls[0][|tag|..]) else None
  }

  function After(v: Option<string>, ls: seq<string>): (r: seq<string>)
    requires v.Some? ==> ls != []
    ensures |r| <= |ls|
  {
    if v.Some? then ls[1..] else ls
  }

  /** One entry from the front of the lines, and the lines that follow it. */
  function ReadEntry(ls: seq<string>): (r: Option<(Entry, seq<string>)>)
    ensures r.Some? ==> |r.value.1| < |ls|
  {
    var name := Labelled(NAME, ls);
    if name.None? then None
    else
      var l1 := ls[1..];
      var location := Labelled(LOCATION, l1);
      var l2 := After(location, l1);
      var description := Labelled(DESCRIPTION, l2);
      Some((Entry(name.value, location, description), After(description, l2)))
  }

  function ReadEntries(ls: seq<string>): Option<seq<Entry>>
    decreases |ls|
  {
    match ReadEntry(ls)
    case None => None
    case Some((e, rest)) =>
      if rest == [] then Some([e])
      else if rest[0] != SEPARATOR then None
      else match ReadEntries(rest[1..])
        case None => None
        case Some(es) => Some([e] + es)
  }

  function Read(text: string): Option<seq<Entry>> {
    var ls := Split(text);
    var n := |ls|;
    if n < 3 || ls[0] != START || ls[n-1] != END then None
    else if ls[1..n-1] == [NONE] then Some([])
    else ReadEntries(ls[1..n-1])
  }

  // ----- Reading back ----------------------------------------------------------------------

  lemma LabelsDiffer(s: string)
    ensures !(LOCATION <= DESCRIPTION + s) && !(LOCATION <= SEPARATOR) && !(DESCRIPTION <= SEPARATOR)
  {
    assert (DESCRIPTION + s)[0] == 'd' && LOCATION[0] == 'l' && SEPARATOR[0] == '-';
  }

  lemma LabelRead(tag: string, s: string, ls: seq<string>)
    ensures Labelled(tag, [tag + s] + ls) == Some(s)
  {
    assert (tag + s)[|tag|..] == s;
  }

  lemma EntryReadBack(e: Entry, rest: seq<string>)
    requires rest == [] || rest[0] == SEPARATOR
    ensures ReadEntry(EntryLines(e) + rest) == Some((e, rest))
  {
    var d := Field(DESCRIPTION, e.description) + rest;
    var l := Field(LOCATION, e.location) + d;
    assert EntryLines(e) + rest == [NAME + e.name] + l;
    LabelRead(NAME, e.name, l);
    FieldReadBack(DESCRIPTION, e.description, rest);
    if e.description.Some? { LabelsDiffer(e.description.value); } else { LabelsDiffer(""); assert d == rest; }
    FieldReadBack(LOCATION, e.location, d);
  }

  lemma FieldReadBack(tag: string, v: Option<string>, rest: seq<string>)
    requires v.None? && rest != [] ==> !(tag <= rest[0])
    ensures var ls := Field(tag, v) + rest; Labelled(tag, ls) == v && After(v, ls) == rest
  {
    if v.Some? {
      LabelRead(tag, v.value, rest);
    } else {
      assert Field(tag, v) + rest == rest;
    }
  }

  lemma ReadLast(ls: seq<string>, e: Entry)
    requires ReadEntry(ls) == Some((e, []))
    ensures ReadEntries(ls) == Some([e])
  {}

  lemma ReadMore(ls: seq<string>, e: Entry, more: seq<string>, es: seq<Entry>)
    requires ReadEntry(ls) == Some((e, [SEPARATOR] + more)) && ReadEntries(more) == Some(es)
    ensures ReadEntries(ls) == Some([e] + es)
  {
    assert ([SEPARATOR] + more)[1..] == more;
  }

  lemma MoreIsSeparated(es: seq<Entry>)
    requires es != []
    ensures MoreLines(es) == [SEPARATOR] + (EntryLines(es[0]) + MoreLines(es[1..]))
    ensures [es[0]] + es[1..] == es
  {}

  lemma {:induction false} EntriesReadBack(e: Entry, es: seq<Entry>)
    ensures ReadEntries(EntryLines(e) + MoreLines(es)) == Some([e] + es)
    decreases es
  {
    var ls := EntryLines(e) + MoreLines(es);
    if es == [] {
      EntryReadBack(e, []);
      ReadLast(ls, e);
      assert [e] + es == [e];
    } else {
      MoreIsSeparated(es);
      EntryReadBack(e, MoreLines(es));
      EntriesReadBack(es[0], es[1..]);
      ReadMore(ls, e, EntryLines(es[0]) + MoreLines(es[1..]), es);
    }
  }

  lemma BodyReadBack(es: seq<Entry>)
    requires es != []
    ensures ReadEntries(BodyLines(es)) == Some(es)
  {
    EntriesReadBack(es[0], es[1..]);
    MoreIsSeparated(es);
  }

  lemma {:induction false} MoreLinesAreLines(es: seq<Entry>)
    requires forall e :: e in es ==> Flat(e)
    ensures forall l :: l in MoreLines(es) ==> OneLine(l)
  {
    if es != [] {
      EntryLinesAreLines(es[0]);
      MoreLinesAreLines(es[1..]);
    }
  }

  lemma EntryLinesAreLines(e: Entry)
    requires Flat(e)
    ensures forall l :: l in EntryLines(e) ==> OneLine(l)
  {}

  lemma BodyIsNotNone(es: seq<Entry>)
    requires es != []
    ensures BodyLines(es) != [] && BodyLines(es) != [NONE]
  {
    assert BodyLines(es)[0] == NAME + es[0].name;
    assert (NAME + es[0].name)[0] == 'n' && NONE[0] == '(';
  }

  /** Whatever the fields hold, the block says exactly which entries were written. */
  lemma BlockReadBack(es: seq<Entry>)
    requires forall e :: e in es ==> Flat(e)
    ensures Read(Block(es)) == Some(es)
  {
    var ls := BlockLines(es);
    if es != [] {
      EntryLinesAreLines(es[0]);
      MoreLinesAreLines(es[1..]);
      BodyIsNotNone(es);
      BodyReadBack(es);
    }
    SplitUnlines(ls, END);
    var all := ls + [END];
    assert all[1..|all|-1] == if es == [] then [NONE] else BodyLines(es);
  }

  // ----- The writer ------------------------------------------------------------------------

  /** The items are shown in order of name and then location; equal pairs in any order. */
  ghost predicate Arranged(sorted: seq<Item>, items: seq<Item>) {
    multiset(sorted) == multiset(items) && Ordered(sorted, ItemLess)
  }

  lemma {:induction false} MoreLinesSnoc(es: seq<Entry>, e: Entry)
    ensures MoreLines(es + [e]) == MoreLines(es) + ([SEPARATOR] + EntryLines(e))
  {
    if es == [] {
      assert es + [e] == [e] && [e][1..] == [];
    } else {
      MoreLinesSnoc(es[1..], e);
      assert (es + [e])[1..] == es[1..] + [e];
      var head, tail := [SEPARATOR] + EntryLines(es[0]), [SEPARATOR] + EntryLines(e);
      assert head + (MoreLines(es[1..]) + tail) == (head + MoreLines(es[1..])) + tail;
    }
  }

  lemma BodyLinesSnoc(es: seq<Entry>, e: Entry)
    ensures BodyLines(es + [e]) == BodyLines(es) + (if es == [] then [] else [SEPARATOR]) + EntryLines(e)
  {
    if es == [] {
      assert es + [e] == [e] && [e][1..] == [];
    } else {
      MoreLinesSnoc(es[1..], e);
      assert (es + [e])[1..] == es[1..] + [e];
    }
  }

  lemma UnlinesField(tag: string, v: Option<string>)
    ensures Unlines(Field(tag, v)) == if v.Some? then tag + v.value + "\n" else ""
  {
    if v.Some? {
      assert [tag + v.value][1..] == [];
      assert (tag + v.value) + ("\n" + "") == tag + v.value + "\n";
    }
  }

  lemma UnlinesEntry(e: Entry)
    ensures Unlines(EntryLines(e)) ==
      NAME + e.name + "\n" + Unlines(Field(LOCATION, e.location)) + Unlines(Field(DESCRIPTION, e.description))
  {
    UnlinesField(NAME, Some(e.name));
    UnlinesConcat([NAME + e.name], Field(LOCATION, e.location));
    UnlinesConcat([NAME + e.name] + Field(LOCATION, e.location), Field(DESCRIPTION, e.description));
  }

  /** The text of one entry, after a separator unless it is the first. */
  lemma UnlinesOneMore(es: seq<Entry>, e: Entry)
    ensures Unlines(BodyLines(es + [e])) ==
      Unlines(BodyLines(es)) + (if es == [] then "" else SEPARATOR + "\n") + Unlines(EntryLines(e))
  {
    BodyLinesSnoc(es, e);
    var sep := if es == [] then [] else [SEPARATOR];
    UnlinesConcat(BodyLines(es), sep);
    UnlinesConcat(BodyLines(es) + sep, EntryLines(e));
    UnlinesField(SEPARATOR, Some(""));
    assert SEPARATOR + "" == SEPARATOR;
    assert Field(SEPARATOR, Some("")) == [SEPARATOR];
  }

  function Shown(es: seq<Entry>): string { START + "\n" + Unlines(BodyLines(es)) }

  function LineOf(tag: string, v: Option<string>): string { if v.Some? then tag + v.value + "\n" else "" }

  /** The writes of one turn of the loop, in their order. */
  lemma WriteOne(es: seq<Entry>, i: nat, text: string)
    requires i < |es| && text == Shown(es[..i])
    ensures var e := es[i];
      (((text + (if i == 0 then "" else SEPARATOR + "\n")) + (NAME + e.name + "\n")) + LineOf(LOCATION, e.location))
        + LineOf(DESCRIPTION, e.description) == Shown(es[..i+1])
  {
    var e := es[i];
    assert es[..i+1] == es[..i] + [e];
    UnlinesOneMore(es[..i], e);
    UnlinesEntry(e);
    UnlinesField(LOCATION, e.location);
    UnlinesField(DESCRIPTION, e.description);
    Appended(START + "\n", Unlines(BodyLines(es[..i])), if i == 0 then "" else SEPARATOR + "\n", NAME + e.name + "\n",
             LineOf(LOCATION, e.location), LineOf(DESCRIPTION, e.description));
  }

  lemma Appended(start: string, body: string, sep: string, a: string, b: string, c: string)
    ensures (((start + body) + sep) + a) + b + c == start + (body + sep + (a + b + c))
  {}

  lemma NothingAppended(text: string)
    ensures text + "" == text
  {}

  /** The text shows exactly these items, by name and then by location in byte order, each with its own
      name, its location and its description if it has them. */
  ghost predicate Shows(text: string, items: seq<Item>, sorted: seq<Item>) {
    && multiset(sorted) == multiset(items)
    && (forall i, j :: 0 <= i < j < |sorted| ==>
          !Less(sorted[j].name, sorted[i].name) &&
          (sorted[i].name == sorted[j].name ==> !Less(sorted[j].location, sorted[i].location)))
    && Read(text).Some? && |Read(text).value| == |sorted|
    && (forall i :: 0 <= i < |sorted| ==>
          var e := Read(text).value[i];
          && e.name == TrimInline(sorted[i].name)
          && e.location == (if sorted[i].location == "" then None else Some(TrimInline(sorted[i].location)))
          && e.description == (if sorted[i].description == "" then None else Some(TrimInline(sorted[i].description))))
  }

  lemma ArrangedShows(text: string, items: seq<Item>, sorted: seq<Item>)
    requires Arranged(sorted, items) && Read(text) == Some(Entries(sorted))
    ensures Shows(text, items, sorted)
  {
    forall i, j | 0 <= i < j < |sorted|
      ensures !Less(sorted[j].name, sorted[i].name)
      ensures sorted[i].name == sorted[j].name ==> !Less(sorted[j].location, sorted[i].location)
    {
      assert !ItemLess(sorted[j], sorted[i]);
      LessTotal(sorted[i].name, sorted[i].name);
    }
  }

  /** AvailableSkillsPrompt: the slice it is given is copied before sorting, so the array is only read. */
  method AvailableSkillsPrompt(items: array<Item>) returns (text: string)
    ensures exists sorted :: Arranged(sorted, items[..]) && text == Block(Entries(sorted)) && Read(text) == Some(Entries(sorted))
    ensures exists sorted :: Shows(text, items[..], sorted)
  {
    ItemLessIsOrder();
    var copy := Sort(items[..], ItemLess);
    assert Arranged(copy, items[..]);
    text := WriteBlock(copy);
    EntriesAreFlat(copy);
    BlockReadBack(Entries(copy));
    ArrangedShows(text, items[..], copy);
  }

  /** The writes, once the copy is sorted. */
  method WriteBlock(copy: seq<Item>) returns (text: string)
    ensures text == Block(Entries(copy))
  {
    ghost var es := Entries(copy);
    BlockText(es);
    text := START + "\n";
    if |copy| == 0 {
      text := text + (NONE + "\n");
      text := text + END;
      return;
    }
    NothingAppended(text);
    for i := 0 to |copy|
      invariant text == Shown(es[..i])
    {
      var it := copy[i];
      WriteOne(es, i, text);
      NothingAppended(text);
      if i != 0 {
        text := text + (SEPARATOR + "\n");
      }
      text := text + (NAME + TrimInline(it.name) + "\n");
      NothingAppended(text);
      if it.location != "" {
        text := text + (LOCATION + TrimInline(it.location) + "\n");
      }
      NothingAppended(text);
      if it.description != "" {
        text := text + (DESCRIPTION + TrimInline(it.description) + "\n");
      }
    }
    assert es[..|copy|] == es;
    text := text + END;
  }

  lemma EntriesAreFlat(items: seq<Item>)
    ensures forall e :: e in Entries(items) ==> Flat(e)
  {
    forall e | e in Entries(items) ensures Flat(e) {
      var i :| 0 <= i < |items| && e == EntryOf(items[i]);
      EntryIsFlat(items[i]);
    }
  }

  lemma BlockText(es: seq<Entry>)
    ensures Block(es) == START + "\n" + (if es == [] then NONE + "\n" else Unlines(BodyLines(es))) + END
  {
    UnlinesField(START, Some(""));
    UnlinesField(NONE, Some(""));
    assert START + "" == START && NONE + "" == NONE;
    assert Field(START, Some("")) == [START] && Field(NONE, Some("")) == [NONE];
    UnlinesConcat([START], if es == [] then [NONE] else BodyLines(es));
  }

  /** With distinct pairs of name and location there is only one way to arrange the items, so the
      block depends on the set of items alone. */
  lemma BlockIsDetermined(items: seq<Item>, a: seq<Item>, b: seq<Item>)
    requires forall x, y :: x in multiset(items) && y in multiset(items) && x != y ==> x.name != y.name || x.location != y.location
    requires Arranged(a, items) && Arranged(b, items)
    ensures Block(Entries(a)) == Block(Entries(b))
  {
    forall x, y | x in multiset(a) && y in multiset(a) && x != y ensures ItemLess(x, y) || ItemLess(y, x) {
      LessTotal(x.name, y.name);
      LessTotal(x.location, y.location);
    }
    OrderedUnique(a, b, ItemLess);
  }
}
