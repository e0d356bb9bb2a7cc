/** Lines of text and the replacements the runtime makes in them (strings.Split, strings.ReplaceAll). */
module Lines {

  predicate OneLine(s: string) { forall i :: 0 <= i < |s| ==> s[i] != '\n' }

  predicate NoReturn(s: string) { forall i :: 0 <= i < |s| ==> s[i] != '\r' }

  /** strings.Split(s, "\n") */
  function Split(s: string): (ls: seq<string>)
    ensures ls != []
  {
    if s == "" then [""]
    else
      var ls := Split(s[1..]);
      if s[0] == '\n' then [""] + ls else [[s[0]] + ls[0]] + ls[1..]
  }

  lemma SplitCons(c: char, s: string)
    ensures Split([c] + s) == if c == '\n' then [""] + Split(s) else [[c] + Split(s)[0]] + Split(s)[1..]
  {
    assert ([c] + s)[1..] == s;
  }

  lemma Regroup(p: string, c: char, q: string, s: string)
    requires p != "" && c == p[0] && q == p[1..]
    ensures p == [c] + q && p + s == [c] + (q + s)
  {}

  /** A line and what follows its end. */
  lemma {:induction false} SplitLine(l: string, rest: string)
    requires OneLine(l)
    ensures Split(l + ("\n" + rest)) == [l] + Split(rest)
  {
    if l == "" {
      assert l + ("\n" + rest) == ['\n'] + rest;
      SplitCons('\n', rest);
    } else {
      var c, q := l[0], l[1..];
      Regroup(l, c, q, "\n" + rest);
      SplitLine(q, rest);
      SplitCons(c, q + ("\n" + rest));
    }
  }

  lemma {:induction false} SplitLast(l: string)
    requires OneLine(l)
    ensures Split(l) == [l]
  {
    if l != "" {
      var c, q := l[0], l[1..];
      Regroup(l, c, q, "");
      SplitLast(q);
      SplitCons(c, q);
    }
  }

  /** Each line with its end. */
  function Unlines(ls: seq<string>): string {
    if ls == [] then "" else ls[0] + ("\n" + Unlines(ls[1..]))
  }

  lemma {:induction false} UnlinesConcat(a: seq<string>, b: seq<string>)
    ensures Unlines(a + b) == Unlines(a) + Unlines(b)
  {
    if a == [] {
      assert a + b == b;
    } else {
      UnlinesConcat(a[1..], b);
      assert (a + b)[1..] == a[1..] + b && (a + b)[0] == a[0];
      assert a[0] + ("\n" + (Unlines(a[1..]) + Unlines(b))) == (a[0] + ("\n" + Unlines(a[1..]))) + Unlines(b);
    }
  }

  /** Lines that hold no line end are read back, with the unended last line. */
  lemma {:induction false} SplitUnlines(ls: seq<string>, last: string)
    requires (forall i :: 0 <= i < |ls| ==> OneLine(ls[i])) && OneLine(last)
    ensures Split(Unlines(ls) + last) == ls + [last]
  {
    if ls == [] {
      assert Unlines(ls) + last == last;
      SplitLast(last);
    } else {
      var rest := Unlines(ls[1..]);
      SplitUnlines(ls[1..], last);
      assert Unlines(ls) + last == ls[0] + ("\n" + (rest + last));
      SplitLine(ls[0], rest + last);
      assert ls + [last] == [ls[0]] + (ls[1..] + [last]);
    }
  }

  // ----- Line ends inside a field ----------------------------------------------------------

  /** strings.ReplaceAll for a one-byte old value. */
  function ReplaceChar(s: string, c: char, into: string): string {
    if s == "" then ""
    else (if s[0] == c then into else [s[0]]) + ReplaceChar(s[1..], c, into)
  }

  /** strings.ReplaceAll(s, "\r\n", into) */
  function ReplaceCRLF(s: string, into: string): string {
    if s == "" then ""
    else if |s| >= 2 && s[0] == '\r' && s[1] == '\n' then into + ReplaceCRLF(s[2..], into)
    else [s[0]] + ReplaceCRLF(s[1..], into)
  }

  lemma {:induction false} ReplaceCharGone(s: string, c: char, into: string)
    requires forall i :: 0 <= i < |into| ==> into[i] != c
    ensures forall i :: 0 <= i < |ReplaceChar(s, c, into)| ==> ReplaceChar(s, c, into)[i] != c
  {
    if s != "" { ReplaceCharGone(s[1..], c, into); }
  }

  lemma {:induction false} ReplaceCharKeeps(s: string, c: char, into: string, d: char)
    requires (forall i :: 0 <= i < |into| ==> into[i] != d) && (forall i :: 0 <= i < |s| ==> s[i] != d)
    ensures forall i :: 0 <= i < |ReplaceChar(s, c, into)| ==> ReplaceChar(s, c, into)[i] != d
  {
    if s != "" { ReplaceCharKeeps(s[1..], c, into, d); }
  }

  lemma {:induction false} ReplaceCharThrough(p: string, s: string, c: char, into: string)
    requires forall i :: 0 <= i < |p| ==> p[i] != c
    ensures ReplaceChar(p + s, c, into) == p + ReplaceChar(s, c, into)
  {
    if p == "" {
      assert p + s == s;
    } else {
      var d, q := p[0], p[1..];
      ReplaceCharThrough(q, s, c, into);
      Regroup(p, d, q, s);
      Regroup(p, d, q, ReplaceChar(s, c, into));
      assert ([d] + (q + s))[1..] == q + s;
    }
  }

  lemma {:induction false} ReplaceCRLFThrough(p: string, s: string, into: string)
    requires NoReturn(p)
    ensures ReplaceCRLF(p + s, into) == p + ReplaceCRLF(s, into)
  {
    if p == "" {
      assert p + s == s;
    } else {
      var d, q := p[0], p[1..];
      ReplaceCRLFThrough(q, s, into);
      Regroup(p, d, q, s);
      Regroup(p, d, q, ReplaceCRLF(s, into));
      assert ([d] + (q + s))[1..] == q + s;
    }
  }

  // ----- Line ends of all kinds ------------------------------------------------------------

  predicate LineEnd(e: string) { e == "\n" || e == "\r\n" || e == "\r" }

  predicate FlatText(s: string) { OneLine(s) && NoReturn(s) }

  /** Lines, each with its own line end. */
  function WithEnds(ls: seq<string>, es: seq<string>): string
    requires |ls| == |es|
  {
    if ls == [] then "" else ls[0] + (es[0] + WithEnds(ls[1..], es[1..]))
  }

  /** Flat lines with line ends, read in the only way: no carriage return stands in front of a newline. */
  ghost predicate EndedLines(ls: seq<string>, es: seq<string>) {
    && |ls| == |es|
    && (forall i :: 0 <= i < |ls| ==> FlatText(ls[i]) && LineEnd(es[i]))
    && (forall i :: 0 <= i < |ls| - 1 && es[i] == "\r" && ls[i+1] == "" ==> es[i+1] != "\n")
  }

  lemma FirstByte(ls: seq<string>, es: seq<string>, last: string)
    requires EndedLines(ls, es) && FlatText(last) && !(ls != [] && ls[0] == "" && es[0] == "\n")
    ensures var s := WithEnds(ls, es) + last; s == "" || s[0] != '\n'
  {
    var s := WithEnds(ls, es) + last;
    if ls == [] {
      assert s == last;
    } else if ls[0] != "" {
      assert s[0] == ls[0][0];
    } else {
      assert s[0] == es[0][0];
    }
  }

  /** strings.TrimLeft(s, "\n") */
  function TrimLeadingNewlines(s: string): string {
    if s != "" && s[0] == '\n' then TrimLeadingNewlines(s[1..]) else s
  }

  /** strings.TrimRight(s, "\r\n") */
  function TrimLineEnd(s: string): string {
    if s != "" && (s[|s|-1] == '\r' || s[|s|-1] == '\n') then TrimLineEnd(s[..|s|-1]) else s
  }

  /** What bufio's ReadString('\n') returns: up to and with the first line end, or all there is. */
  function NextLine(s: string): (line: string)
    ensures line <= s
    ensures s != "" ==> line != ""
  {
    if s == "" then ""
    else if s[0] == '\n' then "\n"
    else
      assert s == [s[0]] + s[1..];
      [s[0]] + NextLine(s[1..])
  }

  /** The line was cut off by the end of the input. */
  predicate Unended(line: string) { line == "" || line[|line|-1] != '\n' }

  lemma {:induction false} NextLineReads(l: string, rest: string)
    requires OneLine(l)
    ensures NextLine(l + ("\n" + rest)) == l + "\n"
    ensures (l + ("\n" + rest))[|l|+1..] == rest
  {
    if l == "" {
      assert l + ("\n" + rest) == "\n" + rest;
    } else {
      var c, q := l[0], l[1..];
      Regroup(l, c, q, "\n" + rest);
      Regroup(l, c, q, "\n");
      NextLineReads(q, rest);
      assert ([c] + (q + ("\n" + rest)))[1..] == q + ("\n" + rest);
    }
  }
}
