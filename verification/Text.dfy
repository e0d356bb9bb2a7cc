/** Byte-level string functions the runtime borrows from Go's standard library.  A string is a
    sequence of bytes; white space outside ASCII is recognised by its UTF-8 encoding, exactly as
    strings.TrimSpace does. */
module Text {

  function Code(c: char): int { c as int }

  /** White space encoded in one, two or three bytes (unicode.IsSpace). */
  predicate Space1(a: char) { a == '\t' || a == '\n' || Code(a) == 0x0B || Code(a) == 0x0C || a == '\r' || a == ' ' }

  predicate Space2(a: char, b: char) { Code(a) == 0xC2 && (Code(b) == 0x85 || Code(b) == 0xA0) }

  predicate Space3(a: char, b: char, c: char) {
    || (Code(a) == 0xE1 && Code(b) == 0x9A && Code(c) == 0x80)
    || (Code(a) == 0xE2 && Code(b) == 0x80 &&
        (0x80 <= Code(c) <= 0x8A || Code(c) == 0xA8 || Code(c) == 0xA9 || Code(c) == 0xAF))
    || (Code(a) == 0xE2 && Code(b) == 0x81 && Code(c) == 0x9F)
    || (Code(a) == 0xE3 && Code(b) == 0x80 && Code(c) == 0x80)
  }

  /** Length of the white space character s begins with, 0 if none. */
  function SpaceFront(s: string): (n: nat)
    ensures n <= |s|
  {
    if |s| >= 1 && Space1(s[0]) then 1
    else if |s| >= 2 && Space2(s[0], s[1]) then 2
    else if |s| >= 3 && Space3(s[0], s[1], s[2]) then 3
    else 0
  }

  /** Length of the white space character s ends with, 0 if none. */
  function SpaceBack(s: string): (n: nat)
    ensures n <= |s|
  {
    var l := |s|;
    if l >= 1 && Space1(s[l-1]) then 1
    else if l >= 2 && Space2(s[l-2], s[l-1]) then 2
    else if l >= 3 && Space3(s[l-3], s[l-2], s[l-1]) then 3
    else 0
  }

  function TrimLeft(s: string): string {
    var n := SpaceFront(s);
    if n == 0 then s else TrimLeft(s[n..])
  }

  function TrimRight(s: string): string {
    var n := SpaceBack(s);
    if n == 0 then s else TrimRight(s[..|s|-n])
  }

  /** strings.TrimSpace */
  function TrimSpace(s: string): string { TrimRight(TrimLeft(s)) }

  predicate Trimmed(s: string) { SpaceFront(s) == 0 && SpaceBack(s) == 0 }

  predicate Blank(s: string) { TrimSpace(s) == "" }

  // ----- What is cut off -------------------------------------------------------------------

  /** One white space character. */
  predicate IsSpace(c: string) {
    (|c| == 1 && Space1(c[0])) || (|c| == 2 && Space2(c[0], c[1])) || (|c| == 3 && Space3(c[0], c[1], c[2]))
  }

  function Joined(cs: seq<string>): string { if cs == [] then "" else cs[0] + Joined(cs[1..]) }

  ghost predicate Spaces(cs: seq<string>) { forall i :: 0 <= i < |cs| ==> IsSpace(cs[i]) }

  /** Nothing but white space characters, one after the other. */
  ghost predicate AllSpace(s: string) { exists cs :: Spaces(cs) && Joined(cs) == s }

  lemma {:induction false} JoinedConcat(a: seq<string>, b: seq<string>)
    ensures Joined(a + b) == Joined(a) + Joined(b)
  {
    if a == [] {
      assert a + b == b;
    } else {
      JoinedConcat(a[1..], b);
      assert (a + b)[0] == a[0] && (a + b)[1..] == a[1..] + b;
    }
  }

  lemma AllSpaceConcat(a: string, b: string)
    requires AllSpace(a) && AllSpace(b)
    ensures AllSpace(a + b)
  {
    var cs :| Spaces(cs) && Joined(cs) == a;
    var ds :| Spaces(ds) && Joined(ds) == b;
    JoinedConcat(cs, ds);
    assert Spaces(cs + ds);
  }

  lemma NoSpaceAtAll()
    ensures AllSpace("")
  {
    assert Spaces([]) && Joined([]) == "";
  }

  lemma OneSpace(c: string)
    requires IsSpace(c)
    ensures AllSpace(c)
  {
    assert Spaces([c]) && Joined([c][1..]) == "";
    assert Joined([c]) == c;
  }

  /** The white space character in front, and what follows it. */
  lemma CutFront(s: string) returns (c: string, rest: string)
    requires SpaceFront(s) > 0
    ensures c == s[..SpaceFront(s)] && rest == s[SpaceFront(s)..] && IsSpace(c) && s == c + rest && TrimLeft(s) == TrimLeft(rest)
  {
    c, rest := s[..SpaceFront(s)], s[SpaceFront(s)..];
  }

  lemma CutBack(s: string) returns (rest: string, c: string)
    requires SpaceBack(s) > 0
    ensures rest == s[..|s|-SpaceBack(s)] && IsSpace(c) && s == rest + c && TrimRight(s) == TrimRight(rest)
  {
    rest, c := s[..|s|-SpaceBack(s)], s[|s|-SpaceBack(s)..];
  }

  lemma {:induction false} TrimLeftCuts(s: string) returns (a: string)
    ensures s == a + TrimLeft(s) && AllSpace(a) && SpaceFront(TrimLeft(s)) == 0
  {
    if SpaceFront(s) == 0 {
      a := "";
      NoSpaceAtAll();
    } else {
      var c, rest := CutFront(s);
      var more := TrimLeftCuts(rest);
      OneSpace(c);
      AllSpaceConcat(c, more);
      a := c + more;
      Reassociate(c, more, TrimLeft(rest));
    }
  }

  lemma Reassociate(a: string, b: string, c: string)
    ensures a + (b + c) == (a + b) + c
  {}

  lemma {:induction false} TrimRightCuts(s: string) returns (b: string)
    ensures s == TrimRight(s) + b && AllSpace(b)
  {
    if SpaceBack(s) == 0 {
      b := "";
      NoSpaceAtAll();
    } else {
      var rest, c := CutBack(s);
      var more := TrimRightCuts(rest);
      OneSpace(c);
      AllSpaceConcat(more, c);
      b := more + c;
      Reassociate(TrimRight(rest), more, c);
    }
  }

  lemma {:induction false} TrimLeftSuffix(s: string) returns (i: nat)
    ensures i <= |s| && TrimLeft(s) == s[i..] && SpaceFront(TrimLeft(s)) == 0
  {
    var n := SpaceFront(s);
    if n == 0 { i := 0; } else {
      i := TrimLeftSuffix(s[n..]);
      i := i + n;
    }
  }

  lemma {:induction false} TrimRightPrefix(s: string) returns (j: nat)
    ensures j <= |s| && TrimRight(s) == s[..j] && SpaceBack(TrimRight(s)) == 0
    ensures SpaceFront(s) == 0 ==> SpaceFront(TrimRight(s)) == 0
  {
    var n := SpaceBack(s);
    if n == 0 { j := |s|; assert s[..j] == s; } else {
      j := TrimRightPrefix(s[..|s|-n]);
      assert s[..|s|-n][..j] == s[..j];
    }
  }

  /** What TrimSpace returns is a stretch of its argument with no white space at either end, and
      it returns its argument exactly when that is how the argument already looked. */
  lemma TrimSpaceCorrect(s: string) returns (i: nat, j: nat)
    ensures i <= j <= |s| && TrimSpace(s) == s[i..j]
    ensures Trimmed(TrimSpace(s))
    ensures TrimSpace(s) == s <==> Trimmed(s)
    ensures TrimSpace(TrimSpace(s)) == TrimSpace(s)
  {
    i := TrimLeftSuffix(s);
    j := TrimRightPrefix(TrimLeft(s));
    j := j + i;
    assert TrimSpace(s) == s[i..][..j-i] == s[i..j];
  }

  /** Around what TrimSpace returns there is white space and nothing else. */
  lemma TrimSpaceCuts(s: string) returns (a: string, b: string)
    ensures s == a + (TrimSpace(s) + b) && AllSpace(a) && AllSpace(b)
  {
    a := TrimLeftCuts(s);
    b := TrimRightCuts(TrimLeft(s));
  }

  // ----- And what is put around --------------------------------------------------------------

  lemma SpaceInFront(c: string, s: string)
    requires IsSpace(c)
    ensures SpaceFront(c + s) == |c| && TrimLeft(c + s) == TrimLeft(s)
  {
    assert (c + s)[|c|..] == s;
  }

  lemma SpaceAtBack(s: string, c: string)
    requires IsSpace(c)
    ensures SpaceBack(s + c) == |c| && TrimRight(s + c) == TrimRight(s)
  {
    assert (s + c)[..|s + c| - |c|] == s;
  }

  lemma {:induction false} TrimLeftThrough(cs: seq<string>, s: string)
    requires Spaces(cs)
    ensures TrimLeft(Joined(cs) + s) == TrimLeft(s)
  {
    if cs == [] {
      assert Joined(cs) + s == s;
    } else {
      TrimLeftThrough(cs[1..], s);
      SpaceInFront(cs[0], Joined(cs[1..]) + s);
      Reassociate(cs[0], Joined(cs[1..]), s);
    }
  }

  lemma {:induction false} TrimRightThrough(s: string, cs: seq<string>)
    requires Spaces(cs)
    ensures TrimRight(s + Joined(cs)) == TrimRight(s)
  {
    if cs == [] {
      assert s + Joined(cs) == s;
    } else {
      var n := |cs| - 1;
      var front, c := cs[..n], cs[n];
      TrimRightThrough(s, front);
      assert cs == front + [c] && [c][1..] == [];
      JoinedConcat(front, [c]);
      SpaceAtBack(s + Joined(front), c);
      Reassociate(s, Joined(front), c);
      assert Joined([c]) == c;
    }
  }

  lemma NoSpaceAcross(x: string, cs: seq<string>)
    requires x != "" && Trimmed(x) && Spaces(cs)
    ensures SpaceFront(x + Joined(cs)) == 0
  {
    if cs != [] {
      assert Joined(cs)[0] == cs[0][0];
    } else {
      assert x + Joined(cs) == x;
    }
  }

  /** White space around a trimmed text is what TrimSpace takes away. */
  lemma TrimAround(a: string, x: string, b: string)
    requires AllSpace(a) && Trimmed(x) && AllSpace(b)
    ensures TrimSpace(a + (x + b)) == x
  {
    if x == "" {
      assert x + b == b;
      AllSpaceConcat(a, b);
      BlankIff(a + b);
      return;
    }
    var cs :| Spaces(cs) && Joined(cs) == a;
    var ds :| Spaces(ds) && Joined(ds) == b;
    TrimLeftThrough(cs, x + b);
    NoSpaceAcross(x, ds);
    TrimRightThrough(x, ds);
  }

  /** A text is blank exactly when there is nothing but white space in it. */
  lemma BlankIff(s: string)
    ensures Blank(s) <==> AllSpace(s)
  {
    if AllSpace(s) {
      var cs :| Spaces(cs) && Joined(cs) == s;
      TrimLeftThrough(cs, "");
      assert s + "" == s;
    }
    var a, b := TrimSpaceCuts(s);
    if Blank(s) {
      AllSpaceConcat(a, b);
      assert s == a + b;
    }
  }

  lemma TrimmedFixed(s: string)
    ensures Trimmed(TrimSpace(s)) && (TrimSpace(s) == s <==> Trimmed(s))
  {
    var i, j := TrimSpaceCorrect(s);
  }
}
