/** Argument names of internal/catalog/artifact.go.  Bytes of 0x80 and above never belong to one, so
    reading bytes or runes makes no difference to the scan. */
module Identifiers {

  /** Values of the declared arguments. */
  type Values = map<string, string>

  predicate IdStart(c: char) { c == '_' || 'a' <= c <= 'z' || 'A' <= c <= 'Z' }

  predicate IdChar(c: char) { IdStart(c) || '0' <= c <= '9' }

  /** The names IsValidSkillArgumentName accepts. */
  predicate IsName(s: string) {
    s != "" && IdStart(s[0]) && forall i :: 1 <= i < |s| ==> IdChar(s[i])
  }

  function IdText(s: string): (t: string)
    ensures |t| <= |s|
  {
    if s == "" || !IdChar(s[0]) then "" else [s[0]] + IdText(s[1..])
  }

  function AfterIdText(s: string): (r: string)
    ensures |r| <= |s|
  {
    if s == "" || !IdChar(s[0]) then s else AfterIdText(s[1..])
  }

  /** The identifier s begins with, empty if there is none, and what follows it. */
  function ScanName(s: string): (t: string)
    ensures |t| <= |s|
  {
    if s == "" || !IdStart(s[0]) then "" else [s[0]] + IdText(s[1..])
  }

  function AfterName(s: string): (r: string)
    ensures |r| <= |s|
  {
    if s == "" || !IdStart(s[0]) then s else AfterIdText(s[1..])
  }

  lemma {:induction false} IdTextCorrect(s: string)
    ensures s == IdText(s) + AfterIdText(s)
    ensures forall i :: 0 <= i < |IdText(s)| ==> IdChar(IdText(s)[i])
    ensures AfterIdText(s) != "" ==> !IdChar(AfterIdText(s)[0])
  {
    if s != "" && IdChar(s[0]) {
      var c, q := s[0], s[1..];
      IdTextCorrect(q);
      Front(s, c, q, IdText(q), AfterIdText(q));
    }
  }

  lemma ScanStops(s: string)
    ensures s == ScanName(s) + AfterName(s)
    ensures ScanName(s) != "" ==> IsName(ScanName(s)) && (AfterName(s) != "" ==> !IdChar(AfterName(s)[0]))
    ensures ScanName(s) == "" && s != "" ==> !IdStart(s[0])
  {
    if s != "" && IdStart(s[0]) {
      var c, q := s[0], s[1..];
      IdTextCorrect(q);
      Front(s, c, q, IdText(q), AfterIdText(q));
    }
  }

  lemma Front(s: string, c: char, q: string, t: string, r: string)
    requires s != "" && c == s[0] && q == s[1..] && q == t + r
    ensures s == ([c] + t) + r
  {
    assert s == [c] + q;
    assert [c] + (t + r) == ([c] + t) + r;
  }

  /** The scan takes the longest prefix that is a name. */
  lemma ScanIdLongest(s: string)
    ensures forall k :: 0 <= k <= |s| ==> (IsName(s[..k]) <==> 0 < k <= |ScanName(s)|)
  {
    ScanStops(s);
    var t, r := ScanName(s), AfterName(s);
    forall k | 0 <= k <= |s| ensures IsName(s[..k]) <==> 0 < k <= |t| {
      assert forall i :: 0 <= i < |t| ==> s[i] == t[i];
      if t != "" && k > |t| { assert s[..k][|t|] == r[0]; }
      if t == "" && k > 0 { assert s[..k][0] == s[0]; }
    }
  }

  lemma {:induction false} IdTextExactly(t: string, rest: string)
    requires (forall i :: 0 <= i < |t| ==> IdChar(t[i])) && (rest != "" ==> !IdChar(rest[0]))
    ensures IdText(t + rest) == t && AfterIdText(t + rest) == rest
  {
    if t == "" {
      assert t + rest == rest;
    } else {
      IdTextExactly(t[1..], rest);
      assert (t + rest)[1..] == t[1..] + rest;
      assert t == [t[0]] + t[1..];
    }
  }

  lemma ScanExactly(name: string, rest: string)
    requires IsName(name) && (rest != "" ==> !IdChar(rest[0]))
    ensures ScanName(name + rest) == name && AfterName(name + rest) == rest
  {
    IdTextExactly(name[1..], rest);
    assert (name + rest)[1..] == name[1..] + rest;
    assert name == [name[0]] + name[1..];
  }

  /** IsValidSkillArgumentName. */
  method IsValidSkillArgumentName(name: string) returns (ok: bool)
    ensures ok == IsName(name)
  {
    if name == "" { return false; }
    for i := 0 to |name|
      invariant forall j :: 0 <= j < i ==> if j == 0 then IdStart(name[0]) else IdChar(name[j])
    {
      if !(IdStart(name[i]) || (i > 0 && '0' <= name[i] <= '9')) { return false; }
    }
    return true;
  }

  /** scanIdentifier: its closing validity check cannot fail. */
  method ScanIdentifier(s: string) returns (name: string, n: nat)
    ensures name == ScanName(s) && n == |name|
  {
    if s == "" { return "", 0; }
    ScanIsPrefix(s);
    for i := 0 to |s|
      invariant forall j :: 0 <= j < i ==> if j == 0 then IdStart(s[0]) else IdChar(s[j])
    {
      if !(IdStart(s[i]) || (i > 0 && '0' <= s[i] <= '9')) {
        if i == 0 { return "", 0; }
        assert IsName(s[..i]) && !IsName(s[..i+1]) by { assert !IdChar(s[..i+1][i]); }
        return s[..i], i;
      }
    }
    assert s[..|s|] == s && IsName(s);
    var ok := IsValidSkillArgumentName(s);
    if !ok {
      assert false;
    }
    return s, |s|;
  }

  lemma ScanIsPrefix(s: string)
    ensures ScanName(s) == s[..|ScanName(s)|]
    ensures forall k :: 0 <= k <= |s| ==> (IsName(s[..k]) <==> 0 < k <= |ScanName(s)|)
  {
    ScanIdLongest(s);
    ScanStops(s);
  }
}
