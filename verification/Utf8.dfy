/** UTF-8 as section 4 of RFC 3629 defines it, and truncateValidUTF8 (document.go). */
module Utf8 {
  import opened Text

  predicate Tail(c: char) { 0x80 <= Code(c) <= 0xBF }

  predicate Two(a: char, b: char) { 0xC2 <= Code(a) <= 0xDF && Tail(b) }

  predicate Three(a: char, b: char, c: char) {
    Tail(c) && (
      || (Code(a) == 0xE0 && 0xA0 <= Code(b) <= 0xBF)
      || (0xE1 <= Code(a) <= 0xEC && Tail(b))
      || (Code(a) == 0xED && 0x80 <= Code(b) <= 0x9F)
      || (0xEE <= Code(a) <= 0xEF && Tail(b)))
  }

  predicate Four(a: char, b: char, c: char, d: char) {
    Tail(c) && Tail(d) && (
      || (Code(a) == 0xF0 && 0x90 <= Code(b) <= 0xBF)
      || (0xF1 <= Code(a) <= 0xF3 && Tail(b))
      || (Code(a) == 0xF4 && 0x80 <= Code(b) <= 0x8F))
  }

  /** Length of the character s begins with, 0 if none. */
  function CharLen(s: string): (n: nat)
    ensures n <= |s| && n <= 4
  {
    if |s| >= 1 && Code(s[0]) <= 0x7F then 1
    else if |s| >= 2 && Two(s[0], s[1]) then 2
    else if |s| >= 3 && Three(s[0], s[1], s[2]) then 3
    else if |s| >= 4 && Four(s[0], s[1], s[2], s[3]) then 4
    else 0
  }

  /** utf8.ValidString */
  predicate Valid(s: string) {
    s == "" || (CharLen(s) > 0 && Valid(s[CharLen(s)..]))
  }

  // ----- Code points -----------------------------------------------------------------------

  /** A Unicode scalar value: no surrogate, at most 0x10FFFF. */
  predicate Scalar(cp: int) { 0 <= cp <= 0xD7FF || 0xE000 <= cp <= 0x10FFFF }

  function TailOf(n: int): char
    requires 0 <= n < 64
  {
    (0x80 + n) as char
  }

  /** The table in section 3 of RFC 3629. */
  function Encoded(cp: int): string
    requires Scalar(cp)
  {
    if cp < 0x80 then [cp as char]
    else if cp < 0x800 then [(0xC0 + cp / 64) as char, TailOf(cp % 64)]
    else if cp < 0x10000 then [(0xE0 + cp / 4096) as char, TailOf(cp / 64 % 64), TailOf(cp % 64)]
    else [(0xF0 + cp / 262144) as char, TailOf(cp / 4096 % 64), TailOf(cp / 64 % 64), TailOf(cp % 64)]
  }

  function EncodedAll(cps: seq<int>): string
    requires forall i :: 0 <= i < |cps| ==> Scalar(cps[i])
  {
    if cps == [] then "" else Encoded(cps[0]) + EncodedAll(cps[1..])
  }

  lemma EncodedIsChar(cp: int)
    requires Scalar(cp)
    ensures CharLen(Encoded(cp)) == |Encoded(cp)|
  {
    var s := Encoded(cp);
    if cp < 0x80 {
    } else if cp < 0x800 {
      assert Two(s[0], s[1]);
    } else if cp < 0x10000 {
      EncodedThree(cp);
    } else {
      EncodedFour(cp);
    }
  }

  lemma EncodedThree(cp: int)
    requires 0x800 <= cp < 0x10000 && Scalar(cp)
    ensures var s := Encoded(cp); Code(s[0]) >= 0xE0 && Three(s[0], s[1], s[2])
  {
    assert cp == cp / 4096 * 4096 + cp / 64 % 64 * 64 + cp % 64;
  }

  lemma EncodedFour(cp: int)
    requires 0x10000 <= cp <= 0x10FFFF
    ensures var s := Encoded(cp); Code(s[0]) >= 0xF0 && Four(s[0], s[1], s[2], s[3])
  {
    assert cp == cp / 262144 * 262144 + cp / 4096 % 64 * 4096 + cp / 64 % 64 * 64 + cp % 64;
  }

  /** The code point the first character encodes. */
  lemma DecodeChar(s: string) returns (cp: int)
    requires CharLen(s) > 0
    ensures Scalar(cp) && Encoded(cp) == s[..CharLen(s)]
  {
    var n := CharLen(s);
    if n == 1 {
      cp := Code(s[0]);
    } else if n == 2 {
      cp := (Code(s[0]) - 0xC0) * 64 + (Code(s[1]) - 0x80);
    } else if n == 3 {
      cp := DecodeThree(s[0], s[1], s[2]);
    } else {
      cp := DecodeFour(s[0], s[1], s[2], s[3]);
    }
  }

  lemma DecodeThree(a: char, b: char, c: char) returns (cp: int)
    requires Three(a, b, c)
    ensures Scalar(cp) && Encoded(cp) == [a, b, c]
  {
    var x, y, z := Code(a) - 0xE0, Code(b) - 0x80, Code(c) - 0x80;
    cp := x * 4096 + y * 64 + z;
    assert cp / 64 == x * 64 + y && cp % 64 == z;
    assert cp / 4096 == x && cp / 64 % 64 == y;
  }

  lemma DecodeFour(a: char, b: char, c: char, d: char) returns (cp: int)
    requires Four(a, b, c, d)
    ensures Scalar(cp) && Encoded(cp) == [a, b, c, d]
  {
    var w, x, y, z := Code(a) - 0xF0, Code(b) - 0x80, Code(c) - 0x80, Code(d) - 0x80;
    cp := w * 262144 + x * 4096 + y * 64 + z;
    assert cp / 64 == w * 4096 + x * 64 + y && cp % 64 == z;
    assert cp / 4096 == w * 64 + x && cp / 64 % 64 == y;
    assert cp / 262144 == w && cp / 4096 % 64 == x;
  }

  ghost predicate Encodes(cps: seq<int>, s: string) {
    (forall i :: 0 <= i < |cps| ==> Scalar(cps[i])) && EncodedAll(cps) == s
  }

  lemma {:induction false} ValidDecodes(s: string) returns (cps: seq<int>)
    requires Valid(s)
    ensures Encodes(cps, s)
  {
    if s == "" {
      cps := [];
    } else {
      var cp := DecodeChar(s);
      var more := ValidDecodes(s[CharLen(s)..]);
      cps := [cp] + more;
      assert cps[1..] == more && s == s[..CharLen(s)] + s[CharLen(s)..];
    }
  }

  lemma {:induction false} EncodedIsValid(cps: seq<int>)
    requires forall i :: 0 <= i < |cps| ==> Scalar(cps[i])
    ensures Valid(EncodedAll(cps))
  {
    if cps != [] {
      EncodedIsValid(cps[1..]);
      EncodedIsChar(cps[0]);
      assert Encoded(cps[0])[|Encoded(cps[0])|..] == "";
      ValidConcat(Encoded(cps[0]), EncodedAll(cps[1..]));
    }
  }

  /** Valid text is exactly what encodes a sequence of Unicode scalar values. */
  lemma ValidIff(s: string)
    ensures Valid(s) <==> exists cps :: Encodes(cps, s)
  {
    if Valid(s) { var cps := ValidDecodes(s); }
    if cps :| Encodes(cps, s) { EncodedIsValid(cps); }
  }

  // ----- Characters ------------------------------------------------------------------------

  lemma SameChar(s: string, t: string)
    requires CharLen(s) > 0 && CharLen(s) <= |t| && s[..CharLen(s)] == t[..CharLen(s)]
    ensures CharLen(t) == CharLen(s)
  {
    var n := CharLen(s);
    assert forall i :: 0 <= i < n ==> s[i] == s[..n][i] && t[i] == t[..n][i];
  }

  lemma {:induction false} ValidConcat(a: string, b: string)
    requires Valid(a)
    ensures Valid(a + b) <==> Valid(b)
  {
    if a == "" {
      assert a + b == b;
    } else {
      var n := CharLen(a);
      assert (a + b)[..n] == a[..n] && (a + b)[n..] == a[n..] + b;
      SameChar(a, a + b);
      ValidConcat(a[n..], b);
    }
  }

  lemma SameCharLonger(a: string, b: string)
    ensures CharLen(a) > 0 ==> CharLen(a + b) == CharLen(a)
  {
    assert (a + b)[..CharLen(a)] == a[..CharLen(a)];
    if CharLen(a) > 0 { SameChar(a, a + b); }
  }

  /** An ASCII byte separates characters. */
  lemma {:induction false} ValidAround(a: string, c: char, b: string)
    requires Code(c) <= 0x7F
    ensures Valid(a + ([c] + b)) <==> Valid(a) && Valid(b)
  {
    var s := a + ([c] + b);
    SameCharLonger(a, [c] + b);
    if a == "" {
      assert s == [c] + b && s[1..] == b;
    } else if CharLen(s) > 0 {
      CharBefore(a, c, b);
      var n := CharLen(s);
      assert s[..n] == a[..n] && s[n..] == a[n..] + ([c] + b);
      SameChar(s, a);
      ValidAround(a[n..], c, b);
    }
  }

  lemma CharBefore(a: string, c: char, b: string)
    requires Code(c) <= 0x7F && a != ""
    ensures CharLen(a + ([c] + b)) <= |a|
  {
    var s := a + ([c] + b);
    assert s[|a|] == c && s[0] == a[0];
  }

  /** Within a valid string the next character boundary to the left is at most three bytes away. */
  lemma {:induction false} BoundaryNearby(s: string, k: nat)
    requires Valid(s) && k <= |s|
    ensures exists j: nat :: j <= k <= j + 3 && Valid(s[..j])
  {
    if k <= 3 {
      assert Valid(s[..0]);
    } else {
      var n := CharLen(s);
      BoundaryNearby(s[n..], k - n);
      var j: nat :| j <= k - n <= j + 3 && Valid(s[n..][..j]);
      assert s[..n + j][..n] == s[..n] && s[..n + j][n..] == s[n..][..j];
      SameChar(s, s[..n + j]);
      assert Valid(s[..n + j]);
    }
  }

  /** The longest valid prefix; the empty one is valid. */
  function Shrink(s: string): string
    decreases |s|
  {
    if Valid(s) then s else Shrink(s[..|s|-1])
  }

  function Truncate(value: string, maximum: int): string {
    if maximum <= 0 || |value| <= maximum then value else Shrink(value[..maximum])
  }

  lemma {:induction false} ShrinkIsLongest(s: string)
    ensures Shrink(s) <= s && Valid(Shrink(s))
    ensures forall k :: |Shrink(s)| < k <= |s| ==> !Valid(s[..k])
    decreases |s|
  {
    assert s[..|s|] == s;
    if !Valid(s) {
      var t := s[..|s|-1];
      ShrinkIsLongest(t);
      forall k | |Shrink(t)| < k <= |s| ensures !Valid(s[..k]) {
        assert k < |s| ==> t[..k] == s[..k];
      }
    }
  }

  /** Truncation keeps everything if it fits or no maximum is set, and otherwise the longest valid
      prefix within the maximum; of valid text it drops at most three bytes below the maximum. */
  lemma TruncateIsLongest(value: string, maximum: int)
    ensures maximum <= 0 || |value| <= maximum ==> Truncate(value, maximum) == value
    ensures 0 < maximum < |value| ==>
      var r := Truncate(value, maximum);
      && r <= value && |r| <= maximum && Valid(r)
      && (forall k :: |r| < k <= maximum ==> !Valid(value[..k]))
      && (Valid(value) ==> |r| >= maximum - 3)
  {
    if 0 < maximum < |value| {
      var t := value[..maximum];
      ShrinkIsLongest(t);
      forall k | |Shrink(t)| < k <= maximum ensures !Valid(value[..k]) { assert t[..k] == value[..k]; }
      if Valid(value) {
        BoundaryNearby(value, maximum);
      }
    }
  }

  /** truncateValidUTF8 */
  method TruncateValidUTF8(value: string, maximum: int) returns (r: string)
    ensures r == Truncate(value, maximum)
  {
    if maximum <= 0 || |value| <= maximum { return value; }
    r := value[..maximum];
    while !Valid(r)
      invariant Shrink(r) == Shrink(value[..maximum])
      decreases |r|
    {
      r := r[..|r|-1];
    }
  }
}
