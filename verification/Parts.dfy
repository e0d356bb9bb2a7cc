/** What both passes of template rendering do with the parts they cut a text into: write each part,
    and sort the names of placeholders into used and unknown ones. */
module Parts {
  import opened SkillTypes
  import opened Identifiers

  /** The bytes a part covers, what is written for it, and the name if it is a placeholder. */
  datatype Part = Part(size: nat, text: string, name: Option<string>)

  function NameOf(p: Part): set<string> { if p.name.Some? then {p.name.value} else {} }

  function TextOf(ps: seq<Part>): string {
    if ps == [] then "" else ps[0].text + TextOf(ps[1..])
  }

  function NamesOf(ps: seq<Part>): set<string> {
    if ps == [] then {} else NameOf(ps[0]) + NamesOf(ps[1..])
  }

  lemma TailOf<T>(a: seq<T>, k: nat, x: T, rest: seq<T>)
    requires 0 < k <= |a| && a[k-1..] == [x] + rest
    ensures a[k-1] == x && a[k..] == rest
  {
    assert a[k-1..][0] == a[k-1] && a[k-1..][1..] == a[k..];
    assert ([x] + rest)[1..] == rest;
  }

  // ----- The same, counted from the front ----------------------------------------------------

  function TextUpTo(ps: seq<Part>, k: nat): string
    requires k <= |ps|
  {
    if k == 0 then "" else TextUpTo(ps, k - 1) + ps[k-1].text
  }

  function UsedUpTo(ps: seq<Part>, k: nat, declared: Values): set<string>
    requires k <= |ps|
  {
    if k == 0 then {}
    else if ps[k-1].name.Some? && ps[k-1].name.value in declared then UsedUpTo(ps, k - 1, declared) + {ps[k-1].name.value}
    else UsedUpTo(ps, k - 1, declared)
  }

  function UnknownUpTo(ps: seq<Part>, k: nat, declared: Values): set<string>
    requires k <= |ps|
  {
    if k == 0 then {}
    else if ps[k-1].name.Some? && ps[k-1].name.value !in declared then UnknownUpTo(ps, k - 1, declared) + {ps[k-1].name.value}
    else UnknownUpTo(ps, k - 1, declared)
  }

  /** Where the first k parts end. */
  function EndOf(ps: seq<Part>, k: nat): nat
    requires k <= |ps|
  {
    if k == 0 then 0 else EndOf(ps, k - 1) + ps[k-1].size
  }

  lemma {:induction false} OneMore(ps: seq<Part>, k: nat)
    requires k < |ps|
    ensures TextOf(ps[..k+1]) == TextOf(ps[..k]) + ps[k].text
    ensures NamesOf(ps[..k+1]) == NamesOf(ps[..k]) + NameOf(ps[k])
  {
    if k > 0 {
      OneMore(ps[1..], k - 1);
      assert ps[..k+1][1..] == ps[1..][..k] && ps[..k][1..] == ps[1..][..k-1];
    }
  }

  lemma Tally(met: set<string>, p: Part, keys: set<string>)
    ensures (met + NameOf(p)) * keys == if p.name.Some? && p.name.value in keys then met * keys + {p.name.value} else met * keys
    ensures (met + NameOf(p)) - keys == if p.name.Some? && p.name.value !in keys then met - keys + {p.name.value} else met - keys
  {}

  lemma {:induction false} UpTo(ps: seq<Part>, k: nat, declared: Values)
    requires k <= |ps|
    ensures TextUpTo(ps, k) == TextOf(ps[..k])
    ensures UsedUpTo(ps, k, declared) == NamesOf(ps[..k]) * declared.Keys
    ensures UnknownUpTo(ps, k, declared) == NamesOf(ps[..k]) - declared.Keys
  {
    if k > 0 {
      UpTo(ps, k - 1, declared);
      OneMore(ps, k - 1);
      Tally(NamesOf(ps[..k-1]), ps[k-1], declared.Keys);
    }
  }

  /** What has been written and sorted once the first k parts have been read. */
  ghost predicate Written(ps: seq<Part>, k: nat, declared: Values, out: string, used: set<string>, unknown: set<string>)
    requires k <= |ps|
  {
    out == TextUpTo(ps, k) && used == UsedUpTo(ps, k, declared) && unknown == UnknownUpTo(ps, k, declared)
  }

  lemma WriteOne(ps: seq<Part>, k: nat, declared: Values, out: string, used: set<string>, unknown: set<string>, text: string, name: Option<string>)
    requires k < |ps| && Written(ps, k, declared, out, used, unknown) && ps[k].text == text && ps[k].name == name
    ensures name.None? ==> Written(ps, k + 1, declared, out + text, used, unknown)
    ensures name.Some? && name.value in declared ==> Written(ps, k + 1, declared, out + text, used + {name.value}, unknown)
    ensures name.Some? && name.value !in declared ==> Written(ps, k + 1, declared, out + text, used, unknown + {name.value})
  {}

  lemma WrittenAll(ps: seq<Part>, declared: Values, out: string, used: set<string>, unknown: set<string>)
    requires Written(ps, |ps|, declared, out, used, unknown)
    ensures out == TextOf(ps) && used == NamesOf(ps) * declared.Keys && unknown == NamesOf(ps) - declared.Keys
  {
    UpTo(ps, |ps|, declared);
    assert ps[..|ps|] == ps;
  }
}
