/** The identities the runtime passes around (spec/types.go, spec/provider_types.go).

    A Go string is a sequence of bytes.  Throughout this project a `string` plays that role:
    each character stands for one byte. */
module SkillTypes {

  datatype Option<+T> = None | Some(value: T)

  /** Host-facing definition, exactly as the user typed it. */
  datatype SkillDef = SkillDef(kind: string, name: string, location: string)

  /** Internal canonical identity: the provider may have rewritten the location. */
  datatype ProviderSkillKey = ProviderSkillKey(kind: string, name: string, location: string)

  /** What the model sees: a computed name and the user's own location. */
  datatype SkillHandle = SkillHandle(name: string, location: string)

  datatype SkillInsert = Instructions | UserMessage

  datatype LoadMode = Replace | Add

  datatype SkillArgument = SkillArgument(name: string, description: string, default: string)

  predicate NoDup<T(==)>(s: seq<T>) {
    forall i, j :: 0 <= i < j < |s| ==> s[i] != s[j]
  }

  function Elems<T>(s: seq<T>): set<T> {
    set x | x in s
  }
}
