/** How skills-load turns the handles of a request into internal keys before it activates them
    (internal/session/tools_impl.go, toolLoad). */
module ToolRequests {
  import opened SkillTypes
  import opened ActiveList

  /** What one handle of a request comes to: a blank name or location is refused before the catalog
      is asked, and the catalog may not know the handle. */
  datatype Answer = Incomplete | Unknown | Known(key: Key)

  /** The keys of the answered handles, in order. */
  function Found(answers: seq<Answer>): seq<Key> {
    if answers == [] then [] else
      var front := Found(answers[..|answers|-1]);
      match answers[|answers|-1] case Known(k) => front + [k] case _ => front
  }

  lemma DedupSnoc(keys: seq<Key>, k: Key)
    ensures Dedup(keys + [k]) == if k in Dedup(keys) then Dedup(keys) else Dedup(keys) + [k]
  {
    assert (keys + [k])[..|keys|] == keys;
  }

  lemma FoundOneMore(answers: seq<Answer>, i: nat, reqKeys: seq<Key>, seen: set<Key>)
    requires i < |answers| && answers[i].Known? && reqKeys == Dedup(Found(answers[..i])) && seen == Elems(reqKeys)
    ensures var k := answers[i].key;
      if k in seen then reqKeys == Dedup(Found(answers[..i+1]))
      else reqKeys + [k] == Dedup(Found(answers[..i+1])) && seen + {k} == Elems(reqKeys + [k])
  {
    var k := answers[i].key;
    FoundSnoc(answers, i);
    DedupSnoc(Found(answers[..i]), k);
    ElemsSnoc(reqKeys, k);
  }

  lemma FoundSnoc(answers: seq<Answer>, i: nat)
    requires i < |answers| && answers[i].Known?
    ensures Found(answers[..i+1]) == Found(answers[..i]) + [answers[i].key]
  {
    assert answers[..i+1][..i] == answers[..i];
  }

  lemma {:induction false} FoundMeans(answers: seq<Answer>)
    ensures forall k :: k in Found(answers) <==> exists i :: 0 <= i < |answers| && answers[i] == Known(k)
  {
    if answers != [] {
      var n := |answers| - 1;
      FoundMeans(answers[..n]);
      forall k ensures k in Found(answers) <==> exists i :: 0 <= i < |answers| && answers[i] == Known(k) {
        if i :| 0 <= i < |answers| && answers[i] == Known(k) { assert i < n ==> answers[..n][i] == Known(k); }
        if i :| 0 <= i < n && answers[..n][i] == Known(k) { assert answers[i] == Known(k); }
      }
    }
  }

  lemma ElemsSnoc(keys: seq<Key>, k: Key)
    ensures Elems(keys + [k]) == Elems(keys) + {k}
  {
    assert forall x :: x in keys + [k] <==> x in keys || x == k;
  }

  lemma DedupIsFinal(keys: seq<Key>)
    ensures NoDup(Dedup(keys)) && Dedup(Dedup(keys)) == Dedup(keys)
  {
    DedupCorrect(keys);
    DedupOfNoDup(Dedup(keys));
  }

  /** The catalog answers for one handle at a time.  The first handle that is incomplete or unknown
      decides the error; otherwise each key is named once, in the order of first mention, and the
      activation that removes repetitions again finds none. */
  method ResolveRequest(answers: seq<Answer>) returns (keys: seq<Key>, bad: Option<Answer>)
    ensures bad.None? <==> forall i :: 0 <= i < |answers| ==> answers[i].Known?
    ensures bad.Some? ==> exists i :: 0 <= i < |answers| && bad.value == answers[i] && !answers[i].Known? &&
                                      forall j :: 0 <= j < i ==> answers[j].Known?
    ensures bad.None? ==> keys == Dedup(Found(answers)) && NoDup(keys) && Dedup(keys) == keys
    ensures bad.None? ==> forall k :: k in keys <==> exists i :: 0 <= i < |answers| && answers[i] == Known(k)
  {
    keys := [];
    var seen: set<Key> := {};
    for i := 0 to |answers|
      invariant forall j :: 0 <= j < i ==> answers[j].Known?
      invariant keys == Dedup(Found(answers[..i])) && seen == Elems(keys)
    {
      if !answers[i].Known? { return keys, Some(answers[i]); }
      FoundOneMore(answers, i, keys, seen);
      var k := answers[i].key;
      if k in seen { continue; }
      seen := seen + {k};
      keys := keys + [k];
    }
    assert answers[..|answers|] == answers;
    DedupIsFinal(Found(answers));
    FoundMeans(answers);
    DedupCorrect(Found(answers));
    bad := None;
  }
}
