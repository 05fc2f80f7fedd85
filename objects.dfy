/** Plain JavaScript objects as the animator sees them: the object's own
    enumerable keys in insertion order (the order `for-in`, `Object.keys`
    and `Object.getOwnPropertyNames` walk them in), and the value held under
    each key. */
module Objects {

  datatype Option<T> = None | Some(value: T)

  datatype Obj<V> = Obj(keys: seq<string>, fields: map<string, V>)

  /** No key is listed twice. */
  predicate Distinct(s: seq<string>) {
    s == [] || (s[0] !in s[1..] && Distinct(s[1..]))
  }

  /** The key at position `j` of a list without repeats is not among the
      keys before it. */
  lemma {:induction false} DistinctAt(s: seq<string>, j: nat)
    requires Distinct(s) && j < |s|
    ensures s[j] !in s[..j]
  {
    if j > 0 {
      DistinctAt(s[1..], j - 1);
      assert s[..j] == [s[0]] + s[1..][..j - 1];
      assert s[j] == s[1..][j - 1];
    }
  }

  /** A real object lists each own key once, and lists exactly the keys it holds. */
  ghost predicate Wf<V>(o: Obj<V>) {
    Distinct(o.keys) && forall k :: k in o.keys <==> k in o.fields
  }

  /** `o[k]`: the value under `k`, or `undefined` (None) when `o` has no such key. */
  function Get<V>(o: Obj<V>, k: string): Option<V> {
    if k in o.fields then Some(o.fields[k]) else None
  }

  function Elements(s: seq<string>): set<string> {
    set k | k in s
  }

  lemma {:induction false} DistinctSize(s: seq<string>)
    requires Distinct(s)
    ensures |Elements(s)| == |s|
  {
    if s != [] {
      var rest := s[1..];
      DistinctSize(rest);
      assert s[0] !in Elements(rest);
      assert Elements(s) == Elements(rest) + {s[0]};
    }
  }

  lemma ElementsOfKeys<V>(o: Obj<V>)
    requires Wf(o)
    ensures Elements(o.keys) == o.fields.Keys
    ensures |o.fields.Keys| == |o.keys|
  {
    DistinctSize(o.keys);
  }

  /** A subset at least as large as its superset is the whole superset. */
  lemma SubsetBySize(a: set<string>, b: set<string>)
    requires a <= b && |b| <= |a|
    ensures a == b
  {
    var extra := b - a;
    assert b == a + extra;
    assert a * extra == {};
  }

  /** Two objects hold the same key set exactly when the second lists no
      more keys than the first and holds every key the first lists: the
      counting argument behind both revisions' `validateAnimStates`. */
  lemma KeyListsMatch<V, W>(o1: Obj<V>, o2: Obj<W>)
    requires Wf(o1) && Wf(o2)
    ensures o1.fields.Keys == o2.fields.Keys
            <==> |o2.keys| <= |o1.keys| && forall k :: k in o1.keys ==> k in o2.fields
    ensures o1.fields.Keys == o2.fields.Keys ==> |o1.keys| == |o2.keys|
  {
    ElementsOfKeys(o1);
    ElementsOfKeys(o2);
    if |o2.keys| <= |o1.keys| && forall k :: k in o1.keys ==> k in o2.fields {
      SubsetBySize(o1.fields.Keys, o2.fields.Keys);
    }
  }
}
