/** A JavaScript `Map`: keys are distinct and iterate in insertion order. Overwriting a key keeps
    its place; deleting and setting it again moves it to the end. */
module OrderedMap {

  datatype OMap<K(==), V> = OMap(keys: seq<K>, vals: map<K, V>)

  predicate Distinct<K(==)>(s: seq<K>) {
    forall i, j :: 0 <= i < j < |s| ==> s[i] != s[j]
  }

  predicate Valid<K, V>(m: OMap<K, V>) {
    && Distinct(m.keys)
    && (forall k :: k in m.keys ==> k in m.vals)
    && (forall k :: k in m.vals ==> k in m.keys)
  }

  function Empty<K, V>(): (m: OMap<K, V>)
    ensures Valid(m)
  {
    OMap([], map[])
  }

  function Put<K, V>(m: OMap<K, V>, k: K, v: V): (r: OMap<K, V>)
    ensures Valid(m) ==> Valid(r)
  {
    OMap(if k in m.vals then m.keys else m.keys + [k], m.vals[k := v])
  }

  /** The elements of `s` outside `gone`, in order. */
  function Keep<K(==)>(s: seq<K>, gone: set<K>): (r: seq<K>)
    ensures |r| <= |s|
  {
    if s == [] then [] else (if s[0] in gone then [] else [s[0]]) + Keep(s[1..], gone)
  }

  function RemoveAll<K, V>(m: OMap<K, V>, gone: set<K>): OMap<K, V> {
    OMap(Keep(m.keys, gone), m.vals - gone)
  }

  function Remove<K, V>(m: OMap<K, V>, k: K): OMap<K, V> {
    RemoveAll(m, {k})
  }

  lemma {:induction false} KeepMembers<K>(s: seq<K>, gone: set<K>)
    ensures forall k :: k in Keep(s, gone) ==> k in s && k !in gone
    ensures forall k :: k in s && k !in gone ==> k in Keep(s, gone)
  {
    if s != [] { KeepMembers(s[1..], gone); }
  }

  /** Keeping preserves any relation that held between each element and every later one. */
  lemma {:induction false} KeepOrder<K>(s: seq<K>, gone: set<K>, i: nat, j: nat) returns (i': nat, j': nat)
    requires i < j < |Keep(s, gone)|
    ensures i' < j' < |s| && s[i'] == Keep(s, gone)[i] && s[j'] == Keep(s, gone)[j]
  {
    if s[0] in gone {
      i', j' := KeepOrder(s[1..], gone, i, j);
      i', j' := i' + 1, j' + 1;
    } else if i > 0 {
      i', j' := KeepOrder(s[1..], gone, i - 1, j - 1);
      i', j' := i' + 1, j' + 1;
    } else {
      var rest := s[1..];
      var later := Keep(rest, gone)[j - 1];
      KeepMembers(rest, gone);
      assert later in Keep(rest, gone);
      assert later in rest;
      var at :| 0 <= at < |rest| && rest[at] == later;
      i', j' := 0, at + 1;
    }
  }

  lemma KeepDistinct<K>(s: seq<K>, gone: set<K>)
    requires Distinct(s)
    ensures Distinct(Keep(s, gone))
  {
    forall i, j | 0 <= i < j < |Keep(s, gone)| ensures Keep(s, gone)[i] != Keep(s, gone)[j] {
      var i', j' := KeepOrder(s, gone, i, j);
    }
  }

  lemma {:induction false} KeepNothingGone<K>(s: seq<K>, gone: set<K>)
    requires forall k :: k in s ==> k !in gone
    ensures Keep(s, gone) == s
  {
    if s != [] {
      assert s[0] in s;
      KeepNothingGone(s[1..], gone);
    }
  }

  lemma {:induction false} KeepAllGone<K>(s: seq<K>, gone: set<K>)
    requires forall k :: k in s ==> k in gone
    ensures Keep(s, gone) == []
  {
    if s != [] {
      assert s[0] in s;
      KeepAllGone(s[1..], gone);
    }
  }

  lemma {:induction false} KeepTwice<K>(s: seq<K>, a: set<K>, b: set<K>)
    ensures Keep(Keep(s, a), b) == Keep(s, a + b)
  {
    if s != [] {
      KeepTwice(s[1..], a, b);
      var once := Keep(s, a);
      if s[0] !in a {
        assert once == [s[0]] + Keep(s[1..], a);
        assert once[0] == s[0] && once[1..] == Keep(s[1..], a);
      } else {
        assert once == Keep(s[1..], a);
      }
    }
  }

  lemma {:induction false} KeepConcat<K>(s: seq<K>, t: seq<K>, gone: set<K>)
    ensures Keep(s + t, gone) == Keep(s, gone) + Keep(t, gone)
  {
    if s == [] {
      assert s + t == t;
    } else {
      assert (s + t)[1..] == s[1..] + t;
      KeepConcat(s[1..], t, gone);
    }
  }

  lemma RemoveAllValid<K, V>(m: OMap<K, V>, gone: set<K>)
    requires Valid(m)
    ensures Valid(RemoveAll(m, gone))
  {
    KeepMembers(m.keys, gone);
    KeepDistinct(m.keys, gone);
  }

  lemma RemoveAllTwice<K, V>(m: OMap<K, V>, a: set<K>, b: set<K>)
    ensures RemoveAll(RemoveAll(m, a), b) == RemoveAll(m, a + b)
  {
    KeepTwice(m.keys, a, b);
    assert m.vals - a - b == m.vals - (a + b);
  }

  lemma RemoveNone<K, V>(m: OMap<K, V>)
    ensures RemoveAll(m, {}) == m
  {
    KeepNothingGone(m.keys, {});
    assert m.vals - {} == m.vals;
  }

  /** A list without repetition has as many elements as its set of elements. */
  lemma {:induction false} DistinctSize<K>(s: seq<K>)
    requires Distinct(s)
    ensures |set k | k in s| == |s|
  {
    if s == [] {
      assert (set k | k in s) == {};
    } else {
      var init, last := s[..|s| - 1], s[|s| - 1];
      DistinctSize(init);
      assert s == init + [last];
      assert (set k | k in s) == (set k | k in init) + {last};
    }
  }

  // ---------------------------------------------------------------------------
  // First appearances

  /** The elements of `s` without later repetitions. */
  function FirstSeen<K(==)>(s: seq<K>): seq<K> {
    if s == [] then []
    else
      var init, last := s[..|s| - 1], s[|s| - 1];
      if last in init then FirstSeen(init) else FirstSeen(init) + [last]
  }

  /** Nothing is lost, nothing is repeated. */
  lemma {:induction false} FirstSeenMembers<K>(s: seq<K>)
    ensures Distinct(FirstSeen(s))
    ensures forall k :: k in FirstSeen(s) ==> k in s
    ensures forall k :: k in s ==> k in FirstSeen(s)
  {
    if s != [] {
      var init, last := s[..|s| - 1], s[|s| - 1];
      FirstSeenMembers(init);
      assert s == init + [last];
    }
  }

  /** The order is that of first appearance: whatever comes up to a point of the result has shown
      up in `s` before anything later in the result does. */
  lemma {:induction false} FirstSeenOrder<K>(s: seq<K>, i: nat, j: nat) returns (p: nat)
    requires i < j < |FirstSeen(s)|
    ensures p < |s| && FirstSeen(s)[i] in s[..p] && FirstSeen(s)[j] !in s[..p] && s[p] == FirstSeen(s)[j]
  {
    var init, last := s[..|s| - 1], s[|s| - 1];
    FirstSeenMembers(init);
    if j < |FirstSeen(init)| {
      p := FirstSeenOrder(init, i, j);
      assert init[..p] == s[..p];
    } else {
      p := |init|;
      assert s[..p] == init;
    }
  }

  lemma FirstSeenAppend<K>(s: seq<K>, k: K)
    ensures FirstSeen(s + [k]) == if k in s then FirstSeen(s) else FirstSeen(s) + [k]
  {
    assert (s + [k])[..|s|] == s;
  }
}
