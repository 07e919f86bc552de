/** Collecting items that share a key in a `Map`: the first item enters, later ones are combined
    into it, and the values come out in order of first appearance. */
module MergeByKey {
  import opened OrderedMap

  function MergeBy<T>(key: T -> string, combine: (T, T) -> T, items: seq<T>): OMap<string, T> {
    if items == [] then Empty()
    else
      var last := items[|items| - 1];
      MergeOne(key, combine, MergeBy(key, combine, items[..|items| - 1]), last)
  }

  function MergeOne<T>(key: T -> string, combine: (T, T) -> T, m: OMap<string, T>, item: T): OMap<string, T> {
    var k := key(item);
    Put(m, k, if k in m.vals then combine(m.vals[k], item) else item)
  }

  function Values<T>(m: OMap<string, T>): (r: seq<T>)
    requires Valid(m)
    ensures |r| == |m.keys|
  {
    seq(|m.keys|, i requires 0 <= i < |m.keys| => m.vals[m.keys[i]])
  }

  function Keys<T>(key: T -> string, items: seq<T>): (r: seq<string>)
    ensures |r| == |items|
  {
    seq(|items|, i requires 0 <= i < |items| => key(items[i]))
  }

  /** The items carrying the key, or any other tag, in order. */
  function WithKey<T, L(==)>(key: T -> L, items: seq<T>, k: L): seq<T> {
    if items == [] then []
    else
      var last := items[|items| - 1];
      WithKey(key, items[..|items| - 1], k) + if key(last) == k then [last] else []
  }

  lemma KeysAt<T>(key: T -> string, items: seq<T>, i: nat)
    requires i < |items|
    ensures Keys(key, items)[i] == key(items[i]) && items[i] in items
  {
  }

  lemma MergeByNext<T>(key: T -> string, combine: (T, T) -> T, items: seq<T>, i: nat)
    requires i <= |items|
    ensures MergeBy(key, combine, items[..0]) == Empty() && (i == |items| ==> items[..i] == items)
    ensures i < |items| ==>
              MergeBy(key, combine, items[..i + 1]) == MergeOne(key, combine, MergeBy(key, combine, items[..i]), items[i])
  {
    if i < |items| { assert items[..i + 1][..i] == items[..i]; }
  }

  lemma WithKeyAppend<T, L>(key: T -> L, items: seq<T>, item: T, k: L)
    ensures WithKey(key, items + [item], k) == WithKey(key, items, k) + if key(item) == k then [item] else []
  {
    assert (items + [item])[..|items|] == items;
  }

  /** The first item with all later ones combined into it, in order. */
  function FoldAll<T>(combine: (T, T) -> T, items: seq<T>): T
    requires items != []
  {
    if |items| == 1 then items[0] else combine(FoldAll(combine, items[..|items| - 1]), items[|items| - 1])
  }

  /** Combining keeps the key. */
  ghost predicate KeepsKey<T(!new)>(key: T -> string, combine: (T, T) -> T) {
    forall a, b :: key(a) == key(b) ==> key(combine(a, b)) == key(a)
  }

  lemma {:induction false} MergeMeans<T(!new)>(key: T -> string, combine: (T, T) -> T, items: seq<T>)
    requires KeepsKey(key, combine)
    ensures var m := MergeBy(key, combine, items);
            && Valid(m) && m.keys == FirstSeen(Keys(key, items))
            && (forall k :: k in m.vals ==>
                  && WithKey(key, items, k) != []
                  && m.vals[k] == FoldAll(combine, WithKey(key, items, k))
                  && key(m.vals[k]) == k)
            && (forall k :: WithKey(key, items, k) != [] ==> k in m.vals)
  {
    if items != [] {
      var init, last := items[..|items| - 1], items[|items| - 1];
      MergeMeans(key, combine, init);
      var before, m, k := MergeBy(key, combine, init), MergeBy(key, combine, items), key(last);
      assert Keys(key, items) == Keys(key, init) + [k];
      FirstSeenAppend(Keys(key, init), k);
      FirstSeenMembers(Keys(key, init));
      forall j | j in m.vals ensures
        WithKey(key, items, j) != [] && m.vals[j] == FoldAll(combine, WithKey(key, items, j)) && key(m.vals[j]) == j
      {
        if j == k {
          var earlier := WithKey(key, init, k);
          assert WithKey(key, items, k) == earlier + [last];
          if k in before.vals {
            FoldAppend(combine, earlier, last);
          } else {
            assert earlier == [];
          }
        } else {
          assert WithKey(key, items, j) == WithKey(key, init, j);
        }
      }
    }
  }

  lemma FoldAppend<T>(combine: (T, T) -> T, items: seq<T>, item: T)
    requires items != []
    ensures FoldAll(combine, items + [item]) == combine(FoldAll(combine, items), item)
  {
    assert (items + [item])[..|items|] == items;
  }

  /** Items with different keys merge to themselves. */
  lemma {:induction false} MergeDistinct<T>(key: T -> string, combine: (T, T) -> T, items: seq<T>)
    requires Distinct(Keys(key, items))
    ensures var m := MergeBy(key, combine, items);
            Valid(m) && m.keys == Keys(key, items) && Values(m) == items
  {
    hide Keys, Values, Distinct;
    if items == [] {
      NoKeys(key);
    } else {
      var init, last := items[..|items| - 1], items[|items| - 1];
      LastKey(key, items);
      MergeDistinct(key, combine, init);
      var before := MergeBy(key, combine, init);
      ValuesPut(before, key(last), last);
      assert items == init + [last];
    }
  }

  lemma NoKeys<T>(key: T -> string)
    ensures Keys(key, []) == [] && Values<T>(Empty()) == []
  {
  }

  lemma LastKey<T>(key: T -> string, items: seq<T>)
    requires items != []
    ensures Keys(key, items) == Keys(key, items[..|items| - 1]) + [key(items[|items| - 1])]
    ensures Distinct(Keys(key, items)) ==>
              Distinct(Keys(key, items[..|items| - 1])) && key(items[|items| - 1]) !in Keys(key, items[..|items| - 1])
  {
    var init, last := items[..|items| - 1], items[|items| - 1];
    assert forall i :: 0 <= i < |init| ==> Keys(key, items)[i] == Keys(key, init)[i];
    assert Keys(key, items)[|init|] == key(last);
  }

  lemma ValuesPut<T>(m: OMap<string, T>, k: string, v: T)
    requires Valid(m) && k !in m.keys
    ensures Valid(Put(m, k, v)) && k !in m.vals && Values(Put(m, k, v)) == Values(m) + [v]
  {
  }

  lemma ValuesUpdate<T>(m: OMap<string, T>, i: nat, v: T)
    requires Valid(m) && i < |m.keys|
    ensures m.keys[i] in m.vals && Valid(Put(m, m.keys[i], v)) && Values(Put(m, m.keys[i], v)) == Values(m)[i := v]
  {
  }

  /** Merging twice is merging once. */
  lemma MergeIdempotent<T(!new)>(key: T -> string, combine: (T, T) -> T, items: seq<T>)
    requires KeepsKey(key, combine)
    ensures var m := MergeBy(key, combine, items);
            Valid(m) && MergeBy(key, combine, Values(m)) == m
  {
    hide FirstSeen, Distinct, WithKey, FoldAll, MergeBy;
    MergeMeans(key, combine, items);
    var m := MergeBy(key, combine, items);
    DistinctWhenValid(m);
    assert Keys(key, Values(m)) == m.keys;
    MergeDistinct(key, combine, Values(m));
    SameEntries(m, MergeBy(key, combine, Values(m)));
  }

  lemma DistinctWhenValid<T>(m: OMap<string, T>)
    requires Valid(m)
    ensures Distinct(m.keys)
  {
  }

  lemma SameEntries<T>(a: OMap<string, T>, b: OMap<string, T>)
    requires Valid(a) && Valid(b) && a.keys == b.keys && Values(a) == Values(b)
    ensures a == b
  {
    hide Distinct;
    forall k | k in a.vals ensures k in b.vals && a.vals[k] == b.vals[k] {
      var i :| 0 <= i < |a.keys| && a.keys[i] == k;
      assert Values(a)[i] == Values(b)[i];
    }
    assert a.vals == b.vals;
  }

  function Sum<T>(figure: T -> real, items: seq<T>): real {
    if items == [] then 0.0 else Sum(figure, items[..|items| - 1]) + figure(items[|items| - 1])
  }

  lemma SumAppend<T>(figure: T -> real, items: seq<T>, item: T)
    ensures Sum(figure, items + [item]) == Sum(figure, items) + figure(item)
  {
    assert (items + [item])[..|items|] == items;
  }

  ghost predicate AddsUp<T(!new)>(figure: T -> real, combine: (T, T) -> T) {
    forall a, b :: figure(combine(a, b)) == figure(a) + figure(b)
  }

  lemma {:induction false} SumUpdate<T>(figure: T -> real, items: seq<T>, i: nat, item: T)
    requires i < |items|
    ensures Sum(figure, items[i := item]) == Sum(figure, items) - figure(items[i]) + figure(item)
  {
    var init := items[..|items| - 1];
    if i == |items| - 1 {
      assert items[i := item][..|items| - 1] == init;
    } else {
      SumUpdate(figure, init, i, item);
      assert items[i := item][..|items| - 1] == init[i := item];
    }
  }

  /** The last item is combined into the merged one with its key, or comes last itself. */
  lemma MergeNext<T(!new)>(key: T -> string, combine: (T, T) -> T, items: seq<T>) returns (i: nat)
    requires KeepsKey(key, combine) && items != []
    ensures Valid(MergeBy(key, combine, items)) && Valid(MergeBy(key, combine, items[..|items| - 1]))
    ensures var before, last := Values(MergeBy(key, combine, items[..|items| - 1])), items[|items| - 1];
            var after := Values(MergeBy(key, combine, items));
            if i < |before| then key(before[i]) == key(last) && after == before[i := combine(before[i], last)]
            else after == before + [last]
  {
    var init, last := items[..|items| - 1], items[|items| - 1];
    MergeMeans(key, combine, init);
    var m, k := MergeBy(key, combine, init), key(last);
    if k in m.vals {
      i :| 0 <= i < |m.keys| && m.keys[i] == k;
      ValuesUpdate(m, i, combine(m.vals[k], last));
    } else {
      i := |m.keys|;
      ValuesPut(m, k, last);
    }
  }

  lemma NothingMerged<T>(key: T -> string, combine: (T, T) -> T)
    ensures MergeBy(key, combine, []) == Empty() && Values<T>(Empty()) == []
  {
  }

  // ---------------------------------------------------------------------------
  // Sums by key, by any other tag, and altogether

  /** Items with equal keys have equal tags. */
  ghost predicate Faithful<T, L>(key: T -> string, tag: T -> L, items: seq<T>) {
    forall a, b :: a in items && b in items && key(a) == key(b) ==> tag(a) == tag(b)
  }

  ghost predicate KeepsTag<T(!new), L>(tag: T -> L, combine: (T, T) -> T) {
    forall a, b :: tag(combine(a, b)) == tag(a)
  }

  lemma {:induction false} FoldKeepsTag<T(!new), L>(tag: T -> L, combine: (T, T) -> T, items: seq<T>)
    requires KeepsTag(tag, combine) && items != []
    ensures tag(FoldAll(combine, items)) == tag(items[0])
  {
    if |items| > 1 { FoldKeepsTag(tag, combine, items[..|items| - 1]); }
  }

  lemma {:induction false} WithKeyMembers<T, L>(key: T -> L, items: seq<T>, k: L)
    ensures forall x :: x in WithKey(key, items, k) ==> x in items && key(x) == k
    ensures forall x :: x in items && key(x) == k ==> x in WithKey(key, items, k)
  {
    if items != [] {
      WithKeyMembers(key, items[..|items| - 1], k);
      assert items == items[..|items| - 1] + [items[|items| - 1]];
    }
  }

  /** A merged item has the key and the tag of the first item with its key. */
  lemma MergedFrom<T(!new), L>(key: T -> string, combine: (T, T) -> T, tag: T -> L, items: seq<T>, i: nat)
    returns (first: T)
    requires KeepsKey(key, combine) && KeepsTag(tag, combine)
    requires Valid(MergeBy(key, combine, items)) && i < |Values(MergeBy(key, combine, items))|
    ensures var v := Values(MergeBy(key, combine, items))[i];
            && first in items && key(first) == key(v) && tag(first) == tag(v)
            && WithKey(key, items, key(v)) != [] && first == WithKey(key, items, key(v))[0]
  {
    MergeMeans(key, combine, items);
    var m := MergeBy(key, combine, items);
    var k := m.keys[i];
    assert k in m.vals;
    var same := WithKey(key, items, k);
    FoldKeepsTag(tag, combine, same);
    WithKeyMembers(key, items, k);
    first := same[0];
    assert first in same;
  }

  function SumWith<T, L(==)>(figure: T -> real, tag: T -> L, items: seq<T>, l: L): real {
    Sum(figure, WithKey(tag, items, l))
  }

  lemma SumWithAppend<T, L>(figure: T -> real, tag: T -> L, items: seq<T>, item: T, l: L)
    ensures SumWith(figure, tag, [], l) == 0.0
    ensures SumWith(figure, tag, items + [item], l) ==
            SumWith(figure, tag, items, l) + if tag(item) == l then figure(item) else 0.0
  {
    assert (items + [item])[..|items|] == items;
    var earlier := WithKey(tag, items, l);
    SumAppend(figure, earlier, item);
    assert earlier + [] == earlier;
  }

  lemma {:induction false} SumWithUpdate<T, L>(figure: T -> real, tag: T -> L, items: seq<T>, i: nat, item: T, l: L)
    requires i < |items| && tag(items[i]) == tag(item)
    ensures SumWith(figure, tag, items[i := item], l) ==
            SumWith(figure, tag, items, l) + if tag(item) == l then figure(item) - figure(items[i]) else 0.0
  {
    hide SumWith;
    var init, last := items[..|items| - 1], items[|items| - 1];
    assert items == init + [last];
    SumWithAppend(figure, tag, init, last, l);
    if i == |items| - 1 {
      assert items[i := item] == init + [item];
      SumWithAppend(figure, tag, init, item, l);
    } else {
      SumWithUpdate(figure, tag, init, i, item, l);
      assert items[i := item] == init[i := item] + [last];
      SumWithAppend(figure, tag, init[i := item], last, l);
    }
  }

  /** MAIN RESULT. Where items with equal keys have equal tags, the merged items carry, for every
      tag, the sum the original items carried. */
  lemma {:induction false} MergeKeepsSums<T(!new), L>(
      key: T -> string, combine: (T, T) -> T, figure: T -> real, tag: T -> L, items: seq<T>, l: L)
    requires KeepsKey(key, combine) && AddsUp(figure, combine) && KeepsTag(tag, combine)
    requires Faithful(key, tag, items)
    ensures Valid(MergeBy(key, combine, items))
    ensures SumWith(figure, tag, Values(MergeBy(key, combine, items)), l) == SumWith(figure, tag, items, l)
  {
    hide MergeBy, Values, Valid, KeepsKey, WithKey, SumWith, Faithful, AddsUp, KeepsTag;
    if items == [] {
      NothingMerged(key, combine);
    } else {
      var init, last := items[..|items| - 1], items[|items| - 1];
      assert items == init + [last];
      FaithfulBefore(key, tag, init, last);
      MergeKeepsSums(key, combine, figure, tag, init, l);
      var i := MergeNext(key, combine, items);
      var before := Values(MergeBy(key, combine, init));
      SumWithAppend(figure, tag, init, last, l);
      if i < |before| {
        var first := MergedFrom(key, combine, tag, init, i);
        TagShared(key, tag, init, last, first);
        CombinedFigures(combine, figure, tag, before[i], last);
        SumWithUpdate(figure, tag, before, i, combine(before[i], last), l);
      } else {
        SumWithAppend(figure, tag, before, last, l);
      }
    }
  }

  lemma CombinedFigures<T(!new), L>(combine: (T, T) -> T, figure: T -> real, tag: T -> L, a: T, b: T)
    requires AddsUp(figure, combine) && KeepsTag(tag, combine)
    ensures figure(combine(a, b)) == figure(a) + figure(b) && tag(combine(a, b)) == tag(a)
  {
  }

  lemma FaithfulBefore<T, L>(key: T -> string, tag: T -> L, init: seq<T>, last: T)
    requires Faithful(key, tag, init + [last])
    ensures Faithful(key, tag, init)
  {
    assert forall x :: x in init ==> x in init + [last];
  }

  lemma TagShared<T, L>(key: T -> string, tag: T -> L, init: seq<T>, last: T, first: T)
    requires Faithful(key, tag, init + [last]) && first in init && key(first) == key(last)
    ensures tag(first) == tag(last)
  {
    assert first in init + [last] && last in init + [last];
  }

  lemma {:induction false} NothingWith<T, L>(figure: T -> real, tag: T -> L, items: seq<T>, l: L)
    requires forall x :: x in items ==> tag(x) != l
    ensures SumWith(figure, tag, items, l) == 0.0
  {
    if items == [] {
    } else {
      var init, last := items[..|items| - 1], items[|items| - 1];
      assert items == init + [last] && last in items;
      NothingWith(figure, tag, init, l);
      SumWithAppend(figure, tag, init, last, l);
    }
  }

  lemma {:induction false} SomethingWith<T, L>(figure: T -> real, tag: T -> L, items: seq<T>, l: L)
    requires forall x :: x in items ==> figure(x) > 0.0
    ensures SumWith(figure, tag, items, l) >= 0.0
    ensures (exists x :: x in items && tag(x) == l) ==> SumWith(figure, tag, items, l) > 0.0
  {
    if items == [] {
    } else {
      var init, last := items[..|items| - 1], items[|items| - 1];
      assert items == init + [last] && last in items;
      assert forall x :: x in init ==> x in items;
      SomethingWith(figure, tag, init, l);
      SumWithAppend(figure, tag, init, last, l);
    }
  }

  /** Equal tags mean equal keys. */
  ghost predicate Determines<T(!new), L>(tag: T -> L, key: T -> string) {
    forall a, b :: tag(a) == tag(b) ==> key(a) == key(b)
  }

  /** MAIN RESULT. For positive figures and tags that determine the key, all sums survive exactly
      when items with equal keys have equal tags: a key shared by two tags hands the figures of
      one to the other. */
  lemma MergeSumsExactly<T(!new), L(!new)>(
      key: T -> string, combine: (T, T) -> T, figure: T -> real, tag: T -> L, items: seq<T>)
    requires KeepsKey(key, combine) && AddsUp(figure, combine) && KeepsTag(tag, combine)
    requires Determines(tag, key) && forall x :: x in items ==> figure(x) > 0.0
    ensures Valid(MergeBy(key, combine, items))
    ensures (forall l :: SumWith(figure, tag, Values(MergeBy(key, combine, items)), l) == SumWith(figure, tag, items, l))
            <==> Faithful(key, tag, items)
  {
    hide MergeBy, Values, KeepsKey, AddsUp, SumWith, WithKey, Distinct, FirstSeen, Keys, KeepsTag;
    MergeMeans(key, combine, items);
    if Faithful(key, tag, items) {
      forall l { MergeKeepsSums(key, combine, figure, tag, items, l); }
    } else {
      var a, b :| a in items && b in items && key(a) == key(b) && tag(a) != tag(b);
      WithKeyMembers(key, items, key(a));
      assert a in WithKey(key, items, key(a));
      var first := WithKey(key, items, key(a))[0];
      var loser := if tag(a) != tag(first) then a else b;
      var merged := Values(MergeBy(key, combine, items));
      SomethingWith(figure, tag, items, tag(loser));
      forall v | v in merged ensures tag(v) != tag(loser) {
        var i: nat :| i < |merged| && merged[i] == v;
        var from := MergedFrom(key, combine, tag, items, i);
        assert tag(from) == tag(loser) ==> key(from) == key(loser);
      }
      NothingWith(figure, tag, merged, tag(loser));
    }
  }

  /** So the grand total is kept, whatever the keys are. */
  lemma {:induction false} MergeKeepsTotal<T(!new)>(key: T -> string, combine: (T, T) -> T, figure: T -> real, items: seq<T>)
    requires KeepsKey(key, combine) && AddsUp(figure, combine)
    ensures Valid(MergeBy(key, combine, items)) && Sum(figure, Values(MergeBy(key, combine, items))) == Sum(figure, items)
  {
    hide MergeBy, Values, Valid, KeepsKey;
    if items == [] {
      NothingMerged(key, combine);
    } else {
      var init, last := items[..|items| - 1], items[|items| - 1];
      MergeKeepsTotal(key, combine, figure, init);
      var i := MergeNext(key, combine, items);
      var before := Values(MergeBy(key, combine, init));
      if i < |before| {
        SumUpdate(figure, before, i, combine(before[i], last));
      } else {
        SumAppend(figure, before, last);
      }
    }
  }

  // ---------------------------------------------------------------------------
  // Keys joined with a separator

  /** A part without the separator can be read off the front of a joined key. */
  lemma SplitAtSeparator(sep: char, a: string, x: string, b: string, y: string)
    requires sep !in a && sep !in b && a + [sep] + x == b + [sep] + y
    ensures a == b && x == y
  {
    var s, t := a + [sep] + x, b + [sep] + y;
    assert s[|a|] == sep && t[|b|] == sep;
    assert forall i :: 0 <= i < |a| ==> a[i] in a && s[i] == a[i];
    assert forall i :: 0 <= i < |b| ==> b[i] in b && t[i] == b[i];
    assert |a| == |b|;
    assert a == s[..|a|] && b == t[..|b|];
    assert x == s[|a| + 1..] && y == t[|b| + 1..];
  }

  /** And so it can off the end. */
  lemma SplitAtLastSeparator(sep: char, a: string, x: string, b: string, y: string)
    requires sep !in x && sep !in y && a + [sep] + x == b + [sep] + y
    ensures a == b && x == y
  {
    var s := a + [sep] + x;
    LastSeparator(sep, a, x, s, |b|);
    LastSeparator(sep, b, y, s, |a|);
    assert a == s[..|a|] && b == s[..|b|];
    assert x == s[|a| + 1..] && y == s[|b| + 1..];
  }

  lemma LastSeparator(sep: char, a: string, x: string, s: string, i: nat)
    requires sep !in x && s == a + [sep] + x && i < |s| && s[i] == sep
    ensures i <= |a|
  {
    assert forall j :: 0 <= j < |x| ==> x[j] in x;
  }
}
