/** In-memory storage of contract ABIs with least-recently-used eviction and byte accounting. */
module AbiStorage {
  import opened Basics
  import opened OrderedMap

  datatype Config = Config(maxEntries: int, maxBytes: int)

  datatype Record = Record(byteSize: nat, expiresAt: int, lastAccessedAt: int, accessCount: nat)

  type Items = OMap<string, Record>

  datatype State = State(items: Items, totalBytes: int, accessSeq: nat, evictions: nat)

  // ---------------------------------------------------------------------------
  // Byte sums

  function Bytes(keys: seq<string>, vals: map<string, Record>): nat
    requires forall k :: k in keys ==> k in vals
  {
    if keys == [] then 0
    else
      assert keys[0] in keys;
      assert forall k :: k in keys[1..] ==> k in keys;
      vals[keys[0]].byteSize + Bytes(keys[1..], vals)
  }

  lemma {:induction false} BytesSame(keys: seq<string>, a: map<string, Record>, b: map<string, Record>)
    requires forall k :: k in keys ==> k in a && k in b && a[k].byteSize == b[k].byteSize
    ensures Bytes(keys, a) == Bytes(keys, b)
  {
    if keys != [] {
      assert keys[0] in keys;
      BytesSame(keys[1..], a, b);
    }
  }

  lemma {:induction false} BytesConcat(s: seq<string>, t: seq<string>, vals: map<string, Record>)
    requires forall k :: k in s + t ==> k in vals
    ensures (forall k :: k in s ==> k in vals) && (forall k :: k in t ==> k in vals)
    ensures Bytes(s + t, vals) == Bytes(s, vals) + Bytes(t, vals)
  {
    assert forall k :: k in s ==> k in s + t;
    assert forall k :: k in t ==> k in s + t;
    if s == [] {
      assert s + t == t;
    } else {
      assert (s + t)[1..] == s[1..] + t;
      BytesConcat(s[1..], t, vals);
    }
  }

  lemma BytesCons(key: string, keys: seq<string>, vals: map<string, Record>)
    requires forall k :: k in keys ==> k in vals
    requires key in vals
    ensures forall k :: k in [key] + keys ==> k in vals
    ensures Bytes([key] + keys, vals) == vals[key].byteSize + Bytes(keys, vals)
  {
    assert ([key] + keys)[1..] == keys;
  }

  /** Removing one key takes its bytes off the sum. */
  lemma {:induction false} BytesWithout(keys: seq<string>, vals: map<string, Record>, key: string)
    requires Distinct(keys) && key in keys && forall k :: k in keys ==> k in vals
    ensures forall k :: k in Keep(keys, {key}) ==> k in vals
    ensures Bytes(keys, vals) == vals[key].byteSize + Bytes(Keep(keys, {key}), vals)
  {
    KeepMembers(keys, {key});
    var first, rest := keys[0], keys[1..];
    assert first in keys;
    assert forall k :: k in rest ==> k in keys;
    if first == key {
      assert key !in rest;
      KeepNothingGone(rest, {key});
      assert Keep(keys, {key}) == rest;
    } else {
      assert keys == [first] + rest;
      BytesWithout(rest, vals, key);
      BytesCons(first, Keep(rest, {key}), vals);
      BytesCons(first, rest, vals);
    }
  }

  function Total(items: Items): nat
    requires Valid(items)
  {
    Bytes(items.keys, items.vals)
  }

  lemma TotalWithout(items: Items, key: string)
    requires Valid(items) && key in items.vals
    ensures Valid(Remove(items, key))
    ensures Total(Remove(items, key)) == Total(items) - items.vals[key].byteSize
  {
    RemoveAllValid(items, {key});
    BytesWithout(items.keys, items.vals, key);
    KeepMembers(items.keys, {key});
    BytesSame(Keep(items.keys, {key}), items.vals, items.vals - {key});
  }

  lemma TotalPut(items: Items, key: string, r: Record)
    requires Valid(items)
    ensures Total(Put(items, key, r)) ==
            Total(items) + r.byteSize - if key in items.vals then items.vals[key].byteSize else 0
  {
    var after := Put(items, key, r);
    if key in items.vals {
      BytesWithout(items.keys, items.vals, key);
      BytesWithout(items.keys, after.vals, key);
      KeepMembers(items.keys, {key});
      BytesSame(Keep(items.keys, {key}), items.vals, after.vals);
    } else {
      assert forall k :: k in items.keys ==> k != key;
      BytesConcat(items.keys, [key], after.vals);
      BytesSame(items.keys, items.vals, after.vals);
      assert Bytes([key], after.vals) == r.byteSize + Bytes([], after.vals);
    }
  }

  // ---------------------------------------------------------------------------
  // Eviction

  /** The key with the smallest access stamp, the first of them in iteration order. */
  function Oldest(keys: seq<string>, vals: map<string, Record>): (key: string)
    requires keys != [] && forall k :: k in keys ==> k in vals
    ensures key in keys
    ensures forall k :: k in keys ==> vals[key].lastAccessedAt <= vals[k].lastAccessedAt
  {
    var last := keys[|keys| - 1];
    assert last in keys;
    if |keys| == 1 then last
    else
      var init := keys[..|keys| - 1];
      assert keys == init + [last];
      var best := Oldest(init, vals);
      if vals[last].lastAccessedAt < vals[best].lastAccessedAt then last else best
  }

  function EvictLru(s: State): State
    requires Valid(s.items) && s.items.keys != []
  {
    var key := Oldest(s.items.keys, s.items.vals);
    s.(items := Remove(s.items, key), totalBytes := s.totalBytes - s.items.vals[key].byteSize, evictions := s.evictions + 1)
  }

  predicate TooFull(cfg: Config, s: State, size: nat) {
    |s.items.keys| >= cfg.maxEntries || s.totalBytes + size > cfg.maxBytes
  }

  function EvictUntilFits(cfg: Config, s: State, size: nat): State
    requires Valid(s.items)
    decreases |s.items.keys|
  {
    if TooFull(cfg, s, size) && s.items.keys != [] then
      EvictionShrinks(s);
      EvictUntilFits(cfg, EvictLru(s), size)
    else s
  }

  lemma EvictionShrinks(s: State)
    requires Valid(s.items) && s.items.keys != []
    ensures Valid(EvictLru(s).items) && |EvictLru(s).items.keys| == |s.items.keys| - 1
  {
    var key := Oldest(s.items.keys, s.items.vals);
    RemoveAllValid(s.items, {key});
    KeepOneLess(s.items.keys, key);
  }

  lemma {:induction false} KeepOneLess(keys: seq<string>, key: string)
    requires Distinct(keys) && key in keys
    ensures |Keep(keys, {key})| == |keys| - 1
  {
    if keys[0] == key {
      assert key !in keys[1..];
      KeepNothingGone(keys[1..], {key});
    } else {
      KeepOneLess(keys[1..], key);
    }
  }

  // ---------------------------------------------------------------------------
  // Calls

  datatype Op =
    | Get(key: string)
    | Set(key: string, record: Record)
    | Delete(key: string)
    | Clear
    | CollectGarbage(now: int)

  function GetStep(s: State, key: string): State {
    if key !in s.items.vals then s
    else
      var r := s.items.vals[key];
      var r' := r.(lastAccessedAt := s.accessSeq + 1, accessCount := r.accessCount + 1);
      s.(items := Put(s.items, key, r'), accessSeq := s.accessSeq + 1)
  }

  /** `set` up to its eviction loop: an overwritten entry's bytes leave the total, and a stamp is taken. */
  function BeginSet(s: State, key: string): State {
    s.(totalBytes := s.totalBytes - if key in s.items.vals then s.items.vals[key].byteSize else 0,
       accessSeq := s.accessSeq + 1)
  }

  function SetStep(cfg: Config, s: State, key: string, r: Record): State
    requires Valid(s.items)
  {
    var room := EvictUntilFits(cfg, BeginSet(s, key), r.byteSize);
    room.(items := Put(room.items, key, r.(lastAccessedAt := s.accessSeq + 1)),
          totalBytes := room.totalBytes + r.byteSize)
  }

  function DeleteStep(s: State, key: string): State {
    if key !in s.items.vals then s
    else s.(items := Remove(s.items, key), totalBytes := s.totalBytes - s.items.vals[key].byteSize)
  }

  predicate Garbage(r: Record, now: int) {
    0 < r.expiresAt <= now
  }

  /** Deletes the garbage among `keys`, in order. */
  function Collect(s: State, keys: seq<string>, now: int): State
    decreases |keys|
  {
    if keys == [] then s
    else
      var k := keys[0];
      Collect(if k in s.items.vals && Garbage(s.items.vals[k], now) then DeleteStep(s, k) else s, keys[1..], now)
  }

  function Step(cfg: Config, s: State, op: Op): State
    requires Valid(s.items)
  {
    match op
    case Get(key) => GetStep(s, key)
    case Set(key, r) => SetStep(cfg, s, key, r)
    case Delete(key) => DeleteStep(s, key)
    case Clear => s.(items := Empty(), totalBytes := 0)
    case CollectGarbage(now) => Collect(s, s.items.keys, now)
  }

  const INITIAL := State(Empty(), 0, 0, 0)

  function Run(cfg: Config, ops: seq<Op>): (s: State)
    ensures Valid(s.items)
  {
    if ops == [] then INITIAL
    else
      var before := Run(cfg, ops[..|ops| - 1]);
      StepValid(cfg, before, ops[|ops| - 1]);
      Step(cfg, before, ops[|ops| - 1])
  }

  lemma StepValid(cfg: Config, s: State, op: Op)
    requires Valid(s.items)
    ensures Valid(Step(cfg, s, op).items)
  {
    match op {
      case Set(key, r) => EvictValid(cfg, BeginSet(s, key), r.byteSize);
      case Delete(key) => RemoveAllValid(s.items, {key});
      case CollectGarbage(now) => CollectValid(s, s.items.keys, now);
      case _ =>
    }
  }

  lemma {:induction false} EvictValid(cfg: Config, s: State, size: nat)
    requires Valid(s.items)
    ensures Valid(EvictUntilFits(cfg, s, size).items)
    decreases |s.items.keys|
  {
    if TooFull(cfg, s, size) && s.items.keys != [] {
      EvictionShrinks(s);
      EvictValid(cfg, EvictLru(s), size);
    }
  }

  lemma {:induction false} CollectValid(s: State, keys: seq<string>, now: int)
    requires Valid(s.items)
    ensures Valid(Collect(s, keys, now).items)
    decreases |keys|
  {
    if keys != [] {
      RemoveAllValid(s.items, {keys[0]});
      CollectValid(if keys[0] in s.items.vals && Garbage(s.items.vals[keys[0]], now) then DeleteStep(s, keys[0]) else s,
                   keys[1..], now);
    }
  }

  // ---------------------------------------------------------------------------
  // Stamps

  predicate DistinctStamps(vals: map<string, Record>) {
    forall j, k :: j in vals && k in vals && j != k ==> vals[j].lastAccessedAt != vals[k].lastAccessedAt
  }

  predicate StampsUpTo(vals: map<string, Record>, latest: nat) {
    forall k :: k in vals ==> 1 <= vals[k].lastAccessedAt <= latest
  }

  predicate Stamped(s: State) {
    DistinctStamps(s.items.vals) && StampsUpTo(s.items.vals, s.accessSeq)
  }

  predicate Shrunk(a: State, b: State) {
    && b.accessSeq == a.accessSeq
    && forall k :: k in b.items.vals ==> k in a.items.vals && b.items.vals[k] == a.items.vals[k]
  }

  lemma {:induction false} EvictShrinks(cfg: Config, s: State, size: nat)
    requires Valid(s.items)
    ensures Shrunk(s, EvictUntilFits(cfg, s, size))
    decreases |s.items.keys|
  {
    if TooFull(cfg, s, size) && s.items.keys != [] {
      EvictionShrinks(s);
      EvictShrinks(cfg, EvictLru(s), size);
    }
  }

  lemma {:induction false} CollectShrinks(s: State, keys: seq<string>, now: int)
    ensures Shrunk(s, Collect(s, keys, now))
    decreases |keys|
  {
    if keys != [] {
      CollectShrinks(if keys[0] in s.items.vals && Garbage(s.items.vals[keys[0]], now) then DeleteStep(s, keys[0]) else s,
                     keys[1..], now);
    }
  }

  /** Access stamps of live entries stay pairwise distinct over every run. */
  lemma {:induction false} RunStamped(cfg: Config, ops: seq<Op>)
    ensures Stamped(Run(cfg, ops))
  {
    if ops != [] {
      var before, op := Run(cfg, ops[..|ops| - 1]), ops[|ops| - 1];
      RunStamped(cfg, ops[..|ops| - 1]);
      StepStamped(cfg, before, op);
    }
  }

  lemma StepStamped(cfg: Config, s: State, op: Op)
    requires Valid(s.items) && Stamped(s)
    ensures Stamped(Step(cfg, s, op))
  {
    match op {
      case Set(key, r) => EvictShrinks(cfg, BeginSet(s, key), r.byteSize);
      case CollectGarbage(now) => CollectShrinks(s, s.items.keys, now);
      case _ =>
    }
  }

  /** With distinct stamps, the entry an eviction removes is the only least recently used one. */
  lemma EvictsUniqueOldest(s: State)
    requires Valid(s.items) && s.items.keys != [] && Stamped(s)
    ensures var key := Oldest(s.items.keys, s.items.vals);
            && key in s.items.vals && EvictLru(s).items == Remove(s.items, key)
            && (forall k :: k in s.items.vals && k != key ==>
                  s.items.vals[key].lastAccessedAt < s.items.vals[k].lastAccessedAt)
  {
    var key := Oldest(s.items.keys, s.items.vals);
    forall k | k in s.items.vals && k != key
      ensures s.items.vals[key].lastAccessedAt < s.items.vals[k].lastAccessedAt
    {
      assert k in s.items.keys;
    }
  }

  /** Whatever went is less recently used than whatever stayed. */
  predicate OlderWent(s: State, t: State) {
    forall a, b :: a in s.items.vals && a !in t.items.vals && b in s.items.vals && b in t.items.vals ==>
      s.items.vals[a].lastAccessedAt < s.items.vals[b].lastAccessedAt
  }

  lemma OlderWentStep(s: State, t: State)
    requires Valid(s.items) && Stamped(s) && s.items.keys != []
    requires OlderWent(EvictLru(s), t) && Shrunk(EvictLru(s), t)
    ensures OlderWent(s, t)
  {
    hide Distinct, Stamped, EvictLru, Remove, Oldest, Shrunk;
    EvictsUniqueOldest(s);
    var key := Oldest(s.items.keys, s.items.vals);
    OnlyOneLess(s.items, key);
    OneEvicted(s, t);
    forall a, b | a in s.items.vals && a !in t.items.vals && b in s.items.vals && b in t.items.vals
      ensures s.items.vals[a].lastAccessedAt < s.items.vals[b].lastAccessedAt
    {
      if a != key {
        assert a in EvictLru(s).items.vals;
      }
    }
  }

  lemma OnlyOneLess(items: Items, key: string)
    ensures key !in Remove(items, key).vals
    ensures forall k :: k in items.vals && k != key ==> k in Remove(items, key).vals && Remove(items, key).vals[k] == items.vals[k]
    ensures forall k :: k in Remove(items, key).vals ==> k in items.vals
  {
  }

  lemma OneEvicted(s: State, t: State)
    requires Valid(s.items) && s.items.keys != [] && Shrunk(EvictLru(s), t)
    ensures forall k :: k in t.items.vals ==> k in EvictLru(s).items.vals
  {
  }

  /** The loop evicts least recently used entries and no more than it must: whatever goes is older
      than whatever stays, room is made unless nothing is left, and before the last eviction there
      was no room. */
  lemma {:induction false} EvictsJustEnough(cfg: Config, s: State, size: nat)
    requires Valid(s.items) && Stamped(s)
    ensures var t := EvictUntilFits(cfg, s, size);
            && OlderWent(s, t)
            && (t.items.keys == [] || !TooFull(cfg, t, size))
            && (t != s ==> exists u: State :: Valid(u.items) && u.items.keys != [] && TooFull(cfg, u, size) && EvictLru(u) == t)
    decreases |s.items.keys|
  {
    hide TooFull, OlderWent, Valid, EvictLru, Stamped;
    if TooFull(cfg, s, size) && s.items.keys != [] {
      var next := EvictLru(s);
      EvictionShrinks(s);
      EvictionStamped(s);
      EvictsJustEnough(cfg, next, size);
      EvictShrinks(cfg, next, size);
      OlderWentStep(s, EvictUntilFits(cfg, next, size));
    } else {
      NothingWent(s);
    }
  }

  lemma NothingWent(s: State)
    ensures OlderWent(s, s)
  {
  }

  lemma EvictionStamped(s: State)
    requires Valid(s.items) && Stamped(s) && s.items.keys != []
    ensures Stamped(EvictLru(s))
  {
  }

  // ---------------------------------------------------------------------------
  // Byte accounting

  /** By how much the running total falls short of the bytes held. */
  function Deficit(s: State): int
    requires Valid(s.items)
  {
    Total(s.items) - s.totalBytes
  }

  lemma {:induction false} EvictKeepsDeficit(cfg: Config, s: State, size: nat)
    requires Valid(s.items)
    ensures Valid(EvictUntilFits(cfg, s, size).items)
    ensures Deficit(EvictUntilFits(cfg, s, size)) == Deficit(s)
    decreases |s.items.keys|
  {
    if TooFull(cfg, s, size) && s.items.keys != [] {
      EvictionShrinks(s);
      TotalWithout(s.items, Oldest(s.items.keys, s.items.vals));
      EvictKeepsDeficit(cfg, EvictLru(s), size);
    }
  }

  lemma {:induction false} CollectKeepsDeficit(s: State, keys: seq<string>, now: int)
    requires Valid(s.items)
    ensures Valid(Collect(s, keys, now).items)
    ensures Deficit(Collect(s, keys, now)) == Deficit(s)
    ensures Collect(s, keys, now).totalBytes <= s.totalBytes
    ensures |Collect(s, keys, now).items.keys| <= |s.items.keys|
    decreases |keys|
  {
    if keys != [] {
      var k := keys[0];
      if k in s.items.vals && Garbage(s.items.vals[k], now) {
        TotalWithout(s.items, k);
        CollectKeepsDeficit(DeleteStep(s, k), keys[1..], now);
      } else {
        CollectKeepsDeficit(s, keys[1..], now);
      }
    }
  }

  /** The keys used less recently than `key`. */
  function OlderThan(vals: map<string, Record>, key: string): set<string>
    requires key in vals
  {
    set k | k in vals && vals[k].lastAccessedAt < vals[key].lastAccessedAt
  }

  /** A `set` overwrites a live key that its own loop evicts, told from the state before the call:
      once every less recently used entry is gone, the others still leave no room. */
  predicate EvictsItself(cfg: Config, s: State, key: string, size: nat)
    requires Valid(s.items)
  {
    key in s.items.vals && StillTooFull(cfg, BeginSet(s, key), key, size)
  }

  predicate StillTooFull(cfg: Config, s: State, key: string, size: nat)
    requires Valid(s.items) && key in s.items.vals
  {
    var rest := RemoveAll(s.items, OlderThan(s.items.vals, key));
    RemoveAllValid(s.items, OlderThan(s.items.vals, key));
    |rest.keys| >= cfg.maxEntries || s.totalBytes - (Total(s.items) - Total(rest)) + size > cfg.maxBytes
  }

  lemma OlderAfterEviction(s: State, key: string, oldest: string)
    requires Valid(s.items) && Stamped(s) && key in s.items.vals && oldest in s.items.vals && oldest != key
    requires s.items.vals[oldest].lastAccessedAt < s.items.vals[key].lastAccessedAt
    ensures key in Remove(s.items, oldest).vals
    ensures RemoveAll(Remove(s.items, oldest), OlderThan(Remove(s.items, oldest).vals, key)) ==
            RemoveAll(s.items, OlderThan(s.items.vals, key))
  {
    var after := Remove(s.items, oldest);
    RemoveAllTwice(s.items, {oldest}, OlderThan(after.vals, key));
    assert {oldest} + OlderThan(after.vals, key) == OlderThan(s.items.vals, key);
  }

  lemma {:induction false} TotalAtMost(items: Items, gone: set<string>)
    requires Valid(items) && Valid(RemoveAll(items, gone))
    ensures Total(RemoveAll(items, gone)) <= Total(items)
    ensures |RemoveAll(items, gone).keys| <= |items.keys|
  {
    var rest := RemoveAll(items, gone);
    KeepMembers(items.keys, gone);
    BytesSame(rest.keys, rest.vals, items.vals);
    BytesOfKept(items.keys, items.vals, gone);
  }

  lemma {:induction false} BytesOfKept(keys: seq<string>, vals: map<string, Record>, gone: set<string>)
    requires forall k :: k in keys ==> k in vals
    ensures forall k :: k in Keep(keys, gone) ==> k in vals
    ensures Bytes(Keep(keys, gone), vals) <= Bytes(keys, vals)
  {
    KeepMembers(keys, gone);
    if keys != [] {
      var first, rest := keys[0], keys[1..];
      assert first in keys;
      assert forall k :: k in rest ==> k in keys;
      assert keys == [first] + rest;
      BytesOfKept(rest, vals, gone);
      BytesCons(first, rest, vals);
      if first !in gone { BytesCons(first, Keep(rest, gone), vals); } else { assert Keep(keys, gone) == Keep(rest, gone); }
    }
  }

  /** The eviction loop removes `key` exactly when the rest, without all older entries, is too full. */
  lemma {:induction false} EvictedExactly(cfg: Config, s: State, key: string, size: nat)
    requires Valid(s.items) && Stamped(s) && key in s.items.vals
    ensures key !in EvictUntilFits(cfg, s, size).items.vals <==> StillTooFull(cfg, s, key, size)
    decreases |s.items.keys|
  {
    var older := OlderThan(s.items.vals, key);
    var rest := RemoveAll(s.items, older);
    RemoveAllValid(s.items, older);
    TotalAtMost(s.items, older);
    assert key in s.items.keys;
    if TooFull(cfg, s, size) {
      EvictionShrinks(s);
      EvictsUniqueOldest(s);
      var oldest := Oldest(s.items.keys, s.items.vals);
      if oldest == key {
        assert older == {};
        RemoveNone(s.items);
        EvictShrinks(cfg, EvictLru(s), size);
      } else {
        OlderAfterEviction(s, key, oldest);
        TotalWithout(s.items, oldest);
        EvictedExactly(cfg, EvictLru(s), key, size);
      }
    }
  }

  /** MAIN RESULT, one call: the total falls short by exactly the old entry's bytes more when a
      `set` evicts the key it overwrites, starts afresh at `clear`, and otherwise moves with the
      bytes held. */
  lemma StepDeficit(cfg: Config, s: State, op: Op)
    requires Valid(s.items) && Stamped(s)
    ensures Valid(Step(cfg, s, op).items)
    ensures Deficit(Step(cfg, s, op)) == NextDeficit(cfg, s, op, Deficit(s))
  {
    StepValid(cfg, s, op);
    match op {
      case Get(key) =>
        if key in s.items.vals { TotalPut(s.items, key, GetStep(s, key).items.vals[key]); }
      case Set(key, r) => SetDeficit(cfg, s, key, r);
      case Delete(key) =>
        if key in s.items.vals { TotalWithout(s.items, key); }
      case Clear =>
      case CollectGarbage(now) => CollectKeepsDeficit(s, s.items.keys, now);
    }
  }

  function NextDeficit(cfg: Config, s: State, op: Op, deficit: int): int
    requires Valid(s.items)
  {
    match op
    case Set(key, r) =>
      if EvictsItself(cfg, s, key, r.byteSize) then deficit + s.items.vals[key].byteSize else deficit
    case Clear => 0
    case _ => deficit
  }

  lemma SetDeficit(cfg: Config, s: State, key: string, r: Record)
    requires Valid(s.items) && Stamped(s)
    ensures Valid(SetStep(cfg, s, key, r).items)
    ensures Deficit(SetStep(cfg, s, key, r)) ==
            Deficit(s) + if EvictsItself(cfg, s, key, r.byteSize) then s.items.vals[key].byteSize else 0
  {
    var begun := BeginSet(s, key);
    var room := EvictUntilFits(cfg, begun, r.byteSize);
    EvictKeepsDeficit(cfg, begun, r.byteSize);
    EvictShrinks(cfg, begun, r.byteSize);
    TotalPut(room.items, key, r.(lastAccessedAt := s.accessSeq + 1));
    if key in s.items.vals {
      EvictedExactly(cfg, begun, key, r.byteSize);
    }
  }

  /** It happens: overwriting an entry of 5 bytes by one of 11 in a storage of 10 leaves a total of 6. */
  lemma SelfEvictionHappens()
    ensures var cfg := Config(10, 10);
            var first := [Set("a", Record(5, 0, 0, 0))];
            var both := first + [Set("a", Record(11, 0, 0, 0))];
            && EvictsItself(cfg, Run(cfg, first), "a", 11)
            && Run(cfg, both).totalBytes == 6 && Total(Run(cfg, both).items) == 11 && Overdrawn(cfg, both) == 5
  {
    hide Valid, Distinct, Stamped;
    var cfg := Config(10, 10);
    var one, two := Set("a", Record(5, 0, 0, 0)), Set("a", Record(11, 0, 0, 0));
    var both := [one] + [two];
    assert both[..1] == [one] && [one][..0] == [];
    assert Run(cfg, []) == INITIAL;
    var s := Run(cfg, [one]);
    assert s == SetStep(cfg, INITIAL, "a", one.record);
    assert s.items.keys == ["a"] && s.items.vals == map["a" := Record(5, 0, 1, 0)] && s.totalBytes == 5;
    RunStamped(cfg, [one]);
    var begun := BeginSet(s, "a");
    assert OlderThan(s.items.vals, "a") == {};
    RemoveNone(s.items);
    assert EvictsItself(cfg, s, "a", 11);
    SetDeficit(cfg, s, "a", two.record);
    assert Run(cfg, both) == SetStep(cfg, s, "a", two.record);
    assert Bytes(["a"], s.items.vals) == 5 by { assert ["a"][1..] == []; }
    EvictFits(cfg, begun, 11);
    var after := EvictLru(begun);
    EvictionShrinks(begun);
    assert EvictUntilFits(cfg, begun, 11) == after;
    var t := Run(cfg, both);
    assert after.items.keys == [];
    assert t.items.keys == ["a"];
    assert Bytes(["a"], t.items.vals) == 11 by { assert ["a"][1..] == []; }
    assert Overdrawn(cfg, []) == 0;
    assert NextDeficit(cfg, INITIAL, one, 0) == 0;
    assert Overdrawn(cfg, [one]) == 0;
  }

  /** Within budget: entries at most the maximum or one, bytes at most the maximum unless one entry is left. */
  predicate WithinBudget(cfg: Config, s: State) {
    && |s.items.keys| <= (if cfg.maxEntries > 1 then cfg.maxEntries else 1)
    && (|s.items.keys| > 1 ==> s.totalBytes <= cfg.maxBytes)
  }

  lemma {:induction false} EvictFits(cfg: Config, s: State, size: nat)
    requires Valid(s.items)
    ensures var t := EvictUntilFits(cfg, s, size); t.items.keys == [] || !TooFull(cfg, t, size)
    decreases |s.items.keys|
  {
    if TooFull(cfg, s, size) && s.items.keys != [] {
      EvictionShrinks(s);
      EvictFits(cfg, EvictLru(s), size);
    }
  }

  lemma StepWithinBudget(cfg: Config, s: State, op: Op)
    requires Valid(s.items) && WithinBudget(cfg, s)
    ensures WithinBudget(cfg, Step(cfg, s, op))
  {
    match op {
      case Set(key, r) => EvictFits(cfg, BeginSet(s, key), r.byteSize);
      case CollectGarbage(now) => CollectKeepsDeficit(s, s.items.keys, now);
      case _ =>
    }
  }

  /** What the self-evicting overwrites since the last `clear` took off the total twice. */
  function Overdrawn(cfg: Config, ops: seq<Op>): int {
    if ops == [] then 0
    else
      NextDeficit(cfg, Run(cfg, ops[..|ops| - 1]), ops[|ops| - 1], Overdrawn(cfg, ops[..|ops| - 1]))
  }

  /** MAIN RESULT, whole runs: the total is the bytes held minus what was overdrawn, and the
      storage stays within budget. */
  lemma {:induction false} RunAccounts(cfg: Config, ops: seq<Op>)
    ensures var s := Run(cfg, ops);
            s.totalBytes == Total(s.items) - Overdrawn(cfg, ops) && WithinBudget(cfg, s) && Overdrawn(cfg, ops) >= 0
  {
    if ops != [] {
      var before, op := ops[..|ops| - 1], ops[|ops| - 1];
      RunAccounts(cfg, before);
      RunStamped(cfg, before);
      StepDeficit(cfg, Run(cfg, before), op);
      StepWithinBudget(cfg, Run(cfg, before), op);
    }
  }

  /** In a run without self-evicting overwrites the total is exact, so the bytes really held are
      within the maximum unless one entry is left. */
  lemma {:induction false} ExactWithoutSelfEviction(cfg: Config, ops: seq<Op>)
    requires forall n :: 0 <= n < |ops| && ops[n].Set? ==>
               !EvictsItself(cfg, Run(cfg, ops[..n]), ops[n].key, ops[n].record.byteSize)
    ensures var s := Run(cfg, ops);
            s.totalBytes == Total(s.items) && (|s.items.keys| > 1 ==> Total(s.items) <= cfg.maxBytes)
  {
    RunAccounts(cfg, ops);
    NeverOverdrawn(cfg, ops);
  }

  lemma {:induction false} NeverOverdrawn(cfg: Config, ops: seq<Op>)
    requires forall n :: 0 <= n < |ops| && ops[n].Set? ==>
               !EvictsItself(cfg, Run(cfg, ops[..n]), ops[n].key, ops[n].record.byteSize)
    ensures Overdrawn(cfg, ops) == 0
  {
    if ops != [] {
      var before := ops[..|ops| - 1];
      assert forall n :: 0 <= n < |before| ==> before[..n] == ops[..n];
      NeverOverdrawn(cfg, before);
      assert before == ops[..|ops| - 1];
    }
  }

  function GarbageAmong(keys: seq<string>, vals: map<string, Record>, now: int): set<string> {
    set k | k in keys && k in vals && Garbage(vals[k], now)
  }

  lemma GarbageOfFirst(k: string, rest: seq<string>, vals: map<string, Record>, now: int)
    requires k !in rest
    ensures GarbageAmong([], vals, now) == {}
    ensures GarbageAmong([k] + rest, vals, now) ==
            if k in vals && Garbage(vals[k], now) then {k} + GarbageAmong(rest, vals - {k}, now)
            else GarbageAmong(rest, vals, now)
  {
  }

  /** Garbage collection removes exactly the entries whose positive expiry has been reached. */
  lemma {:induction false} CollectMeans(s: State, keys: seq<string>, now: int)
    requires Distinct(keys)
    ensures Collect(s, keys, now).items == RemoveAll(s.items, GarbageAmong(keys, s.items.vals, now))
    decreases |keys|
  {
    hide GarbageAmong, Keep;
    if keys == [] {
      GarbageOfFirst("", [], s.items.vals, now);
      RemoveNone(s.items);
    } else {
      var k, rest := keys[0], keys[1..];
      assert keys == [k] + rest && k !in rest;
      GarbageOfFirst(k, rest, s.items.vals, now);
      if k in s.items.vals && Garbage(s.items.vals[k], now) {
        CollectMeans(DeleteStep(s, k), rest, now);
        RemoveAllTwice(s.items, {k}, GarbageAmong(rest, s.items.vals - {k}, now));
      } else {
        CollectMeans(s, rest, now);
      }
    }
  }

  // ---------------------------------------------------------------------------
  // What a run holds, told from its operations

  /** Which entries an operation leaves: all that were there but the deleted, the cleared, the
      garbage whose positive expiry has been reached, and what a `set` evicts; and the one it sets. */
  lemma StepLiveness(cfg: Config, s: State, op: Op, k: string)
    requires Valid(s.items)
    ensures var live, lives := k in s.items.vals, k in Step(cfg, s, op).items.vals;
            match op
            case Get(_) => lives <==> live
            case Set(key, _) => if k == key then lives else lives ==> live
            case Delete(key) => lives <==> live && k != key
            case Clear => !lives
            case CollectGarbage(now) => lives <==> live && !(0 < s.items.vals[k].expiresAt <= now)
  {
    match op {
      case Set(key, r) => EvictShrinks(cfg, BeginSet(s, key), r.byteSize);
      case CollectGarbage(now) => CollectMeans(s, s.items.keys, now);
      case _ =>
    }
  }

  /** What an operation makes of an entry it leaves. */
  lemma StepRecord(cfg: Config, s: State, op: Op, k: string)
    requires Valid(s.items) && k in Step(cfg, s, op).items.vals
    ensures var s' := Step(cfg, s, op);
            && s.accessSeq <= s'.accessSeq
            && if op.Set? && op.key == k then
                 s'.accessSeq == s.accessSeq + 1 && s'.items.vals[k] == op.record.(lastAccessedAt := s'.accessSeq)
               else
                 && k in s.items.vals
                 && if op == Get(k) then
                      && s'.accessSeq == s.accessSeq + 1
                      && s'.items.vals[k] ==
                         s.items.vals[k].(lastAccessedAt := s'.accessSeq, accessCount := s.items.vals[k].accessCount + 1)
                    else s'.items.vals[k] == s.items.vals[k]
  {
    match op {
      case Set(key, r) => EvictShrinks(cfg, BeginSet(s, key), r.byteSize);
      case CollectGarbage(now) => CollectShrinks(s, s.items.keys, now);
      case _ =>
    }
  }

  /** The record last set under the key and neither deleted nor cleared since, with the later hits
      counted in. */
  function LastRecord(ops: seq<Op>, k: string): Option<Record> {
    if ops == [] then None
    else
      var before := LastRecord(ops[..|ops| - 1], k);
      match ops[|ops| - 1]
      case Set(key, r) => if key == k then Some(r) else before
      case Get(key) =>
        if key == k && before.Some? then Some(before.value.(accessCount := before.value.accessCount + 1)) else before
      case Delete(key) => if key == k then None else before
      case Clear => None
      case CollectGarbage(_) => before
  }

  /** MAIN RESULT. A live entry is the one last set under its key, with every hit since counted. */
  lemma {:induction false} HoldsLastRecord(cfg: Config, ops: seq<Op>, k: string)
    requires k in Run(cfg, ops).items.vals
    ensures LastRecord(ops, k).Some?
    ensures var held, last := Run(cfg, ops).items.vals[k], LastRecord(ops, k).value;
            held.byteSize == last.byteSize && held.expiresAt == last.expiresAt && held.accessCount == last.accessCount
  {
    hide Step;
    if ops != [] {
      var init, op := ops[..|ops| - 1], ops[|ops| - 1];
      var s := Run(cfg, init);
      StepLiveness(cfg, s, op, k);
      StepRecord(cfg, s, op, k);
      if !(op.Set? && op.key == k) {
        HoldsLastRecord(cfg, init, k);
      }
    }
  }

  // ---------------------------------------------------------------------------
  // Least recently used

  /** The operation uses the key: it sets it, or gets it while it is live. */
  predicate UsesKey(cfg: Config, before: seq<Op>, op: Op, k: string) {
    match op
    case Set(key, _) => key == k
    case Get(key) => key == k && k in Run(cfg, before).items.vals
    case _ => false
  }

  /** The position of the last operation that uses the key, or -1. */
  function LastUse(cfg: Config, ops: seq<Op>, k: string): (i: int)
    ensures -1 <= i < |ops|
    ensures i >= 0 ==> UsesKey(cfg, ops[..i], ops[i], k)
  {
    if ops == [] then -1
    else if UsesKey(cfg, ops[..|ops| - 1], ops[|ops| - 1], k) then |ops| - 1
    else
      var i := LastUse(cfg, ops[..|ops| - 1], k);
      assert i >= 0 ==> ops[..|ops| - 1][..i] == ops[..i];
      i
  }

  /** MAIN RESULT. Of two live entries, the one used later has the larger stamp. */
  lemma {:induction false} UsedLaterStampedLater(cfg: Config, ops: seq<Op>, a: string, b: string)
    requires a in Run(cfg, ops).items.vals && b in Run(cfg, ops).items.vals
    ensures LastUse(cfg, ops, a) >= 0 && LastUse(cfg, ops, b) >= 0
    ensures LastUse(cfg, ops, a) < LastUse(cfg, ops, b) <==>
            Run(cfg, ops).items.vals[a].lastAccessedAt < Run(cfg, ops).items.vals[b].lastAccessedAt
  {
    hide Step, Stamped;
    if ops != [] {
      var init, op := ops[..|ops| - 1], ops[|ops| - 1];
      var s := Run(cfg, init);
      RunStamped(cfg, init);
      LiveStamps(s);
      StepUse(cfg, init, op, a);
      StepUse(cfg, init, op, b);
      StepRecord(cfg, s, op, a);
      StepRecord(cfg, s, op, b);
      var usesA, usesB := UsesKey(cfg, init, op, a), UsesKey(cfg, init, op, b);
      if !usesA && !usesB {
        UsedLaterStampedLater(cfg, init, a, b);
      } else if !usesA {
        UsedLaterStampedLater(cfg, init, a, a);
      } else if !usesB {
        UsedLaterStampedLater(cfg, init, b, b);
      }
    }
  }

  lemma LiveStamps(s: State)
    requires Stamped(s)
    ensures forall k :: k in s.items.vals ==> s.items.vals[k].lastAccessedAt <= s.accessSeq
  {
  }

  /** A key that is live after an operation was used by it or was live before. */
  lemma StepUse(cfg: Config, init: seq<Op>, op: Op, k: string)
    requires k in Step(cfg, Run(cfg, init), op).items.vals
    ensures k !in Run(cfg, init).items.vals ==> UsesKey(cfg, init, op, k)
    ensures UsesKey(cfg, init, op, k) <==> op == Get(k) || (op.Set? && op.key == k)
  {
    hide Step;
    StepLiveness(cfg, Run(cfg, init), op, k);
  }

  /** MAIN RESULT. Whatever a `set` evicts was last used before everything that stays. */
  lemma EvictsLeastRecentlyUsed(cfg: Config, ops: seq<Op>, key: string, r: Record, a: string, b: string)
    requires a != key && b != key
    requires a in Run(cfg, ops).items.vals && a !in Run(cfg, ops + [Set(key, r)]).items.vals
    requires b in Run(cfg, ops).items.vals && b in Run(cfg, ops + [Set(key, r)]).items.vals
    ensures LastUse(cfg, ops, a) < LastUse(cfg, ops, b)
  {
    hide LastUse, EvictUntilFits, Stamped;
    assert (ops + [Set(key, r)])[..|ops|] == ops;
    var s := Run(cfg, ops);
    RunStamped(cfg, ops);
    BegunStamped(s, key);
    EvictsJustEnough(cfg, BeginSet(s, key), r.byteSize);
    UsedLaterStampedLater(cfg, ops, a, b);
  }

  lemma BegunStamped(s: State, key: string)
    requires Stamped(s)
    ensures Stamped(BeginSet(s, key))
  {
  }

  /** Every eviction is counted. */
  lemma {:induction false} EvictionsCounted(cfg: Config, s: State, size: nat)
    requires Valid(s.items)
    ensures var t := EvictUntilFits(cfg, s, size);
            t.evictions - s.evictions == |s.items.keys| - |t.items.keys|
    decreases |s.items.keys|
  {
    if TooFull(cfg, s, size) && s.items.keys != [] {
      EvictionShrinks(s);
      EvictionsCounted(cfg, EvictLru(s), size);
    }
  }

  // ---------------------------------------------------------------------------
  // The objects

  lemma CollectNext(s: State, keys: seq<string>, i: nat, now: int)
    requires i < |keys|
    ensures var k := keys[i];
            Collect(s, keys[i..], now) ==
            Collect(if k in s.items.vals && Garbage(s.items.vals[k], now) then DeleteStep(s, k) else s, keys[i + 1..], now)
  {
    assert keys[i..][1..] == keys[i + 1..];
  }

  lemma CollectNone(s: State, keys: seq<string>, now: int)
    requires keys == []
    ensures Collect(s, keys, now) == s
  {
  }

  lemma NotAgain(keys: seq<string>, i: nat)
    requires Distinct(keys) && i < |keys|
    ensures forall j :: i < j < |keys| ==> keys[j] != keys[i]
  {
  }

  lemma OldestOfOne(keys: seq<string>, vals: map<string, Record>)
    requires |keys| == 1 && forall k :: k in keys ==> k in vals
    ensures Oldest(keys, vals) == keys[0]
  {
  }

  lemma OldestOfMore(keys: seq<string>, key: string, vals: map<string, Record>)
    requires keys != [] && (forall k :: k in keys ==> k in vals) && key in vals
    ensures var best := Oldest(keys, vals);
            (forall k :: k in keys + [key] ==> k in vals) &&
            Oldest(keys + [key], vals) == if vals[key].lastAccessedAt < vals[best].lastAccessedAt then key else best
  {
    assert (keys + [key])[..|keys|] == keys;
  }

  class CachedAbiEntry {
    const byteSize: nat
    const expiresAt: int
    var lastAccessedAt: int
    var accessCount: nat

    constructor (byteSize: nat, expiresAt: int)
      ensures Contents() == Record(byteSize, expiresAt, 0, 0)
    {
      this.byteSize, this.expiresAt := byteSize, expiresAt;
      lastAccessedAt, accessCount := 0, 0;
    }

    function Contents(): Record
      reads this
    {
      Record(byteSize, expiresAt, lastAccessedAt, accessCount)
    }
  }

  predicate Unaliased(m: map<string, CachedAbiEntry>) {
    forall j, k :: j in m && k in m && j != k ==> m[j] != m[k]
  }

  lemma UnaliasedPut(m: map<string, CachedAbiEntry>, key: string, entry: CachedAbiEntry)
    requires Unaliased(m) && forall k :: k in m ==> m[k] != entry
    ensures Unaliased(m[key := entry])
  {
  }

  ghost function ContentsOf(m: map<string, CachedAbiEntry>): map<string, Record>
    reads set k | k in m :: m[k]
  {
    map k | k in m :: m[k].Contents()
  }

  lemma ContentsOfPut(m: map<string, CachedAbiEntry>, key: string, entry: CachedAbiEntry)
    ensures ContentsOf(m[key := entry]) == ContentsOf(m)[key := entry.Contents()]
    ensures key in ContentsOf(m) <==> key in m
    ensures key in m ==> ContentsOf(m)[key] == m[key].Contents()
  {
  }

  lemma ContentsOfAt(m: map<string, CachedAbiEntry>, key: string)
    requires key in m
    ensures key in ContentsOf(m) && ContentsOf(m)[key] == m[key].Contents()
  {
  }

  /** The storage owns distinct entry objects, none under the empty key. */
  class MemoryAbiStorage {
    const maxEntries: int
    const maxBytes: int
    var store: OMap<string, CachedAbiEntry>
    var totalBytes: int
    var accessSeq: nat
    var evictions: nat

    constructor (maxEntries: int, maxBytes: int)
      ensures Good() && Cfg() == Config(maxEntries, maxBytes) && View() == INITIAL
    {
      this.maxEntries, this.maxBytes := maxEntries, maxBytes;
      store, totalBytes, accessSeq, evictions := Empty(), 0, 0, 0;
    }

    function Cfg(): Config {
      Config(maxEntries, maxBytes)
    }

    ghost function Entries(): set<CachedAbiEntry>
      reads this
    {
      set k | k in store.vals :: store.vals[k]
    }

    ghost predicate Good()
      reads this
    {
      Valid(store) && "" !in store.vals && Unaliased(store.vals)
    }

    ghost function Records(): Items
      reads this, Entries()
    {
      OMap(store.keys, ContentsOf(store.vals))
    }

    ghost function View(): State
      reads this, Entries()
    {
      State(Records(), totalBytes, accessSeq, evictions)
    }

    method Get(key: string) returns (entry: CachedAbiEntry?)
      requires Good()
      modifies this, Entries()
      ensures Good() && store == old(store)
      ensures View() == GetStep(old(View()), key)
      ensures entry == if key in store.vals then store.vals[key] else null
    {
      hide Distinct;
      if key !in store.vals {
        return null;
      }
      entry := store.vals[key];
      accessSeq := accessSeq + 1;
      entry.lastAccessedAt := accessSeq;
      entry.accessCount := entry.accessCount + 1;
      assert Records().vals == GetStep(old(View()), key).items.vals;
    }

    method Set(key: string, entry: CachedAbiEntry)
      requires Good() && key != "" && entry !in Entries()
      modifies this, entry
      ensures Good() && Valid(old(Records()))
      ensures View() == SetStep(Cfg(), old(View()), key, old(entry.Contents()))
    {
      hide Keep, Distinct, EvictUntilFits, Good, Valid;
      RecordsValid();
      Begin(key, entry);
      MakeRoom(entry.byteSize);
      Insert(key, entry);
    }

    method Begin(key: string, entry: CachedAbiEntry)
      requires Good() && entry !in Entries()
      modifies this`totalBytes, this`accessSeq, entry
      ensures Good() && store == old(store) && Valid(Records())
      ensures View() == BeginSet(old(View()), key)
      ensures entry.Contents() == old(entry.Contents()).(lastAccessedAt := accessSeq)
    {
      hide Keep, Distinct;
      if key in store.vals {
        totalBytes := totalBytes - store.vals[key].byteSize;
      }
      accessSeq := accessSeq + 1;
      entry.lastAccessedAt := accessSeq;
    }

    method Insert(key: string, entry: CachedAbiEntry)
      requires Good() && key != "" && entry !in Entries()
      modifies this`store, this`totalBytes
      ensures Good()
      ensures View() == old(View()).(items := Put(old(Records()), key, entry.Contents()),
                                     totalBytes := old(totalBytes) + entry.byteSize)
    {
      hide Unaliased, Distinct, ContentsOf;
      assert forall k :: k in store.vals ==> store.vals[k] in Entries();
      UnaliasedPut(store.vals, key, entry);
      ContentsOfPut(store.vals, key, entry);
      store := Put(store, key, entry);
      totalBytes := totalBytes + entry.byteSize;
    }

    /** The eviction loop of `set`. */
    method MakeRoom(size: nat)
      requires Good() && Valid(Records())
      modifies this
      ensures Good() && Entries() <= old(Entries()) && Valid(Records())
      ensures View() == EvictUntilFits(Cfg(), old(View()), size)
    {
      hide Keep, Distinct, EvictLru, Good, Valid;
      while (|store.keys| >= maxEntries || totalBytes + size > maxBytes) && |store.keys| > 0
        invariant Good() && Entries() <= old(Entries()) && Valid(Records())
        invariant EvictUntilFits(Cfg(), View(), size) == EvictUntilFits(Cfg(), old(View()), size)
        decreases |store.keys|
      {
        EvictionShrinks(View());
        EvictLruEntry();
        RecordsValid();
      }
    }

    lemma RecordsValid()
      requires Good()
      ensures Valid(Records())
    {
    }

    method OldestKey() returns (oldestKey: string)
      requires Good() && store.keys != [] && Valid(Records())
      ensures oldestKey == Oldest(store.keys, Records().vals) && oldestKey in store.vals
    {
      hide Distinct, Oldest, ContentsOf, Unaliased;
      ghost var vals := Records().vals;
      OldestOfOne(store.keys[..1], vals);
      oldestKey := store.keys[0];
      for i := 1 to |store.keys|
        invariant forall k :: k in store.keys[..i] ==> k in vals
        invariant oldestKey == Oldest(store.keys[..i], vals) && oldestKey in store.vals
      {
        assert store.keys[i] in store.keys;
        OldestOfMore(store.keys[..i], store.keys[i], vals);
        ContentsOfAt(store.vals, store.keys[i]);
        ContentsOfAt(store.vals, oldestKey);
        assert store.keys[..i + 1] == store.keys[..i] + [store.keys[i]];
        if store.vals[store.keys[i]].lastAccessedAt < store.vals[oldestKey].lastAccessedAt {
          oldestKey := store.keys[i];
        }
      }
      assert store.keys[..|store.keys|] == store.keys;
    }

    method EvictLruEntry()
      requires Good() && store.keys != [] && Valid(Records())
      modifies this
      ensures Good() && Entries() <= old(Entries()) && accessSeq == old(accessSeq)
      ensures View() == EvictLru(old(View()))
    {
      hide Keep, Distinct, Oldest;
      var oldestKey := OldestKey();
      var deleted := Delete(oldestKey);
      evictions := evictions + 1;
    }

    method Delete(key: string) returns (deleted: bool)
      requires Good()
      modifies this
      ensures Good() && Entries() <= old(Entries())
      ensures View() == DeleteStep(old(View()), key) && deleted == (key in old(store).vals)
      ensures store == if deleted then Remove(old(store), key) else old(store)
    {
      hide Keep, Distinct;
      if key in store.vals {
        totalBytes := totalBytes - store.vals[key].byteSize;
        RemoveAllValid(store, {key});
        store := Remove(store, key);
        assert Records().vals == old(Records()).vals - {key};
        return true;
      }
      return false;
    }

    method Clear()
      modifies this
      ensures Good() && View() == old(View()).(items := Empty(), totalBytes := 0)
    {
      store := Empty();
      totalBytes := 0;
      assert Records().vals == map[];
    }

    method CollectGarbage(now: int) returns (removed: nat)
      requires Good()
      modifies this
      ensures Good() && View() == Collect(old(View()), old(store).keys, now)
      ensures removed == |old(store).keys| - |store.keys|
    {
      hide Keep, Distinct, Good, Collect;
      removed := 0;
      var keys := store.keys;
      assert keys[0..] == keys;
      AllStored();
      for i := 0 to |keys|
        invariant Good() && Entries() <= old(Entries())
        invariant Collect(View(), keys[i..], now) == Collect(old(View()), keys, now)
        invariant forall j :: i <= j < |keys| ==> keys[j] in store.vals
        invariant removed == |keys| - |store.keys|
      {
        CollectNext(View(), keys, i, now);
        var entry := store.vals[keys[i]];
        if entry.expiresAt > 0 && entry.expiresAt <= now {
          OneLess(keys[i]);
          NotAgain(keys, i);
          var deleted := Delete(keys[i]);
          removed := removed + 1;
        }
      }
      CollectNone(View(), keys[|keys|..], now);
    }

    lemma AllStored()
      requires Good()
      ensures forall j :: 0 <= j < |store.keys| ==> store.keys[j] in store.vals
      ensures Distinct(store.keys)
    {
    }

    lemma OneLess(key: string)
      requires Good() && key in store.vals
      ensures |Remove(store, key).keys| == |store.keys| - 1
    {
      KeepOneLess(store.keys, key);
    }
  }
}
