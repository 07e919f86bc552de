/** The in-memory cache with per-entry expiry and least-recently-used eviction, against a plain
    map that never evicts. */
module SimpleCache {
  import opened Basics
  import opened JsText
  import opened OrderedMap

  datatype Entry<V> = Entry(value: V, expiresAt: int)

  datatype Config = Config(enabled: bool, ttl: map<string, int>, maxEntries: int)

  type Store<V> = OMap<string, Entry<V>>

  datatype State<V> = State(store: Store<V>, hits: nat, misses: nat)

  /** The name before the first colon, or the whole key when that name is empty. */
  function MethodOf(key: string): string {
    var name := Split(key, ":")[0];
    if name != "" then name else key
  }

  /** The lifetime of a name: its own, else the default one, else none. */
  function Lifetime(ttl: map<string, int>, name: string): int {
    if name in ttl then ttl[name] else if "default" in ttl then ttl["default"] else 0
  }

  function TtlFor(cfg: Config, key: string): int {
    Lifetime(cfg.ttl, MethodOf(key))
  }

  predicate NamedBy(key: string, name: string) {
    key == name || name + ":" <= key
  }

  /** Invalidating a method by name hits exactly the keys whose lifetime that name decides. */
  lemma NamedByMethod(key: string, name: string)
    requires name != "" && ':' !in name
    ensures NamedBy(key, name) <==> MethodOf(key) == name
  {
    assert [':'] == ":";
    if name + ":" <= key {
      var rest := key[|name| + 1..];
      assert key == name + ":" + rest;
      FirstPartIs(name, rest, ':');
    } else if key == name {
      SplitAbsent(key, ':');
    } else {
      FirstPart(key, ':');
    }
  }

  function KeysNamed<V>(m: map<string, Entry<V>>, name: string): set<string> {
    set k | k in m && (name == "" || NamedBy(k, name))
  }

  function KeysExpired<V>(m: map<string, Entry<V>>, now: int): set<string> {
    set k | k in m && now > m[k].expiresAt
  }

  // ---------------------------------------------------------------------------
  // One call

  datatype Op<V> =
    | Get(key: string)
    | Set(key: string, value: V)
    | Invalidate(name: string)
    | InvalidateExact(key: string)
    | Clear
    | GetStats

  function GetStep<V>(cfg: Config, s: State<V>, key: string, now: int): State<V> {
    if !cfg.enabled then s
    else if key !in s.store.vals then s.(misses := s.misses + 1)
    else if now > s.store.vals[key].expiresAt then s.(store := Remove(s.store, key), misses := s.misses + 1)
    else s.(store := Put(Remove(s.store, key), key, s.store.vals[key]), hits := s.hits + 1)
  }

  function GetResult<V>(cfg: Config, s: State<V>, key: string, now: int): Option<V> {
    if !cfg.enabled || key !in s.store.vals || now > s.store.vals[key].expiresAt then None
    else Some(s.store.vals[key].value)
  }

  /** Whether a `set` stores anything. */
  predicate Stores(cfg: Config, key: string) {
    cfg.enabled && TtlFor(cfg, key) > 0
  }

  predicate Evicts<V>(cfg: Config, s: Store<V>, key: string) {
    cfg.maxEntries > 0 && |s.keys| >= cfg.maxEntries && key !in s.vals && s.keys != []
  }

  function StoreSet<V>(cfg: Config, s: Store<V>, key: string, e: Entry<V>): Store<V> {
    Put(if Evicts(cfg, s, key) then Remove(s, s.keys[0]) else s, key, e)
  }

  function Step<V>(cfg: Config, s: State<V>, op: Op<V>, now: int): State<V> {
    match op
    case Get(key) => GetStep(cfg, s, key, now)
    case Set(key, value) =>
      if !Stores(cfg, key) then s
      else s.(store := StoreSet(cfg, s.store, key, Entry(value, now + TtlFor(cfg, key))))
    case Invalidate(name) => s.(store := RemoveAll(s.store, KeysNamed(s.store.vals, name)))
    case InvalidateExact(key) => s.(store := Remove(s.store, key))
    case Clear => s.(store := Empty())
    case GetStats => s.(store := RemoveAll(s.store, KeysExpired(s.store.vals, now)))
  }

  // ---------------------------------------------------------------------------
  // Runs

  datatype Timed<V> = At(now: int, op: Op<V>)

  predicate InTimeOrder<V>(ops: seq<Timed<V>>) {
    forall i, j :: 0 <= i < j < |ops| ==> ops[i].now <= ops[j].now
  }

  function Run<V>(cfg: Config, ops: seq<Timed<V>>): State<V> {
    if ops == [] then State(Empty(), 0, 0)
    else
      var last := ops[|ops| - 1];
      Step(cfg, Run(cfg, ops[..|ops| - 1]), last.op, last.now)
  }

  /** The plain map: the last value set under each key and not removed since. */
  function Plain<V>(cfg: Config, ops: seq<Timed<V>>): map<string, Entry<V>> {
    if ops == [] then map[]
    else
      var last := ops[|ops| - 1];
      var before := Plain(cfg, ops[..|ops| - 1]);
      match last.op
      case Set(key, value) =>
        if Stores(cfg, key) then before[key := Entry(value, last.now + TtlFor(cfg, key))] else before
      case Invalidate(name) => before - KeysNamed(before, name)
      case InvalidateExact(key) => before - {key}
      case Clear => map[]
      case _ => before
  }

  /** A key is used by a hit and by a fresh insertion; overwriting is not a use. */
  function UsedBy<V>(cfg: Config, s: State<V>, op: Op<V>, now: int): Option<string> {
    match op
    case Get(key) => if GetResult(cfg, s, key, now).Some? then Some(key) else None
    case Set(key, _) => if Stores(cfg, key) && key !in s.store.vals then Some(key) else None
    case _ => None
  }

  function Uses<V>(cfg: Config, ops: seq<Timed<V>>): seq<string> {
    if ops == [] then []
    else
      var last := ops[|ops| - 1];
      var before := Uses(cfg, ops[..|ops| - 1]);
      match UsedBy(cfg, Run(cfg, ops[..|ops| - 1]), last.op, last.now)
      case Some(key) => before + [key]
      case None => before
  }

  /** The distinct other keys used since the last use of `key`. */
  function Since(uses: seq<string>, key: string): set<string> {
    if uses == [] || uses[|uses| - 1] == key then {}
    else {uses[|uses| - 1]} + Since(uses[..|uses| - 1], key)
  }

  lemma SinceAppend(uses: seq<string>, u: string)
    ensures Since(uses + [u], u) == {}
    ensures forall k :: k != u ==> Since(uses + [u], k) == {u} + Since(uses, k)
  {
    assert (uses + [u])[..|uses|] == uses;
  }

  lemma {:induction false} SinceExcludes(uses: seq<string>, key: string)
    ensures key !in Since(uses, key)
  {
    if uses != [] { SinceExcludes(uses[..|uses| - 1], key); }
  }

  // ---------------------------------------------------------------------------
  // What every run keeps

  /** `k` gave way to at least `maxEntries` distinct other keys used since its own last use. */
  predicate PushedOut(cfg: Config, uses: seq<string>, k: string) {
    cfg.maxEntries > 0 && |Since(uses, k)| >= cfg.maxEntries
  }

  predicate ByLastUse(keys: seq<string>, uses: seq<string>) {
    forall i, j :: 0 <= i < j < |keys| ==> keys[j] in Since(uses, keys[i])
  }

  ghost predicate Agrees<V>(store: Store<V>, plain: map<string, Entry<V>>) {
    forall k :: k in store.vals ==> k in plain && plain[k] == store.vals[k]
  }

  predicate Accounted<V>(cfg: Config, store: Store<V>, plain: map<string, Entry<V>>, uses: seq<string>, now: int) {
    forall k :: k in plain && k !in store.vals ==> now > plain[k].expiresAt || PushedOut(cfg, uses, k)
  }

  predicate AllUsed<V>(plain: map<string, Entry<V>>, uses: seq<string>) {
    forall k :: k in plain ==> k in uses
  }

  predicate WithinLimit<V>(cfg: Config, store: Store<V>) {
    cfg.maxEntries > 0 ==> |store.keys| <= cfg.maxEntries
  }

  ghost predicate Tracks<V>(cfg: Config, store: Store<V>, plain: map<string, Entry<V>>, uses: seq<string>, now: int) {
    && Valid(store)
    && Agrees(store, plain)
    && Accounted(cfg, store, plain, uses, now)
    && AllUsed(plain, uses)
    && ByLastUse(store.keys, uses)
    && WithinLimit(cfg, store)
  }

  lemma TracksLater<V>(cfg: Config, store: Store<V>, plain: map<string, Entry<V>>, uses: seq<string>, now: int, later: int)
    requires Tracks(cfg, store, plain, uses, now) && now <= later
    ensures Tracks(cfg, store, plain, uses, later)
  {
  }

  /** Removing keys from the store and possibly from the plain map. */
  lemma TracksRemoval<V>(cfg: Config, store: Store<V>, plain: map<string, Entry<V>>, uses: seq<string>, now: int,
                         gone: set<string>, plain': map<string, Entry<V>>)
    requires Tracks(cfg, store, plain, uses, now)
    requires forall k :: k in plain' ==> k in plain && plain'[k] == plain[k]
    requires forall k :: k in store.vals && k !in gone ==> k in plain'
    requires forall k :: k in plain' && k in store.vals && k in gone ==> now > plain'[k].expiresAt
    ensures Tracks(cfg, RemoveAll(store, gone), plain', uses, now)
  {
    RemoveAllValid(store, gone);
    var store' := RemoveAll(store, gone);
    forall i, j | 0 <= i < j < |store'.keys| ensures store'.keys[j] in Since(uses, store'.keys[i]) {
      var i', j' := KeepOrder(store.keys, gone, i, j);
    }
  }

  lemma LastUseAppend(keys: seq<string>, uses: seq<string>, u: string)
    requires ByLastUse(keys, uses) && u !in keys
    ensures ByLastUse(keys + [u], uses + [u])
  {
    SinceAppend(uses, u);
    var keys' := keys + [u];
    forall i, j | 0 <= i < j < |keys'| ensures keys'[j] in Since(uses + [u], keys'[i]) {
      assert keys'[i] == keys[i] && keys[i] in keys;
    }
  }

  lemma PushedOutAppend(cfg: Config, uses: seq<string>, u: string, k: string)
    requires PushedOut(cfg, uses, k) && k != u
    ensures PushedOut(cfg, uses + [u], k)
  {
    SinceAppend(uses, u);
    SubsetSize(Since(uses, k), Since(uses + [u], k));
  }

  lemma SubsetSize<T>(a: set<T>, b: set<T>)
    requires a <= b
    ensures |a| <= |b|
  {
    assert b == a + (b - a);
  }

  /** Putting a key the store lacks at the end, as a use. */
  lemma TracksFresh<V>(cfg: Config, store: Store<V>, plain: map<string, Entry<V>>, uses: seq<string>, now: int,
                       key: string, e: Entry<V>)
    requires Tracks(cfg, store, plain, uses, now) && key !in store.vals
    requires cfg.maxEntries > 0 ==> |store.keys| < cfg.maxEntries
    ensures Tracks(cfg, Put(store, key, e), plain[key := e], uses + [key], now)
  {
    var store', plain', uses' := Put(store, key, e), plain[key := e], uses + [key];
    LastUseAppend(store.keys, uses, key);
    forall k | k in plain' && k !in store'.vals ensures now > plain'[k].expiresAt || PushedOut(cfg, uses', k) {
      assert k in plain && k !in store.vals;
      if PushedOut(cfg, uses, k) { PushedOutAppend(cfg, uses, key, k); }
    }
  }

  /** Replacing the value under a key the store holds moves nothing. */
  lemma TracksOverwrite<V>(cfg: Config, store: Store<V>, plain: map<string, Entry<V>>, uses: seq<string>, now: int,
                           key: string, e: Entry<V>)
    requires Tracks(cfg, store, plain, uses, now) && key in store.vals
    ensures Tracks(cfg, Put(store, key, e), plain[key := e], uses, now)
  {
  }

  /** Evicting the oldest key and inserting a fresh one. */
  lemma TracksEviction<V>(cfg: Config, store: Store<V>, plain: map<string, Entry<V>>, uses: seq<string>, now: int,
                          key: string, e: Entry<V>)
    requires Tracks(cfg, store, plain, uses, now) && Evicts(cfg, store, key)
    ensures Tracks(cfg, StoreSet(cfg, store, key, e), plain[key := e], uses + [key], now)
  {
    hide Accounted, PushedOut;
    var oldest := store.keys[0];
    var rest := Remove(store, oldest);
    RemoveAllValid(store, {oldest});
    OldestGoesFirst(store);
    var plain', uses' := plain[key := e], uses + [key];
    assert ByLastUse(rest.keys, uses) by {
      assert forall i :: 0 <= i < |rest.keys| ==> rest.keys[i] == store.keys[i + 1];
    }
    LastUseAppend(rest.keys, uses, key);
    OldestPushedOut(cfg, store.keys, uses, key);
    EvictionAccounted(cfg, store, plain, uses, now, key, e);
  }

  lemma EvictionAccounted<V>(cfg: Config, store: Store<V>, plain: map<string, Entry<V>>, uses: seq<string>, now: int,
                             key: string, e: Entry<V>)
    requires Accounted(cfg, store, plain, uses, now) && Evicts(cfg, store, key)
    requires PushedOut(cfg, uses + [key], store.keys[0])
    ensures Accounted(cfg, StoreSet(cfg, store, key, e), plain[key := e], uses + [key], now)
  {
    var store', plain', uses' := StoreSet(cfg, store, key, e), plain[key := e], uses + [key];
    forall k | k in plain' && k !in store'.vals ensures now > plain'[k].expiresAt || PushedOut(cfg, uses', k) {
      if k != store.keys[0] {
        assert k in plain && k !in store.vals;
        if PushedOut(cfg, uses, k) { PushedOutAppend(cfg, uses, key, k); }
      }
    }
  }

  lemma OldestGoesFirst<V>(store: Store<V>)
    requires Valid(store) && store.keys != []
    ensures Keep(store.keys, {store.keys[0]}) == store.keys[1..]
  {
    assert forall k :: k in store.keys[1..] ==> k != store.keys[0];
    KeepNothingGone(store.keys[1..], {store.keys[0]});
  }

  /** All keys behind the oldest one, and the incoming key, were used since its last use. */
  lemma OldestPushedOut(cfg: Config, keys: seq<string>, uses: seq<string>, key: string)
    requires Distinct(keys) && ByLastUse(keys, uses) && keys != [] && key !in keys
    requires cfg.maxEntries > 0 && |keys| >= cfg.maxEntries
    ensures PushedOut(cfg, uses + [key], keys[0])
  {
    SinceAppend(uses, key);
    var behind := set k | k in keys[1..];
    DistinctSize(keys[1..]);
    var others := behind + {key};
    assert |others| == |keys|;
    SubsetSize(others, Since(uses + [key], keys[0]));
  }

  lemma TracksGet<V>(cfg: Config, s: State<V>, plain: map<string, Entry<V>>, uses: seq<string>, now: int, key: string)
    requires Tracks(cfg, s.store, plain, uses, now)
    ensures var uses' := if GetResult(cfg, s, key, now).Some? then uses + [key] else uses;
            Tracks(cfg, GetStep(cfg, s, key, now).store, plain, uses', now)
  {
    hide Tracks;
    var store := s.store;
    if cfg.enabled && key in store.vals {
      if now > store.vals[key].expiresAt {
        TracksExpiry(cfg, store, plain, uses, now, key);
      } else {
        TracksHit(cfg, store, plain, uses, now, key);
      }
    }
  }

  lemma TracksExpiry<V>(cfg: Config, store: Store<V>, plain: map<string, Entry<V>>, uses: seq<string>, now: int, key: string)
    requires Tracks(cfg, store, plain, uses, now)
    requires key in store.vals && now > store.vals[key].expiresAt
    ensures Tracks(cfg, Remove(store, key), plain, uses, now)
  {
    TracksRemoval(cfg, store, plain, uses, now, {key}, plain);
  }

  lemma TracksHit<V>(cfg: Config, store: Store<V>, plain: map<string, Entry<V>>, uses: seq<string>, now: int, key: string)
    requires Tracks(cfg, store, plain, uses, now) && key in store.vals
    ensures Tracks(cfg, Put(Remove(store, key), key, store.vals[key]), plain, uses + [key], now)
  {
    hide Accounted, ByLastUse, Keep, Distinct;
    var e := store.vals[key];
    var plain0 := plain - {key};
    TracksDeletion(cfg, store, plain, uses, now, {key}, {key});
    RemoveShrinks(store, key);
    TracksFresh(cfg, Remove(store, key), plain0, uses, now, key, e);
    assert plain0[key := e] == plain;
  }

  lemma RemoveShrinks<V>(store: Store<V>, key: string)
    requires Valid(store) && key in store.vals
    ensures |Remove(store, key).keys| < |store.keys|
  {
    RemoveAllValid(store, {key});
    KeepMembers(store.keys, {key});
    var rest := Remove(store, key).keys;
    DistinctSize(rest);
    DistinctSize(store.keys);
    var a, b := set k | k in rest, set k | k in store.keys;
    SubsetSize(a + {key}, b);
  }

  lemma TracksSet<V>(cfg: Config, store: Store<V>, plain: map<string, Entry<V>>, uses: seq<string>, now: int,
                     key: string, e: Entry<V>)
    requires Tracks(cfg, store, plain, uses, now)
    ensures var uses' := if key !in store.vals then uses + [key] else uses;
            Tracks(cfg, StoreSet(cfg, store, key, e), plain[key := e], uses', now)
  {
    if key in store.vals {
      TracksOverwrite(cfg, store, plain, uses, now, key, e);
    } else if Evicts(cfg, store, key) {
      TracksEviction(cfg, store, plain, uses, now, key, e);
    } else {
      TracksFresh(cfg, store, plain, uses, now, key, e);
    }
  }

  lemma TracksDeletion<V>(cfg: Config, store: Store<V>, plain: map<string, Entry<V>>, uses: seq<string>, now: int,
                          gone: set<string>, gonePlain: set<string>)
    requires Tracks(cfg, store, plain, uses, now)
    requires forall k :: k in store.vals && k in plain ==> (k in gone <==> k in gonePlain)
    ensures Tracks(cfg, RemoveAll(store, gone), plain - gonePlain, uses, now)
  {
    TracksRemoval(cfg, store, plain, uses, now, gone, plain - gonePlain);
  }

  lemma TracksSweep<V>(cfg: Config, store: Store<V>, plain: map<string, Entry<V>>, uses: seq<string>, now: int)
    requires Tracks(cfg, store, plain, uses, now)
    ensures Tracks(cfg, RemoveAll(store, KeysExpired(store.vals, now)), plain, uses, now)
  {
    TracksRemoval(cfg, store, plain, uses, now, KeysExpired(store.vals, now), plain);
  }

  lemma TracksNothing<V>(cfg: Config, uses: seq<string>, now: int)
    ensures Tracks<V>(cfg, Empty(), map[], uses, now)
  {
  }

  lemma {:induction false} RunTracks<V>(cfg: Config, ops: seq<Timed<V>>)
    requires InTimeOrder(ops)
    ensures ops == [] ==> forall now :: Tracks(cfg, Run(cfg, ops).store, Plain(cfg, ops), Uses(cfg, ops), now)
    ensures ops != [] ==> Tracks(cfg, Run(cfg, ops).store, Plain(cfg, ops), Uses(cfg, ops), ops[|ops| - 1].now)
  {
    hide Tracks, StoreSet, GetStep;
    forall now { TracksNothing<V>(cfg, [], now); }
    if ops != [] {
      var before, last := ops[..|ops| - 1], ops[|ops| - 1];
      RunTracks(cfg, before);
      var s, plain, uses, now := Run(cfg, before), Plain(cfg, before), Uses(cfg, before), last.now;
      if before != [] {
        TracksLater(cfg, s.store, plain, uses, before[|before| - 1].now, now);
      }
      match last.op {
        case Get(key) => TracksGet(cfg, s, plain, uses, now, key);
        case Set(key, value) =>
          if Stores(cfg, key) {
            TracksSet(cfg, s.store, plain, uses, now, key, Entry(value, now + TtlFor(cfg, key)));
          }
        case Invalidate(name) =>
          TracksDeletion(cfg, s.store, plain, uses, now, KeysNamed(s.store.vals, name), KeysNamed(plain, name));
        case InvalidateExact(key) =>
          TracksDeletion(cfg, s.store, plain, uses, now, {key}, {key});
        case Clear => TracksNothing<V>(cfg, uses, now);
        case GetStats =>
          TracksSweep(cfg, s.store, plain, uses, now);
      }
    }
  }

  /** MAIN RESULT. After any run, a `get` answers exactly what the plain map holds unexpired under
      the key, unless the key was pushed out by at least `maxEntries` distinct other keys used
      since its own last use; the store never outgrows `maxEntries`. */
  lemma GetAnswersLastSet<V>(cfg: Config, ops: seq<Timed<V>>, key: string, now: int)
    requires InTimeOrder(ops + [At(now, Get(key))])
    ensures var plain := Plain(cfg, ops);
            var r := GetResult(cfg, Run(cfg, ops), key, now);
            && (r.Some? ==> cfg.enabled && key in plain && plain[key].value == r.value && now <= plain[key].expiresAt)
            && (r.None? && cfg.enabled && key in plain && now <= plain[key].expiresAt ==>
                  key in Uses(cfg, ops) && PushedOut(cfg, Uses(cfg, ops), key))
    ensures key !in Since(Uses(cfg, ops), key)
    ensures cfg.maxEntries > 0 ==> |Run(cfg, ops).store.keys| <= cfg.maxEntries
  {
    var all := ops + [At(now, Get(key))];
    assert forall i :: 0 <= i < |ops| ==> all[i] == ops[i];
    assert all[|ops|].now == now;
    SinceExcludes(Uses(cfg, ops), key);
    RunTracks(cfg, ops);
    if ops != [] {
      assert all[|ops| - 1].now <= all[|ops|].now;
      TracksLater(cfg, Run(cfg, ops).store, Plain(cfg, ops), Uses(cfg, ops), ops[|ops| - 1].now, now);
    } else {
      assert Tracks(cfg, Run(cfg, ops).store, Plain(cfg, ops), Uses(cfg, ops), now);
    }
  }

  // ---------------------------------------------------------------------------
  // Lifetimes, told from the text of the key

  /** The name whose lifetime a key has: what stands before the first colon, or the whole key when
      nothing does. */
  predicate Named(key: string, name: string) {
    || (name != "" && ':' !in name && (key == name || name + ":" <= key))
    || (name == key && (key == "" || key[0] == ':'))
  }

  lemma MethodOfNamed(key: string, name: string)
    ensures Named(key, name) <==> MethodOf(key) == name
  {
    FirstPart(key, ':');
    assert [':'] == ":";
    var first := Split(key, ":")[0];
    if name != "" && ':' !in name {
      NamedByMethod(key, name);
    }
    if key != "" && key[0] == ':' {
      assert key == [] + [':'] + key[1..];
      FirstPartIs([], key[1..], ':');
    }
    if first == "" && key != "" {
      assert ":" <= key;
      assert key[0] == ":"[0];
    }
  }

  /** The call sets the key or takes it away. */
  predicate Alters<V(==)>(op: Op<V>, key: string) {
    match op
    case Set(k, _) => k == key
    case Invalidate(name) => name == "" || key == name || name + ":" <= key
    case InvalidateExact(k) => k == key
    case Clear => true
    case _ => false
  }

  /** Call `p` sets the key to the value, and no later call alters it. */
  predicate LastSet<V(==)>(ops: seq<Timed<V>>, p: nat, key: string, value: V) {
    p < |ops| && ops[p].op == Set(key, value) && forall j :: p < j < |ops| ==> !Alters(ops[j].op, key)
  }

  /** The plain map holds exactly what was set last and stored, with its time and lifetime. */
  lemma {:induction false} PlainHoldsLastSet<V>(cfg: Config, ops: seq<Timed<V>>, key: string, name: string)
    requires Named(key, name)
    ensures var plain := Plain(cfg, ops);
            && (key in plain ==> cfg.enabled && Lifetime(cfg.ttl, name) > 0 && exists p: nat :: LastSet(ops, p, key, plain[key].value))
            && (forall p: nat, value :: LastSet(ops, p, key, value) && cfg.enabled && Lifetime(cfg.ttl, name) > 0 ==>
                  key in plain && plain[key] == Entry(value, ops[p].now + Lifetime(cfg.ttl, name)))
  {
    hide MethodOf, Named;
    MethodOfNamed(key, name);
    if ops != [] {
      var init, last := ops[..|ops| - 1], ops[|ops| - 1];
      PlainHoldsLastSet(cfg, init, key, name);
      if Alters(last.op, key) {
        if last.op.Set? { assert LastSet(ops, |ops| - 1, key, last.op.value); }
      } else {
        assert forall p: nat, value :: LastSet(ops, p, key, value) ==> LastSet(init, p, key, value);
        assert forall p: nat, value :: LastSet(init, p, key, value) ==> LastSet(ops, p, key, value);
      }
    }
  }

  /** MAIN RESULT. A set value is answered until its time plus its lifetime, and no longer, unless
      it was pushed out; the lifetime is that of the name before the key's first colon, else the
      default one. Without a positive lifetime nothing is answered. */
  lemma AnswersUntilExpiry<V>(cfg: Config, ops: seq<Timed<V>>, p: nat, key: string, name: string, value: V, now: int)
    requires InTimeOrder(ops + [At(now, Get(key))]) && cfg.enabled
    requires Named(key, name) && LastSet(ops, p, key, value)
    ensures var r := GetResult(cfg, Run(cfg, ops), key, now);
            var lifetime := if name in cfg.ttl then cfg.ttl[name]
                            else if "default" in cfg.ttl then cfg.ttl["default"]
                            else 0;
            if lifetime <= 0 || now > ops[p].now + lifetime then r == None
            else r == Some(value) || (r == None && PushedOut(cfg, Uses(cfg, ops), key))
  {
    hide Plain, Run, GetResult, PushedOut, Uses, Named, LastSet;
    GetAnswersLastSet(cfg, ops, key, now);
    PlainHoldsLastSet(cfg, ops, key, name);
  }

  /** And nothing else is ever answered: a hit is the value some call set last, in a cache that is
      enabled, under a name with a positive lifetime. */
  lemma AnswersOnlyLastSet<V>(cfg: Config, ops: seq<Timed<V>>, key: string, name: string, now: int)
    requires InTimeOrder(ops + [At(now, Get(key))]) && Named(key, name)
    ensures var r := GetResult(cfg, Run(cfg, ops), key, now);
            r.Some? ==> cfg.enabled && Lifetime(cfg.ttl, name) > 0 && exists p: nat :: LastSet(ops, p, key, r.value)
  {
    hide Plain, Run, GetResult, PushedOut, Uses, Named, LastSet;
    GetAnswersLastSet(cfg, ops, key, now);
    PlainHoldsLastSet(cfg, ops, key, name);
  }

  /** After the sweep of `getStats` exactly the entries that have not expired are left. */
  lemma StatsAreLive<V>(cfg: Config, ops: seq<Timed<V>>, now: int, key: string)
    ensures var before, after := Run(cfg, ops).store, Run(cfg, ops + [At(now, GetStats)]).store;
            && (key in after.vals <==> key in before.vals && now <= before.vals[key].expiresAt)
            && (key in after.vals ==> after.vals[key] == before.vals[key])
  {
    assert (ops + [At(now, GetStats)])[..|ops|] == ops;
  }

  function GetCount<V>(ops: seq<Timed<V>>): nat {
    if ops == [] then 0
    else GetCount(ops[..|ops| - 1]) + (if ops[|ops| - 1].op.Get? then 1 else 0)
  }

  function HitCount<V>(cfg: Config, ops: seq<Timed<V>>): nat {
    if ops == [] then 0
    else
      var last := ops[|ops| - 1];
      HitCount(cfg, ops[..|ops| - 1]) +
      (if last.op.Get? && GetResult(cfg, Run(cfg, ops[..|ops| - 1]), last.op.key, last.now).Some? then 1 else 0)
  }

  /** The counters: one hit per answered `get`, one miss per unanswered one, none when disabled. */
  lemma {:induction false} CountersAccount<V>(cfg: Config, ops: seq<Timed<V>>)
    ensures Run(cfg, ops).hits == HitCount(cfg, ops)
    ensures Run(cfg, ops).hits + Run(cfg, ops).misses == if cfg.enabled then GetCount(ops) else 0
  {
    hide Step;
    if ops != [] {
      var before, last := ops[..|ops| - 1], ops[|ops| - 1];
      CountersAccount(cfg, before);
      StepCounts(cfg, Run(cfg, before), last.op, last.now);
    }
  }

  lemma StepCounts<V>(cfg: Config, s: State<V>, op: Op<V>, now: int)
    ensures Step(cfg, s, op, now).hits ==
            s.hits + if op.Get? && GetResult(cfg, s, op.key, now).Some? then 1 else 0
    ensures Step(cfg, s, op, now).hits + Step(cfg, s, op, now).misses ==
            s.hits + s.misses + if op.Get? && cfg.enabled then 1 else 0
  {
  }

  // ---------------------------------------------------------------------------
  // The object

  function RunFrom<V>(cfg: Config, s: State<V>, ops: seq<Timed<V>>): State<V>
    decreases |ops|
  {
    if ops == [] then s else RunFrom(cfg, Step(cfg, s, ops[0].op, ops[0].now), ops[1..])
  }

  function Sets<V>(next: seq<(string, V)>, now: int): seq<Timed<V>> {
    if next == [] then [] else [At(now, Set(next[0].0, next[0].1))] + Sets(next[1..], now)
  }

  class Cache<V> {
    const enabled: bool
    const maxEntries: int
    const ttlConfig: map<string, int>
    var store: Store<V>
    var hits: nat
    var misses: nat

    constructor (cfg: Config)
      ensures Cfg() == cfg && View() == Run(cfg, [])
    {
      enabled, maxEntries, ttlConfig := cfg.enabled, cfg.maxEntries, cfg.ttl;
      store, hits, misses := Empty(), 0, 0;
    }

    function Cfg(): Config {
      Config(enabled, ttlConfig, maxEntries)
    }

    function View(): State<V>
      reads this
    {
      State(store, hits, misses)
    }

    method Get(key: string, now: int) returns (r: Option<V>)
      modifies this
      ensures View() == Step(Cfg(), old(View()), Op.Get(key), now)
      ensures r == GetResult(Cfg(), old(View()), key, now)
    {
      if !enabled {
        return None;
      }
      if key !in store.vals {
        misses := misses + 1;
        return None;
      }
      var entry := store.vals[key];
      if now > entry.expiresAt {
        store := Remove(store, key);
        misses := misses + 1;
        return None;
      }
      store := Remove(store, key);
      store := Put(store, key, entry);
      hits := hits + 1;
      return Some(entry.value);
    }

    method Set(key: string, value: V, now: int)
      modifies this
      ensures View() == Step(Cfg(), old(View()), Op.Set(key, value), now)
    {
      if !enabled {
        return;
      }
      var ttl := TtlFor(Cfg(), key);
      if ttl <= 0 {
        return;
      }
      if maxEntries > 0 && |store.keys| >= maxEntries && key !in store.vals {
        if store.keys != [] {
          store := Remove(store, store.keys[0]);
        }
      }
      store := Put(store, key, Entry(value, now + ttl));
    }

    method Invalidate(name: string, now: int)
      requires Valid(store)
      modifies this
      ensures View() == Step(Cfg(), old(View()), Op.Invalidate(name), now)
    {
      hide KeysUnder, KeysNamed, Keep;
      if name == "" {
        RemoveEverything(store);
        store := Empty();
        return;
      }
      RemoveAbsent(store, name);
      InvalidateInTwo(store, name);
      if name in store.vals {
        store := Remove(store, name);
      }
      InvalidatePrefix(name + ":");
    }

    /** The loop of `invalidate` over the keys that start with the prefix. */
    method InvalidatePrefix(prefix: string)
      modifies this`store
      ensures store == RemoveAll(old(store), KeysUnder(old(store).keys, prefix))
    {
      ghost var before, gone: set<string> := store, {};
      var keys := store.keys;
      assert KeysUnder(keys[..0], prefix) == {};
      RemoveNone(store);
      for i := 0 to |keys|
        invariant gone == KeysUnder(keys[..i], prefix)
        invariant store == RemoveAll(before, gone)
      {
        KeysUnderNext(keys, i, prefix);
        if prefix <= keys[i] {
          RemoveAllTwice(before, gone, {keys[i]});
          store := Remove(store, keys[i]);
          gone := gone + {keys[i]};
        }
      }
      assert keys[..|keys|] == keys;
    }

    method InvalidateExact(key: string, now: int)
      modifies this
      ensures View() == Step(Cfg(), old(View()), Op.InvalidateExact(key), now)
    {
      store := Remove(store, key);
    }

    method Clear(now: int)
      modifies this
      ensures View() == Step(Cfg(), old(View()), Op.Clear, now)
    {
      store := Empty();
    }

    /** The expiry sweep of `getStats`, and the keys and size it reports. */
    method GetStats(now: int) returns (keys: seq<string>, size: nat)
      requires Valid(store)
      modifies this
      ensures View() == Step(Cfg(), old(View()), Op.GetStats, now)
      ensures keys == View().store.keys && size == |keys|
    {
      SweepExpired(now);
      keys, size := store.keys, |store.keys|;
    }

    method SweepExpired(now: int)
      requires Valid(store)
      modifies this`store
      ensures store == RemoveAll(old(store), KeysExpired(old(store).vals, now))
    {
      ghost var before, gone: set<string> := store, {};
      var keys := store.keys;
      assert LateKeys(keys[..0], store.vals, now) == {};
      RemoveNone(store);
      for i := 0 to |keys|
        invariant gone == LateKeys(keys[..i], before.vals, now)
        invariant store == RemoveAll(before, gone)
      {
        LateKeysNext(keys, i, before.vals, now);
        if now > store.vals[keys[i]].expiresAt {
          RemoveAllTwice(before, gone, {keys[i]});
          store := Remove(store, keys[i]);
          gone := gone + {keys[i]};
        }
      }
      assert keys[..|keys|] == keys;
      SameRemoval(before, gone, KeysExpired(before.vals, now));
    }

    /** Clears, then sets each pair in turn. */
    method ReplaceAll(next: seq<(string, V)>, now: int)
      modifies this
      ensures View() == RunFrom(Cfg(), old(View()), [At(now, Op.Clear)] + Sets(next, now))
    {
      ghost var all := [At(now, Op.Clear)] + Sets(next, now);
      assert all[0] == At(now, Op.Clear) && all[1..] == Sets(next, now);
      store := Empty();
      assert next[0..] == next;
      for i := 0 to |next|
        invariant RunFrom(Cfg(), View(), Sets(next[i..], now)) == RunFrom(Cfg(), old(View()), all)
      {
        ghost var rest := Sets(next[i..], now);
        assert next[i..][1..] == next[i + 1..];
        assert rest[0] == At(now, Op.Set(next[i].0, next[i].1)) && rest[1..] == Sets(next[i + 1..], now);
        Set(next[i].0, next[i].1, now);
      }
      assert next[|next|..] == [];
    }
  }

  function KeysUnder(keys: seq<string>, prefix: string): set<string> {
    set k | k in keys && prefix <= k
  }

  lemma KeysUnderNext(keys: seq<string>, i: nat, prefix: string)
    requires i < |keys|
    ensures KeysUnder(keys[..i + 1], prefix) ==
            KeysUnder(keys[..i], prefix) + if prefix <= keys[i] then {keys[i]} else {}
  {
    assert keys[..i + 1] == keys[..i] + [keys[i]];
  }

  function LateKeys<V>(keys: seq<string>, m: map<string, Entry<V>>, now: int): set<string> {
    set k | k in keys && k in m && now > m[k].expiresAt
  }

  lemma LateKeysNext<V>(keys: seq<string>, i: nat, m: map<string, Entry<V>>, now: int)
    requires i < |keys| && Distinct(keys) && keys[i] in m
    ensures keys[i] !in LateKeys(keys[..i], m, now)
    ensures LateKeys(keys[..i + 1], m, now) ==
            LateKeys(keys[..i], m, now) + if now > m[keys[i]].expiresAt then {keys[i]} else {}
  {
    assert keys[..i + 1] == keys[..i] + [keys[i]];
  }

  lemma RemoveAbsent<V>(store: Store<V>, key: string)
    requires Valid(store)
    ensures key !in store.vals ==> Remove(store, key) == store
  {
    if key !in store.vals {
      KeepNothingGone(store.keys, {key});
      assert store.vals - {key} == store.vals;
    }
  }

  /** Deleting the key itself and then every key under its prefix deletes the keys it names. */
  lemma InvalidateInTwo<V>(store: Store<V>, name: string)
    requires Valid(store)
    ensures var first := Remove(store, name);
            name != "" ==>
            RemoveAll(first, KeysUnder(first.keys, name + ":")) == RemoveAll(store, KeysNamed(store.vals, name))
  {
    var first := Remove(store, name);
    var under := KeysUnder(first.keys, name + ":");
    RemoveAllTwice(store, {name}, under);
    KeepMembers(store.keys, {name});
    if name != "" { SameRemoval(store, {name} + under, KeysNamed(store.vals, name)); }
  }

  lemma RemoveEverything<V>(store: Store<V>)
    requires Valid(store)
    ensures RemoveAll(store, KeysNamed(store.vals, "")) == Empty()
  {
    var gone := KeysNamed(store.vals, "");
    KeepAllGone(store.keys, gone);
    assert store.vals - gone == map[];
  }

  lemma SameRemoval<V>(store: Store<V>, a: set<string>, b: set<string>)
    requires forall k :: k in store.keys ==> (k in a <==> k in b)
    requires Valid(store)
    ensures RemoveAll(store, a) == RemoveAll(store, b)
  {
    SameKeep(store.keys, a, b);
    assert store.vals - a == store.vals - b;
  }

  lemma {:induction false} SameKeep(s: seq<string>, a: set<string>, b: set<string>)
    requires forall k :: k in s ==> (k in a <==> k in b)
    ensures Keep(s, a) == Keep(s, b)
  {
    if s != [] {
      assert s[0] in s;
      SameKeep(s[1..], a, b);
    }
  }

  /** Continuing a run is running the longer list, so the results above cover `replaceAll`. */
  lemma {:induction false} RunFromIsRun<V>(cfg: Config, ops: seq<Timed<V>>, more: seq<Timed<V>>)
    ensures RunFrom(cfg, Run(cfg, ops), more) == Run(cfg, ops + more)
    decreases |more|
  {
    if more == [] {
      assert ops + more == ops;
    } else {
      var longer := ops + [more[0]];
      assert longer[..|longer| - 1] == ops;
      RunFromIsRun(cfg, longer, more[1..]);
      assert longer + more[1..] == ops + more;
    }
  }
}
