/** Nonce deduplication: the request deduplicator of the cache module (`strict`: an entry lives
    while now <= stored expiry) and the one inside the broadcaster (not `strict`: while
    now - accepted < ttl). Both remember accepted nonces in a map read in insertion order. */
module NonceWindow {
  import opened OrderedMap

  datatype Config = Config(strict: bool, enabled: bool, ttlMs: int, maxEntries: int)

  type Seen = OMap<string, int>

  /** What is stored for a nonce accepted at `now`: its expiry, or the time itself. */
  function Stamp(cfg: Config, now: int): int {
    if cfg.strict then now + cfg.ttlMs else now
  }

  predicate Expired(cfg: Config, stamp: int, now: int) {
    if cfg.strict then now > stamp else now - stamp >= cfg.ttlMs
  }

  function Late(cfg: Config, seen: Seen, now: int): set<string> {
    set k | k in seen.vals && Expired(cfg, seen.vals[k], now)
  }

  function Purge(cfg: Config, seen: Seen, now: int): Seen {
    RemoveAll(seen, Late(cfg, seen, now))
  }

  function DropOldest(seen: Seen): Seen
    requires seen.keys != []
  {
    Remove(seen, seen.keys[0])
  }

  /** Deletes oldest entries until at most `max` are left, or none. */
  function Trim(seen: Seen, max: int): Seen
    requires Valid(seen)
    decreases |seen.keys|
  {
    if |seen.keys| > max && seen.keys != [] then
      OldestFirst(seen);
      Trim(DropOldest(seen), max)
    else seen
  }

  lemma OldestFirst(seen: Seen)
    requires Valid(seen) && seen.keys != []
    ensures Valid(DropOldest(seen)) && DropOldest(seen).keys == seen.keys[1..]
  {
    RemoveAllValid(seen, {seen.keys[0]});
    assert forall k :: k in seen.keys[1..] ==> k != seen.keys[0];
    KeepNothingGone(seen.keys[1..], {seen.keys[0]});
  }

  datatype Outcome = Outcome(accepted: bool, seen: Seen)

  /** `NonceDeduplicator.check`. */
  function CheckStrict(cfg: Config, seen: Seen, nonce: string, now: int): Outcome {
    if !cfg.enabled then Outcome(true, seen)
    else
      var live := Purge(cfg, seen, now);
      if nonce in live.vals then Outcome(false, live)
      else
        var room := if cfg.maxEntries > 0 && |live.keys| >= cfg.maxEntries then DropOldest(live) else live;
        Outcome(true, Put(room, nonce, Stamp(cfg, now)))
  }

  /** The nonce part of `InvoiceStateBroadcaster.broadcast`. */
  function CheckInclusive(cfg: Config, seen: Seen, nonce: string, now: int): Outcome
    requires Valid(seen)
  {
    if !cfg.enabled then Outcome(true, seen)
    else if nonce in seen.vals && !Expired(cfg, seen.vals[nonce], now) then Outcome(false, seen)
    else
      RemoveAllValid(seen, Late(cfg, seen, now));
      Outcome(true, Trim(Put(Purge(cfg, seen, now), nonce, Stamp(cfg, now)), cfg.maxEntries))
  }

  function Check(cfg: Config, seen: Seen, nonce: string, now: int): Outcome
    requires Valid(seen)
  {
    if cfg.strict then CheckStrict(cfg, seen, nonce, now) else CheckInclusive(cfg, seen, nonce, now)
  }

  // ---------------------------------------------------------------------------
  // Runs

  datatype Call = Call(nonce: string, now: int)

  predicate InTimeOrder(calls: seq<Call>) {
    forall i, j :: 0 <= i < j < |calls| ==> calls[i].now <= calls[j].now
  }

  /** The remembered nonces, and the log of accepted calls. */
  datatype State = State(seen: Seen, log: seq<Call>)

  function Run(cfg: Config, calls: seq<Call>): (s: State)
    ensures Valid(s.seen)
  {
    if calls == [] then State(Empty(), [])
    else
      var before := Run(cfg, calls[..|calls| - 1]);
      var last := calls[|calls| - 1];
      var outcome := Check(cfg, before.seen, last.nonce, last.now);
      CheckValid(cfg, before.seen, last.nonce, last.now);
      State(outcome.seen, if outcome.accepted then before.log + [last] else before.log)
  }

  lemma CheckValid(cfg: Config, seen: Seen, nonce: string, now: int)
    requires Valid(seen)
    ensures Valid(Check(cfg, seen, nonce, now).seen)
  {
    hide Late;
    RemoveAllValid(seen, Late(cfg, seen, now));
    var live := Purge(cfg, seen, now);
    if live.keys != [] { OldestFirst(live); }
    TrimValid(Put(live, nonce, Stamp(cfg, now)), cfg.maxEntries);
  }

  lemma {:induction false} TrimValid(seen: Seen, max: int)
    requires Valid(seen)
    ensures Valid(Trim(seen, max))
    decreases |seen.keys|
  {
    if |seen.keys| > max && seen.keys != [] {
      OldestFirst(seen);
      TrimValid(DropOldest(seen), max);
    }
  }

  /** Whether the number of remembered nonces is limited at all. */
  predicate Capped(cfg: Config) {
    !cfg.strict || cfg.maxEntries > 0
  }

  /** Entry `i` of the log has at least `maxEntries` accepted calls after it. */
  predicate Crowded(cfg: Config, log: seq<Call>, i: nat)
    requires i < |log|
  {
    Capped(cfg) && |log| - 1 - i >= cfg.maxEntries
  }

  /** Entry `i` and the `maxEntries` accepted calls after it carry pairwise different nonces. */
  predicate AllDifferent(cfg: Config, log: seq<Call>, i: nat) {
    forall a, b :: i <= a < b < |log| && b <= i + cfg.maxEntries ==> log[a].nonce != log[b].nonce
  }

  /** The remembered nonces are the log from `lo` on; older entries expired or were crowded out. */
  predicate Tracks(cfg: Config, s: State, lo: nat, now: int) {
    && Valid(s.seen) && lo <= |s.log| && |s.seen.keys| == |s.log| - lo
    && Holds(cfg, s, lo)
    && UpTo(s.log, now)
    && (Capped(cfg) ==> |s.log| - lo <= if cfg.maxEntries > 0 then cfg.maxEntries else 0)
    && Forgotten(cfg, s.log, lo, now)
  }

  predicate UpTo(log: seq<Call>, now: int) {
    InTimeOrder(log) && forall i :: 0 <= i < |log| ==> log[i].now <= now
  }

  predicate Holds(cfg: Config, s: State, lo: nat) {
    forall k :: 0 <= k < |s.seen.keys| && lo + k < |s.log| ==>
      && s.seen.keys[k] == s.log[lo + k].nonce
      && s.seen.keys[k] in s.seen.vals
      && s.seen.vals[s.seen.keys[k]] == Stamp(cfg, s.log[lo + k].now)
  }

  predicate Forgotten(cfg: Config, log: seq<Call>, lo: nat, now: int) {
    forall i :: 0 <= i < lo && i < |log| ==>
      Expired(cfg, Stamp(cfg, log[i].now), now) || (Crowded(cfg, log, i) && AllDifferent(cfg, log, i))
  }

  /** Stamps grow along the keys, so the expired entries are the first `p`. */
  lemma {:induction false} ExpiredPrefix(cfg: Config, s: State, lo: nat, now: int, p: nat) returns (q: nat)
    requires Tracks(cfg, s, lo, now) && p <= |s.seen.keys|
    requires forall i :: lo <= i < lo + p ==> Expired(cfg, Stamp(cfg, s.log[i].now), now)
    ensures q <= |s.seen.keys|
    ensures forall i :: lo <= i < lo + q ==> Expired(cfg, Stamp(cfg, s.log[i].now), now)
    ensures forall i :: lo + q <= i < |s.log| ==> !Expired(cfg, Stamp(cfg, s.log[i].now), now)
    decreases |s.seen.keys| - p
  {
    if p == |s.seen.keys| || !Expired(cfg, Stamp(cfg, s.log[lo + p].now), now) {
      q := p;
    } else {
      q := ExpiredPrefix(cfg, s, lo, now, p + 1);
    }
  }

  lemma {:induction false} KeepSuffix(keys: seq<string>, gone: set<string>, q: nat)
    requires q <= |keys|
    requires forall i :: 0 <= i < q ==> keys[i] in gone
    requires forall i :: q <= i < |keys| ==> keys[i] !in gone
    ensures Keep(keys, gone) == keys[q..]
  {
    if q == 0 {
      assert keys[0..] == keys;
      KeepNothingGone(keys, gone);
    } else {
      KeepSuffix(keys[1..], gone, q - 1);
      assert keys[1..][q - 1..] == keys[q..];
    }
  }

  /** Purging moves the front of the window past the expired entries. */
  lemma PurgeTracks(cfg: Config, s: State, lo: nat, now: int) returns (lo': nat)
    requires Tracks(cfg, s, lo, now)
    ensures lo <= lo' && Tracks(cfg, s.(seen := Purge(cfg, s.seen, now)), lo', now)
    ensures forall i :: lo' <= i < |s.log| ==> !Expired(cfg, Stamp(cfg, s.log[i].now), now)
  {
    hide Forgotten, InTimeOrder, Holds, Keep;
    var gone := Late(cfg, s.seen, now);
    var q := ExpiredPrefix(cfg, s, lo, now, 0);
    lo' := lo + q;
    RemoveAllValid(s.seen, gone);
    PurgeIsSuffix(cfg, s, lo, now, q);
    PurgeForgets(cfg, s.log, lo, lo', now);
  }

  lemma PurgeIsSuffix(cfg: Config, s: State, lo: nat, now: int, q: nat)
    requires Valid(s.seen) && lo <= |s.log| && |s.seen.keys| == |s.log| - lo && Holds(cfg, s, lo)
    requires q <= |s.seen.keys|
    requires forall i :: lo <= i < lo + q ==> Expired(cfg, Stamp(cfg, s.log[i].now), now)
    requires forall i :: lo + q <= i < |s.log| ==> !Expired(cfg, Stamp(cfg, s.log[i].now), now)
    ensures Purge(cfg, s.seen, now).keys == s.seen.keys[q..]
    ensures Holds(cfg, s.(seen := Purge(cfg, s.seen, now)), lo + q)
  {
    hide Expired, Stamp, Distinct, Keep;
    var keys, gone := s.seen.keys, Late(cfg, s.seen, now);
    forall k | 0 <= k < |keys| ensures keys[k] in gone <==> k < q {
      assert keys[k] == s.log[lo + k].nonce;
      assert Expired(cfg, Stamp(cfg, s.log[lo + k].now), now) <==> k < q;
    }
    KeepSuffix(keys, gone, q);
    SuffixHolds(cfg, s, lo, q, gone);
  }

  lemma SuffixHolds(cfg: Config, s: State, lo: nat, q: nat, gone: set<string>)
    requires Holds(cfg, s, lo) && lo <= |s.log| && |s.seen.keys| == |s.log| - lo && q <= |s.seen.keys|
    requires RemoveAll(s.seen, gone).keys == s.seen.keys[q..]
    requires forall k :: q <= k < |s.seen.keys| ==> s.seen.keys[k] !in gone
    ensures Holds(cfg, s.(seen := RemoveAll(s.seen, gone)), lo + q)
  {
    hide Stamp, Keep;
    var keys := RemoveAll(s.seen, gone).keys;
    forall k | 0 <= k < |keys| && lo + q + k < |s.log| ensures
      && keys[k] == s.log[lo + q + k].nonce
      && keys[k] in RemoveAll(s.seen, gone).vals
      && RemoveAll(s.seen, gone).vals[keys[k]] == Stamp(cfg, s.log[lo + q + k].now)
    {
      assert keys[k] == s.seen.keys[q + k] == s.log[lo + (q + k)].nonce;
    }
  }

  lemma PurgeForgets(cfg: Config, log: seq<Call>, lo: nat, lo': nat, now: int)
    requires Forgotten(cfg, log, lo, now) && lo <= lo' <= |log|
    requires forall i :: lo <= i < lo' ==> Expired(cfg, Stamp(cfg, log[i].now), now)
    ensures Forgotten(cfg, log, lo', now)
  {
  }

  /** Forgetting the oldest entry of a full window when another nonce is accepted. */
  lemma ForgetOldest(cfg: Config, s: State, lo: nat, now: int, call: Call)
    requires Tracks(cfg, s, lo, now) && Capped(cfg)
    requires lo < |s.log| && |s.log| - lo >= cfg.maxEntries && call.nonce !in s.seen.keys
    ensures var log := s.log + [call]; Crowded(cfg, log, lo) && AllDifferent(cfg, log, lo)
  {
    var log := s.log + [call];
    forall a, b | lo <= a < b < |log| && b <= lo + cfg.maxEntries ensures log[a].nonce != log[b].nonce {
      assert s.seen.keys[a - lo] == log[a].nonce;
      if b < |s.log| { assert s.seen.keys[b - lo] == log[b].nonce; }
    }
  }

  lemma ForgottenLonger(cfg: Config, log: seq<Call>, lo: nat, now: int, call: Call)
    requires Forgotten(cfg, log, lo, now) && lo <= |log|
    ensures Forgotten(cfg, log + [call], lo, now)
  {
    var longer := log + [call];
    forall i | 0 <= i < lo ensures
      Expired(cfg, Stamp(cfg, longer[i].now), now) || (Crowded(cfg, longer, i) && AllDifferent(cfg, longer, i))
    {
      assert longer[i] == log[i];
      if !Expired(cfg, Stamp(cfg, log[i].now), now) {
        assert Crowded(cfg, log, i) && AllDifferent(cfg, log, i);
      }
    }
  }

  /** Accepting a new nonce into a window with room, or after forgetting the oldest entry. */
  lemma AcceptTracks(cfg: Config, s: State, lo: nat, now: int, call: Call) returns (lo': nat)
    requires Tracks(cfg, s, lo, now) && call.now == now && call.nonce !in s.seen.vals
    requires cfg.maxEntries > 0 || !Capped(cfg)
    ensures var full := Capped(cfg) && |s.seen.keys| >= cfg.maxEntries;
            var room := if full then DropOldest(s.seen) else s.seen;
            Tracks(cfg, State(Put(room, call.nonce, Stamp(cfg, now)), s.log + [call]), lo', now)
  {
    hide Forgotten, Crowded, AllDifferent, Holds, UpTo, Keep;
    UpToLonger(s.log, call);
    ForgottenLonger(cfg, s.log, lo, now, call);
    if Capped(cfg) && |s.seen.keys| >= cfg.maxEntries {
      OldestFirst(s.seen);
      ForgetOldest(cfg, s, lo, now, call);
      lo' := lo + 1;
      ForgottenOneMore(cfg, s.log + [call], lo, now);
      DropHolds(cfg, s, lo);
      PutHolds(cfg, State(DropOldest(s.seen), s.log), lo', call);
    } else {
      lo' := lo;
      PutHolds(cfg, s, lo, call);
    }
  }

  lemma UpToLonger(log: seq<Call>, call: Call)
    requires UpTo(log, call.now)
    ensures UpTo(log + [call], call.now)
  {
  }

  lemma DropHolds(cfg: Config, s: State, lo: nat)
    requires Holds(cfg, s, lo) && Valid(s.seen) && s.seen.keys != []
    requires lo <= |s.log| && |s.seen.keys| == |s.log| - lo
    ensures Holds(cfg, State(DropOldest(s.seen), s.log), lo + 1)
  {
    hide Stamp, Keep;
    OldestFirst(s.seen);
    assert forall k :: 0 <= k < |s.seen.keys| - 1 ==> s.seen.keys[1..][k] == s.seen.keys[k + 1];
  }

  lemma ForgottenOneMore(cfg: Config, log: seq<Call>, lo: nat, now: int)
    requires Forgotten(cfg, log, lo, now) && lo < |log| && Crowded(cfg, log, lo) && AllDifferent(cfg, log, lo)
    ensures Forgotten(cfg, log, lo + 1, now)
  {
  }

  lemma PutHolds(cfg: Config, s: State, lo: nat, call: Call)
    requires Holds(cfg, s, lo) && call.nonce !in s.seen.vals
    requires lo <= |s.log| && |s.seen.keys| == |s.log| - lo
    ensures Holds(cfg, State(Put(s.seen, call.nonce, Stamp(cfg, call.now)), s.log + [call]), lo)
  {
    hide Stamp;
  }

  /** Trimming after insertion is dropping the oldest entry before it. */
  lemma TrimIsDropFirst(seen: Seen, nonce: string, stamp: int, max: int)
    requires Valid(seen) && nonce !in seen.vals && |seen.keys| <= max
    ensures var room := if |seen.keys| >= max && seen.keys != [] then DropOldest(seen) else seen;
            max > 0 ==> Trim(Put(seen, nonce, stamp), max) == Put(room, nonce, stamp)
    ensures max == 0 ==> Trim(Put(seen, nonce, stamp), max) == Empty()
  {
    hide Trim, Keep;
    var more := Put(seen, nonce, stamp);
    if |seen.keys| < max {
      TrimNone(more, max);
    } else {
      TrimOne(more, max);
      if max > 0 {
        DropAfterPut(seen, nonce, stamp);
      } else {
        EmptyVals(seen);
        OldestFirst(more);
        assert DropOldest(more).vals == map[];
      }
    }
  }

  lemma DropAfterPut(seen: Seen, nonce: string, stamp: int)
    requires Valid(seen) && nonce !in seen.vals && seen.keys != []
    ensures DropOldest(Put(seen, nonce, stamp)) == Put(DropOldest(seen), nonce, stamp)
  {
    hide Keep, Distinct, Valid;
    var more := Put(seen, nonce, stamp);
    OldestFirst(more);
    OldestFirst(seen);
    var oldest := seen.keys[0];
    OldestHeld(seen);
    assert more.keys[0] == oldest && oldest != nonce;
    assert (seen.vals - {oldest})[nonce := stamp] == more.vals - {oldest};
    assert more.keys[1..] == seen.keys[1..] + [nonce];
  }

  lemma OldestHeld(seen: Seen)
    requires Valid(seen) && seen.keys != []
    ensures seen.keys[0] in seen.vals
  {
  }

  lemma TrimNone(seen: Seen, max: int)
    requires Valid(seen) && |seen.keys| <= max
    ensures Trim(seen, max) == seen
  {
  }

  lemma TrimOne(seen: Seen, max: int)
    requires Valid(seen) && seen.keys != [] && |seen.keys| > max
    requires |seen.keys| - 1 <= max || |seen.keys| == 1
    ensures Trim(seen, max) == DropOldest(seen)
  {
    OldestFirst(seen);
  }

  lemma EmptyVals(seen: Seen)
    requires Valid(seen) && seen.keys == []
    ensures seen == Empty()
  {
    assert forall k :: k in seen.vals ==> k in seen.keys;
    assert seen.vals == map[];
  }

  lemma CheckTracks(cfg: Config, s: State, lo: nat, call: Call) returns (lo': nat)
    requires cfg.enabled && Tracks(cfg, s, lo, call.now)
    ensures var outcome := Check(cfg, s.seen, call.nonce, call.now);
            Tracks(cfg, State(outcome.seen, if outcome.accepted then s.log + [call] else s.log), lo', call.now)
  {
    var now := call.now;
    var outcome := Check(cfg, s.seen, call.nonce, now);
    var live := s.(seen := Purge(cfg, s.seen, now));
    var mid := PurgeTracks(cfg, s, lo, now);
    if !outcome.accepted {
      lo' := if cfg.strict then mid else lo;
    } else if cfg.maxEntries > 0 || !Capped(cfg) {
      lo' := AcceptTracks(cfg, live, mid, now, call);
      if !cfg.strict { TrimIsDropFirst(live.seen, call.nonce, Stamp(cfg, now), cfg.maxEntries); }
    } else {
      lo' := |s.log| + 1;
      NothingRemembered(cfg, live, mid, now, call);
    }
  }

  /** With no room at all the broadcaster's window stays empty. */
  lemma NothingRemembered(cfg: Config, live: State, mid: nat, now: int, call: Call)
    requires Tracks(cfg, live, mid, now) && !cfg.strict && cfg.maxEntries <= 0 && call.now == now
    ensures Trim(Put(live.seen, call.nonce, Stamp(cfg, now)), cfg.maxEntries) == Empty()
    ensures Tracks(cfg, State(Empty(), live.log + [call]), |live.log| + 1, now)
  {
    EmptyVals(live.seen);
    var one := Put(live.seen, call.nonce, Stamp(cfg, now));
    OldestFirst(one);
    TrimOne(one, cfg.maxEntries);
    assert DropOldest(one).vals == map[];
    ForgottenLonger(cfg, live.log, mid, now, call);
  }

  lemma {:induction false} RunTracks(cfg: Config, calls: seq<Call>, now: int) returns (lo: nat)
    requires cfg.enabled && InTimeOrder(calls)
    requires calls != [] ==> calls[|calls| - 1].now <= now
    ensures Tracks(cfg, Run(cfg, calls), lo, now)
  {
    if calls == [] {
      lo := 0;
    } else {
      var before, last := calls[..|calls| - 1], calls[|calls| - 1];
      lo := RunTracks(cfg, before, last.now);
      lo := CheckTracks(cfg, Run(cfg, before), lo, last);
      TracksLater(cfg, Run(cfg, calls), lo, last.now, now);
    }
  }

  lemma TracksLater(cfg: Config, s: State, lo: nat, now: int, later: int)
    requires Tracks(cfg, s, lo, now) && now <= later
    ensures Tracks(cfg, s, lo, later)
  {
  }

  /** Accepted call `i` still counts at `now`: not expired, and fewer than `maxEntries` accepted since. */
  predicate StillCounts(cfg: Config, log: seq<Call>, i: nat, now: int)
    requires i < |log|
  {
    && WithinTtl(cfg, now - log[i].now)
    && ((cfg.strict && cfg.maxEntries <= 0) || |log| - 1 - i < cfg.maxEntries)
  }

  /** The time-to-live is inclusive in the cache module and exclusive in the broadcaster. */
  predicate WithinTtl(cfg: Config, age: int) {
    if cfg.strict then age <= cfg.ttlMs else age < cfg.ttlMs
  }

  lemma ExpiredIsPastTtl(cfg: Config, accepted: int, now: int)
    ensures Expired(cfg, Stamp(cfg, accepted), now) <==> !WithinTtl(cfg, now - accepted)
  {
  }

  /** A disabled deduplicator accepts everything and remembers nothing. */
  lemma DisabledAcceptsAll(cfg: Config, calls: seq<Call>, nonce: string, now: int)
    requires !cfg.enabled
    ensures Run(cfg, calls).seen == Empty() && Check(cfg, Run(cfg, calls).seen, nonce, now).accepted
  {
    if calls != [] { DisabledAcceptsAll(cfg, calls[..|calls| - 1], nonce, now); }
  }

  /** MAIN RESULT. After any run, a nonce is refused if and only if some accepted call carried it,
      has not expired and has fewer than `maxEntries` accepted calls after it. */
  lemma RefusedExactly(cfg: Config, calls: seq<Call>, nonce: string, now: int)
    requires cfg.enabled && InTimeOrder(calls + [Call(nonce, now)])
    ensures var s := Run(cfg, calls);
            !Check(cfg, s.seen, nonce, now).accepted <==>
            exists i :: 0 <= i < |s.log| && s.log[i].nonce == nonce && StillCounts(cfg, s.log, i, now)
  {
    hide Check, Run;
    var lo := RunBefore(cfg, calls, nonce, now);
    var s := Run(cfg, calls);
    CheckRefuses(cfg, s.seen, nonce, now);
    if nonce in s.seen.vals && !Expired(cfg, s.seen.vals[nonce], now) {
      assert nonce in s.seen.keys;
      var k :| 0 <= k < |s.seen.keys| && s.seen.keys[k] == nonce;
      assert s.log[lo + k].nonce == nonce && StillCounts(cfg, s.log, lo + k, now);
    }
    if i :| 0 <= i < |s.log| && s.log[i].nonce == nonce && StillCounts(cfg, s.log, i, now) {
      assert i >= lo;
      assert s.seen.keys[i - lo] == s.log[lo + (i - lo)].nonce;
    }
  }

  lemma CheckRefuses(cfg: Config, seen: Seen, nonce: string, now: int)
    requires cfg.enabled && Valid(seen)
    ensures !Check(cfg, seen, nonce, now).accepted <==>
            nonce in seen.vals && !Expired(cfg, seen.vals[nonce], now)
  {
  }

  lemma RunBefore(cfg: Config, calls: seq<Call>, nonce: string, now: int) returns (lo: nat)
    requires cfg.enabled && InTimeOrder(calls + [Call(nonce, now)])
    ensures Tracks(cfg, Run(cfg, calls), lo, now)
  {
    var all := calls + [Call(nonce, now)];
    assert forall i :: 0 <= i < |calls| ==> all[i] == calls[i];
    assert all[|calls|].now == now;
    lo := RunTracks(cfg, calls, now);
  }

  /** A nonce is accepted again only after expiry or after `maxEntries` accepted calls, right after
      the first, that all carry different nonces and none the same as it. */
  lemma AcceptedAgain(cfg: Config, calls: seq<Call>, nonce: string, now: int, i: nat)
    requires cfg.enabled && InTimeOrder(calls + [Call(nonce, now)])
    requires Check(cfg, Run(cfg, calls).seen, nonce, now).accepted
    requires i < |Run(cfg, calls).log| && Run(cfg, calls).log[i].nonce == nonce
    ensures var log := Run(cfg, calls).log;
            !WithinTtl(cfg, now - log[i].now) || (Crowded(cfg, log, i) && AllDifferent(cfg, log, i))
  {
    hide Check, Run, Expired, Stamp, WithinTtl, AllDifferent, Holds, UpTo, Valid, Distinct, InTimeOrder;
    var lo := RunBefore(cfg, calls, nonce, now);
    RefusedExactly(cfg, calls, nonce, now);
    var log := Run(cfg, calls).log;
    ExpiredIsPastTtl(cfg, log[i].now, now);
    if WithinTtl(cfg, now - log[i].now) {
      assert !StillCounts(cfg, log, i, now);
      assert i < lo;
    }
  }

  /** Along the keys, stamps do not decrease. */
  predicate SortedByStamp(seen: Seen) {
    forall i, j :: 0 <= i < j < |seen.keys| ==>
      && seen.keys[i] in seen.vals && seen.keys[j] in seen.vals
      && seen.vals[seen.keys[i]] <= seen.vals[seen.keys[j]]
  }

  /** Tracked nonces stay sorted by stamp and bounded in number. */
  lemma SortedAndBounded(cfg: Config, calls: seq<Call>)
    requires cfg.enabled && InTimeOrder(calls)
    ensures SortedByStamp(Run(cfg, calls).seen)
    ensures Capped(cfg) ==> |Run(cfg, calls).seen.keys| <= if cfg.maxEntries > 0 then cfg.maxEntries else 0
  {
    hide Run, Holds, UpTo, Forgotten, InTimeOrder, Valid, Distinct, SortedByStamp;
    var now := if calls == [] then 0 else calls[|calls| - 1].now;
    var lo := RunTracks(cfg, calls, now);
    StampsSorted(cfg, Run(cfg, calls), lo, now);
  }

  lemma StampsSorted(cfg: Config, s: State, lo: nat, now: int)
    requires Holds(cfg, s, lo) && UpTo(s.log, now) && lo <= |s.log| && |s.seen.keys| == |s.log| - lo
    ensures SortedByStamp(s.seen)
  {
    forall i, j | 0 <= i < j < |s.seen.keys| ensures
      s.seen.keys[i] in s.seen.vals && s.seen.keys[j] in s.seen.vals
      && s.seen.vals[s.seen.keys[i]] <= s.seen.vals[s.seen.keys[j]]
    {
      assert s.log[lo + i].now <= s.log[lo + j].now;
    }
  }

  // ---------------------------------------------------------------------------
  // The objects

  function LateAmong(cfg: Config, keys: seq<string>, seen: Seen, now: int): set<string> {
    set k | k in keys && k in seen.vals && Expired(cfg, seen.vals[k], now)
  }

  lemma LateAmongNext(cfg: Config, keys: seq<string>, i: nat, seen: Seen, now: int)
    requires i < |keys| && Distinct(keys) && keys[i] in seen.vals
    ensures keys[i] !in LateAmong(cfg, keys[..i], seen, now)
    ensures LateAmong(cfg, keys[..i + 1], seen, now) ==
            LateAmong(cfg, keys[..i], seen, now) + if Expired(cfg, seen.vals[keys[i]], now) then {keys[i]} else {}
  {
    assert keys[..i + 1] == keys[..i] + [keys[i]];
  }

  class NonceDeduplicator {
    const enabled: bool
    const ttlMs: int
    const maxEntries: int
    var seen: Seen

    constructor (enabled: bool, ttlMs: int, maxEntries: int)
      ensures this.enabled == enabled && this.ttlMs == ttlMs && this.maxEntries == maxEntries
      ensures seen == Run(Cfg(), []).seen
    {
      this.enabled, this.ttlMs, this.maxEntries := enabled, ttlMs, maxEntries;
      seen := Empty();
    }

    function Cfg(): Config {
      Config(true, enabled, ttlMs, maxEntries)
    }

    method CheckNonce(nonce: string, now: int) returns (accepted: bool)
      requires Valid(seen)
      modifies this
      ensures Valid(seen)
      ensures Outcome(accepted, seen) == Check(Cfg(), old(seen), nonce, now)
    {
      CheckValid(Cfg(), seen, nonce, now);
      if !enabled {
        return true;
      }
      PurgeExpired(now);
      if nonce in seen.vals {
        return false;
      }
      if maxEntries > 0 && |seen.keys| >= maxEntries {
        seen := Remove(seen, seen.keys[0]);
      }
      seen := Put(seen, nonce, now + ttlMs);
      return true;
    }

    method PurgeExpired(now: int)
      requires Valid(seen)
      modifies this
      ensures seen == Purge(Cfg(), old(seen), now) && Valid(seen)
    {
      hide Keep;
      ghost var before, gone: set<string> := seen, {};
      var keys := seen.keys;
      RemoveNone(seen);
      assert LateAmong(Cfg(), keys[..0], seen, now) == {};
      for i := 0 to |keys|
        invariant gone == LateAmong(Cfg(), keys[..i], before, now)
        invariant seen == RemoveAll(before, gone)
      {
        LateAmongNext(Cfg(), keys, i, before, now);
        if now > seen.vals[keys[i]] {
          RemoveAllTwice(before, gone, {keys[i]});
          seen := Remove(seen, keys[i]);
          gone := gone + {keys[i]};
        }
      }
      assert keys[..|keys|] == keys;
      assert gone == Late(Cfg(), before, now);
      RemoveAllValid(before, gone);
    }
  }

  class Broadcaster {
    const dedupEnabled: bool
    const dedupTtlMs: int
    const dedupMaxEntries: int
    var seenNonces: Seen

    constructor (enabled: bool, ttlMs: int, maxEntries: int)
      ensures dedupEnabled == enabled && dedupTtlMs == ttlMs && dedupMaxEntries == maxEntries
      ensures seenNonces == Run(Cfg(), []).seen
    {
      dedupEnabled, dedupTtlMs, dedupMaxEntries := enabled, ttlMs, maxEntries;
      seenNonces := Empty();
    }

    function Cfg(): Config {
      Config(false, dedupEnabled, dedupTtlMs, dedupMaxEntries)
    }

    /** Whether a broadcast carrying this nonce is delivered. */
    method Broadcast(nonce: string, now: int) returns (delivered: bool)
      requires Valid(seenNonces)
      modifies this
      ensures Valid(seenNonces)
      ensures Outcome(delivered, seenNonces) == Check(Cfg(), old(seenNonces), nonce, now)
    {
      CheckValid(Cfg(), seenNonces, nonce, now);
      if dedupEnabled {
        var duplicate := IsDuplicate(nonce, now);
        if duplicate {
          return false;
        }
        RecordNonce(nonce, now);
      }
      return true;
    }

    method IsDuplicate(nonce: string, now: int) returns (duplicate: bool)
      requires Valid(seenNonces)
      modifies this
      ensures Valid(seenNonces)
      ensures duplicate <==> nonce in old(seenNonces).vals && !Expired(Cfg(), old(seenNonces).vals[nonce], now)
      ensures duplicate ==> seenNonces == old(seenNonces)
      ensures Purge(Cfg(), seenNonces, now) == Purge(Cfg(), old(seenNonces), now)
    {
      if nonce !in seenNonces.vals {
        return false;
      }
      if now - seenNonces.vals[nonce] >= dedupTtlMs {
        ghost var before := seenNonces;
        seenNonces := Remove(seenNonces, nonce);
        RemoveAllValid(before, {nonce});
        RemoveAllTwice(before, {nonce}, Late(Cfg(), seenNonces, now));
        assert {nonce} + Late(Cfg(), seenNonces, now) == Late(Cfg(), before, now);
        return false;
      }
      return true;
    }

    method RecordNonce(nonce: string, now: int)
      requires Valid(seenNonces)
      modifies this
      ensures Valid(Purge(Cfg(), old(seenNonces), now))
      ensures seenNonces == Trim(Put(Purge(Cfg(), old(seenNonces), now), nonce, now), dedupMaxEntries)
    {
      PurgeLate(now);
      seenNonces := Put(seenNonces, nonce, now);
      ghost var goal := Trim(seenNonces, dedupMaxEntries);
      while |seenNonces.keys| > dedupMaxEntries
        invariant Valid(seenNonces) && Trim(seenNonces, dedupMaxEntries) == goal
        decreases |seenNonces.keys|
      {
        if seenNonces.keys == [] {
          break;
        }
        OldestFirst(seenNonces);
        seenNonces := Remove(seenNonces, seenNonces.keys[0]);
      }
    }

    method PurgeLate(now: int)
      requires Valid(seenNonces)
      modifies this
      ensures seenNonces == Purge(Cfg(), old(seenNonces), now) && Valid(seenNonces)
    {
      hide Keep;
      ghost var before, gone: set<string> := seenNonces, {};
      var keys := seenNonces.keys;
      RemoveNone(seenNonces);
      assert LateAmong(Cfg(), keys[..0], seenNonces, now) == {};
      for i := 0 to |keys|
        invariant gone == LateAmong(Cfg(), keys[..i], before, now)
        invariant seenNonces == RemoveAll(before, gone)
      {
        LateAmongNext(Cfg(), keys, i, before, now);
        if now - seenNonces.vals[keys[i]] >= dedupTtlMs {
          RemoveAllTwice(before, gone, {keys[i]});
          seenNonces := Remove(seenNonces, keys[i]);
          gone := gone + {keys[i]};
        }
      }
      assert keys[..|keys|] == keys;
      assert gone == Late(Cfg(), before, now);
      RemoveAllValid(before, gone);
    }
  }
}
