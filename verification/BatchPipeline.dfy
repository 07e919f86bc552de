/** The batch optimizer pipeline: payments with one key become one, the largest go first, and they
    are executed a limited number at a time. */
module BatchPipeline {
  import opened Basics
  import opened OrderedMap
  import opened MergeByKey

  datatype BatchOp = BatchOp(
    id: string, destination: string, amount: real, currency: string,
    source: Option<string>, metadata: Option<map<string, string>>)

  // ---------------------------------------------------------------------------
  // Deduplication

  /** An absent source is spelt like an empty one. */
  function SourceText(op: BatchOp): string {
    match op.source case Some(s) => s case None => ""
  }

  function OpKey(op: BatchOp): string {
    op.destination + ":" + op.currency + ":" + SourceText(op)
  }

  datatype Route = Route(destination: string, currency: string, source: string)

  function RouteOf(op: BatchOp): Route {
    Route(op.destination, op.currency, SourceText(op))
  }

  /** Spreading absent metadata adds nothing. */
  function Entries(metadata: Option<map<string, string>>): map<string, string> {
    match metadata case Some(entries) => entries case None => map[]
  }

  function Combine(a: BatchOp, b: BatchOp): BatchOp {
    a.(amount := a.amount + b.amount, metadata := Some(Entries(a.metadata) + Entries(b.metadata)))
  }

  function AmountOf(op: BatchOp): real {
    op.amount
  }

  lemma CombineFits()
    ensures KeepsKey(OpKey, Combine) && AddsUp(AmountOf, Combine)
    ensures KeepsTag(OpKey, Combine) && KeepsTag(RouteOf, Combine) && Determines(RouteOf, OpKey)
  {
  }

  function Deduplicated(ops: seq<BatchOp>): (r: seq<BatchOp>) {
    CombineFits();
    MergeMeans(OpKey, Combine, ops);
    Values(MergeBy(OpKey, Combine, ops))
  }

  method DeduplicateOps(ops: seq<BatchOp>) returns (r: seq<BatchOp>)
    ensures r == Deduplicated(ops)
  {
    hide MergeBy, FirstSeen, Keys, WithKey, FoldAll, OpKey;
    var merged: OMap<string, BatchOp> := Empty();
    MergeByNext(OpKey, Combine, ops, 0);
    for i := 0 to |ops|
      invariant merged == MergeBy(OpKey, Combine, ops[..i])
    {
      var op := ops[i];
      var key := OpKey(op);
      MergeByNext(OpKey, Combine, ops, i);
      if key in merged.vals {
        var existing := merged.vals[key];
        existing := existing.(amount := existing.amount + op.amount);
        existing := existing.(metadata := Some(Entries(existing.metadata) + Entries(op.metadata)));
        merged := Put(merged, key, existing);
      } else {
        merged := Put(merged, key, op);
      }
    }
    MergeByNext(OpKey, Combine, ops, |ops|);
    CombineFits();
    MergeMeans(OpKey, Combine, ops);
    r := Values(merged);
  }

  /** One operation per key, in order of first appearance; doing it again changes nothing; and
      amounts are kept, key by key and altogether. */
  lemma DeduplicatedMeans(ops: seq<BatchOp>)
    ensures Keys(OpKey, Deduplicated(ops)) == FirstSeen(Keys(OpKey, ops)) && Distinct(Keys(OpKey, Deduplicated(ops)))
    ensures Deduplicated(Deduplicated(ops)) == Deduplicated(ops)
    ensures forall k :: SumWith(AmountOf, OpKey, Deduplicated(ops), k) == SumWith(AmountOf, OpKey, ops, k)
    ensures Sum(AmountOf, Deduplicated(ops)) == Sum(AmountOf, ops)
  {
    CombineFits();
    MergeMeans(OpKey, Combine, ops);
    MergeIdempotent(OpKey, Combine, ops);
    MergeKeepsTotal(OpKey, Combine, AmountOf, ops);
    FirstSeenMembers(Keys(OpKey, ops));
    var m := MergeBy(OpKey, Combine, ops);
    assert Keys(OpKey, Values(m)) == m.keys;
    forall k ensures SumWith(AmountOf, OpKey, Deduplicated(ops), k) == SumWith(AmountOf, OpKey, ops, k) {
      MergeKeepsSums(OpKey, Combine, AmountOf, OpKey, ops, k);
    }
  }

  /** Where equal keys mean equal routes, every destination, currency and source keeps its sum. */
  lemma DedupePreservesRoutes(ops: seq<BatchOp>, route: Route)
    requires Faithful(OpKey, RouteOf, ops)
    ensures SumWith(AmountOf, RouteOf, Deduplicated(ops), route) == SumWith(AmountOf, RouteOf, ops, route)
  {
    CombineFits();
    MergeKeepsSums(OpKey, Combine, AmountOf, RouteOf, ops, route);
  }

  /** For positive amounts all of them do exactly then. */
  lemma RoutesPreservedExactly(ops: seq<BatchOp>)
    requires forall op :: op in ops ==> op.amount > 0.0
    ensures (forall route :: SumWith(AmountOf, RouteOf, Deduplicated(ops), route) == SumWith(AmountOf, RouteOf, ops, route))
            <==> Faithful(OpKey, RouteOf, ops)
  {
    CombineFits();
    assert forall op :: op in ops ==> AmountOf(op) > 0.0;
    MergeSumsExactly(OpKey, Combine, AmountOf, RouteOf, ops);
  }

  predicate SeparatorFree(op: BatchOp) {
    ':' !in op.destination && ':' !in SourceText(op)
  }

  /** Destinations and sources without the separator suffice; the currency may contain it. */
  lemma SeparatorFreeIsFaithful(ops: seq<BatchOp>)
    requires forall op :: op in ops ==> SeparatorFree(op)
    ensures Faithful(OpKey, RouteOf, ops)
  {
    forall a, b | a in ops && b in ops && OpKey(a) == OpKey(b) ensures RouteOf(a) == RouteOf(b) {
      assert OpKey(a) == a.destination + ":" + (a.currency + ":" + SourceText(a));
      assert OpKey(b) == b.destination + ":" + (b.currency + ":" + SourceText(b));
      SplitAtSeparator(':', a.destination, a.currency + ":" + SourceText(a), b.destination, b.currency + ":" + SourceText(b));
      SplitAtLastSeparator(':', a.currency, SourceText(a), b.currency, SourceText(b));
    }
  }

  /** The position of the last operation whose metadata has the entry, or -1. */
  function LastWith(items: seq<BatchOp>, name: string): (i: int)
    ensures -1 <= i < |items|
    ensures i >= 0 ==> name in Entries(items[i].metadata)
    ensures forall j :: i < j < |items| ==> name !in Entries(items[j].metadata)
  {
    if items == [] then -1
    else if name in Entries(items[|items| - 1].metadata) then |items| - 1
    else LastWith(items[..|items| - 1], name)
  }

  /** A merged operation is the first with its key, except that amounts are added up and every
      metadata entry is the one of the last operation with the key that has it. */
  lemma {:induction false} MergedMetadata(items: seq<BatchOp>, name: string)
    requires items != []
    ensures var merged := FoldAll(Combine, items);
            && merged.id == items[0].id && merged.source == items[0].source
            && merged.destination == items[0].destination && merged.currency == items[0].currency
            && (name in Entries(merged.metadata) <==> LastWith(items, name) >= 0)
            && (name in Entries(merged.metadata) ==>
                  Entries(merged.metadata)[name] == Entries(items[LastWith(items, name)].metadata)[name])
  {
    if |items| > 1 {
      MergedMetadata(items[..|items| - 1], name);
    }
  }

  lemma DeduplicatedFolds(ops: seq<BatchOp>, i: nat)
    requires i < |Deduplicated(ops)|
    ensures var r := Deduplicated(ops)[i];
            && WithKey(OpKey, ops, OpKey(r)) != []
            && r == FoldAll(Combine, WithKey(OpKey, ops, OpKey(r)))
  {
    CombineFits();
    MergeMeans(OpKey, Combine, ops);
    var m := MergeBy(OpKey, Combine, ops);
    assert m.keys[i] in m.vals;
  }

  // ---------------------------------------------------------------------------
  // Priorities

  datatype Order = Asc | Desc

  /** Whether `a` may stand before `b`. */
  predicate InOrder(order: Order, a: BatchOp, b: BatchOp) {
    match order
    case Desc => a.amount >= b.amount
    case Asc => a.amount <= b.amount
  }

  predicate Sorted(order: Order, ops: seq<BatchOp>) {
    forall i, j :: 0 <= i < j < |ops| ==> InOrder(order, ops[i], ops[j])
  }

  /** The operations of one amount, in order. */
  function WithAmount(ops: seq<BatchOp>, amount: real): seq<BatchOp> {
    if ops == [] then []
    else (if ops[0].amount == amount then [ops[0]] else []) + WithAmount(ops[1..], amount)
  }

  /** Puts `op` before the first element it may stand before. */
  function Insert(order: Order, op: BatchOp, ops: seq<BatchOp>): seq<BatchOp> {
    if ops == [] || InOrder(order, op, ops[0]) then [op] + ops
    else [ops[0]] + Insert(order, op, ops[1..])
  }

  /** What a stable sort returns; SortIsUnique shows that there is only one such list. */
  function PrioritizeOps(ops: seq<BatchOp>, order: Order): seq<BatchOp> {
    if ops == [] then [] else Insert(order, ops[0], PrioritizeOps(ops[1..], order))
  }

  lemma {:induction false} InsertMembers(order: Order, op: BatchOp, ops: seq<BatchOp>)
    ensures multiset(Insert(order, op, ops)) == multiset(ops) + multiset{op}
    ensures forall x :: x in Insert(order, op, ops) ==> x in ops || x == op
  {
    if !(ops == [] || InOrder(order, op, ops[0])) {
      assert ops == [ops[0]] + ops[1..];
      InsertMembers(order, op, ops[1..]);
    }
  }

  lemma SortedEmpty(order: Order)
    ensures Sorted(order, [])
  {
  }

  lemma SortedCons(order: Order, op: BatchOp, ops: seq<BatchOp>)
    requires Sorted(order, ops) && forall x :: x in ops ==> InOrder(order, op, x)
    ensures Sorted(order, [op] + ops)
  {
  }

  lemma SortedTail(order: Order, ops: seq<BatchOp>)
    requires Sorted(order, ops) && ops != []
    ensures Sorted(order, ops[1..]) && forall x :: x in ops ==> InOrder(order, ops[0], x)
  {
  }

  lemma {:induction false} InsertSorts(order: Order, op: BatchOp, ops: seq<BatchOp>)
    requires Sorted(order, ops)
    ensures Sorted(order, Insert(order, op, ops))
  {
    hide Sorted;
    if ops == [] {
      SortedEmpty(order);
      SortedCons(order, op, []);
    } else {
      SortedTail(order, ops);
      if InOrder(order, op, ops[0]) {
        SortedCons(order, op, ops);
      } else {
        InsertSorts(order, op, ops[1..]);
        InsertMembers(order, op, ops[1..]);
        SortedCons(order, ops[0], Insert(order, op, ops[1..]));
      }
    }
  }

  /** The new element stands before those of its own amount. */
  lemma {:induction false} InsertStable(order: Order, op: BatchOp, ops: seq<BatchOp>, amount: real)
    ensures WithAmount(Insert(order, op, ops), amount) == (if op.amount == amount then [op] else []) + WithAmount(ops, amount)
  {
    if ops == [] || InOrder(order, op, ops[0]) {
      assert ([op] + ops)[1..] == ops;
    } else {
      var rest := Insert(order, op, ops[1..]);
      InsertStable(order, op, ops[1..], amount);
      assert ([ops[0]] + rest)[1..] == rest;
    }
  }

  lemma SortedMeans(order: Order, r: seq<BatchOp>)
    requires Sorted(order, r)
    ensures forall i, j :: 0 <= i < j < |r| ==> if order == Asc then r[i].amount <= r[j].amount else r[i].amount >= r[j].amount
  {
    forall i, j | 0 <= i < j < |r|
      ensures if order == Asc then r[i].amount <= r[j].amount else r[i].amount >= r[j].amount
    {
      assert InOrder(order, r[i], r[j]);
    }
  }

  lemma {:induction false} PrioritizedStable(ops: seq<BatchOp>, order: Order, amount: real)
    ensures WithAmount(PrioritizeOps(ops, order), amount) == WithAmount(ops, amount)
  {
    if ops != [] {
      PrioritizedStable(ops[1..], order, amount);
      InsertStable(order, ops[0], PrioritizeOps(ops[1..], order), amount);
    }
  }

  lemma {:induction false} PrioritizedSorts(ops: seq<BatchOp>, order: Order)
    ensures Sorted(order, PrioritizeOps(ops, order))
    ensures multiset(PrioritizeOps(ops, order)) == multiset(ops)
  {
    hide Sorted, Insert;
    if ops == [] {
      SortedEmpty(order);
    } else {
      PrioritizedSorts(ops[1..], order);
      InsertSorts(order, ops[0], PrioritizeOps(ops[1..], order));
      InsertMembers(order, ops[0], PrioritizeOps(ops[1..], order));
      assert ops == [ops[0]] + ops[1..];
    }
  }

  /** MAIN RESULT. The result is sorted, has the same operations, and keeps operations of equal
      amount in their order. */
  lemma PrioritizedMeans(ops: seq<BatchOp>, order: Order)
    ensures Sorted(order, PrioritizeOps(ops, order))
    ensures var r := PrioritizeOps(ops, order);
            forall i, j :: 0 <= i < j < |r| ==> if order == Asc then r[i].amount <= r[j].amount else r[i].amount >= r[j].amount
    ensures multiset(PrioritizeOps(ops, order)) == multiset(ops)
    ensures forall amount :: WithAmount(PrioritizeOps(ops, order), amount) == WithAmount(ops, amount)
  {
    hide Sorted, PrioritizeOps, WithAmount;
    PrioritizedSorts(ops, order);
    SortedMeans(order, PrioritizeOps(ops, order));
    forall amount ensures WithAmount(PrioritizeOps(ops, order), amount) == WithAmount(ops, amount) {
      PrioritizedStable(ops, order, amount);
    }
  }

  lemma {:induction false} WithAmountMembers(ops: seq<BatchOp>, op: BatchOp)
    ensures op in WithAmount(ops, op.amount) <==> op in ops
  {
    if ops != [] { WithAmountMembers(ops[1..], op); }
  }

  lemma SameMembers(r: seq<BatchOp>, s: seq<BatchOp>)
    requires forall amount :: WithAmount(r, amount) == WithAmount(s, amount)
    ensures forall op :: op in r ==> op in s
    ensures forall op :: op in s ==> op in r
    ensures r == [] <==> s == []
  {
    forall op ensures op in r <==> op in s {
      WithAmountMembers(r, op);
      WithAmountMembers(s, op);
    }
    assert r != [] ==> r[0] in r;
    assert s != [] ==> s[0] in s;
  }

  /** Any list that is sorted and stable is the one PrioritizeOps returns. */
  lemma {:induction false} SortIsUnique(order: Order, r: seq<BatchOp>, s: seq<BatchOp>)
    requires Sorted(order, r) && Sorted(order, s)
    requires forall amount :: WithAmount(r, amount) == WithAmount(s, amount)
    ensures r == s
  {
    hide Sorted;
    SameMembers(r, s);
    if r != [] {
      SortedTail(order, r);
      SortedTail(order, s);
      assert r[0] in s && s[0] in r;
      assert WithAmount(r, r[0].amount)[0] == r[0] && WithAmount(s, r[0].amount)[0] == s[0];
      forall amount ensures WithAmount(r[1..], amount) == WithAmount(s[1..], amount) {
        DropFirst(r, amount);
        DropFirst(s, amount);
      }
      SortIsUnique(order, r[1..], s[1..]);
      assert r == [r[0]] + r[1..] && s == [s[0]] + s[1..];
    }
  }

  lemma DropFirst(ops: seq<BatchOp>, amount: real)
    requires ops != []
    ensures WithAmount(ops[1..], amount) ==
            if ops[0].amount == amount then WithAmount(ops, amount)[1..] else WithAmount(ops, amount)
  {
  }

  // ---------------------------------------------------------------------------
  // Execution

  /** How the executor's promise for one operation settles. */
  datatype Outcome<T> = Resolved(value: T, durationMs: int) | Failed(reason: string)

  datatype OpResult<T> =
    | Fulfilled(id: string, value: T, durationMs: int)
    | Rejected(id: string, error: string, durationMs: int)

  function ResultOf<T>(op: BatchOp, outcome: Outcome<T>): OpResult<T> {
    match outcome
    case Resolved(value, durationMs) => Fulfilled(op.id, value, durationMs)
    case Failed(reason) => Rejected(op.id, reason, 0)
  }

  /** The result carries the operation's id, and the value and time or the error it settled with. */
  ghost predicate Reports<T>(result: OpResult<T>, op: BatchOp, outcome: Outcome<T>) {
    && result.id == op.id
    && (result.Fulfilled? <==> outcome.Resolved?)
    && (outcome.Resolved? ==> result.value == outcome.value && result.durationMs == outcome.durationMs)
    && (outcome.Failed? ==> result.error == outcome.reason && result.durationMs == 0)
  }

  function Flatten(waves: seq<seq<BatchOp>>): seq<BatchOp> {
    if waves == [] then [] else Flatten(waves[..|waves| - 1]) + waves[|waves| - 1]
  }

  lemma FlattenAppend(waves: seq<seq<BatchOp>>, wave: seq<BatchOp>)
    ensures Flatten([]) == [] && Flatten(waves + [wave]) == Flatten(waves) + wave
  {
    assert (waves + [wave])[..|waves|] == waves;
  }

  /** `settle(n, op)` is how the executor's call number `n`, for `op`, settles. The calls of one
      wave run together; a wave starts when all calls of the one before have settled. */
  method ExecuteInParallel<T>(ops: seq<BatchOp>, settle: (nat, BatchOp) -> Outcome<T>, concurrency: int)
    returns (results: seq<OpResult<T>>, ghost waves: seq<seq<BatchOp>>)
    requires concurrency >= 1
    ensures |results| == |ops|
    ensures forall i :: 0 <= i < |ops| ==> Reports(results[i], ops[i], settle(i, ops[i]))
    ensures Flatten(waves) == ops
    ensures forall w :: 0 <= w < |waves| ==> 1 <= |waves[w]| <= concurrency
    ensures forall w :: 0 <= w < |waves| - 1 ==> |waves[w]| == concurrency
  {
    hide Flatten, Answered, Waves;
    results, waves := [], [];
    NothingStarted(ops, settle, concurrency);
    var i := 0;
    while i < |ops|
      invariant 0 <= i
      invariant Waves(waves, ops[..Min(i, |ops|)], concurrency, i <= |ops|)
      invariant |results| == Min(i, |ops|) && Answered(results, ops, settle)
      decreases |ops| - i
    {
      var chunk := ops[i..Min(i + concurrency, |ops|)];
      for j := 0 to |chunk|
        invariant |results| == i + j && Answered(results, ops, settle)
      {
        ghost var before := results;
        match settle(i + j, chunk[j]) {
          case Resolved(value, durationMs) =>
            results := results + [Fulfilled(chunk[j].id, value, durationMs)];
          case Failed(reason) =>
            results := results + [Rejected(chunk[j].id, reason, 0)];
        }
        AnsweredNext(before, ops, settle);
      }
      NextWave(waves, ops[..i], chunk, concurrency);
      waves := waves + [chunk];
      assert ops[..i] + chunk == ops[..Min(i + concurrency, |ops|)];
      i := i + concurrency;
    }
    assert ops[..|ops|] == ops;
    AllAnswered(results, waves, ops, settle, concurrency);
  }

  /** The results so far are those of the first operations, in order. */
  ghost predicate Answered<T>(results: seq<OpResult<T>>, ops: seq<BatchOp>, settle: (nat, BatchOp) -> Outcome<T>) {
    |results| <= |ops| && forall n :: 0 <= n < |results| ==> results[n] == ResultOf(ops[n], settle(n, ops[n]))
  }

  /** The waves so far started `started`, each full, the last one perhaps not. */
  ghost predicate Waves(waves: seq<seq<BatchOp>>, started: seq<BatchOp>, concurrency: int, full: bool) {
    && Flatten(waves) == started
    && (forall w :: 0 <= w < |waves| ==> 1 <= |waves[w]| <= concurrency)
    && (forall w :: 0 <= w < |waves| ==> w < |waves| - 1 || full ==> |waves[w]| == concurrency)
  }

  lemma NothingStarted<T>(ops: seq<BatchOp>, settle: (nat, BatchOp) -> Outcome<T>, concurrency: int)
    ensures Waves([], ops[..0], concurrency, true) && Answered([], ops, settle)
  {
  }

  lemma AnsweredNext<T>(results: seq<OpResult<T>>, ops: seq<BatchOp>, settle: (nat, BatchOp) -> Outcome<T>)
    requires Answered(results, ops, settle) && |results| < |ops|
    ensures var n := |results|; Answered(results + [ResultOf(ops[n], settle(n, ops[n]))], ops, settle)
  {
  }

  lemma NextWave(waves: seq<seq<BatchOp>>, started: seq<BatchOp>, wave: seq<BatchOp>, concurrency: int)
    requires Waves(waves, started, concurrency, true) && 1 <= |wave| <= concurrency
    ensures Waves(waves + [wave], started + wave, concurrency, |wave| == concurrency)
  {
    hide Flatten;
    FlattenAppend(waves, wave);
  }

  lemma AllAnswered<T>(results: seq<OpResult<T>>, waves: seq<seq<BatchOp>>, ops: seq<BatchOp>,
                       settle: (nat, BatchOp) -> Outcome<T>, concurrency: int)
    requires Answered(results, ops, settle) && |results| == |ops|
    requires Waves(waves, ops, concurrency, false) || Waves(waves, ops, concurrency, true)
    ensures forall i :: 0 <= i < |ops| ==> Reports(results[i], ops[i], settle(i, ops[i]))
    ensures Flatten(waves) == ops
    ensures forall w :: 0 <= w < |waves| ==> 1 <= |waves[w]| <= concurrency
    ensures forall w :: 0 <= w < |waves| - 1 ==> |waves[w]| == concurrency
  {
    hide Flatten;
  }

  /** The order that applies when the caller gives none: the configured one, or descending. */
  function EffectiveOrder(configured: Option<Order>): Order {
    match configured case Some(order) => order case None => Desc
  }

  /** MAIN RESULT. The pipeline returns one result per distinct key, in the order of priority: there
      is an arrangement of the merged operations, sorted and stable, whose operations the results
      belong to one by one. */
  method Optimize<T>(ops: seq<BatchOp>, settle: (nat, BatchOp) -> Outcome<T>, concurrency: int, priorityOrder: Option<Order>)
    returns (results: seq<OpResult<T>>, ghost executed: seq<BatchOp>)
    requires concurrency >= 1
    ensures priorityOrder == Some(Asc) ==> forall i, j :: 0 <= i < j < |executed| ==> executed[i].amount <= executed[j].amount
    ensures priorityOrder != Some(Asc) ==> forall i, j :: 0 <= i < j < |executed| ==> executed[i].amount >= executed[j].amount
    ensures multiset(executed) == multiset(Deduplicated(ops))
    ensures forall amount :: WithAmount(executed, amount) == WithAmount(Deduplicated(ops), amount)
    ensures |results| == |FirstSeen(Keys(OpKey, ops))|
    ensures |results| == |executed|
    ensures forall i :: 0 <= i < |executed| ==> Reports(results[i], executed[i], settle(i, executed[i]))
  {
    var deduped := DeduplicateOps(ops);
    var prioritized := PrioritizeOps(deduped, EffectiveOrder(priorityOrder));
    DeduplicatedMeans(ops);
    PrioritizedMeans(deduped, EffectiveOrder(priorityOrder));
    ghost var waves;
    results, waves := ExecuteInParallel(prioritized, settle, concurrency);
    executed := prioritized;
    assert |multiset(executed)| == |executed| && |multiset(deduped)| == |deduped|;
  }
}
