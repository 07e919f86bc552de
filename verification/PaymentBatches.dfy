/** The batch payment optimizer: merging payments that share source, destination and currency, and
    grouping the result by currency. */
module PaymentBatches {
  import opened OrderedMap
  import opened MergeByKey

  datatype Payment = Payment(
    id: string, source: string, destination: string, amount: real, currency: string, metadata: map<string, string>)

  function PaymentKey(p: Payment): string {
    p.source + "|" + p.destination + "|" + p.currency
  }

  function Combine(a: Payment, b: Payment): Payment {
    a.(amount := a.amount + b.amount)
  }

  function AmountOf(p: Payment): real {
    p.amount
  }

  function CurrencyOf(p: Payment): string {
    p.currency
  }

  function Merged(ops: seq<Payment>): (r: seq<Payment>) {
    CombineFits();
    MergeMeans(PaymentKey, Combine, ops);
    Values(MergeBy(PaymentKey, Combine, ops))
  }

  lemma CombineFits()
    ensures KeepsKey(PaymentKey, Combine) && AddsUp(AmountOf, Combine)
    ensures KeepsTag(PaymentKey, Combine) && KeepsTag(RouteOf, Combine) && KeepsTag(CurrencyOf, Combine)
    ensures Determines(RouteOf, PaymentKey)
  {
  }

  method MergeOperations(ops: seq<Payment>) returns (r: seq<Payment>)
    ensures r == Merged(ops)
  {
    hide MergeBy, FirstSeen, Keys, WithKey, FoldAll;
    var merged: OMap<string, Payment> := Empty();
    MergeByNext(PaymentKey, Combine, ops, 0);
    for i := 0 to |ops|
      invariant merged == MergeBy(PaymentKey, Combine, ops[..i])
    {
      var operation := ops[i];
      var key := operation.source + "|" + operation.destination + "|" + operation.currency;
      MergeByNext(PaymentKey, Combine, ops, i);
      if key in merged.vals {
        var existing := merged.vals[key];
        merged := Put(merged, key, existing.(amount := existing.amount + operation.amount));
      } else {
        merged := Put(merged, key, operation);
      }
    }
    MergeByNext(PaymentKey, Combine, ops, |ops|);
    CombineFits();
    MergeMeans(PaymentKey, Combine, ops);
    r := Values(merged);
  }

  /** One operation per key, in order of first appearance; merging again changes nothing; and every
      key keeps its total amount. */
  lemma MergedMeans(ops: seq<Payment>)
    ensures Keys(PaymentKey, Merged(ops)) == FirstSeen(Keys(PaymentKey, ops)) && Distinct(Keys(PaymentKey, Merged(ops)))
    ensures Merged(Merged(ops)) == Merged(ops)
    ensures forall k :: SumWith(AmountOf, PaymentKey, Merged(ops), k) == SumWith(AmountOf, PaymentKey, ops, k)
  {
    CombineFits();
    MergeMeans(PaymentKey, Combine, ops);
    MergeIdempotent(PaymentKey, Combine, ops);
    FirstSeenMembers(Keys(PaymentKey, ops));
    var m := MergeBy(PaymentKey, Combine, ops);
    assert Keys(PaymentKey, Values(m)) == m.keys;
    forall k ensures SumWith(AmountOf, PaymentKey, Merged(ops), k) == SumWith(AmountOf, PaymentKey, ops, k) {
      MergeKeepsSums(PaymentKey, Combine, AmountOf, PaymentKey, ops, k);
    }
  }

  // ---------------------------------------------------------------------------
  // Totals per source, destination and currency

  datatype Route = Route(source: string, destination: string, currency: string)

  function RouteOf(p: Payment): Route {
    Route(p.source, p.destination, p.currency)
  }

  predicate SeparatorFree(p: Payment) {
    '|' !in p.source && '|' !in p.destination
  }

  /** Identifiers without the separator make equal keys mean equal routes, hence equal currencies;
      the currency itself may contain anything. */
  lemma SeparatorFreeIsFaithful(ops: seq<Payment>)
    requires forall p :: p in ops ==> SeparatorFree(p)
    ensures Faithful(PaymentKey, RouteOf, ops) && Faithful(PaymentKey, CurrencyOf, ops)
  {
    forall a, b | a in ops && b in ops && PaymentKey(a) == PaymentKey(b) ensures RouteOf(a) == RouteOf(b) {
      assert PaymentKey(a) == a.source + "|" + (a.destination + "|" + a.currency);
      assert PaymentKey(b) == b.source + "|" + (b.destination + "|" + b.currency);
      SplitAtSeparator('|', a.source, a.destination + "|" + a.currency, b.source, b.destination + "|" + b.currency);
      SplitAtSeparator('|', a.destination, a.currency, b.destination, b.currency);
    }
  }

  /** MAIN RESULT. Where equal keys mean equal routes, merging preserves the sum of amounts of every
      source, destination and currency. */
  lemma MergePreservesRoutes(ops: seq<Payment>, route: Route)
    requires Faithful(PaymentKey, RouteOf, ops)
    ensures SumWith(AmountOf, RouteOf, Merged(ops), route) == SumWith(AmountOf, RouteOf, ops, route)
  {
    CombineFits();
    MergeKeepsSums(PaymentKey, Combine, AmountOf, RouteOf, ops, route);
  }

  /** For positive amounts it does so for all routes exactly then. */
  lemma RoutesPreservedExactly(ops: seq<Payment>)
    requires forall p :: p in ops ==> p.amount > 0.0
    ensures (forall route :: SumWith(AmountOf, RouteOf, Merged(ops), route) == SumWith(AmountOf, RouteOf, ops, route))
            <==> Faithful(PaymentKey, RouteOf, ops)
  {
    CombineFits();
    assert forall p :: p in ops ==> AmountOf(p) > 0.0;
    MergeSumsExactly(PaymentKey, Combine, AmountOf, RouteOf, ops);
  }

  /** Currency totals need less: that equal keys mean equal currencies. */
  lemma MergeKeepsCurrency(ops: seq<Payment>, c: string)
    requires Faithful(PaymentKey, CurrencyOf, ops)
    ensures SumWith(AmountOf, CurrencyOf, Merged(ops), c) == SumWith(AmountOf, CurrencyOf, ops, c)
  {
    CombineFits();
    MergeKeepsSums(PaymentKey, Combine, AmountOf, CurrencyOf, ops, c);
  }

  /** A merged operation is the first one with its key, id and metadata included, except that it
      carries the amounts of all of them. */
  lemma MergedIsFirst(ops: seq<Payment>, i: nat)
    requires i < |Merged(ops)|
    ensures var v := Merged(ops)[i];
            var same := WithKey(PaymentKey, ops, PaymentKey(v));
            same != [] && v == same[0].(amount := Sum(AmountOf, same))
  {
    hide MergeBy, FirstSeen, Keys, WithKey, FoldAll, Distinct;
    CombineFits();
    MergeMeans(PaymentKey, Combine, ops);
    var m := MergeBy(PaymentKey, Combine, ops);
    assert m.keys[i] in m.vals;
    FoldIsFirst(WithKey(PaymentKey, ops, m.keys[i]));
  }

  lemma {:induction false} FoldIsFirst(items: seq<Payment>)
    requires items != []
    ensures FoldAll(Combine, items) == items[0].(amount := Sum(AmountOf, items))
  {
    var init, last := items[..|items| - 1], items[|items| - 1];
    if |items| > 1 {
      FoldIsFirst(init);
    } else {
      assert init == [] && Sum(AmountOf, init) == 0.0;
    }
  }

  // ---------------------------------------------------------------------------
  // Batches by currency

  datatype Batch = Batch(operations: seq<Payment>, totalAmount: real, currency: string, savings: nat)

  function BatchOf(currency: string, group: seq<Payment>): Batch {
    Batch(group, Sum(AmountOf, group), currency, if |group| > 1 then |group| - 1 else 0)
  }

  /** The batches of the listed currencies that have enough operations. */
  function BatchesFor(currencies: seq<string>, ops: seq<Payment>, minBatchSize: int): seq<Batch> {
    if currencies == [] then []
    else
      var init, last := currencies[..|currencies| - 1], currencies[|currencies| - 1];
      var group := WithKey(CurrencyOf, ops, last);
      BatchesFor(init, ops, minBatchSize) + if |group| < minBatchSize then [] else [BatchOf(last, group)]
  }

  function Batches(ops: seq<Payment>, minBatchSize: int): seq<Batch> {
    BatchesFor(FirstSeen(Keys(CurrencyOf, ops)), ops, minBatchSize)
  }

  predicate Grouped(byCurrency: OMap<string, seq<Payment>>, ops: seq<Payment>) {
    && Valid(byCurrency) && byCurrency.keys == FirstSeen(Keys(CurrencyOf, ops))
    && forall c :: c in byCurrency.vals ==> byCurrency.vals[c] == WithKey(CurrencyOf, ops, c)
  }

  method GroupIntoBatches(ops: seq<Payment>, minBatchSize: int) returns (batches: seq<Batch>)
    ensures batches == Batches(ops, minBatchSize)
  {
    hide WithKey, Keys, FirstSeen, Distinct;
    var byCurrency := GroupByCurrency(ops);
    batches := [];
    var keys := byCurrency.keys;
    for i := 0 to |keys|
      invariant batches == BatchesFor(keys[..i], ops, minBatchSize)
    {
      assert keys[..i + 1][..i] == keys[..i];
      assert keys[i] in byCurrency.vals;
      var group := byCurrency.vals[keys[i]];
      if |group| < minBatchSize {
        continue;
      }
      var totalAmount := Sum(AmountOf, group);
      var savings := if |group| > 1 then |group| - 1 else 0;
      batches := batches + [Batch(group, totalAmount, keys[i], savings)];
    }
    assert keys[..|keys|] == keys;
  }

  method GroupByCurrency(ops: seq<Payment>) returns (byCurrency: OMap<string, seq<Payment>>)
    ensures Grouped(byCurrency, ops)
  {
    byCurrency := Empty();
    for i := 0 to |ops|
      invariant Grouped(byCurrency, ops[..i])
    {
      var c := ops[i].currency;
      ghost var before := byCurrency;
      var group := if c in byCurrency.vals then byCurrency.vals[c] else [];
      byCurrency := Put(byCurrency, c, group + [ops[i]]);
      GroupOneMore(before, ops, i, byCurrency);
    }
    assert ops[..|ops|] == ops;
  }

  lemma GroupOneMore(before: OMap<string, seq<Payment>>, ops: seq<Payment>, i: nat, after: OMap<string, seq<Payment>>)
    requires i < |ops| && Grouped(before, ops[..i])
    requires var c := ops[i].currency;
             after == Put(before, c, (if c in before.vals then before.vals[c] else []) + [ops[i]])
    ensures Grouped(after, ops[..i + 1])
  {
    hide FirstSeen, Distinct, WithKey, Keys;
    var some, more := ops[..i], ops[..i + 1];
    var c := ops[i].currency;
    assert more == some + [ops[i]] && more[..i] == some;
    LastKey(CurrencyOf, more);
    FirstSeenAppend(Keys(CurrencyOf, some), c);
    FirstSeenMembers(Keys(CurrencyOf, some));
    if c !in before.vals {
      assert c !in Keys(CurrencyOf, some);
      NoneWithCurrency(some, c);
    }
    forall j | j in after.vals ensures after.vals[j] == WithKey(CurrencyOf, more, j) {
      WithKeyAppend(CurrencyOf, some, ops[i], j);
      assert WithKey(CurrencyOf, some, j) + [] == WithKey(CurrencyOf, some, j);
    }
  }

  lemma {:induction false} NoneWithCurrency(ops: seq<Payment>, c: string)
    requires c !in Keys(CurrencyOf, ops)
    ensures WithKey(CurrencyOf, ops, c) == []
  {
    if ops != [] {
      var init := ops[..|ops| - 1];
      assert Keys(CurrencyOf, ops)[|ops| - 1] == CurrencyOf(ops[|ops| - 1]);
      assert forall i :: 0 <= i < |init| ==> Keys(CurrencyOf, init)[i] == Keys(CurrencyOf, ops)[i];
      NoneWithCurrency(init, c);
    }
  }

  /** All operations of all batches, as a multiset. */
  function AllOperations(batches: seq<Batch>): multiset<Payment> {
    if batches == [] then multiset{}
    else AllOperations(batches[..|batches| - 1]) + multiset(batches[|batches| - 1].operations)
  }

  lemma {:induction false} GroupCount(ops: seq<Payment>, c: string, p: Payment)
    ensures multiset(WithKey(CurrencyOf, ops, c))[p] == if p.currency == c then multiset(ops)[p] else 0
  {
    if ops != [] {
      GroupCount(ops[..|ops| - 1], c, p);
      assert ops == ops[..|ops| - 1] + [ops[|ops| - 1]];
    }
  }

  lemma NoOperations()
    ensures AllOperations([]) == multiset{}
  {
  }

  lemma AllOperationsAppend(batches: seq<Batch>, b: Batch)
    ensures AllOperations(batches + [b]) == AllOperations(batches) + multiset(b.operations)
    ensures batches + [] == batches
  {
    assert (batches + [b])[..|batches|] == batches;
  }

  lemma AllButLast(currencies: seq<string>)
    requires Distinct(currencies) && currencies != []
    ensures var init, last := currencies[..|currencies| - 1], currencies[|currencies| - 1];
            currencies == init + [last] && Distinct(init) && last !in init
  {
  }

  /** An operation is in the batches as often as in the input if its currency has a batch, else not. */
  lemma {:induction false} BatchCount(currencies: seq<string>, ops: seq<Payment>, minBatchSize: int, p: Payment)
    requires Distinct(currencies)
    ensures AllOperations(BatchesFor(currencies, ops, minBatchSize))[p] ==
            if p.currency in currencies && |WithKey(CurrencyOf, ops, p.currency)| >= minBatchSize then multiset(ops)[p] else 0
  {
    hide AllOperations, WithKey, Distinct;
    NoOperations();
    if currencies != [] {
      var init, last := currencies[..|currencies| - 1], currencies[|currencies| - 1];
      AllButLast(currencies);
      BatchCount(init, ops, minBatchSize, p);
      GroupCount(ops, last, p);
      AllOperationsAppend(BatchesFor(init, ops, minBatchSize), BatchOf(last, WithKey(CurrencyOf, ops, last)));
    }
  }

  /** MAIN RESULT. The batches hold, in order of first appearance, one batch for each currency with
      enough operations: all operations of that currency and their total. With a minimum of at most
      one nothing is left out, so they partition the operations. */
  lemma BatchesPartition(ops: seq<Payment>, minBatchSize: int)
    ensures var batches := Batches(ops, minBatchSize);
            && OneEach(batches, FirstSeen(Keys(CurrencyOf, ops)), ops)
            && (forall p :: p in ops ==>
                  (AllOperations(batches)[p] ==
                   if |WithKey(CurrencyOf, ops, p.currency)| >= minBatchSize then multiset(ops)[p] else 0))
    ensures minBatchSize <= 1 ==> AllOperations(Batches(ops, minBatchSize)) == multiset(ops)
  {
    hide AllOperations, FirstSeen, Keys, WithKey, Distinct, OneEach, BatchesFor;
    FirstSeenMembers(Keys(CurrencyOf, ops));
    BatchShapes(FirstSeen(Keys(CurrencyOf, ops)), ops, minBatchSize);
    CurrenciesSeen(ops);
    forall p ensures AllOperations(Batches(ops, minBatchSize))[p] ==
                     if p in ops && |WithKey(CurrencyOf, ops, p.currency)| >= minBatchSize then multiset(ops)[p] else 0
    {
      BatchCount(FirstSeen(Keys(CurrencyOf, ops)), ops, minBatchSize, p);
    }
  }

  /** Each batch holds all operations of its currency, one of those listed, and no two share one. */
  ghost predicate OneEach(batches: seq<Batch>, currencies: seq<string>, ops: seq<Payment>) {
    && (forall i :: 0 <= i < |batches| ==> batches[i].currency in currencies && HoldsAll(batches[i], ops))
    && (forall i, j :: 0 <= i < j < |batches| ==> batches[i].currency != batches[j].currency)
  }

  /** The batch holds all operations of its currency, with their total, and saves all but one of them. */
  ghost predicate HoldsAll(b: Batch, ops: seq<Payment>) {
    && b.operations == WithKey(CurrencyOf, ops, b.currency)
    && b.totalAmount == Sum(AmountOf, b.operations)
    && (b.operations != [] ==> b.savings == |b.operations| - 1)
  }

  lemma OneMoreEach(batches: seq<Batch>, currencies: seq<string>, c: string, ops: seq<Payment>)
    requires OneEach(batches, currencies, ops) && c !in currencies
    ensures OneEach(batches, currencies + [c], ops)
    ensures OneEach(batches + [BatchOf(c, WithKey(CurrencyOf, ops, c))], currencies + [c], ops)
  {
    hide HoldsAll, WithKey;
    assert HoldsAll(BatchOf(c, WithKey(CurrencyOf, ops, c)), ops) by { BatchHoldsAll(c, ops); }
  }

  lemma BatchHoldsAll(c: string, ops: seq<Payment>)
    ensures HoldsAll(BatchOf(c, WithKey(CurrencyOf, ops, c)), ops)
  {
  }

  lemma {:induction false} BatchShapes(currencies: seq<string>, ops: seq<Payment>, minBatchSize: int)
    requires Distinct(currencies)
    ensures OneEach(BatchesFor(currencies, ops, minBatchSize), currencies, ops)
  {
    if currencies != [] {
      var init, last := currencies[..|currencies| - 1], currencies[|currencies| - 1];
      AllButLast(currencies);
      BatchShapes(init, ops, minBatchSize);
      var before := BatchesFor(init, ops, minBatchSize);
      assert before + [] == before;
      OneMoreEach(before, init, last, ops);
    }
  }

  function BatchCurrencies(batches: seq<Batch>): (r: seq<string>)
    ensures |r| == |batches|
  {
    seq(|batches|, i requires 0 <= i < |batches| => batches[i].currency)
  }

  /** The batches come in the order of the listed currencies, without those that are too small. */
  lemma {:induction false} BatchOrder(currencies: seq<string>, ops: seq<Payment>, minBatchSize: int, small: set<string>)
    requires forall c :: c in currencies ==> (c in small <==> |WithKey(CurrencyOf, ops, c)| < minBatchSize)
    ensures BatchCurrencies(BatchesFor(currencies, ops, minBatchSize)) == Keep(currencies, small)
  {
    if currencies != [] {
      var init, last := currencies[..|currencies| - 1], currencies[|currencies| - 1];
      assert currencies == init + [last];
      BatchOrder(init, ops, minBatchSize, small);
      KeepConcat(init, [last], small);
      var before := BatchesFor(init, ops, minBatchSize);
      assert before + [] == before;
    }
  }

  /** MAIN RESULT. The whole optimizer, merging first: every batch carries the total of its currency
      over the original operations. */
  lemma OptimizeConserves(ops: seq<Payment>, minBatchSize: int, i: nat)
    requires Faithful(PaymentKey, CurrencyOf, ops)
    requires i < |Batches(Merged(ops), minBatchSize)|
    ensures var b := Batches(Merged(ops), minBatchSize)[i];
            b.totalAmount == SumWith(AmountOf, CurrencyOf, ops, b.currency)
  {
    var b := Batches(Merged(ops), minBatchSize)[i];
    BatchesPartition(Merged(ops), minBatchSize);
    MergeKeepsCurrency(ops, b.currency);
  }

  /** With a minimum of at most one, every currency of the original operations has its batch. */
  lemma EveryCurrencyBatched(ops: seq<Payment>, minBatchSize: int, p: Payment) returns (i: nat)
    requires Faithful(PaymentKey, CurrencyOf, ops) && minBatchSize <= 1 && p in ops
    ensures var batches := Batches(Merged(ops), minBatchSize);
            && i < |batches| && batches[i].currency == p.currency
            && batches[i].totalAmount == SumWith(AmountOf, CurrencyOf, ops, p.currency)
  {
    hide Merged, FirstSeen, Keys, WithKey, BatchesFor, SumWith, Keep, Faithful;
    var merged := Merged(ops);
    var currencies := FirstSeen(Keys(CurrencyOf, merged));
    var v := MergedInto(ops, p);
    CurrenciesSeen(merged);
    BatchOrder(currencies, merged, minBatchSize, {});
    KeepNothingGone(currencies, {});
    assert merged[v] in merged;
    i :| 0 <= i < |currencies| && currencies[i] == p.currency;
    assert BatchCurrencies(BatchesFor(currencies, merged, minBatchSize)) == currencies;
    BatchCurrencyAt(BatchesFor(currencies, merged, minBatchSize), i);
    OptimizeConserves(ops, minBatchSize, i);
  }

  lemma BatchCurrencyAt(batches: seq<Batch>, i: nat)
    requires i < |BatchCurrencies(batches)|
    ensures i < |batches| && BatchCurrencies(batches)[i] == batches[i].currency
  {
  }

  /** Every operation's currency is listed, and every listed one has an operation. */
  lemma CurrenciesSeen(ops: seq<Payment>)
    ensures forall p :: p in ops ==> p.currency in FirstSeen(Keys(CurrencyOf, ops))
    ensures forall c :: c in FirstSeen(Keys(CurrencyOf, ops)) ==> |WithKey(CurrencyOf, ops, c)| >= 1
  {
    hide FirstSeen, WithKey, Distinct, Keys;
    var keys := Keys(CurrencyOf, ops);
    FirstSeenMembers(keys);
    forall p | p in ops ensures p.currency in FirstSeen(keys) {
      var j: nat :| j < |ops| && ops[j] == p;
      KeysAt(CurrencyOf, ops, j);
    }
    forall c | c in FirstSeen(keys) ensures |WithKey(CurrencyOf, ops, c)| >= 1 {
      var j: nat :| j < |keys| && keys[j] == c;
      KeysAt(CurrencyOf, ops, j);
      WithKeyMembers(CurrencyOf, ops, c);
      assert ops[j] in WithKey(CurrencyOf, ops, c);
    }
  }

  /** The merged operation that holds p's amount; where equal keys mean equal currencies, it has p's. */
  lemma MergedInto(ops: seq<Payment>, p: Payment) returns (i: nat)
    requires Faithful(PaymentKey, CurrencyOf, ops) && p in ops
    ensures i < |Merged(ops)| && Merged(ops)[i].currency == p.currency
  {
    hide MergeBy, FirstSeen, Keys, WithKey, FoldAll, Distinct;
    CombineFits();
    MergeMeans(PaymentKey, Combine, ops);
    WithKeyMembers(PaymentKey, ops, PaymentKey(p));
    assert p in WithKey(PaymentKey, ops, PaymentKey(p));
    var m := MergeBy(PaymentKey, Combine, ops);
    i :| 0 <= i < |m.keys| && m.keys[i] == PaymentKey(p);
    var first := MergedFrom(PaymentKey, Combine, CurrencyOf, ops, i);
    assert CurrencyOf(first) == CurrencyOf(p);
  }
}
