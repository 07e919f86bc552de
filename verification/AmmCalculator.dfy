/** Constant-product pool arithmetic: swaps, deposits, withdrawals, prices and routing.
    Amounts are exact integers; division of BigInts truncates toward zero. */
module AmmCalculator {
  import opened Basics
  import opened FloorDivision
  import opened JsText

  datatype Reserve = Reserve(asset: string, amount: int)

  datatype Error =
    | TooFewReserves
    | AssetNotFound
    | ZeroReserves
    | ZeroShares
    | RatioExceeded
    | NotANumeral

  datatype Result<+T> = Ok(value: T) | Err(error: Error)

  datatype SwapEstimate = SwapEstimate(
    outputAmount: int,
    priceImpactPercent: Text,
    inputAsset: string,
    outputAsset: string,
    effectivePrice: Text,
    spotPrice: Text)

  const PRICE_SCALE := 10000000
  const RATIO_SCALE := 1000000
  const DEFAULT_SCALED_RATIO := 300000
  const MINUS: Unit := 45
  const POINT: Unit := 46

  function BigDiv(a: int, b: int): int
    requires b > 0
  {
    if a >= 0 then a / b else -((-a) / b)
  }

  // ---------------------------------------------------------------------------
  // Decimal strings

  function PadStart(t: Text, width: nat): Text {
    if |t| >= width then t else seq(width - |t|, _ => ZERO) + t
  }

  function PadEnd(t: Text, width: nat): (r: Text)
    ensures |r| >= width
  {
    if |t| >= width then t else t + seq(width - |t|, _ => ZERO)
  }

  /** Prints a non-negative scaled integer: whole part, point, padded fraction. */
  function FormatUnsigned(abs: nat, decimals: nat): Text {
    var whole := Quotient(abs, Power10(decimals));
    var frac := Remainder(abs, Power10(decimals));
    if decimals > 0 then Numeral(whole) + [POINT] + PadStart(Numeral(frac), decimals) else Numeral(whole)
  }

  function FormatScaled(value: int, decimals: nat): Text {
    if value < 0 then [MINUS] + FormatUnsigned(-value, decimals) else FormatUnsigned(value, decimals)
  }

  /** `BigInt(t || "0")` on digit strings. */
  function ToBigInt(t: Text): Option<nat> {
    if !AllDigits(t) then None else Some(Value(t))
  }

  function ParseScaled(value: Text, decimals: nat): Option<int> {
    var negative := value != [] && value[0] == MINUS;
    var clean := if negative then value[1..] else value;
    var parts := Split(clean, [POINT]);
    var frac := if |parts| > 1 then parts[1] else [];
    var whole := ToBigInt(parts[0]);
    var padded := ToBigInt(PadEnd(frac, decimals)[..decimals]);
    if whole.None? || padded.None? then None
    else
      var scaled := whole.value * Power10(decimals) + padded.value;
      Some(if negative then -scaled else scaled)
  }

  lemma PadStartNumeral(n: nat, width: nat)
    requires width >= 1 && n < Power10(width)
    ensures var t := PadStart(Numeral(n), width); |t| == width && AllDigits(t) && Value(t) == n
  {
    NumeralLength(n, width);
    ValueOfNumeral(n);
    LeadingZeros(Numeral(n), width - |Numeral(n)|);
  }

  lemma PadEndFull(f: Text)
    ensures PadEnd(f, |f|)[..|f|] == f
  {
  }

  lemma ParseUnsigned(abs: nat, decimals: nat)
    ensures var t := FormatUnsigned(abs, decimals);
            t != [] && t[0] != MINUS && ParseScaled(t, decimals) == Some(abs)
  {
    hide Split, Value, Numeral, Power10, PadStart, PadEnd, Quotient, Remainder;
    QuotientAndRemainder(abs, Power10(decimals));
    var factor := Power10(decimals);
    var whole, frac := Quotient(abs, factor), Remainder(abs, factor);
    var w := Numeral(whole);
    ValueOfNumeral(whole);
    assert POINT !in w && w[0] != MINUS;
    if decimals == 0 {
      SplitAbsent(w, POINT);
      PowerZero(abs);
      EmptyValue();
    } else {
      PadStartNumeral(frac, decimals);
      var f := PadStart(Numeral(frac), decimals);
      assert POINT !in f;
      SplitOnce(w, f, POINT);
      PadEndFull(f);
    }
  }

  lemma PowerZero(n: nat)
    ensures Power10(0) == 1 && Quotient(n, 1) == n
  {
  }

  lemma EmptyValue()
    ensures Value([]) == 0
  {
  }

  /** Printing a scaled integer and parsing it back gives the integer, sign included. */
  lemma ParseOfFormat(value: int, decimals: nat)
    ensures ParseScaled(FormatScaled(value, decimals), decimals) == Some(value)
  {
    hide Power10, Value, Split, FormatUnsigned;
    var abs: nat := if value < 0 then -value else value;
    var t := FormatUnsigned(abs, decimals);
    ParseUnsigned(abs, decimals);
    assert ([MINUS] + t)[1..] == t;
  }

  /** What is printed: a sign if negative, the whole part without leading zeros, a point, and the
      fraction in exactly `decimals` digits; together they denote the value. */
  lemma FormatMeans(value: int, decimals: nat) returns (whole: Text, frac: Text)
    ensures AllDigits(whole) && AllDigits(frac) && whole != [] && (|whole| > 1 ==> whole[0] != 48) && |frac| == decimals
    ensures Value(whole) * Power10(decimals) + Value(frac) == if value < 0 then -value else value
    ensures FormatScaled(value, decimals) ==
            (if value < 0 then [45] else []) + whole + (if decimals > 0 then [46] + frac else [])
  {
    hide Numeral, Value, Power10, PadStart, Quotient, Remainder;
    var abs: nat := if value < 0 then -value else value;
    var factor := Power10(decimals);
    QuotientAndRemainder(abs, factor);
    whole := Numeral(Quotient(abs, factor));
    ValueOfNumeral(Quotient(abs, factor));
    NumeralZero();
    if decimals > 0 {
      PadStartNumeral(Remainder(abs, factor), decimals);
      frac := PadStart(Numeral(Remainder(abs, factor)), decimals);
    } else {
      frac := [];
      PowerZero(abs);
      EmptyValue();
    }
  }

  lemma NumeralZero()
    ensures |Numeral(0)| == 1
  {
  }

  // ---------------------------------------------------------------------------
  // Prices

  function SpotPrice(reserveIn: int, reserveOut: int): Text {
    if reserveIn <= 0 then [ZERO] else FormatScaled(BigDiv(reserveOut * PRICE_SCALE, reserveIn), 7)
  }

  function EffectivePrice(outputAmount: int, inputAmount: int): Text {
    if inputAmount <= 0 then [ZERO] else FormatScaled(BigDiv(outputAmount * PRICE_SCALE, inputAmount), 7)
  }

  /** Price impact in hundredths of a percent, on scaled prices. */
  function ImpactScaled(spot: int, effective: int): int {
    if spot <= 0 || spot - effective <= 0 then 0 else (spot - effective) * 10000 / spot
  }

  function PriceImpact(spotPrice: Text, effectivePrice: Text): Option<Text> {
    var spot := ParseScaled(spotPrice, 7);
    var effective := ParseScaled(effectivePrice, 7);
    if spot.None? || effective.None? then None
    else if spot.value <= 0 then Some([48, 46, 48, 48])
    else
      var diff := spot.value - effective.value;
      if diff <= 0 then Some([48, 46, 48, 48])
      else Some(FormatScaled(diff * 10000 / spot.value, 2))
  }

  lemma FormatZero()
    ensures FormatScaled(0, 2) == [48, 46, 48, 48]
  {
    assert Power10(2) == 100 by { assert Power10(1) == 10 * Power10(0); }
    assert Numeral(0) == [48];
    assert PadStart([48], 2) == [48, 48];
  }

  /** The impact computed through decimal strings is the impact on scaled integers. */
  lemma ImpactThroughText(spot: int, effective: int)
    ensures PriceImpact(FormatScaled(spot, 7), FormatScaled(effective, 7)) ==
            Some(FormatScaled(ImpactScaled(spot, effective), 2))
  {
    hide FormatScaled, ParseScaled;
    ParseOfFormat(spot, 7);
    ParseOfFormat(effective, 7);
    FormatZero();
  }

  /** For a non-negative effective price the impact lies between 0.00 and 100.00. */
  lemma ImpactRange(spot: int, effective: int)
    requires effective >= 0
    ensures 0 <= ImpactScaled(spot, effective) <= 10000
  {
    if spot > 0 && spot - effective > 0 {
      FloorAtMost((spot - effective) * 10000, spot, 10000);
    }
  }

  /** It is the share of the spot price that is lost, in ten-thousandths, rounded down. */
  lemma ImpactMeans(spot: int, effective: int)
    ensures var impact := ImpactScaled(spot, effective);
            if spot <= 0 || effective >= spot then impact == 0
            else impact * spot <= (spot - effective) * 10000 < (impact + 1) * spot
  {
    if spot > 0 && effective < spot {
      FloorBounds((spot - effective) * 10000, spot);
    }
  }

  // ---------------------------------------------------------------------------
  // Swap

  function FirstWith(reserves: seq<Reserve>, asset: string): Option<Reserve> {
    if reserves == [] then None
    else if reserves[0].asset == asset then Some(reserves[0])
    else FirstWith(reserves[1..], asset)
  }

  function FirstWithout(reserves: seq<Reserve>, asset: string): Option<Reserve> {
    if reserves == [] then None
    else if reserves[0].asset != asset then Some(reserves[0])
    else FirstWithout(reserves[1..], asset)
  }

  predicate RatioExceedsLimit(amountIn: int, reserveIn: int, scaledRatio: int) {
    reserveIn <= 0 || amountIn * RATIO_SCALE > reserveIn * scaledRatio
  }

  /** The input is more than `scaledRatio` millionths of the reserve. */
  lemma RatioMeans(amountIn: int, reserveIn: int, scaledRatio: int)
    ensures RatioExceedsLimit(amountIn, reserveIn, scaledRatio) <==>
            reserveIn <= 0 || amountIn as real / reserveIn as real > scaledRatio as real / 1000000.0
  {
    if reserveIn > 0 {
      var a, r, l := amountIn as real, reserveIn as real, scaledRatio as real;
      assert (amountIn * 1000000) as real == a * 1000000.0;
      assert (reserveIn * scaledRatio) as real == r * l by { ProductAsReal(reserveIn, scaledRatio); }
      QuotientsCompare(a, r, l);
    }
  }

  lemma {:induction false} ProductAsReal(a: int, b: int)
    ensures (a * b) as real == a as real * b as real
    decreases if b < 0 then -b else b
  {
    if b > 0 {
      ProductAsReal(a, b - 1);
      assert a * b == a * (b - 1) + a;
      assert (a * b) as real == (a * (b - 1)) as real + a as real;
    } else if b < 0 {
      ProductAsReal(a, b + 1);
      assert a * b == a * (b + 1) - a;
      assert (a * b) as real == (a * (b + 1)) as real - a as real;
    }
  }

  lemma QuotientsCompare(a: real, r: real, l: real)
    requires r > 0.0
    ensures a / r > l / 1000000.0 <==> a * 1000000.0 > r * l
  {
    var p, q := a / r, l / 1000000.0;
    assert p * r == a && q * 1000000.0 == l;
    assert a * 1000000.0 == p * (r * 1000000.0) && r * l == q * (r * 1000000.0);
    PositiveFactor(p, q, r * 1000000.0);
  }

  lemma PositiveFactor(p: real, q: real, c: real)
    requires c > 0.0
    ensures p > q <==> p * c > q * c
  {
    assert (p - q) * c == p * c - q * c;
  }

  /** The default limit is thirty percent of the reserve. */
  lemma DefaultLimit(amountIn: int, reserveIn: int)
    ensures RatioExceedsLimit(amountIn, reserveIn, DEFAULT_SCALED_RATIO) <==> reserveIn <= 0 || amountIn * 10 > reserveIn * 3
  {
  }

  /** `scaledRatio` is the maximal input ratio times a million, rounded. */
  function EstimateSwapOutput(reserves: seq<Reserve>, amountIn: int, inputAsset: string, scaledRatio: int)
    : Result<SwapEstimate>
  {
    if |reserves| < 2 then Err(TooFewReserves)
    else
      var input := FirstWith(reserves, inputAsset);
      var output := FirstWithout(reserves, inputAsset);
      if input.None? || output.None? then Err(AssetNotFound)
      else
        var reserveIn, reserveOut := input.value.amount, output.value.amount;
        if reserveIn <= 0 || reserveOut <= 0 then Err(ZeroReserves)
        else if amountIn <= 0 then
          Ok(SwapEstimate(0, [48, 46, 48, 48], inputAsset, output.value.asset, [ZERO], SpotPrice(reserveIn, reserveOut)))
        else if RatioExceedsLimit(amountIn, reserveIn, scaledRatio) then Err(RatioExceeded)
        else
          var k := reserveIn * reserveOut;
          var newReserveOut := BigDiv(k, reserveIn + amountIn);
          var outputAmount := reserveOut - newReserveOut;
          var spot := SpotPrice(reserveIn, reserveOut);
          var effective := EffectivePrice(outputAmount, amountIn);
          var impact := PriceImpact(spot, effective);
          if impact.None? then Err(NotANumeral)
          else Ok(SwapEstimate(outputAmount, impact.value, inputAsset, output.value.asset, effective, spot))
  }

  /** What a swap of `dx` pays out of a pool holding `x` and `y`. */
  function Output(x: nat, y: nat, dx: nat): int
    requires x + dx > 0
  {
    y - x * y / (x + dx)
  }

  function Product(x: int, y: int): int {
    x * y
  }

  /** Reserves x1 and r keep the product k up to rounding down: r is the largest such reserve. */
  predicate KeepsProduct(x1: int, r: int, k: int) {
    x1 * r <= k && k - x1 < x1 * r
  }

  /** The amount paid is the constant-product difference rounded UP: the new reserve `r` is the
      largest one with (x + dx) * r <= x * y. It is never negative and never more than `y`. */
  lemma OutputMeans(x: nat, y: nat, dx: nat)
    requires x + dx > 0
    ensures var r := y - Output(x, y, dx);
            0 <= r <= y && KeepsProduct(x + dx, r, Product(x, y))
  {
    var xTotal := x + dx;
    FloorBounds(x * y, xTotal);
    AtMostFloor(0, x * y, xTotal);
    assert y * xTotal == x * y + dx * y;
    FloorAtMost(x * y, xTotal, y);
  }

  predicate PairOf(reserves: seq<Reserve>, a: string, x: int, b: string, y: int) {
    a != b && (reserves == [Reserve(a, x), Reserve(b, y)] || reserves == [Reserve(b, y), Reserve(a, x)])
  }

  /** On a two-reserve pool, in either order, the estimate succeeds exactly for positive reserves
      and an input within the limit, and then states the output, prices and impact. */
  lemma SwapOfPair(reserves: seq<Reserve>, a: string, x: int, b: string, y: int, dx: int, limit: int)
    requires PairOf(reserves, a, x, b, y)
    ensures var r := EstimateSwapOutput(reserves, dx, a, limit);
            if x <= 0 || y <= 0 then r == Err(ZeroReserves)
            else if dx > 0 && RatioExceedsLimit(dx, x, limit) then r == Err(RatioExceeded)
            else
              && r.Ok? && r.value.inputAsset == a && r.value.outputAsset == b
              && r.value.outputAmount == (if dx <= 0 then 0 else Output(x, y, dx))
              && (dx > 0 ==> ImpactStated(x, y, dx, r.value))
              && (dx <= 0 ==>
                    && r.value.priceImpactPercent == FormatScaled(0, 2) && r.value.effectivePrice == [48]
                    && r.value.spotPrice == FormatScaled(y * 10000000 / x, 7))
  {
    hide FormatScaled, PriceImpact, ImpactScaled, SpotPrice, EffectivePrice, BigDiv, Output, RatioExceedsLimit;
    hide FirstWith, FirstWithout;
    FindInPair(reserves, a, x, b, y);
    if x > 0 && y > 0 {
      FormatZero();
      SpotOfPair(x, y);
      if dx > 0 { PricesOfSwap(x, y, dx); }
    }
  }

  lemma SpotOfPair(x: nat, y: nat)
    requires x > 0
    ensures SpotPrice(x, y) == FormatScaled(y * 10000000 / x, 7)
  {
    hide FormatScaled;
  }

  /** Before any amount is looked at: a pool needs two reserves, the input asset and another one. */
  lemma SwapErrors(reserves: seq<Reserve>, dx: int, a: string, limit: int)
    ensures |reserves| < 2 ==> EstimateSwapOutput(reserves, dx, a, limit) == Err(TooFewReserves)
    ensures |reserves| >= 2 ==>
              (EstimateSwapOutput(reserves, dx, a, limit) == Err(AssetNotFound) <==>
               (forall i :: 0 <= i < |reserves| ==> reserves[i].asset != a) ||
               (forall i :: 0 <= i < |reserves| ==> reserves[i].asset == a))
  {
    hide PriceImpact, SpotPrice, EffectivePrice, BigDiv, RatioExceedsLimit;
    FirstFound(reserves, a);
  }

  lemma {:induction false} FirstFound(reserves: seq<Reserve>, a: string)
    ensures FirstWith(reserves, a).None? <==> forall i :: 0 <= i < |reserves| ==> reserves[i].asset != a
    ensures FirstWithout(reserves, a).None? <==> forall i :: 0 <= i < |reserves| ==> reserves[i].asset == a
  {
    if reserves != [] {
      FirstFound(reserves[1..], a);
      assert forall i :: 0 < i < |reserves| ==> reserves[i] == reserves[1..][i - 1];
      assert forall i :: 0 <= i < |reserves| - 1 ==> reserves[1..][i] == reserves[i + 1];
    }
  }

  /** What the estimate computes, in terms of plain quotients. */
  lemma PricesOfSwap(x: nat, y: nat, dx: nat)
    requires x > 0 && y > 0 && dx > 0
    ensures y - BigDiv(x * y, x + dx) == Output(x, y, dx)
    ensures var spot, effective := y * PRICE_SCALE / x, Output(x, y, dx) * PRICE_SCALE / dx;
            && SpotPrice(x, y) == FormatScaled(spot, 7)
            && EffectivePrice(Output(x, y, dx), dx) == FormatScaled(effective, 7)
            && PriceImpact(FormatScaled(spot, 7), FormatScaled(effective, 7)) ==
               Some(FormatScaled(ImpactScaled(spot, effective), 2))
            && 0 <= ImpactScaled(spot, effective) <= 10000
  {
    hide FormatScaled, PriceImpact, ImpactScaled, KeepsProduct;
    OutputMeans(x, y, dx);
    MulMonotone(0, x, y);
    var paid := Output(x, y, dx);
    AtMostFloor(0, y * PRICE_SCALE, x);
    AtMostFloor(0, paid * PRICE_SCALE, dx);
    ImpactThroughText(y * PRICE_SCALE / x, paid * PRICE_SCALE / dx);
    ImpactRange(y * PRICE_SCALE / x, paid * PRICE_SCALE / dx);
  }

  /** Prices scaled by ten million, and an impact between 0.00 and 100.00 computed from them. */
  predicate ImpactStated(x: int, y: int, dx: int, e: SwapEstimate)
    requires x > 0 && y > 0 && dx > 0
  {
    var spot := y * 10000000 / x;
    var effective := Output(x, y, dx) * 10000000 / dx;
    var impact := ImpactScaled(spot, effective);
    && e.spotPrice == FormatScaled(spot, 7)
    && e.effectivePrice == FormatScaled(effective, 7)
    && e.priceImpactPercent == FormatScaled(impact, 2)
    && 0 <= impact <= 10000
  }

  lemma FindInPair(reserves: seq<Reserve>, a: string, x: int, b: string, y: int)
    requires PairOf(reserves, a, x, b, y)
    ensures FirstWith(reserves, a) == Some(Reserve(a, x))
    ensures FirstWithout(reserves, a) == Some(Reserve(b, y))
  {
    assert reserves[1..] == [reserves[1]];
    assert reserves[1..][0] == reserves[1];
  }

  // ---------------------------------------------------------------------------
  // Splitting a swap into consecutive swaps

  function Sum(parts: seq<int>): int {
    if parts == [] then 0 else parts[0] + Sum(parts[1..])
  }

  /** Total output of consecutive swaps of `a` for `b`, each on the reserves the previous left. */
  function SwapChain(a: string, x: int, b: string, y: int, parts: seq<int>, limit: int): Result<int>
    decreases |parts|
  {
    if parts == [] then Ok(0)
    else
      match EstimateSwapOutput([Reserve(a, x), Reserve(b, y)], parts[0], a, limit)
      case Err(e) => Err(e)
      case Ok(first) =>
        match SwapChain(a, x + parts[0], b, y - first.outputAmount, parts[1..], limit)
        case Err(e) => Err(e)
        case Ok(rest) => Ok(first.outputAmount + rest)
  }

  predicate AllPositive(parts: seq<int>) {
    forall i :: 0 <= i < |parts| ==> parts[i] > 0
  }

  lemma {:induction false} SumPositive(parts: seq<int>)
    requires AllPositive(parts)
    ensures Sum(parts) >= 0
    ensures parts != [] ==> 0 < parts[0] <= Sum(parts)
  {
    if parts != [] { SumPositive(parts[1..]); }
  }

  /** After n swaps an input reserve xTotal and an output reserve r are left of the product k, each
      swap having lost at most xTotal - 1 of it. */
  predicate ChainLeaves(xTotal: int, k: int, r: int, n: nat) {
    0 <= r && xTotal * r <= k && xTotal * r >= k - n * (xTotal - 1)
  }

  /** One part of a chain: it passes the guard and leaves y1. */
  lemma SwapPart(a: string, x: int, b: string, y: int, parts: seq<int>, limit: int) returns (y1: int)
    requires a != b && x > 0 && y > 0 && parts != [] && AllPositive(parts)
    requires !RatioExceedsLimit(Sum(parts), x, limit)
    ensures var e := EstimateSwapOutput([Reserve(a, x), Reserve(b, y)], parts[0], a, limit);
            e.Ok? && y1 == y - e.value.outputAmount
    ensures 0 <= y1 && KeepsProduct(x + parts[0], y1, Product(x, y))
    ensures AllPositive(parts[1..]) && parts[0] > 0 && Sum(parts[1..]) >= 0
    ensures parts[1..] != [] ==> !RatioExceedsLimit(Sum(parts[1..]), x + parts[0], limit)
    ensures var rest := SwapChain(a, x + parts[0], b, y1, parts[1..], limit);
            SwapChain(a, x, b, y, parts, limit) == if rest.Ok? then Ok(y - y1 + rest.value) else rest
    ensures Sum(parts) == parts[0] + Sum(parts[1..])
  {
    hide EstimateSwapOutput, RatioExceedsLimit, ImpactStated;
    var p, rest := parts[0], parts[1..];
    SumPositive(parts);
    SumPositive(rest);
    PartWithinLimit(p, Sum(parts), x, x, limit);
    if rest != [] { PartWithinLimit(Sum(rest), Sum(parts), x, x + p, limit); }
    SwapOfPair([Reserve(a, x), Reserve(b, y)], a, x, b, y, p, limit);
    OutputMeans(x, y, p);
    y1 := y - Output(x, y, p);
  }

  lemma {:induction false} ChainBounds(a: string, x: int, b: string, y: int, parts: seq<int>, limit: int)
    requires a != b && x > 0 && y >= 0 && AllPositive(parts)
    requires parts != [] ==> !RatioExceedsLimit(Sum(parts), x, limit)
    ensures var chain := SwapChain(a, x, b, y, parts, limit);
            if chain.Err? then chain.error == ZeroReserves
            else ChainLeaves(x + Sum(parts), Product(x, y), y - chain.value, |parts|)
    decreases |parts|
  {
    hide EstimateSwapOutput, RatioExceedsLimit, ChainLeaves, KeepsProduct, Product, SwapChain, Sum;
    if parts == [] {
      ChainOfNone(a, x, b, y, limit);
    } else {
      if y > 0 {
        var p, rest := parts[0], parts[1..];
        var y1 := SwapPart(a, x, b, y, parts, limit);
        ChainBounds(a, x + p, b, y1, rest, limit);
        var chain := SwapChain(a, x + p, b, y1, rest, limit);
        if chain.Ok? {
          ChainStep(x + p, x + Sum(parts), Product(x, y), y1, y1 - chain.value, |rest|);
        }
      } else {
        ChainFromDrained(a, x, b, parts, limit);
      }
    }
  }

  lemma ChainOfNone(a: string, x: int, b: string, y: int, limit: int)
    requires y >= 0
    ensures Sum([]) == 0 && SwapChain(a, x, b, y, [], limit) == Ok(0)
    ensures ChainLeaves(x, Product(x, y), y, 0)
  {
  }

  lemma ChainFromDrained(a: string, x: int, b: string, parts: seq<int>, limit: int)
    requires a != b && parts != []
    ensures SwapChain(a, x, b, 0, parts, limit) == Err(ZeroReserves)
  {
    hide EstimateSwapOutput;
    SwapOfPair([Reserve(a, x), Reserve(b, 0)], a, x, b, 0, parts[0], limit);
  }

  lemma ChainStep(x1: int, xTotal: int, k: int, y1: int, r: int, n: nat)
    requires x1 <= xTotal
    requires KeepsProduct(x1, y1, k)
    requires ChainLeaves(xTotal, Product(x1, y1), r, n)
    ensures ChainLeaves(xTotal, k, r, n + 1)
  {
    assert (n + 1) * (xTotal - 1) == n * (xTotal - 1) + (xTotal - 1);
  }

  lemma PartWithinLimit(part: int, whole: int, x: int, x': int, limit: int)
    requires 0 < part <= whole && 0 < x <= x'
    requires !RatioExceedsLimit(whole, x, limit)
    ensures !RatioExceedsLimit(part, x', limit)
  {
    assert x * limit > 0;
    assert limit > 0;
    assert x * limit <= x' * limit;
  }

  /** MAIN RESULT. Splitting a swap that passes the ratio guard into n consecutive swaps never
      fails the guard, never lowers the total output and raises it by at most n - 1. The only
      way a chain can fail is by draining the output reserve. */
  lemma SplitSwap(a: string, x: int, b: string, y: int, parts: seq<int>, limit: int)
    requires a != b && x > 0 && y > 0 && parts != [] && AllPositive(parts)
    requires !RatioExceedsLimit(Sum(parts), x, limit)
    ensures Sum(parts) > 0
    ensures var chain := SwapChain(a, x, b, y, parts, limit);
            var whole := EstimateSwapOutput([Reserve(a, x), Reserve(b, y)], Sum(parts), a, limit);
            && whole.Ok?
            && (chain.Err? ==> chain.error == ZeroReserves)
            && (chain.Ok? ==> whole.value.outputAmount <= chain.value <= whole.value.outputAmount + |parts| - 1)
  {
    hide EstimateSwapOutput, SwapChain;
    SumPositive(parts);
    ChainBounds(a, x, b, y, parts, limit);
    var pool := [Reserve(a, x), Reserve(b, y)];
    var dx := Sum(parts);
    SwapOfPair(pool, a, x, b, y, dx, limit);
    OutputMeans(x, y, dx);
    var chain := SwapChain(a, x, b, y, parts, limit);
    if chain.Ok? {
      ReserveWithin(x + dx, x * y, y - Output(x, y, dx), y - chain.value, |parts|);
    }
  }

  lemma ReserveWithin(xTotal: nat, k: int, s: int, r: int, n: nat)
    requires xTotal > 0 && n >= 1
    requires KeepsProduct(xTotal, s, k)
    requires ChainLeaves(xTotal, k, r, n)
    ensures s - (n - 1) <= r <= s
  {
    AtMostFloor(r, k, xTotal);
    FloorIs(k, xTotal, s);
    if r <= s - n {
      MulMonotone(r, s - n, xTotal);
      Distribute(s, n, xTotal);
    }
  }

  predicate LeavesRoom(xTotal: int, n: int, k: int) {
    xTotal * n <= k
  }

  lemma RoomMeansReserve(xTotal: int, n: int, x: int, y: int)
    requires xTotal > 0 && n >= 1 && x > 0 && y >= 0 && LeavesRoom(xTotal, n, Product(x, y))
    ensures y > 0
  {
    MulMonotone(1, n, xTotal);
  }

  lemma RoomAfterPart(xTotal: int, n: int, k: int, x1: int, y1: int)
    requires LeavesRoom(xTotal, n + 1, k) && KeepsProduct(x1, y1, k) && x1 <= xTotal
    ensures LeavesRoom(xTotal, n, Product(x1, y1))
  {
    assert xTotal * (n + 1) == xTotal * n + xTotal;
  }

  /** Draining is ruled out when the unsplit swap leaves at least n in the output reserve. */
  lemma {:induction false} SplitSwapSucceeds(a: string, x: int, b: string, y: int, parts: seq<int>, limit: int)
    requires a != b && x > 0 && y >= 0 && AllPositive(parts)
    requires parts != [] ==> !RatioExceedsLimit(Sum(parts), x, limit)
    requires LeavesRoom(x + Sum(parts), |parts|, Product(x, y))
    ensures SwapChain(a, x, b, y, parts, limit).Ok?
    decreases |parts|
  {
    hide EstimateSwapOutput, RatioExceedsLimit, SwapChain, Sum, LeavesRoom, KeepsProduct, Product;
    if parts == [] {
      ChainOfNone(a, x, b, y, limit);
    } else {
      var p, rest := parts[0], parts[1..];
      SumPositive(parts);
      RoomMeansReserve(x + Sum(parts), |parts|, x, y);
      var y1 := SwapPart(a, x, b, y, parts, limit);
      RoomAfterPart(x + Sum(parts), |rest|, Product(x, y), x + p, y1);
      SplitSwapSucceeds(a, x + p, b, y1, rest, limit);
    }
  }

  /** Because outputs round up, swapping back what was received never returns less than was paid. */
  lemma SwapBackNeverLoses(x: nat, y: nat, dx: nat)
    requires x > 0 && y > 0 && dx > 0
    ensures var dy := Output(x, y, dx);
            dy >= 0 && (y - dy) + dy > 0 && Output(y - dy, x + dx, dy) >= dx
  {
    OutputMeans(x, y, dx);
    var dy := Output(x, y, dx);
    var r := y - dy;
    assert r * (x + dx) / y <= x by {
      assert r * (x + dx) == (x + dx) * r;
      FloorAtMost(r * (x + dx), y, x);
    }
  }

  // ---------------------------------------------------------------------------
  // Deposits and withdrawals

  datatype Amounts = Amounts(amountA: int, amountB: int, shares: int)

  function CalculateDeposit(reserves: seq<Reserve>, totalShares: int, mint: int): Result<Amounts> {
    if |reserves| < 2 then Err(TooFewReserves)
    else if totalShares <= 0 then Err(ZeroShares)
    else if mint <= 0 then Ok(Amounts(0, 0, 0))
    else Ok(Amounts(BigDiv(reserves[0].amount * mint, totalShares), BigDiv(reserves[1].amount * mint, totalShares), mint))
  }

  function CalculateWithdraw(reserves: seq<Reserve>, totalShares: int, burn: int): Result<Amounts> {
    if |reserves| < 2 then Err(TooFewReserves)
    else if totalShares <= 0 then Err(ZeroShares)
    else if burn <= 0 then Ok(Amounts(0, 0, 0))
    else Ok(Amounts(BigDiv(reserves[0].amount * burn, totalShares), BigDiv(reserves[1].amount * burn, totalShares), burn))
  }

  function Add(reserves: seq<Reserve>, a: int, b: int): seq<Reserve>
    requires |reserves| >= 2
  {
    [reserves[0].(amount := reserves[0].amount + a), reserves[1].(amount := reserves[1].amount + b)] + reserves[2..]
  }

  /** The largest whole amount that is no more than m shares' part of r. */
  predicate FloorShare(amount: int, r: int, m: int, t: int) {
    amount * t <= r * m < (amount + 1) * t
  }

  lemma ShareIsFloor(r: int, m: int, t: int)
    requires r >= 0 && t > 0 && m > 0
    ensures FloorShare(BigDiv(r * m, t), r, m, t)
  {
    MulMonotone(0, r, m);
    FloorBounds(r * m, t);
    var q := BigDiv(r * m, t);
    assert q == r * m / t && (q + 1) * t == q * t + t;
  }

  /** MAIN RESULT. Minting asks, of each asset, for the shares' part of the reserve, rounded down,
      and for the shares it is asked for; it fails exactly for too few reserves or no shares. */
  lemma DepositMeans(reserves: seq<Reserve>, t: int, m: int)
    ensures var r := CalculateDeposit(reserves, t, m);
            if |reserves| < 2 then r == Err(TooFewReserves)
            else if t <= 0 then r == Err(ZeroShares)
            else if m <= 0 then r == Ok(Amounts(0, 0, 0))
            else
              && r.Ok? && r.value.shares == m
              && (reserves[0].amount >= 0 ==> FloorShare(r.value.amountA, reserves[0].amount, m, t))
              && (reserves[1].amount >= 0 ==> FloorShare(r.value.amountB, reserves[1].amount, m, t))
  {
    hide BigDiv, FloorShare;
    if |reserves| >= 2 && t > 0 && m > 0 {
      if reserves[0].amount >= 0 { ShareIsFloor(reserves[0].amount, m, t); }
      if reserves[1].amount >= 0 { ShareIsFloor(reserves[1].amount, m, t); }
    }
  }

  /** MAIN RESULT. Burning pays, of each asset, the shares' part of the reserve, rounded down. */
  lemma WithdrawMeans(reserves: seq<Reserve>, t: int, m: int)
    ensures var r := CalculateWithdraw(reserves, t, m);
            if |reserves| < 2 then r == Err(TooFewReserves)
            else if t <= 0 then r == Err(ZeroShares)
            else if m <= 0 then r == Ok(Amounts(0, 0, 0))
            else
              && r.Ok? && r.value.shares == m
              && (reserves[0].amount >= 0 ==> FloorShare(r.value.amountA, reserves[0].amount, m, t))
              && (reserves[1].amount >= 0 ==> FloorShare(r.value.amountB, reserves[1].amount, m, t))
  {
    hide BigDiv, FloorShare;
    if |reserves| >= 2 && t > 0 && m > 0 {
      if reserves[0].amount >= 0 { ShareIsFloor(reserves[0].amount, m, t); }
      if reserves[1].amount >= 0 { ShareIsFloor(reserves[1].amount, m, t); }
    }
  }

  lemma MintThenBurn(r: nat, m: nat, t: nat)
    requires t > 0 && m > 0
    ensures (r + r * m / t) * m / (t + m) == r * m / t
  {
    var a := r * m / t;
    assert a * t <= r * m < (a + 1) * t;
    var n := (r + a) * m;
    assert n == r * m + a * m;
    assert a * (t + m) == a * t + a * m;
    assert (a + 1) * (t + m) == (a + 1) * t + a * m + m;
    FloorIs(n, t + m, a);
  }

  lemma BigDivNegates(n: int, d: int)
    requires n >= 0 && d > 0
    ensures BigDiv(n, d) == n / d && BigDiv(-n, d) == -(n / d)
  {
    FloorIs(0, d, 0);
  }

  lemma BigDivMintThenBurn(r: int, m: nat, t: nat)
    requires t > 0 && m > 0
    ensures BigDiv((r + BigDiv(r * m, t)) * m, t + m) == BigDiv(r * m, t)
  {
    hide BigDiv;
    var s := if r >= 0 then r else -r;
    var n := s * m;
    MulMonotone(0, s, m);
    AtMostFloor(0, n, t);
    var a := n / t;
    BigDivNegates(n, t);
    MintThenBurn(s, m, t);
    MulMonotone(0, s + a, m);
    BigDivNegates((s + a) * m, t + m);
    if r < 0 {
      Negate(s, m);
      Negate(s + a, m);
    }
  }

  lemma Negate(a: int, b: int)
    ensures (-a) * b == -(a * b)
  {
  }

  /** Minting m shares and burning them on the updated pool returns exactly what was deposited,
      for both assets and every pool, share total and amount. */
  lemma DepositThenWithdraw(reserves: seq<Reserve>, totalShares: int, m: int)
    requires CalculateDeposit(reserves, totalShares, m).Ok?
    ensures var d := CalculateDeposit(reserves, totalShares, m).value;
            CalculateWithdraw(Add(reserves, d.amountA, d.amountB), totalShares + d.shares, d.shares) == Ok(d)
  {
    if m > 0 {
      BigDivMintThenBurn(reserves[0].amount, m, totalShares);
      BigDivMintThenBurn(reserves[1].amount, m, totalShares);
    }
  }

  /** Burning in parts: the amounts paid, or the first error. */
  function WithdrawChain(reserves: seq<Reserve>, totalShares: int, burns: seq<int>): Result<Amounts>
    decreases |burns|
  {
    if burns == [] then Ok(Amounts(0, 0, 0))
    else
      match CalculateWithdraw(reserves, totalShares, burns[0])
      case Err(e) => Err(e)
      case Ok(first) =>
        match WithdrawChain(Add(reserves, -first.amountA, -first.amountB), totalShares - first.shares, burns[1..])
        case Err(e) => Err(e)
        case Ok(rest) =>
          Ok(Amounts(first.amountA + rest.amountA, first.amountB + rest.amountB, first.shares + rest.shares))
  }

  /** One burn of b shares out of t pays at most its share, and never lowers reserve per share. */
  lemma BurnOnce(r: nat, b: nat, t: nat)
    requires 0 < b <= t
    ensures var p := r * b / t;
            0 <= p <= r && p * t <= r * b && (r - p) * t >= r * (t - b)
  {
    FloorBounds(r * b, t);
    PaidWithin(r, b, t, r * b, r * b / t);
  }

  lemma PaidWithin(r: nat, b: nat, t: nat, n: int, p: int)
    requires 0 < b <= t && n == r * b && p * t <= n < p * t + t
    ensures 0 <= p <= r && (r - p) * t >= r * (t - b)
  {
    MulMonotone(0, r, b);
    if p < 0 { MulMonotone(p, -1, t); }
    MulMonotone(b, t, r);
    if p > r { MulMonotone(r + 1, p, t); }
    Distribute(r, p, t);
    Distribute(t, b, r);
  }

  /** Combining a first payment p with payments p' out of the rest keeps the proportional bound. */
  lemma CombineBurns(r: nat, t: nat, b: nat, p: nat, b': nat, p': nat)
    requires 0 < b && b + b' <= t && p <= r && p * t <= r * b
    requires p' * (t - b) <= (r - p) * b' && (b' == 0 ==> p' == 0)
    ensures (p + p') * t <= r * (b + b')
  {
    var t1 := t - b;
    if t1 > 0 {
      MulMonotone(p' * t1, (r - p) * b', t);
      MulMonotone(p * t, r * b, t1 - b');
      SplitPayments(r, t, t1, p, b', p');
      JoinShares(r, t1, b, b');
      CancelFactor((p + p') * t, r * (b + b'), t1);
    }
  }

  lemma SplitPayments(r: int, t: int, t1: int, p: int, b': int, p': int)
    ensures ((p + p') * t) * t1 == (p * t) * t1 + (p' * t1) * t
    ensures (p * t) * t1 + ((r - p) * b') * t == (p * t) * (t1 - b') + r * b' * t
  {
  }

  lemma JoinShares(r: int, t1: int, b: int, b': int)
    ensures (r * b) * (t1 - b') + r * b' * (t1 + b) == (r * (b + b')) * t1
  {
    assert (r * b) * (t1 - b') == r * b * t1 - r * b * b';
    assert r * b' * (t1 + b) == r * b' * t1 + r * b' * b;
  }

  lemma {:induction false} ChainOfBurns(reserves: seq<Reserve>, t: int, burns: seq<int>)
    requires |reserves| >= 2 && reserves[0].amount >= 0 && reserves[1].amount >= 0
    requires AllPositive(burns) && Sum(burns) <= t
    ensures var c := WithdrawChain(reserves, t, burns);
            && c.Ok? && c.value.shares == Sum(burns)
            && Proportional(reserves[0].amount, t, Sum(burns), c.value.amountA)
            && Proportional(reserves[1].amount, t, Sum(burns), c.value.amountB)
    decreases |burns|
  {
    if burns != [] {
      hide CalculateWithdraw;
      SumPositive(burns);
      SumPositive(burns[1..]);
      var b, rest := burns[0], burns[1..];
      var r0, r1 := reserves[0].amount, reserves[1].amount;
      var p := WithdrawOnce(reserves, t, b);
      var after := Add(reserves, -p.amountA, -p.amountB);
      ChainOfBurns(after, t - b, rest);
      var c := WithdrawChain(after, t - b, rest).value;
      AddProportional(r0, t, b, p.amountA, Sum(rest), c.amountA);
      AddProportional(r1, t, b, p.amountB, Sum(rest), c.amountB);
    }
  }

  lemma WithdrawOnce(reserves: seq<Reserve>, t: int, b: int) returns (p: Amounts)
    requires |reserves| >= 2 && reserves[0].amount >= 0 && reserves[1].amount >= 0
    requires 0 < b <= t
    ensures CalculateWithdraw(reserves, t, b) == Ok(p) && p.shares == b
    ensures Proportional(reserves[0].amount, t, b, p.amountA)
    ensures Proportional(reserves[1].amount, t, b, p.amountB)
  {
    var r0, r1 := reserves[0].amount, reserves[1].amount;
    BurnOnce(r0, b, t);
    BurnOnce(r1, b, t);
    MulMonotone(0, r0, b);
    MulMonotone(0, r1, b);
    p := Amounts(r0 * b / t, r1 * b / t, b);
  }

  lemma AddProportional(r: int, t: int, b: int, p: int, b': int, p': int)
    requires r >= 0 && 0 < b && 0 <= b' && b + b' <= t
    requires Proportional(r, t, b, p) && Proportional(r - p, t - b, b', p')
    ensures Proportional(r, t, b + b', p + p')
  {
    CombineBurns(r, t, b, p, b', p');
    assert (r - (p + p')) * t == r * t - (p + p') * t;
    assert r * (t - (b + b')) == r * t - r * (b + b');
  }

  /** A payment for b of t shares: within the reserve, at most proportional, so what stays in the
      pool per remaining share is no less than before. */
  predicate Proportional(r: int, t: int, b: int, paid: int) {
    0 <= paid <= r && paid * t <= r * b && (r - paid) * t >= r * (t - b) && (b == 0 ==> paid == 0)
  }

  /** MAIN RESULT. Burning in any number of parts, at most all the shares, succeeds, never pays
      more of either asset than burning at once, never more than the reserve, and never lowers
      the reserve per share. */
  lemma BurnInParts(reserves: seq<Reserve>, t: int, burns: seq<int>)
    requires |reserves| >= 2 && reserves[0].amount >= 0 && reserves[1].amount >= 0
    requires burns != [] && AllPositive(burns) && Sum(burns) <= t
    ensures var parts := WithdrawChain(reserves, t, burns);
            var whole := CalculateWithdraw(reserves, t, Sum(burns));
            && parts.Ok? && whole.Ok? && parts.value.shares == Sum(burns)
            && parts.value.amountA <= whole.value.amountA && parts.value.amountB <= whole.value.amountB
            && Proportional(reserves[0].amount, t, Sum(burns), parts.value.amountA)
            && Proportional(reserves[1].amount, t, Sum(burns), parts.value.amountB)
  {
    hide WithdrawChain;
    SumPositive(burns);
    ChainOfBurns(reserves, t, burns);
    var c := WithdrawChain(reserves, t, burns).value;
    AtMostFloor(c.amountA, reserves[0].amount * Sum(burns), t);
    AtMostFloor(c.amountB, reserves[1].amount * Sum(burns), t);
  }

  // ---------------------------------------------------------------------------
  // Routing

  datatype RoutingPool = RoutingPool(id: string, reserves: seq<Reserve>)

  datatype RouteHop = RouteHop(
    poolId: string,
    inputAsset: string,
    outputAsset: string,
    inputAmount: int,
    outputAmount: int,
    priceImpactPercent: Text)

  datatype SwapRoute = SwapRoute(
    hops: seq<RouteHop>,
    inputAsset: string,
    outputAsset: string,
    inputAmount: int,
    outputAmount: int,
    totalPriceImpactPercent: Text)

  predicate HasAsset(reserves: seq<Reserve>, asset: string) {
    exists i :: 0 <= i < |reserves| && reserves[i].asset == asset
  }

  /** The pool holds both assets and pays a positive amount. */
  predicate Services(pool: RoutingPool, inputAsset: string, outputAsset: string, amount: int) {
    && HasAsset(pool.reserves, inputAsset)
    && HasAsset(pool.reserves, outputAsset)
    && var e := EstimateSwapOutput(pool.reserves, amount, inputAsset, DEFAULT_SCALED_RATIO);
    e.Ok? && e.value.outputAmount > 0
  }

  function Pays(pool: RoutingPool, inputAsset: string, amount: int): int
    requires EstimateSwapOutput(pool.reserves, amount, inputAsset, DEFAULT_SCALED_RATIO).Ok?
  {
    EstimateSwapOutput(pool.reserves, amount, inputAsset, DEFAULT_SCALED_RATIO).value.outputAmount
  }

  /** Pool `i` is the first of the best-paying pools among the first `n`. */
  predicate BestAmong(pools: seq<RoutingPool>, n: nat, inputAsset: string, outputAsset: string, amount: int, i: nat)
    requires n <= |pools|
  {
    && i < n
    && Services(pools[i], inputAsset, outputAsset, amount)
    && (forall j :: 0 <= j < n && Services(pools[j], inputAsset, outputAsset, amount) ==>
        && Pays(pools[j], inputAsset, amount) <= Pays(pools[i], inputAsset, amount)
        && (j < i ==> Pays(pools[j], inputAsset, amount) < Pays(pools[i], inputAsset, amount)))
  }

  /** The route of one hop through the pool. */
  function RouteThrough(pool: RoutingPool, inputAsset: string, outputAsset: string, amount: int): SwapRoute
    requires Services(pool, inputAsset, outputAsset, amount)
  {
    var e := EstimateSwapOutput(pool.reserves, amount, inputAsset, DEFAULT_SCALED_RATIO).value;
    var hop := RouteHop(pool.id, inputAsset, outputAsset, amount, e.outputAmount, e.priceImpactPercent);
    SwapRoute([hop], inputAsset, outputAsset, amount, e.outputAmount, e.priceImpactPercent)
  }

  /** No route exactly when the assets coincide or no pool services the swap; otherwise the
      first best-paying pool. */
  method FindBestRoute(pools: seq<RoutingPool>, inputAsset: string, outputAsset: string, amount: int)
    returns (best: Option<SwapRoute>)
    ensures best.None? <==>
            inputAsset == outputAsset ||
            forall j :: 0 <= j < |pools| ==> !Services(pools[j], inputAsset, outputAsset, amount)
    ensures best.Some? ==>
            exists i: nat :: BestAmong(pools, |pools|, inputAsset, outputAsset, amount, i) &&
              best.value == RouteThrough(pools[i], inputAsset, outputAsset, amount) &&
              best.value.outputAmount == Pays(pools[i], inputAsset, amount) &&
              best.value.hops == [RouteHop(pools[i].id, inputAsset, outputAsset, amount,
                                           best.value.outputAmount, best.value.totalPriceImpactPercent)]
    ensures best.Some? ==>
              best.value.inputAsset == inputAsset && best.value.outputAsset == outputAsset && best.value.inputAmount == amount
  {
    hide EstimateSwapOutput;
    if inputAsset == outputAsset {
      return None;
    }
    best := None;
    ghost var at: nat := 0;
    for n := 0 to |pools|
      invariant best.None? ==> forall j :: 0 <= j < n ==> !Services(pools[j], inputAsset, outputAsset, amount)
      invariant best.Some? ==>
          && BestAmong(pools, n, inputAsset, outputAsset, amount, at)
          && best.value == RouteThrough(pools[at], inputAsset, outputAsset, amount)
    {
      var pool := pools[n];
      var hasInput := HasAsset(pool.reserves, inputAsset);
      var hasOutput := HasAsset(pool.reserves, outputAsset);
      if !hasInput || !hasOutput {
        continue;
      }
      var estimate := EstimateSwapOutput(pool.reserves, amount, inputAsset, DEFAULT_SCALED_RATIO);
      if estimate.Err? {
        continue;
      }
      if estimate.value.outputAmount <= 0 {
        continue;
      }
      if best.None? || estimate.value.outputAmount > best.value.outputAmount {
        var hop := RouteHop(pool.id, inputAsset, outputAsset, amount,
                            estimate.value.outputAmount, estimate.value.priceImpactPercent);
        best := Some(SwapRoute([hop], inputAsset, outputAsset, amount,
                               estimate.value.outputAmount, estimate.value.priceImpactPercent));
        at := n;
      }
    }
  }
}
