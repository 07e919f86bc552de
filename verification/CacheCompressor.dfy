/** The text codec of the cache: ten token substitutions, then run-length encoding. */
module CacheCompressor {
  import opened JsText

  const HEADER: Unit := 0
  const MARK: Unit := 11

  /** Dictionary entry for a code in 1..10: `" { } [ ] , : true false null`. */
  function Token(code: Unit): (t: Text)
    requires 1 <= code <= 10
    ensures 1 <= |t| <= 5
    ensures forall i :: 0 <= i < |t| ==> 34 <= t[i] && !IsDigit(t[i])
  {
    match code
    case 1 => [34]
    case 2 => [123]
    case 3 => [125]
    case 4 => [91]
    case 5 => [93]
    case 6 => [44]
    case 7 => [58]
    case 8 => [116, 114, 117, 101]
    case 9 => [102, 97, 108, 115, 101]
    case _ => [110, 117, 108, 108]
  }

  // ---------------------------------------------------------------------------
  // `split(needle).join(glue)`

  function Units(s: string): (t: Text)
    requires forall i :: 0 <= i < |s| ==> s[i] as int < 128
    ensures |t| == |s| && forall i :: 0 <= i < |s| ==> t[i] == s[i] as int as Unit
  {
    seq(|s|, i requires 0 <= i < |s| => s[i] as int as Unit)
  }

  /** The dictionary, spelt out. */
  lemma TokenTexts()
    ensures Token(1) == Units("\"")
    ensures Token(2) == Units("{") && Token(3) == Units("}") && Token(4) == Units("[") && Token(5) == Units("]")
    ensures Token(6) == Units(",") && Token(7) == Units(":")
    ensures Token(8) == Units("true") && Token(9) == Units("false") && Token(10) == Units("null")
  {
  }

  /** Leftmost non-overlapping replacement of `needle` by `glue`. */
  function Replace(s: Text, needle: Text, glue: Text): Text
    requires needle != []
    decreases |s|
  {
    if needle <= s then glue + Replace(s[|needle|..], needle, glue)
    else if s == [] then []
    else [s[0]] + Replace(s[1..], needle, glue)
  }

  lemma ReplaceUnfold(s: Text, needle: Text, glue: Text)
    requires needle != [] && s != []
    ensures Replace(s, needle, glue) ==
            if needle <= s then glue + Replace(s[|needle|..], needle, glue)
            else [s[0]] + Replace(s[1..], needle, glue)
  {
  }

  lemma {:induction false} JoinOfSplit(s: Text, needle: Text, glue: Text)
    requires needle != []
    ensures Join(Split(s, needle), glue) == Replace(s, needle, glue)
    decreases |s|
  {
    hide Join;
    if needle <= s {
      JoinOfSplit(s[|needle|..], needle, glue);
      JoinPrepend([], Split(s[|needle|..], needle), glue);
    } else if s == [] {
      JoinOne([], glue);
    } else {
      JoinOfSplit(s[1..], needle, glue);
      JoinPrepend([s[0]], Split(s[1..], needle), glue);
    }
  }

  // ---------------------------------------------------------------------------
  // Dictionary substitution, run-length encoding and their inverses

  function Substitute(s: Text, upTo: Unit): Text
    requires upTo <= 10
  {
    if upTo == 0 then s else Replace(Substitute(s, upTo - 1), Token(upTo), [upTo])
  }

  function Unsubstitute(s: Text, upTo: Unit): Text
    requires upTo <= 10
  {
    if upTo == 0 then s else Replace(Unsubstitute(s, upTo - 1), [upTo], Token(upTo))
  }

  function RunLength(s: Text): (n: nat)
    requires s != []
    ensures 1 <= n <= |s|
  {
    if |s| > 1 && s[1] == s[0] then 1 + RunLength(s[1..]) else 1
  }

  lemma {:induction false} RunLengthMeans(s: Text)
    requires s != []
    ensures forall i :: 0 <= i < RunLength(s) ==> s[i] == s[0]
    ensures RunLength(s) < |s| ==> s[RunLength(s)] != s[0]
  {
    if |s| > 1 && s[1] == s[0] { RunLengthMeans(s[1..]); }
  }

  function Repeat(u: Unit, n: nat): (t: Text)
    ensures |t| == n && forall i :: 0 <= i < n ==> t[i] == u
  {
    seq(n, _ => u)
  }

  function EncodeRun(u: Unit, n: nat): Text {
    if n > 3 then [MARK] + Numeral(n) + [u] else Repeat(u, n)
  }

  function EncodeRuns(s: Text): Text {
    if s == [] then []
    else EncodeRun(s[0], RunLength(s)) + EncodeRuns(s[RunLength(s)..])
  }

  function DigitSpan(s: Text): (n: nat)
    ensures n <= |s| && AllDigits(s[..n])
    ensures n < |s| ==> !IsDigit(s[n])
  {
    if s == [] || !IsDigit(s[0]) then 0
    else
      assert forall i :: 1 <= i <= DigitSpan(s[1..]) ==> s[i] == s[1..][i - 1];
      1 + DigitSpan(s[1..])
  }

  /** Expands run markers; an unfinished marker at the very end expands to nothing. */
  function ExpandRuns(s: Text): Text
    decreases |s|
  {
    if s == [] then []
    else if s[0] == MARK then
      var d := DigitSpan(s[1..]);
      var rest := s[1..][d..];
      if rest == [] then [] else Repeat(rest[0], Value(s[1..][..d])) + ExpandRuns(rest[1..])
    else [s[0]] + ExpandRuns(s[1..])
  }

  function Compressed(s: Text): Text {
    [HEADER] + EncodeRuns(Substitute(s, 10))
  }

  function Decompressed(s: Text): Text {
    if [HEADER] <= s then Unsubstitute(ExpandRuns(s[1..]), 10) else s
  }

  // ---------------------------------------------------------------------------
  // The loops of the codec

  method Compress(input: Text) returns (output: Text)
    ensures output == Compressed(input)
  {
    hide Token, Split, Join, Replace, EncodeRuns;
    var out := input;
    for code: Unit := 1 to 11
      invariant out == Substitute(input, code - 1)
    {
      JoinOfSplit(out, Token(code), [code]);
      out := Join(Split(out, Token(code)), [code]);
    }
    var rle := EncodeRunsLoop(out);
    output := [HEADER] + rle;
  }

  method EncodeRunsLoop(out: Text) returns (rle: Text)
    ensures rle == EncodeRuns(out)
  {
    hide EncodeRuns, RunLength;
    rle := [];
    var i := 0;
    assert out[0..] == out;
    ghost var goal, rest := EncodeRuns(out), EncodeRuns(out);
    while i < |out|
      invariant 0 <= i <= |out|
      invariant rest == EncodeRuns(out[i..])
      invariant rle + rest == goal
    {
      var ch := out[i];
      var run := CountRun(out, i);
      var piece: Text;
      if run > 3 {
        piece := [MARK] + Numeral(run) + [ch];
      } else {
        piece := Repeat(ch, run);
      }
      EncodeNextRun(out, i, run, piece);
      rest := EncodeRuns(out[i + run..]);
      Regroup(rle, piece, rest);
      rle := rle + piece;
      i := i + run;
    }
    EncodeNothing(out[i..]);
  }

  method CountRun(out: Text, i: nat) returns (run: nat)
    requires i < |out|
    ensures run == RunLength(out[i..])
  {
    run := 1;
    while i + run < |out| && out[i + run] == out[i]
      invariant 1 <= run && i + run <= |out|
      invariant forall j :: i <= j < i + run ==> out[j] == out[i]
      decreases |out| - run
    {
      run := run + 1;
    }
    RunLengthIs(out[i..], run);
  }

  lemma EncodeNothing(s: Text)
    requires s == []
    ensures EncodeRuns(s) == []
  {
  }

  lemma Regroup(a: Text, b: Text, c: Text)
    ensures a + (b + c) == (a + b) + c
  {
  }

  lemma {:induction false} RunLengthIs(s: Text, n: nat)
    requires 1 <= n <= |s|
    requires forall i :: 0 <= i < n ==> s[i] == s[0]
    requires n < |s| ==> s[n] != s[0]
    ensures RunLength(s) == n
  {
    if n > 1 { RunLengthIs(s[1..], n - 1); }
  }

  lemma EncodeNextRun(out: Text, i: nat, run: nat, piece: Text)
    requires i < |out| && run == RunLength(out[i..])
    requires piece == EncodeRun(out[i], run)
    ensures i + run <= |out|
    ensures EncodeRuns(out[i..]) == piece + EncodeRuns(out[i + run..])
  {
    assert out[i..][run..] == out[i + run..];
  }

  method Decompress(input: Text) returns (output: Text)
    ensures output == Decompressed(input)
  {
    hide Token, Split, Join, Replace, ExpandRuns;
    if !([HEADER] <= input) {
      return input;
    }
    var body := input[1..];
    var expanded := ExpandRunsLoop(body);
    var out := expanded;
    for code: Unit := 1 to 11
      invariant out == Unsubstitute(expanded, code - 1)
    {
      JoinOfSplit(out, [code], Token(code));
      out := Join(Split(out, [code]), Token(code));
    }
    output := out;
  }

  method ExpandRunsLoop(body: Text) returns (expanded: Text)
    ensures expanded == ExpandRuns(body)
  {
    hide ExpandRuns, DigitSpan, Value, Drop;
    expanded := [];
    var i := 0;
    DropNone(body);
    ghost var goal, rest := ExpandRuns(body), ExpandRuns(body);
    while i < |body|
      invariant 0 <= i
      invariant rest == ExpandRuns(Drop(body, i))
      invariant expanded + rest == goal
    {
      if body[i] == MARK {
        i := i + 1;
        ghost var start := i;
        var countStr: Text := [];
        while i < |body| && IsDigit(body[i])
          invariant start <= i <= |body|
          invariant countStr == body[start..i] && AllDigits(countStr)
        {
          countStr := countStr + [body[i]];
          i := i + 1;
        }
        ExpandNextMarker(body, start, i);
        ExpandNothing();
        rest := ExpandRuns(Drop(body, i + 1));
        if i < |body| {
          Regroup(expanded, Repeat(body[i], Value(countStr)), rest);
          expanded := expanded + Repeat(body[i], Value(countStr));
        }
        i := i + 1;
      } else {
        ExpandNextPlain(body, i);
        rest := ExpandRuns(Drop(body, i + 1));
        Regroup(expanded, [body[i]], rest);
        expanded := expanded + [body[i]];
        i := i + 1;
      }
    }
    ExpandNothing();
  }

  ghost function Drop(s: Text, i: nat): Text {
    if i < |s| then s[i..] else []
  }

  lemma DropNone(s: Text)
    ensures Drop(s, 0) == s && forall i: nat :: i >= |s| ==> Drop(s, i) == []
  {
  }

  lemma ExpandNothing()
    ensures ExpandRuns([]) == []
  {
  }

  lemma ExpandNextPlain(body: Text, i: nat)
    requires i < |body| && body[i] != MARK
    ensures ExpandRuns(Drop(body, i)) == [body[i]] + ExpandRuns(Drop(body, i + 1))
  {
    assert body[i..][1..] == Drop(body, i + 1);
  }

  lemma ExpandNextMarker(body: Text, start: nat, end: nat)
    requires 1 <= start <= end <= |body| && body[start - 1] == MARK
    requires AllDigits(body[start..end]) && (end < |body| ==> !IsDigit(body[end]))
    ensures ExpandRuns(Drop(body, start - 1)) ==
            if end < |body| then Repeat(body[end], Value(body[start..end])) + ExpandRuns(Drop(body, end + 1)) else []
  {
    var here := body[start - 1..];
    var tail := here[1..];
    assert tail == body[start..];
    assert tail[..end - start] == body[start..end];
    assert tail[end - start..] == body[end..];
    DigitSpanIs(tail, end - start);
    if end < |body| {
      assert body[end..][1..] == Drop(body, end + 1);
    }
  }

  lemma {:induction false} DigitSpanIs(s: Text, n: nat)
    requires n <= |s| && AllDigits(s[..n])
    requires n < |s| ==> !IsDigit(s[n])
    ensures DigitSpan(s) == n
  {
    if n > 0 {
      assert s[..n] == [s[0]] + s[1..][..n - 1];
      assert s[..n][1..] == s[1..][..n - 1];
      DigitSpanIs(s[1..], n - 1);
    }
  }

  // ---------------------------------------------------------------------------
  // Undoing the dictionary

  /** The text a unit stands for when the codes 1..k are understood. */
  function Glyph(u: Unit, k: Unit): (t: Text)
    requires k <= 10
    ensures t != []
  {
    if 1 <= u <= k then Token(u) else [u]
  }

  function Glyphs(s: Text, k: Unit): Text
    requires k <= 10
  {
    if s == [] then [] else Glyph(s[0], k) + Glyphs(s[1..], k)
  }

  lemma GlyphsCons(u: Unit, s: Text, k: Unit)
    requires k <= 10
    ensures Glyphs([u] + s, k) == Glyph(u, k) + Glyphs(s, k)
  {
    assert ([u] + s)[0] == u && ([u] + s)[1..] == s;
  }

  lemma {:induction false} GlyphsConcat(a: Text, b: Text, k: Unit)
    requires k <= 10
    ensures Glyphs(a + b, k) == Glyphs(a, k) + Glyphs(b, k)
  {
    hide Glyph;
    if a == [] {
      assert a + b == b;
    } else {
      GlyphsConcat(a[1..], b, k);
      assert a + b == [a[0]] + (a[1..] + b);
      GlyphsCons(a[0], a[1..] + b, k);
      Regroup(Glyph(a[0], k), Glyphs(a[1..], k), Glyphs(b, k));
    }
  }

  lemma {:induction false} GlyphsPlain(s: Text, k: Unit)
    requires k <= 10 && FreeOfCodes(s, 1, k)
    ensures Glyphs(s, k) == s
  {
    if s != [] { GlyphsPlain(s[1..], k); }
  }

  lemma {:induction false} ReplaceAbsent(s: Text, u: Unit, glue: Text)
    requires u !in s
    ensures Replace(s, [u], glue) == s
  {
    if s != [] {
      assert s[0] in s;
      ReplaceAbsent(s[1..], u, glue);
    }
  }

  lemma ReplaceUnitCons(x: Unit, s: Text, u: Unit, glue: Text)
    ensures Replace([x] + s, [u], glue) == (if x == u then glue else [x]) + Replace(s, [u], glue)
  {
    var xs := [x] + s;
    assert xs[0] == x && xs[1..] == s;
    assert [u] <= xs <==> x == u;
  }

  lemma {:induction false} ReplaceUnitConcat(a: Text, b: Text, u: Unit, glue: Text)
    ensures Replace(a + b, [u], glue) == Replace(a, [u], glue) + Replace(b, [u], glue)
  {
    if a == [] {
      assert a + b == b;
    } else {
      var x := a[0];
      var front := if x == u then glue else [x];
      var ra, rb := Replace(a[1..], [u], glue), Replace(b, [u], glue);
      calc {
        Replace(a + b, [u], glue);
        { assert a + b == [x] + (a[1..] + b); ReplaceUnitCons(x, a[1..] + b, u, glue); }
        front + Replace(a[1..] + b, [u], glue);
        { ReplaceUnitConcat(a[1..], b, u, glue); }
        front + (ra + rb);
        (front + ra) + rb;
        { assert a == [x] + a[1..]; ReplaceUnitCons(x, a[1..], u, glue); }
        Replace(a, [u], glue) + rb;
      }
    }
  }

  /** The sequential one-code-at-a-time replacement is the unit-wise translation. */
  lemma {:induction false} UnsubstituteIsGlyphs(s: Text, k: Unit)
    requires k <= 10
    ensures Unsubstitute(s, k) == Glyphs(s, k)
  {
    if k == 0 {
      GlyphsPlain(s, 0);
    } else {
      UnsubstituteIsGlyphs(s, k - 1);
      NextCode(s, k);
    }
  }

  lemma {:induction false} NextCode(s: Text, k: Unit)
    requires 1 <= k <= 10
    ensures Replace(Glyphs(s, k - 1), [k], Token(k)) == Glyphs(s, k)
  {
    if s != [] {
      var g := Glyph(s[0], k - 1);
      NextCode(s[1..], k);
      ReplaceUnitConcat(g, Glyphs(s[1..], k - 1), k, Token(k));
      if s[0] == k {
        assert Replace([k][1..], [k], Token(k)) == [];
        assert Replace(g, [k], Token(k)) == Token(k);
      } else {
        ReplaceAbsent(g, k, Token(k));
      }
    }
  }

  predicate FreeOfCodes(s: Text, lo: Unit, hi: Unit) {
    forall i :: 0 <= i < |s| ==> !(lo <= s[i] <= hi)
  }

  // ---------------------------------------------------------------------------
  // The ten substitutions are one pass over the text

  /** The code whose token starts with the unit, or zero. */
  function Starter(u: Unit): (k: Unit)
    ensures k <= 10
  {
    match u
    case 34 => 1
    case 123 => 2
    case 125 => 3
    case 91 => 4
    case 93 => 5
    case 44 => 6
    case 58 => 7
    case 116 => 8
    case 102 => 9
    case 110 => 10
    case _ => 0
  }

  /** No two tokens start alike, and no token starts inside another. */
  lemma TokenUnits(k: Unit)
    requires 1 <= k <= 10
    ensures Starter(Token(k)[0]) == k
    ensures forall i :: 1 <= i < |Token(k)| ==> Starter(Token(k)[i]) == 0
    ensures |Token(k)| > 1 ==> |Token(k)| > 2 && Token(k)[1] != Token(k)[0] && Token(k)[1] != Token(k)[2]
  {
  }

  lemma StarterStarts(u: Unit)
    ensures Starter(u) > 0 ==> Token(Starter(u))[0] == u && u >= 34
  {
  }

  /** The code, at most `upTo`, of the token the text starts with, or zero. */
  function TokenAt(s: Text, upTo: Unit): (k: Unit)
    requires s != [] && upTo <= 10
    ensures k <= upTo && (k > 0 ==> Token(k) <= s)
  {
    var k := Starter(s[0]);
    if 0 < k <= upTo && Token(k) <= s then k else 0
  }

  lemma TokenFound(s: Text, k: Unit, upTo: Unit)
    requires 1 <= k <= 10 && upTo <= 10 && Token(k) <= s
    ensures s != [] && TokenAt(s, upTo) == if k <= upTo then k else 0
  {
    TokenUnits(k);
    assert s[0] == Token(k)[0];
  }

  /** The text with the tokens of the codes up to `upTo` replaced, from left to right. */
  function Tokens(s: Text, upTo: Unit): Text
    requires upTo <= 10
    decreases |s|
  {
    if s == [] then []
    else
      var k := TokenAt(s, upTo);
      if k > 0 then [k] + Tokens(s[|Token(k)|..], upTo) else [s[0]] + Tokens(s[1..], upTo)
  }

  lemma TokensOfToken(k: Unit, rest: Text, upTo: Unit)
    requires 1 <= k <= upTo <= 10
    ensures Tokens(Token(k) + rest, upTo) == [k] + Tokens(rest, upTo)
  {
    hide Token;
    var s := Token(k) + rest;
    TokenFound(s, k, upTo);
    assert s[|Token(k)|..] == rest;
  }

  /** Units that start no token are passed over. */
  lemma {:induction false} TokensPlain(w: Text, rest: Text, upTo: Unit)
    requires upTo <= 10 && forall i :: 0 <= i < |w| ==> Starter(w[i]) == 0 || Starter(w[i]) > upTo
    ensures Tokens(w + rest, upTo) == w + Tokens(rest, upTo)
  {
    hide Token, Starter;
    if w == [] {
      assert w + rest == rest;
    } else {
      TokensPlain(w[1..], rest, upTo);
      assert (w + rest)[1..] == w[1..] + rest;
      assert w == [w[0]] + w[1..];
    }
  }

  /** What comes out before any code was there before. */
  lemma {:induction false} TokensPrefix(t: Text, s: Text, upTo: Unit)
    requires upTo <= 10 && FreeOfCodes(t, 1, 10) && t <= Tokens(s, upTo)
    ensures t <= s
  {
    hide Token, Starter;
    if t != [] {
      var all := Tokens(s, upTo);
      assert all[0] == t[0];
      assert TokenAt(s, upTo) == 0;
      TokensPrefix(t[1..], s[1..], upTo);
      assert s == [s[0]] + s[1..];
    }
  }

  lemma {:induction false} NextToken(s: Text, k: Unit)
    requires 1 <= k <= 10 && FreeOfCodes(s, 1, 10)
    ensures Replace(Tokens(s, k - 1), Token(k), [k]) == Tokens(s, k)
    decreases |s|
  {
    hide Token, Starter, Replace, TokenAt, Glyphs;
    var t, before := Token(k), Tokens(s, k - 1);
    if s == [] {
      ReplaceNothing(t, [k]);
    } else {
      ReplaceUnfold(before, t, [k]);
      var j := TokenAt(s, k - 1);
      NextTokenAt(s, k);
      if j > 0 {
        var rest := s[|Token(j)|..];
        NextToken(rest, k);
        assert t[0] != j;
        assert before[0] == j && before[1..] == Tokens(rest, k - 1);
      } else if t <= s {
        var rest := s[|t|..];
        assert s == t + rest;
        TokenPassed(k, rest);
        NextToken(rest, k);
        assert before[|t|..] == Tokens(rest, k - 1);
      } else {
        NextToken(s[1..], k);
        if t <= before { TokensPrefix(t, s, k - 1); }
        assert before[0] == s[0] && before[1..] == Tokens(s[1..], k - 1);
      }
    }
  }

  lemma ReplaceNothing(needle: Text, glue: Text)
    requires needle != []
    ensures Replace([], needle, glue) == []
  {
  }

  lemma NextTokenAt(s: Text, k: Unit)
    requires 1 <= k <= 10 && s != []
    ensures TokenAt(s, k) == if TokenAt(s, k - 1) > 0 then TokenAt(s, k - 1) else if Token(k) <= s then k else 0
  {
    if Token(k) <= s { TokenFound(s, k, k); TokenFound(s, k, k - 1); }
  }

  lemma TokenPassed(k: Unit, rest: Text)
    requires 1 <= k <= 10
    ensures Tokens(Token(k) + rest, k - 1) == Token(k) + Tokens(rest, k - 1)
  {
    TokenUnits(k);
    TokensPlain(Token(k), rest, k - 1);
  }

  /** The ten sequential substitutions of a text without codes are one pass from left to right. */
  lemma {:induction false} SubstituteIsTokens(s: Text, k: Unit)
    requires k <= 10 && FreeOfCodes(s, 1, 10)
    ensures Substitute(s, k) == Tokens(s, k)
  {
    if k == 0 {
      NoTokens(s);
    } else {
      SubstituteIsTokens(s, k - 1);
      NextToken(s, k);
    }
  }

  lemma {:induction false} NoTokens(s: Text)
    ensures Tokens(s, 0) == s
  {
    if s != [] { NoTokens(s[1..]); }
  }

  /** They lose nothing: decoding the codes gives the text back. */
  lemma {:induction false} GlyphsOfTokens(s: Text, k: Unit)
    requires k <= 10 && FreeOfCodes(s, 1, 10)
    ensures Glyphs(Tokens(s, k), k) == s
    decreases |s|
  {
    hide Token, Starter, TokenAt, Glyphs;
    if s == [] {
      GlyphsPlain([], k);
    } else {
      var j := TokenAt(s, k);
      if j > 0 {
        var rest := s[|Token(j)|..];
        GlyphsOfTokens(rest, k);
        GlyphsCons(j, Tokens(rest, k), k);
        assert s == Token(j) + rest;
      } else {
        GlyphsOfTokens(s[1..], k);
        GlyphsCons(s[0], Tokens(s[1..], k), k);
        assert s == [s[0]] + s[1..];
      }
    }
  }

  lemma SubstituteUndone(s: Text, k: Unit)
    requires k <= 10 && FreeOfCodes(s, 1, 10)
    ensures Glyphs(Substitute(s, k), k) == s
  {
    SubstituteIsTokens(s, k);
    GlyphsOfTokens(s, k);
  }

  // ---------------------------------------------------------------------------
  // Undoing the run-length encoding

  predicate DigitRunAt(s: Text, i: nat) {
    i + 4 <= |s| && IsDigit(s[i]) && s[i] == s[i + 1] == s[i + 2] == s[i + 3]
  }

  predicate FrontDigitRun(s: Text) {
    DigitRunAt(s, 0)
  }

  /** Some four consecutive units are the same decimal digit. */
  predicate HasDigitRun(s: Text) {
    s != [] && (FrontDigitRun(s) || HasDigitRun(s[1..]))
  }

  lemma {:induction false} HasDigitRunMeaning(s: Text)
    ensures HasDigitRun(s) <==> exists i: nat :: DigitRunAt(s, i)
  {
    if s != [] {
      var t := s[1..];
      HasDigitRunMeaning(t);
      if i: nat :| DigitRunAt(t, i) {
        assert DigitRunAt(s, i + 1);
      }
      if i: nat :| DigitRunAt(s, i) && i > 0 {
        assert DigitRunAt(t, i - 1);
      }
    }
  }

  lemma NothingInEmpty()
    ensures !HasDigitRun([]) && !HasLoneMark([])
  {
  }

  lemma {:induction false} SkipRun(s: Text, n: nat)
    requires n <= |s|
    requires forall i :: 0 <= i < n ==> s[i] == s[0]
    requires n < |s| && n > 0 ==> s[n] != s[0]
    requires n > 3 ==> !IsDigit(s[0])
    ensures HasDigitRun(s) <==> HasDigitRun(s[n..])
  {
    if n == 0 {
      assert s[0..] == s;
    } else {
      assert s[1..][n - 1..] == s[n..];
      assert !FrontDigitRun(s);
      SkipRun(s[1..], n - 1);
    }
  }

  /** A run that is short, or not of digits, expands back to itself. */
  lemma {:induction false} ExpandEncodedRun(u: Unit, n: nat, rest: Text)
    requires n >= 1
    requires n <= 3 ==> u != MARK
    requires n > 3 ==> !IsDigit(u)
    ensures ExpandRuns(EncodeRun(u, n) + rest) == Repeat(u, n) + ExpandRuns(rest)
  {
    if n <= 3 {
      var all := Repeat(u, n) + rest;
      assert all[0] == u;
      if n == 1 {
        assert all[1..] == rest;
        assert Repeat(u, 1) == [u];
      } else {
        assert all[1..] == Repeat(u, n - 1) + rest;
        ExpandEncodedRun(u, n - 1, rest);
        assert Repeat(u, n) == [u] + Repeat(u, n - 1);
      }
    } else {
      var num := Numeral(n);
      var all := [MARK] + num + [u] + rest;
      assert EncodeRun(u, n) + rest == all;
      var tail := all[1..];
      assert tail == num + ([u] + rest);
      var d := DigitSpan(tail);
      assert tail[..|num|] == num && tail[|num|] == u;
      DigitSpanIs(tail, |num|);
      assert tail[d..] == [u] + rest;
      assert tail[d..][1..] == rest;
      ValueOfNumeral(n);
    }
  }

  lemma EncodeRunsUnfold(x: Text) returns (n: nat, rest: Text)
    requires x != []
    ensures n == RunLength(x) && x == Repeat(x[0], n) + x[n..]
    ensures rest == EncodeRuns(x[n..]) && EncodeRuns(x) == EncodeRun(x[0], n) + rest
    ensures if n > 3 && IsDigit(x[0]) then HasDigitRun(x) else HasDigitRun(x) <==> HasDigitRun(x[n..])
  {
    n := RunLength(x);
    rest := EncodeRuns(x[n..]);
    RunLengthMeans(x);
    assert x[..n] == Repeat(x[0], n);
    if n > 3 && IsDigit(x[0]) {
      assert FrontDigitRun(x);
    } else {
      SkipRun(x, n);
    }
  }

  /** A run of U+000B of length one to three starts at `i`: it starts there and ends `n` units on. */
  predicate LoneMarkAt(s: Text, i: nat, n: nat) {
    && 1 <= n <= 3 && i + n <= |s|
    && (forall j :: i <= j < i + n ==> s[j] == 0x0B)
    && (i > 0 ==> s[i - 1] != 0x0B) && (i + n < |s| ==> s[i + n] != 0x0B)
  }

  /** Some maximal run of U+000B is shorter than four. */
  predicate HasLoneMark(s: Text)
    decreases |s|
  {
    if s == [] then false
    else if s[0] != MARK then HasLoneMark(s[1..])
    else RunLength(s) <= 3 || HasLoneMark(s[RunLength(s)..])
  }

  lemma {:induction false} HasLoneMarkMeaning(s: Text)
    ensures HasLoneMark(s) <==> exists i: nat, n: nat :: LoneMarkAt(s, i, n)
    decreases |s|
  {
    hide RunLength;
    if s != [] {
      if s[0] != MARK {
        HasLoneMarkMeaning(s[1..]);
        ShiftedMark(s, 1);
      } else {
        var n := RunLength(s);
        RunLengthMeans(s);
        if n <= 3 {
          assert LoneMarkAt(s, 0, n);
        } else {
          HasLoneMarkMeaning(s[n..]);
          ShiftedMark(s, n);
        }
      }
    }
  }

  /** Behind units without a lone mark, the lone marks are those of the rest. */
  lemma ShiftedMark(s: Text, k: nat)
    requires 1 <= k <= |s|
    requires k < |s| && s[k - 1] == MARK ==> s[k] != MARK
    requires (k >= 4 && forall j :: 0 <= j < k ==> s[j] == MARK) || (k == 1 && s[0] != MARK)
    ensures (exists i: nat, n: nat :: LoneMarkAt(s, i, n)) <==> (exists i: nat, n: nat :: LoneMarkAt(s[k..], i, n))
  {
    if i: nat, n: nat :| LoneMarkAt(s, i, n) {
      assert s[i] == MARK;
      assert i >= k;
      assert LoneMarkAt(s[k..], i - k, n);
    }
    if i: nat, n: nat :| LoneMarkAt(s[k..], i, n) {
      assert s[k..][i] == s[k + i];
      assert forall j :: k + i <= j < k + i + n ==> s[j] == s[k..][j - k];
      assert i > 0 ==> s[k..][i - 1] == s[k + i - 1];
      assert LoneMarkAt(s, k + i, n);
    }
  }

  lemma {:induction false} SkipNonMarks(s: Text, n: nat)
    requires n <= |s| && forall i :: 0 <= i < n ==> s[i] != MARK
    ensures HasLoneMark(s) <==> HasLoneMark(s[n..])
  {
    if n == 0 {
      assert s[0..] == s;
    } else {
      assert s[1..][n - 1..] == s[n..];
      SkipNonMarks(s[1..], n - 1);
    }
  }

  /** One run more or less in front, neither a lone mark nor a long run of a digit. */
  lemma SkipRegularRun(x: Text, n: nat)
    requires x != [] && n == RunLength(x)
    ensures x[0] == MARK && n <= 3 ==> HasLoneMark(x)
    ensures !(x[0] == MARK && n <= 3) ==> (HasLoneMark(x) <==> HasLoneMark(x[n..]))
  {
    hide RunLength;
    RunLengthMeans(x);
    if x[0] != MARK { SkipNonMarks(x, n); }
  }

  lemma {:induction false} ExpandUndoesEncode(x: Text)
    requires !HasLoneMark(x) && !HasDigitRun(x)
    ensures ExpandRuns(EncodeRuns(x)) == x
  {
    hide HasDigitRun, HasLoneMark, EncodeRun, RunLength;
    if x != [] {
      hide ExpandRuns, EncodeRuns;
      var n, rest := EncodeRunsUnfold(x);
      SkipRegularRun(x, n);
      ExpandUndoesEncode(x[n..]);
      ExpandEncodedRun(x[0], n, rest);
    }
  }

  /** A long run of a digit: the marker swallows the digit, so what comes out is not a digit. */
  lemma {:induction false} ExpandDigitRun(u: Unit, n: nat, rest: Text)
    requires n > 3 && IsDigit(u)
    ensures var e := ExpandRuns(EncodeRun(u, n) + rest); e == [] || !IsDigit(e[0])
  {
    var num := Numeral(n);
    var all := [MARK] + num + [u] + rest;
    assert EncodeRun(u, n) + rest == all;
    var tail := all[1..];
    var d := DigitSpan(tail);
    assert forall i :: 0 <= i < |num| ==> IsDigit(num[i]) && tail[i] == num[i];
    assert tail[|num|] == u;
    assert d > |num|;
    if d < |tail| {
      assert tail[..d][0] == num[0];
      ValuePositive(tail[..d]);
      assert tail[d..][0] == tail[d];
    } else {
      assert tail[d..] == [];
    }
  }

  // ---------------------------------------------------------------------------
  // Digits and marks survive the dictionary

  lemma {:induction false} SkipNonDigits(s: Text, n: nat)
    requires n <= |s|
    requires forall i :: 0 <= i < n ==> !IsDigit(s[i])
    ensures HasDigitRun(s) <==> HasDigitRun(s[n..])
  {
    if n == 0 {
      assert s[0..] == s;
    } else {
      assert s[1..][n - 1..] == s[n..];
      SkipNonDigits(s[1..], n - 1);
    }
  }

  lemma {:induction false} TokensKeepDigitRuns(s: Text)
    requires FreeOfCodes(s, 1, 10)
    ensures HasDigitRun(Tokens(s, 10)) <==> HasDigitRun(s)
    decreases |s|
  {
    hide Token, Starter, TokenAt;
    if s != [] {
      var x, j := Tokens(s, 10), TokenAt(s, 10);
      if j > 0 {
        var rest := s[|Token(j)|..];
        TokensKeepDigitRuns(rest);
        assert forall i :: 0 <= i < |Token(j)| ==> s[i] == Token(j)[i];
        SkipNonDigits(s, |Token(j)|);
        SkipNonDigits(x, 1);
        assert x[1..] == Tokens(rest, 10);
      } else {
        TokensKeepDigitRuns(s[1..]);
        assert x[1..] == Tokens(s[1..], 10);
        FrontDigitsKept(s);
      }
    }
  }

  lemma FrontDigitsKept(s: Text)
    requires FreeOfCodes(s, 1, 10)
    ensures FrontDigitRun(Tokens(s, 10)) <==> FrontDigitRun(s)
  {
    var x := Tokens(s, 10);
    if FrontDigitRun(s) {
      var front := s[..4];
      assert forall i :: 0 <= i < 4 ==> front[i] == s[i];
      assert s == front + s[4..];
      TokensPlain(front, s[4..], 10);
    }
    if FrontDigitRun(x) {
      var front := x[..4];
      assert forall i :: 0 <= i < 4 ==> front[i] == x[i];
      TokensPrefix(front, s, 10);
      assert forall i :: 0 <= i < 4 ==> s[i] == front[i];
    }
  }

  lemma {:induction false} TokensKeepMarks(s: Text)
    requires FreeOfCodes(s, 1, 10)
    ensures HasLoneMark(Tokens(s, 10)) <==> HasLoneMark(s)
    decreases |s|
  {
    hide Token, TokenAt, RunLength, HasLoneMark;
    if s == [] {
    } else if s[0] == MARK {
      var n := RunLength(s);
      RunLengthMeans(s);
      var rest := s[n..];
      TokensKeepMarks(rest);
      var front := Repeat(MARK, n);
      assert s == front + rest;
      TokensPlain(front, rest, 10);
      TokensStart(rest);
      RunLengthIs(front + Tokens(rest, 10), n);
      SkipRegularRun(s, n);
      SkipRegularRun(front + Tokens(rest, 10), n);
      assert (front + Tokens(rest, 10))[n..] == Tokens(rest, 10);
    } else {
      var x, j := Tokens(s, 10), TokenAt(s, 10);
      SkipNonMarks(x, 1);
      if j > 0 {
        var rest := s[|Token(j)|..];
        TokensKeepMarks(rest);
        assert forall i :: 0 <= i < |Token(j)| ==> s[i] == Token(j)[i];
        SkipNonMarks(s, |Token(j)|);
        assert x[1..] == Tokens(rest, 10);
      } else {
        TokensKeepMarks(s[1..]);
        SkipNonMarks(s, 1);
        assert x[1..] == Tokens(s[1..], 10);
      }
    }
  }

  lemma TokensStart(s: Text)
    ensures s == [] ==> Tokens(s, 10) == []
    ensures s != [] && s[0] != MARK ==> Tokens(s, 10) != [] && Tokens(s, 10)[0] != MARK
  {
  }

  // ---------------------------------------------------------------------------
  // No encoding of a text is shorter than its cost

  /** What a run costs at least: a marker, or its own length; marks cannot stand for themselves. */
  function RunCost(u: Unit, n: nat): nat {
    if u == MARK || n > 3 then |Numeral(n)| + 2 else n
  }

  function Cost(x: Text): nat
    decreases |x|
  {
    if x == [] then 0 else RunCost(x[0], RunLength(x)) + Cost(x[RunLength(x)..])
  }

  lemma {:induction false} EncodeWithinCost(x: Text)
    ensures |EncodeRuns(x)| <= Cost(x)
  {
    if x != [] { EncodeWithinCost(x[RunLength(x)..]); }
  }

  lemma NumeralMonotone(a: nat, b: nat)
    requires a <= b
    ensures |Numeral(a)| <= |Numeral(b)|
  {
    hide Numeral, Power10;
    NumeralLength(b, |Numeral(b)|);
    NumeralLength(a, |Numeral(b)|);
  }

  lemma {:induction false} PowerOfSum(p: nat, q: nat)
    ensures Power10(p + q) == Power10(p) * Power10(q)
  {
    if p > 0 { PowerOfSum(p - 1, q); }
  }

  lemma NumeralOfSum(a: nat, b: nat)
    ensures |Numeral(a + b)| <= |Numeral(a)| + |Numeral(b)|
  {
    hide Numeral, Power10;
    var p, q := |Numeral(a)|, |Numeral(b)|;
    NumeralLength(a, p);
    NumeralLength(b, q);
    PowerOfSum(p, q);
    AtLeastTen(p);
    AtLeastTen(q);
    SumBelowProduct(Power10(p), Power10(q));
    NumeralLength(a + b, p + q);
  }

  lemma AtLeastTen(p: nat)
    requires p >= 1
    ensures Power10(p) >= 10
  {
  }

  lemma SumBelowProduct(a: int, b: int)
    requires a >= 10 && b >= 10
    ensures a + b <= a * b
  {
    assert (a - 1) * (b - 1) == a * b - a - b + 1;
    assert (a - 1) * (b - 1) >= 1;
  }

  lemma {:induction false} ValueBelow(t: Text)
    requires AllDigits(t)
    ensures Value(t) < Power10(|t|)
  {
    if t != [] { ValueBelow(t[..|t| - 1]); }
  }

  /** The number of leading units equal to `u`. */
  function Leading(u: Unit, z: Text): nat {
    if z != [] && z[0] == u then RunLength(z) else 0
  }

  /** Units in front join the run that is there already. */
  lemma CostOfFront(u: Unit, v: nat, z: Text)
    requires v >= 1
    ensures Leading(u, z) <= |z|
    ensures Cost(z) == (if Leading(u, z) > 0 then RunCost(u, Leading(u, z)) else 0) + Cost(z[Leading(u, z)..])
    ensures Cost(Repeat(u, v) + z) == RunCost(u, v + Leading(u, z)) + Cost(z[Leading(u, z)..])
  {
    hide Numeral, RunCost, RunLength, Cost;
    var k, x := Leading(u, z), Repeat(u, v) + z;
    if z != [] {
      RunLengthMeans(z);
      CostUnfold(z);
    }
    assert k == 0 ==> z[k..] == z;
    assert forall i :: 0 <= i < v + k ==> x[i] == u;
    RunLengthIs(x, v + k);
    CostUnfold(x);
    assert x[v + k..] == z[k..];
  }

  lemma CostUnfold(x: Text)
    requires x != []
    ensures Cost(x) == RunCost(x[0], RunLength(x)) + Cost(x[RunLength(x)..])
  {
  }

  lemma RunCosts(u: Unit, n: nat)
    ensures RunCost(u, n) <= |Numeral(n)| + 2
    ensures n >= 1 ==> |Numeral(n)| <= RunCost(u, n) <= RunCost(u, n + 1)
    ensures u != MARK ==> RunCost(u, n + 1) <= RunCost(u, n) + 1
    ensures u != MARK ==> RunCost(u, 1) == 1 && RunCost(u, 0) == 0
  {
    NumeralMonotone(n, n + 1);
    NumeralOfSum(n, 1);
  }

  /** A marker with `d` digits pays for the units it stands for. */
  lemma MarkerPays(u: Unit, v: nat, z: Text, d: nat)
    requires v >= 1 && |Numeral(v)| <= d
    ensures Cost(Repeat(u, v) + z) <= Cost(z) + d + 2
  {
    hide Numeral, RunCost, Cost, Leading;
    var k := Leading(u, z);
    CostOfFront(u, v, z);
    RunCosts(u, v + k);
    RunCosts(u, k);
    NumeralOfSum(v, k);
  }

  /** A unit that stands for itself pays for itself, unless it is a mark. */
  lemma UnitPays(u: Unit, z: Text)
    ensures u != MARK ==> Cost([u] + z) <= Cost(z) + 1
    ensures Cost(z) <= Cost([u] + z)
    ensures u != MARK && z != [] && z[0] != u ==> Cost([u] + z) == 1 + Cost(z)
  {
    hide Numeral, RunCost, Cost;
    CostOfFront(u, 1, z);
    assert Repeat(u, 1) == [u];
    RunCosts(u, Leading(u, z));
  }

  lemma {:induction false} CostOfEnd(w: Text, z: Text)
    ensures Cost(z) <= Cost(w + z)
  {
    hide Cost;
    if w == [] {
      assert w + z == z;
    } else {
      CostOfEnd(w[1..], z);
      UnitPays(w[0], w[1..] + z);
      assert w + z == [w[0]] + (w[1..] + z);
    }
  }

  /** What is stored for a decoded text: its tokens as codes again. */
  function Stored(d: Text): Text {
    Tokens(Glyphs(d, 10), 10)
  }

  /** The unit is the first of a word and the text goes on with the others. */
  predicate Completes(u: Unit, g: Text) {
    var k := Starter(u);
    k > 0 && |Token(k)| > 1 && Token(k) <= [u] + g
  }

  /** How a decoded unit is stored when it completes no word. */
  function StoredUnit(u: Unit): Unit {
    if Starter(u) > 0 && |Token(Starter(u))| == 1 then Starter(u) else u
  }

  lemma StoredCons(u: Unit, d: Text)
    requires 1 <= u <= 10 || !Completes(u, Glyphs(d, 10))
    ensures Stored([u] + d) == [StoredUnit(u)] + Stored(d)
  {
    hide Token, Tokens, Glyphs, Starter;
    var g, k := Glyphs(d, 10), Starter(u);
    GlyphsCons(u, d, 10);
    StarterStarts(u);
    if 1 <= u <= 10 {
      TokensOfToken(u, g, 10);
    } else if k > 0 && |Token(k)| == 1 {
      assert Token(k) == [u];
      TokensOfToken(k, g, 10);
    } else {
      TokensCons(u, g);
    }
  }

  lemma TokensCons(u: Unit, g: Text)
    requires Starter(u) == 0 || !(Token(Starter(u)) <= [u] + g)
    ensures Tokens([u] + g, 10) == [u] + Tokens(g, 10)
  {
    hide Token, Starter;
    assert ([u] + g)[1..] == g;
  }

  lemma MarksStayMarks(u: Unit)
    ensures StoredUnit(u) == MARK <==> u == MARK
  {
  }

  /** What a word and the rest are stored as, with the first unit of the word and without it. */
  lemma WordStored(u: Unit, d: Text) returns (k: Unit, others: Text, z: Text)
    requires u > 10 && Completes(u, Glyphs(d, 10))
    ensures k <= 10 && Stored([u] + d) == [k] + z && Stored(d) == others + z
    ensures |others| > 1 && others[0] != others[1] && others[0] > MARK
  {
    hide Token, Starter, Tokens, Glyphs;
    var g := Glyphs(d, 10);
    k := Starter(u);
    GlyphsCons(u, d, 10);
    TokenUnits(k);
    var word := Token(k);
    others := word[1..];
    var rest := g[|word| - 1..];
    assert [u] + g == word + rest;
    assert ([u] + g)[1..] == g && (word + rest)[1..] == others + rest;
    TokensOfToken(k, rest, 10);
    TokensPlain(others, rest, 10);
    z := Tokens(rest, 10);
  }

  /** Completing a word costs nothing: its other units no longer stand for themselves. */
  lemma WordPays(u: Unit, d: Text)
    requires u > 10 && Completes(u, Glyphs(d, 10))
    ensures Cost(Stored([u] + d)) <= Cost(Stored(d))
  {
    hide Cost, Stored, Completes;
    var k, others, z := WordStored(u, d);
    UnitPays(k, z);
    var more := others[1..] + z;
    assert others + z == [others[0]] + more;
    UnitPays(others[0], more);
    CostOfEnd(others[1..], z);
  }

  /** The same unit again and again is stored alike: no word starts with the same unit twice. */
  lemma {:induction false} StoredRepeat(u: Unit, m: nat, d: Text)
    requires 1 <= u <= 10 || !Completes(u, Glyphs(d, 10))
    ensures Stored(Repeat(u, m) + d) == Repeat(StoredUnit(u), m) + Stored(d)
  {
    hide Token, Stored, StoredUnit, Completes;
    if m == 0 {
      assert Repeat(u, 0) + d == d;
      assert Repeat(StoredUnit(u), 0) + Stored(d) == Stored(d);
    } else {
      var rest := Repeat(u, m - 1) + d;
      StoredRepeat(u, m - 1, d);
      assert Repeat(u, m) + d == [u] + rest;
      if m == 1 {
        assert rest == d;
      } else {
        assert rest == [u] + (Repeat(u, m - 2) + d);
        NotTwice(u, Repeat(u, m - 2) + d);
      }
      StoredCons(u, rest);
      assert Repeat(StoredUnit(u), m) == [StoredUnit(u)] + Repeat(StoredUnit(u), m - 1);
    }
  }

  lemma NotTwice(u: Unit, d: Text)
    ensures 1 <= u <= 10 || !Completes(u, Glyphs([u] + d, 10))
  {
    hide Token, Starter;
    GlyphsCons(u, d, 10);
    var g, k := Glyphs([u] + d, 10), Starter(u);
    if !(1 <= u <= 10) && k > 0 && |Token(k)| > 1 {
      TokenUnits(k);
      StarterStarts(u);
      assert ([u] + g)[1] == u && Token(k)[1] != u;
    }
  }

  /** Decoding yields no more than was paid for: what is stored for it costs at most the input. */
  lemma {:induction false} ExpandCost(e: Text)
    ensures Cost(Stored(ExpandRuns(e))) <= |e|
    decreases |e|
  {
    hide Cost, Stored, Completes;
    if e == [] {
      NothingStored();
    } else if e[0] != MARK {
      var d := ExpandRuns(e[1..]);
      ExpandCost(e[1..]);
      PlainStored(e[0], d);
    } else {
      var n := DigitSpan(e[1..]);
      var digits, rest := e[1..][..n], e[1..][n..];
      if rest == [] {
        NothingStored();
      } else {
        ExpandCost(rest[1..]);
        MarkerStored(rest[0], digits, ExpandRuns(rest[1..]));
      }
    }
  }

  lemma NothingStored()
    ensures Stored([]) == [] && Cost([]) == 0
  {
  }

  lemma PlainStored(u: Unit, d: Text)
    requires u != MARK
    ensures Cost(Stored([u] + d)) <= Cost(Stored(d)) + 1
  {
    hide Cost, Stored, Completes;
    if 1 <= u <= 10 || !Completes(u, Glyphs(d, 10)) {
      StoredCons(u, d);
      MarksStayMarks(u);
      UnitPays(StoredUnit(u), Stored(d));
    } else if u > 10 {
      WordPays(u, d);
    } else {
      ZeroCompletesNothing(d);
    }
  }

  lemma ZeroCompletesNothing(g: Text)
    ensures !Completes(0, Glyphs(g, 10))
  {
  }

  lemma MarkerStored(u: Unit, digits: Text, d: Text)
    requires AllDigits(digits)
    ensures Cost(Stored(Repeat(u, Value(digits)) + d)) <= Cost(Stored(d)) + |digits| + 2
  {
    hide Cost, Stored, Completes, Value, Numeral, Glyphs;
    var v := Value(digits);
    if v == 0 {
      assert Repeat(u, 0) + d == d;
    } else {
      NumeralOfDigits(digits);
      RunStored(u, v, d, |digits|);
    }
  }

  lemma RunStored(u: Unit, v: nat, d: Text, digits: nat)
    requires v >= 1 && |Numeral(v)| <= digits
    ensures Cost(Stored(Repeat(u, v) + d)) <= Cost(Stored(d)) + digits + 2
  {
    hide Cost, Stored, Completes, Numeral, Glyphs, StoredUnit;
    ZeroCompletesNothing(d);
    if 1 <= u <= 10 || !Completes(u, Glyphs(d, 10)) {
      StoredRepeat(u, v, d);
      MarkerPays(StoredUnit(u), v, Stored(d), digits);
    } else {
      WordPays(u, d);
      var first := [u] + d;
      assert Repeat(u, v) + d == Repeat(u, v - 1) + first;
      if v == 1 {
        assert Repeat(u, 0) + first == first;
      } else {
        NotTwice(u, d);
        StoredRepeat(u, v - 1, first);
        NumeralMonotone(v - 1, v);
        MarkerPays(StoredUnit(u), v - 1, Stored(first), digits);
      }
    }
  }

  lemma NumeralOfDigits(digits: Text)
    requires AllDigits(digits) && Value(digits) > 0
    ensures |Numeral(Value(digits))| <= |digits|
  {
    hide Numeral, Power10;
    ValueBelow(digits);
    NumeralLength(Value(digits), |digits|);
  }

  // ---------------------------------------------------------------------------
  // The round trip

  /** Decoded text never contains a dictionary code. */
  lemma {:induction false} GlyphsHoldNoCodes(s: Text)
    ensures FreeOfCodes(Glyphs(s, 10), 1, 10)
  {
    if s != [] { GlyphsHoldNoCodes(s[1..]); }
  }

  lemma {:induction false} GlyphsStartNonDigit(s: Text)
    requires s != []
    ensures Glyphs(s, 10) != []
    ensures IsDigit(Glyphs(s, 10)[0]) <==> IsDigit(s[0])
  {
    assert Glyphs(s, 10) == Glyph(s[0], 10) + Glyphs(s[1..], 10);
  }

  lemma DecompressCompressed(s: Text)
    ensures Decompressed(Compressed(s)) == Glyphs(ExpandRuns(EncodeRuns(Substitute(s, 10))), 10)
  {
    var body := EncodeRuns(Substitute(s, 10));
    assert Compressed(s)[1..] == body;
    UnsubstituteIsGlyphs(ExpandRuns(body), 10);
  }

  /** A lone mark in front: the marker it makes stands for too little of what it takes. */
  lemma LoneMarkFails(x: Text)
    requires x != [] && x[0] == MARK && RunLength(x) <= 3
    ensures Stored(ExpandRuns(EncodeRuns(x))) != x
  {
    hide Stored, ExpandRuns, EncodeRuns, Cost, RunLength;
    var n, rest := EncodeRunsUnfold(x);
    var e := Repeat(MARK, n) + rest;
    EncodeWithinCost(x[n..]);
    CostOfLoneMark(x, n);
    ExpandCost(e);
    if n == 3 {
      TwoMarksVanish([MARK] + rest);
      assert e == [MARK, MARK] + ([MARK] + rest);
      ExpandCost([MARK] + rest);
    }
  }

  lemma CostOfLoneMark(x: Text, n: nat)
    requires x != [] && x[0] == MARK && n == RunLength(x)
    ensures Cost(x) >= 3 + Cost(x[n..])
  {
  }

  lemma TwoMarksVanish(e: Text)
    ensures ExpandRuns([MARK, MARK] + e) == ExpandRuns(e)
  {
    var all := [MARK, MARK] + e;
    assert DigitSpan(all[1..]) == 0;
    assert all[1..][0..] == [MARK] + e;
    assert ([MARK] + e)[1..] == e;
    assert Value(all[1..][..0]) == 0;
    assert Repeat(MARK, 0) + ExpandRuns(e) == ExpandRuns(e);
  }

  lemma DigitRunFails(x: Text)
    requires x != [] && IsDigit(x[0]) && RunLength(x) > 3
    ensures Glyphs(ExpandRuns(EncodeRuns(x)), 10) != Glyphs(x, 10)
  {
    hide ExpandRuns, EncodeRuns, RunLength, Glyphs;
    var n, rest := EncodeRunsUnfold(x);
    ExpandDigitRun(x[0], n, rest);
    GlyphsStartNonDigit(x);
    var d := ExpandRuns(EncodeRuns(x));
    if d == [] {
      GlyphsPlain([], 10);
    } else {
      GlyphsStartNonDigit(d);
    }
  }

  /** A text whose stored form survives the run-length code has no long digit run and no lone mark. */
  lemma {:induction false} SurvivesOnlyRegular(x: Text)
    requires IsStored(x) && Glyphs(ExpandRuns(EncodeRuns(x)), 10) == Glyphs(x, 10)
    ensures !HasDigitRun(x) && !HasLoneMark(x)
    decreases |x|
  {
    hide ExpandRuns, EncodeRuns, RunLength, Glyphs, HasDigitRun, HasLoneMark, EncodeRun, IsStored;
    if x == [] {
      NothingInEmpty();
    } else {
      var n, rest := EncodeRunsUnfold(x);
      if x[0] == MARK && n <= 3 {
        LoneMarkFails(x);
        StoredAgain(x);
      } else if IsDigit(x[0]) && n > 3 {
        DigitRunFails(x);
      } else {
        var front, y := Repeat(x[0], n), x[n..];
        ExpandEncodedRun(x[0], n, rest);
        GlyphsConcat(front, ExpandRuns(rest), 10);
        GlyphsConcat(front, y, 10);
        SameRest(Glyphs(front, 10), Glyphs(ExpandRuns(rest), 10), Glyphs(y, 10));
        EndIsStored(x, n);
        SurvivesOnlyRegular(y);
        SkipRegularRun(x, n);
      }
    }
  }

  lemma SameRest(front: Text, a: Text, b: Text)
    requires front + a == front + b
    ensures a == b
  {
    assert a == (front + a)[|front|..] && b == (front + b)[|front|..];
  }

  /** The texts that the ten substitutions produce. */
  predicate IsStored(x: Text) {
    Stored(x) == x
  }

  lemma StoredAgain(x: Text)
    requires IsStored(x) && Glyphs(ExpandRuns(EncodeRuns(x)), 10) == Glyphs(x, 10)
    ensures Stored(ExpandRuns(EncodeRuns(x))) == x
  {
  }

  lemma {:induction false} EndIsStored(x: Text, n: nat)
    requires IsStored(x) && n <= |x|
    ensures IsStored(x[n..])
  {
    hide Glyphs, Tokens;
    if n == 0 {
      assert x[0..] == x;
    } else {
      TailIsStored(x);
      EndIsStored(x[1..], n - 1);
      assert x[1..][n - 1..] == x[n..];
    }
  }

  lemma TailIsStored(x: Text)
    requires IsStored(x) && x != []
    ensures IsStored(x[1..])
  {
    hide Token, Glyphs, Starter;
    var g := Glyphs(x[1..], 10);
    assert x == [x[0]] + x[1..];
    GlyphsCons(x[0], x[1..], 10);
    if 1 <= x[0] <= 10 {
      TokensOfToken(x[0], g, 10);
      assert ([x[0]] + Tokens(g, 10))[1..] == Tokens(g, 10);
    } else {
      assert ([x[0]] + g)[1..] == g;
      assert TokenAt([x[0]] + g, 10) == 0;
      assert ([x[0]] + Tokens(g, 10))[1..] == Tokens(g, 10);
    }
  }

  /** MAIN RESULT. For every text, compression followed by decompression gives the text back if and
      only if it holds no dictionary code U+0001..U+000A, no four consecutive equal decimal digits,
      and no run of U+000B shorter than four. */
  lemma RoundTripExactly(s: Text)
    ensures Decompressed(Compressed(s)) == s <==>
            FreeOfCodes(s, 1, 10) && !HasDigitRun(s) && !HasLoneMark(s)
  {
    hide Glyphs, Substitute, Tokens, HasDigitRun, HasLoneMark, Compressed, Decompressed, ExpandRuns, EncodeRuns;
    DecompressCompressed(s);
    var x := Substitute(s, 10);
    GlyphsHoldNoCodes(ExpandRuns(EncodeRuns(x)));
    if FreeOfCodes(s, 1, 10) {
      SubstituteIsTokens(s, 10);
      GlyphsOfTokens(s, 10);
      TokensKeepDigitRuns(s);
      TokensKeepMarks(s);
      assert IsStored(x);
      if Decompressed(Compressed(s)) == s {
        SurvivesOnlyRegular(x);
      } else if !HasDigitRun(s) && !HasLoneMark(s) {
        ExpandUndoesEncode(x);
      }
    }
  }

  /** A text that does not start with U+0000 was not compressed and is returned as it is, and a
      compressed one always does. */
  lemma HeaderTells(s: Text)
    ensures Compressed(s) != [] && Compressed(s)[0] == 0
    ensures s == [] || s[0] != 0 ==> Decompressed(s) == s
  {
  }

  // ---------------------------------------------------------------------------
  // Compression never costs more than its header

  lemma {:induction false} ReplaceShrinks(s: Text, k: Unit)
    requires 1 <= k <= 10
    ensures |Replace(s, Token(k), [k])| <= |s|
    decreases |s|
  {
    if Token(k) <= s {
      ReplaceShrinks(s[|Token(k)|..], k);
    } else if s != [] {
      ReplaceShrinks(s[1..], k);
    }
  }

  lemma {:induction false} SubstituteShrinks(s: Text, k: Unit)
    requires k <= 10
    ensures |Substitute(s, k)| <= |s|
  {
    if k > 0 {
      SubstituteShrinks(s, k - 1);
      ReplaceShrinks(Substitute(s, k - 1), k);
    }
  }

  lemma {:induction false} NumeralShort(n: nat)
    requires n >= 4
    ensures |Numeral(n)| <= n - 2
  {
    if n >= 40 {
      NumeralShort(n / 10);
    } else if n >= 10 {
      assert |Numeral(n / 10)| == 1;
    }
  }

  lemma {:induction false} EncodeRunsShrinks(x: Text)
    ensures |EncodeRuns(x)| <= |x|
  {
    if x != [] {
      var n := RunLength(x);
      EncodeRunsShrinks(x[n..]);
      if n > 3 { NumeralShort(n); }
    }
  }

  /** The compressed form is at most one unit longer than the text. */
  lemma CompressedLength(s: Text)
    ensures |Compressed(s)| <= |s| + 1
  {
    SubstituteShrinks(s, 10);
    EncodeRunsShrinks(Substitute(s, 10));
  }
}
