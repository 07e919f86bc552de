/** JavaScript strings as sequences of UTF-16 code units, with the decimal numerals that
    number-to-string conversion prints and `parseInt`/`BigInt` read back. */
module JsText {

  newtype Unit = u: int | 0 <= u < 0x10000
  type Text = seq<Unit>

  const ZERO: Unit := 48

  predicate IsDigit(u: Unit) {
    48 <= u <= 57
  }

  predicate AllDigits(t: Text) {
    forall i :: 0 <= i < |t| ==> IsDigit(t[i])
  }

  /** The decimal numeral of `n`, without leading zeros. */
  function Numeral(n: nat): (t: Text)
    ensures |t| >= 1 && AllDigits(t)
    ensures n > 0 ==> t[0] != ZERO
  {
    if n < 10 then [ZERO + n as Unit] else Numeral(n / 10) + [ZERO + (n % 10) as Unit]
  }

  /** The number a run of digits denotes; the empty run denotes zero. */
  function Value(t: Text): nat
    requires AllDigits(t)
  {
    if t == [] then 0 else 10 * Value(t[..|t| - 1]) + (t[|t| - 1] - ZERO) as nat
  }

  function Power10(d: nat): (p: nat)
    ensures p >= 1
  {
    if d == 0 then 1 else 10 * Power10(d - 1)
  }

  lemma {:induction false} ValueOfNumeral(n: nat)
    ensures Value(Numeral(n)) == n
  {
    if n >= 10 {
      ValueOfNumeral(n / 10);
      assert Numeral(n)[..|Numeral(n)| - 1] == Numeral(n / 10);
    }
  }

  /** A numeral of `d` digits or fewer denotes less than ten to the `d`, and conversely. */
  lemma {:induction false} NumeralLength(n: nat, d: nat)
    requires d >= 1
    ensures |Numeral(n)| <= d <==> n < Power10(d)
  {
    if d == 1 {
      assert Power10(1) == 10 * Power10(0);
      if n >= 10 { assert |Numeral(n / 10)| >= 1; }
    } else {
      if n >= 10 {
        NumeralLength(n / 10, d - 1);
      } else {
        assert Power10(d) == 10 * Power10(d - 1);
      }
    }
  }

  /** Leading zeros do not change the number a run of digits denotes. */
  lemma {:induction false} LeadingZeros(t: Text, z: nat)
    requires AllDigits(t)
    ensures AllDigits(seq(z, _ => ZERO) + t)
    ensures Value(seq(z, _ => ZERO) + t) == Value(t)
  {
    var pad: Text := seq(z, _ => ZERO);
    if t != [] {
      LeadingZeros(t[..|t| - 1], z);
      assert (pad + t)[..|pad + t| - 1] == pad + t[..|t| - 1];
    } else if z > 0 {
      LeadingZeros([], z - 1);
      var shorter: Text := seq(z - 1, _ => ZERO);
      assert (pad + t)[..z - 1] == shorter + [];
    }
  }

  /** A positive numeral denotes a positive number, however many digits follow it. */
  lemma {:induction false} ValuePositive(t: Text)
    requires AllDigits(t) && |t| >= 1 && t[0] != ZERO
    ensures Value(t) > 0
  {
    if |t| > 1 { ValuePositive(t[..|t| - 1]); }
  }

  // ---------------------------------------------------------------------------
  // `split` and `join`

  /** `s.split(needle)` for a non-empty needle: leftmost non-overlapping matches. */
  function Split<T(==)>(s: seq<T>, needle: seq<T>): (parts: seq<seq<T>>)
    requires needle != []
    ensures parts != []
    decreases |s|
  {
    if needle <= s then [[]] + Split(s[|needle|..], needle)
    else if s == [] then [[]]
    else
      var rest := Split(s[1..], needle);
      [[s[0]] + rest[0]] + rest[1..]
  }

  /** `parts.join(glue)` for a non-empty array. */
  function Join<T>(parts: seq<seq<T>>, glue: seq<T>): seq<T>
    requires parts != []
  {
    if |parts| == 1 then parts[0] else parts[0] + glue + Join(parts[1..], glue)
  }

  lemma JoinOne<T>(part: seq<T>, glue: seq<T>)
    ensures Join([part], glue) == part
  {
  }

  lemma JoinPrepend<T>(x: seq<T>, parts: seq<seq<T>>, glue: seq<T>)
    requires parts != []
    ensures Join([x + parts[0]] + parts[1..], glue) == x + Join(parts, glue)
    ensures Join([[]] + parts, glue) == glue + Join(parts, glue)
  {
    var longer := [x + parts[0]] + parts[1..];
    assert longer[1..] == parts[1..];
    assert ([[]] + parts)[1..] == parts;
    if |parts| > 1 {
      assert (x + parts[0]) + glue + Join(parts[1..], glue) == x + (parts[0] + glue + Join(parts[1..], glue));
    }
  }

  lemma {:induction false} SplitAbsent<T>(s: seq<T>, u: T)
    requires u !in s
    ensures Split(s, [u]) == [s]
  {
    if s != [] {
      assert s[0] in s;
      SplitAbsent(s[1..], u);
      assert s == [s[0]] + s[1..];
    }
  }

  lemma {:induction false} SplitOnce<T>(a: seq<T>, b: seq<T>, u: T)
    requires u !in a && u !in b
    ensures Split(a + [u] + b, [u]) == [a, b]
  {
    var s := a + [u] + b;
    if a == [] {
      assert s == [u] + b;
      assert s[1..] == b;
      SplitAbsent(b, u);
    } else {
      assert a[0] in a;
      assert s[1..] == a[1..] + [u] + b;
      SplitOnce(a[1..], b, u);
      assert [a[0]] + a[1..] == a;
    }
  }

  /** The first part is what stands before the first separator, or everything. */
  lemma {:induction false} FirstPart<T>(s: seq<T>, u: T)
    ensures var first := Split(s, [u])[0]; u !in first && (first == s || first + [u] <= s)
  {
    if s != [] {
      if s[0] == u {
        assert [u] <= s;
      } else {
        assert !([u] <= s);
        FirstPart(s[1..], u);
        var rest := Split(s[1..], [u]);
        assert Split(s, [u])[0] == [s[0]] + rest[0];
        assert s == [s[0]] + s[1..];
      }
    }
  }

  lemma {:induction false} FirstPartIs<T>(a: seq<T>, b: seq<T>, u: T)
    requires u !in a
    ensures Split(a + [u] + b, [u])[0] == a
  {
    var s := a + [u] + b;
    if a == [] {
      assert s == [u] + b;
    } else {
      assert a[0] in a;
      assert s[1..] == a[1..] + [u] + b;
      FirstPartIs(a[1..], b, u);
      assert [a[0]] + a[1..] == a;
    }
  }
}
