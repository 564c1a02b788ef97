/**
 * Human-readable sizes: `to_size` in imapdu.py. The loop divides by 1024
 * while the value is at least 1024, stepping through the suffixes B, K, M
 * and G, and stops at T whatever is left. The result is written with one
 * digit after the point, followed by the suffix.
 */
module Units {
  import opened Decimal

  function Pow1024(k: nat): (p: nat)
    ensures p >= 1
  {
    if k == 0 then 1 else 1024 * Pow1024(k - 1)
  }

  lemma {:induction false} Pow1024Monotone(a: nat, b: nat)
    requires a <= b
    ensures Pow1024(a) <= Pow1024(b)
    decreases b - a
  {
    if a < b {
      Pow1024Monotone(a, b - 1);
    }
  }

  /** The suffixes in the order the loop tries them; T ends the loop. */
  const Suffixes: string := "BKMGT"

  /**
   * How many times a byte count must be divided by 1024 to drop below 1024,
   * capped at 4 (the T suffix): the reference the loop is checked against.
   */
  function UnitIndex(n: nat): (k: nat)
    ensures k <= 4
    ensures k < 4 ==> n < Pow1024(k + 1)
    ensures k > 0 ==> Pow1024(k) <= n
  {
    if n < Pow1024(1) then 0
    else if n < Pow1024(2) then 1
    else if n < Pow1024(3) then 2
    else if n < Pow1024(4) then 3
    else 4
  }

  /** The value the loop formats and the suffix it appends. */
  datatype Scaled = Scaled(magnitude: real, suffix: char)

  /** The loop of `to_size` from iteration `i` on, `num` divided `i` times already. */
  function ScaleFrom(num: real, i: nat): (r: Scaled)
    requires i <= 4
    decreases 4 - i
    ensures r.suffix != 'T' ==> r.magnitude < 1024.0
  {
    if i == 4 then Scaled(num, 'T')
    else if num < 1024.0 then Scaled(num, Suffixes[i])
    else ScaleFrom(num / 1024.0, i + 1)
  }

  lemma BelowBound(n: nat, p: nat)
    requires p >= 1 && n < 1024 * p
    ensures n as real / p as real < 1024.0
  {
    var nr, pr := n as real, p as real;
    var x := nr / pr;
    assert x * pr == nr;
    assert (1024 * p) as real == 1024.0 * pr;
    CancelFactor(x, 1024.0, pr);
  }

  lemma CancelFactor(x: real, y: real, c: real)
    requires c > 0.0 && x * c < y * c
    ensures x < y
  {
  }

  lemma AtLeastBound(n: nat, p: nat)
    requires p >= 1 && 1024 * p <= n
    ensures n as real / p as real >= 1024.0
    ensures (n as real / p as real) / 1024.0 == n as real / (1024 * p) as real
  {
    var x := n as real / p as real;
    assert x * p as real == n as real;
  }

  /** From iteration `i` on, the loop stops at the suffix the thresholds pick. */
  lemma {:induction false} ScaleFromSpec(n: nat, i: nat)
    requires i <= UnitIndex(n)
    ensures ScaleFrom(n as real / Pow1024(i) as real, i)
            == Scaled(n as real / Pow1024(UnitIndex(n)) as real, Suffixes[UnitIndex(n)])
    decreases 4 - i
  {
    if i < 4 {
      if i == UnitIndex(n) {
        BelowBound(n, Pow1024(i));
      } else {
        Pow1024Monotone(i + 1, UnitIndex(n));
        AtLeastBound(n, Pow1024(i));
        ScaleFromSpec(n, i + 1);
      }
    }
  }

  lemma MagnitudeBounds(n: nat)
    ensures var k := UnitIndex(n);
            var m := n as real / Pow1024(k) as real;
            && m * Pow1024(k) as real == n as real
            && (k < 4 ==> m < 1024.0)
            && (k > 0 ==> m >= 1.0)
  {
    var k := UnitIndex(n);
    var p := Pow1024(k);
    var m := n as real / p as real;
    assert m * p as real == n as real;
    if k < 4 {
      BelowBound(n, p);
    }
    if k > 0 {
      assert m * p as real >= p as real;
    }
  }

  /**
   * The suffix and magnitude `to_size` settles on: B below 1024, K below
   * 1024^2, M below 1024^3, G below 1024^4, T from there on; the magnitude is
   * the byte count over 1024^k, under 1024 for every suffix but T.
   */
  function Scale(n: nat): (s: Scaled)
    ensures s.suffix == 'B' <==> n < Pow1024(1)
    ensures s.suffix == 'K' <==> Pow1024(1) <= n < Pow1024(2)
    ensures s.suffix == 'M' <==> Pow1024(2) <= n < Pow1024(3)
    ensures s.suffix == 'G' <==> Pow1024(3) <= n < Pow1024(4)
    ensures s.suffix == 'T' <==> Pow1024(4) <= n
    ensures s.magnitude * Pow1024(UnitIndex(n)) as real == n as real
    ensures s.suffix != 'T' ==> s.magnitude < 1024.0
    ensures s.suffix != 'B' ==> s.magnitude >= 1.0
  {
    ScaleFromSpec(n, 0);
    MagnitudeBounds(n);
    ScaleFrom(n as real, 0)
  }

  /**
   * Round to the nearest integer, ties to the even one: how Python's
   * correctly rounded `%.1f` treats the exact tenths of a binary fraction.
   */
  function RoundHalfEven(x: real): (q: int)
    ensures x - 0.5 <= q as real <= x + 0.5
    ensures (q as real == x - 0.5 || q as real == x + 0.5) ==> q % 2 == 0
  {
    var f := x.Floor;
    var frac := x - f as real;
    if frac < 0.5 then f
    else if frac > 0.5 then f + 1
    else if f % 2 == 0 then f
    else f + 1
  }

  /** `text` reads as a fixed-point number with one decimal denoting `tenths` tenths. */
  predicate ShowsTenths(text: string, tenths: int) {
    && |text| >= 3
    && text[|text| - 2] == '.'
    && IsCanonical(text[..|text| - 2])
    && IsDigit(text[|text| - 1])
    && Value(text[..|text| - 2]) * 10 + DigitValue(text[|text| - 1]) == tenths
  }

  /**
   * `"%3.1f" % m` for m >= 0: the nearest number of tenths, written with one
   * decimal. The width 3 never pads, since the shortest output is "0.0".
   */
  function FixedOne(m: real): (text: string)
    requires m >= 0.0
    ensures ShowsTenths(text, RoundHalfEven(10.0 * m))
  {
    var t := RoundHalfEven(10.0 * m);
    var whole := Show(t / 10);
    var text := whole + "." + [DigitChar(t % 10)];
    assert text[..|text| - 2] == whole;
    ValueOfShow(t / 10);
    text
  }

  /**
   * `to_size`: the magnitude written to the nearest tenth, then the suffix
   * the thresholds pick.
   */
  function ToSize(n: nat): (text: string)
    ensures |text| >= 4
    ensures text[|text| - 1] == Scale(n).suffix
    ensures ShowsTenths(text[..|text| - 1], RoundHalfEven(10.0 * Scale(n).magnitude))
  {
    var s := Scale(n);
    var text := FixedOne(s.magnitude) + [s.suffix];
    assert text[..|text| - 1] == FixedOne(s.magnitude);
    text
  }

  /** A size text holds no comma, so it stays one CSV field. */
  lemma ToSizeHasNoComma(n: nat)
    ensures ',' !in ToSize(n)
  {
    var text := ToSize(n);
    var number := text[..|text| - 1];
    var whole := number[..|number| - 2];
    assert text == whole + ['.', number[|number| - 1], text[|text| - 1]];
    assert forall i :: 0 <= i < |whole| ==> IsDigit(whole[i]);
  }

  /** The text `to_size` writes for `n`, given the tenths it rounds to. */
  lemma ToSizeOfTenths(n: nat, tenths: nat)
    requires RoundHalfEven(10.0 * Scale(n).magnitude) == tenths
    ensures ToSize(n) == Show(tenths / 10) + "." + [DigitChar(tenths % 10), Scale(n).suffix]
  {
  }

  /** Bytes below 1024 are shown as they are, with a zero decimal. */
  lemma {:induction false} ToSizeOfBytes(n: nat)
    requires n < 1024
    ensures ToSize(n) == Show(n) + ".0B"
  {
    assert Scale(n).magnitude == n as real;
    ToSizeOfTenths(n, 10 * n);
  }

  /** Exact powers of 1024 are shown as 1.0 of their unit. */
  lemma {:induction false} ToSizeOfPower(k: nat)
    requires k <= 4
    ensures ToSize(Pow1024(k)) == "1.0" + [Suffixes[k]]
  {
    var n := Pow1024(k);
    if k < 4 {
      Pow1024Monotone(k + 1, 4);
    }
    assert UnitIndex(n) == k;
    assert Scale(n).magnitude == 1.0;
    ToSizeOfTenths(n, 10);
  }

  /** A folder of 500, 1500 and 2500 bytes: 4500 bytes in all, 2500 the largest. */
  lemma ToSizeExampleFolder()
    ensures ToSize(4500) == "4.4K"
    ensures ToSize(2500) == "2.4K"
  {
    assert UnitIndex(4500) == 1 && UnitIndex(2500) == 1;
    assert Scale(4500).magnitude * 1024.0 == 4500.0;
    assert Scale(2500).magnitude * 1024.0 == 2500.0;
    ToSizeOfTenths(4500, 44);
    ToSizeOfTenths(2500, 24);
  }

  /** The boundary values: the smallest and largest counts shown in bytes. */
  lemma ToSizeByteBoundaries()
    ensures ToSize(0) == "0.0B"
    ensures ToSize(1023) == "1023.0B"
  {
    ToSizeOfBytes(0);
    ToSizeOfBytes(1023);
    assert Show(1) == "1";
    assert Show(10) == "10";
    assert Show(102) == "102";
  }

  /** Evaluates the first powers, kept apart so that the proofs using them stay small. */
  lemma Pow1024Values()
    ensures Pow1024(1) == 1024
    ensures Pow1024(2) == 1024 * 1024
    ensures Pow1024(3) == 1024 * 1024 * 1024
    ensures Pow1024(4) == 1024 * 1024 * 1024 * 1024
  {
  }

  lemma ToSizeKilo()
    ensures ToSize(1024) == "1.0K"
  {
    Pow1024Values();
    ToSizeOfPower(1);
  }

  lemma ToSizeMega()
    ensures ToSize(1024 * 1024) == "1.0M"
  {
    Pow1024Values();
    ToSizeOfPower(2);
  }

  lemma ToSizeGiga()
    ensures ToSize(1024 * 1024 * 1024) == "1.0G"
  {
    Pow1024Values();
    ToSizeOfPower(3);
  }

  lemma ToSizeTera()
    ensures ToSize(1024 * 1024 * 1024 * 1024) == "1.0T"
  {
    Pow1024Values();
    ToSizeOfPower(4);
  }

  /** The first value of each unit above bytes is shown as 1.0 of that unit. */
  lemma ToSizeUnitBoundaries()
    ensures ToSize(1024) == "1.0K"
    ensures ToSize(1024 * 1024) == "1.0M"
    ensures ToSize(1024 * 1024 * 1024) == "1.0G"
    ensures ToSize(1024 * 1024 * 1024 * 1024) == "1.0T"
  {
    ToSizeKilo();
    ToSizeMega();
    ToSizeGiga();
    ToSizeTera();
  }
}
