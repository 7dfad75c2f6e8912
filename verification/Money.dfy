/**
 Canonical amounts. An amount is at most sixteen whole digits and, after a dot, at most eight
 digits that do not end in zero. The accepted strings are in bijection with the multiples of
 10^-8 below 10^16, so equality of amounts is equality of strings.
 */
module Money {
  import opened Text

  predicate ValidWhole(whole: string) {
    whole != [] && |whole| <= 16 && AllDigits(whole) && !(|whole| > 1 && whole[0] == '0')
  }

  predicate ValidFraction(part: string) {
    part != [] && |part| <= 8 && AllDigits(part) && part[|part| - 1] != '0'
  }

  predicate ValidAmount(value: string) {
    var k := DotIndex(value);
    ValidWhole(value[..k]) && (k < |value| ==> ValidFraction(value[k + 1..]))
  }

  /** The amount in units of 10^-8. */
  function Units(value: string): nat
    requires ValidAmount(value)
  {
    var k := DotIndex(value);
    Number(value[..k]) * 100_000_000
    + if k == |value| then 0 else FractionUnits(value[k + 1..])
  }

  /** The fraction filled up to eight digits. */
  function FractionUnits(part: string): nat
    requires AllDigits(part) && |part| <= 8
  {
    Number(part + Zeros(8 - |part|))
  }

  /** Drops trailing zeros. */
  function Trimmed(s: string): string {
    if s != [] && s[|s| - 1] == '0' then Trimmed(s[..|s| - 1]) else s
  }

  /** The canonical text of an amount in units of 10^-8. */
  function Print(units: nat): string {
    var part := units % 100_000_000;
    Decimal(units / 100_000_000) + if part == 0 then [] else "." + Trimmed(Fixed(part, 8))
  }

  function Zeros(n: nat): (s: string)
    ensures |s| == n && AllDigits(s)
  {
    if n == 0 then [] else Zeros(n - 1) + "0"
  }

  lemma {:induction false} TrimmedZeros(s: string, n: nat)
    requires s != [] ==> s[|s| - 1] != '0'
    ensures Trimmed(s + Zeros(n)) == s
  {
    var t := s + Zeros(n);
    if n == 0 {
      assert t == s;
    } else {
      assert t[..|t| - 1] == s + Zeros(n - 1);
      TrimmedZeros(s, n - 1);
    }
  }

  lemma {:induction false} TrimmedSplit(s: string)
    ensures var t := Trimmed(s);
      |t| <= |s| && s == t + Zeros(|s| - |t|) && (t != [] ==> t[|t| - 1] != '0')
  {
    if s != [] && s[|s| - 1] == '0' {
      TrimmedSplit(s[..|s| - 1]);
      var t := Trimmed(s);
      assert s == s[..|s| - 1] + "0";
      assert t + Zeros(|s| - |t|) == t + Zeros(|s| - 1 - |t|) + "0";
    } else {
      assert s == s + Zeros(0);
    }
  }

  lemma Powers()
    ensures Pow10(8) == 100_000_000 && Pow10(16) == 10_000_000_000_000_000
  {
    assert Pow10(4) == 10_000 by {
      assert Pow10(2) == 100;
    }
    assert Pow10(8) == 100_000_000 by {
      assert Pow10(6) == 1_000_000;
    }
    assert Pow10(12) == 1_000_000_000_000 by {
      assert Pow10(10) == 10_000_000_000;
    }
    assert Pow10(14) == 100_000_000_000_000;
  }

  /** A fraction is eight digits with the trailing zeros dropped. */
  lemma FractionPrints(part: string)
    requires ValidFraction(part)
    ensures 0 < FractionUnits(part) < 100_000_000 && Trimmed(Fixed(FractionUnits(part), 8)) == part
  {
    var padded := part + Zeros(8 - |part|);
    Powers();
    FixedOfNumber(padded);
    TrimmedZeros(part, 8 - |part|);
    NumberPositiveAt(padded, |part| - 1);
  }

  lemma {:induction false} NumberPositiveAt(s: string, i: nat)
    requires AllDigits(s) && i < |s| && s[i] != '0'
    ensures Number(s) > 0
  {
    if i < |s| - 1 {
      NumberPositiveAt(s[..|s| - 1], i);
    }
  }

  lemma PrintedFraction(units: nat)
    requires 0 < units < 100_000_000
    ensures var part := Trimmed(Fixed(units, 8));
      ValidFraction(part) && FractionUnits(part) == units
  {
    var s := Fixed(units, 8);
    var part := Trimmed(s);
    Powers();
    NumberOfFixed(units, 8);
    TrimmedSplit(s);
    assert AllDigits(part) by {
      assert forall i :: 0 <= i < |part| ==> part[i] == s[i];
    }
    TrimmedKeepsDigits(s);
  }

  lemma {:induction false} TrimmedKeepsDigits(s: string)
    requires AllDigits(s) && Number(s) > 0
    ensures Trimmed(s) != []
  {
    if s[|s| - 1] == '0' {
      TrimmedKeepsDigits(s[..|s| - 1]);
    }
  }

  /** Printing gives an accepted amount that reads back as the same number of units. */
  lemma PrintAccepted(units: nat)
    requires units < 1_000_000_000_000_000_000_000_000
    ensures ValidAmount(Print(units))
    ensures Units(Print(units)) == units
  {
    var w, f := units / 100_000_000, units % 100_000_000;
    var whole := Decimal(w);
    var rest := if f == 0 then [] else "." + Trimmed(Fixed(f, 8));
    var v := whole + rest;
    Powers();
    NumberOfDecimal(w);
    DecimalLength(w, 16);
    assert v[..|whole|] == whole;
    DotIndexUnique(v, |whole|);
    if f != 0 {
      PrintedFraction(f);
      assert v[|whole| + 1..] == Trimmed(Fixed(f, 8));
    }
  }

  /** Every accepted string is the canonical print of its own value. */
  lemma AcceptedPrints(value: string)
    requires ValidAmount(value)
    ensures Units(value) < 1_000_000_000_000_000_000_000_000 && Print(Units(value)) == value
  {
    var k := DotIndex(value);
    var whole := value[..k];
    if k < |value| {
      var part := value[k + 1..];
      PartsPrint(whole, FractionUnits(part), part);
      assert value == whole + "." + part;
    } else {
      PartsPrint(whole, 0, []);
      assert value == whole;
    }
  }

  lemma PartsPrint(whole: string, units: nat, part: string)
    requires ValidWhole(whole)
    requires if part == [] then units == 0 else ValidFraction(part) && units == FractionUnits(part)
    ensures Number(whole) * 100_000_000 + units < 1_000_000_000_000_000_000_000_000
    ensures Print(Number(whole) * 100_000_000 + units) == whole + if part == [] then [] else "." + part
  {
    WholeBound(whole);
    DecimalOfNumber(whole);
    if part != [] {
      FractionPrints(part);
    }
    PrintParts(Number(whole), units);
  }

  lemma WholeBound(whole: string)
    requires ValidWhole(whole)
    ensures Number(whole) < 10_000_000_000_000_000
  {
    Powers();
    FixedOfNumber(whole);
    PowerMonotone(|whole|, 16);
  }

  lemma PrintParts(whole: nat, part: nat)
    requires part < 100_000_000
    ensures Print(whole * 100_000_000 + part)
         == Decimal(whole) + if part == 0 then [] else "." + Trimmed(Fixed(part, 8))
  {
    var units := whole * 100_000_000 + part;
    assert units / 100_000_000 == whole && units % 100_000_000 == part;
  }

  lemma {:induction false} PowerMonotone(a: nat, b: nat)
    requires a <= b
    ensures Pow10(a) <= Pow10(b)
  {
    if a < b {
      PowerMonotone(a, b - 1);
    }
  }

  /** Numeric equality of accepted amounts is string equality. */
  lemma EqualUnitsEqualText(a: string, b: string)
    requires ValidAmount(a) && ValidAmount(b)
    ensures Units(a) == Units(b) <==> a == b
  {
    AcceptedPrints(a);
    AcceptedPrints(b);
  }
}
