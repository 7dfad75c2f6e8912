/**
 Text shared by the canonical encodings: byte order on strings, decimal digits of a fixed
 width and the shortest decimal form.
 */
module Text {

  /** Byte order on strings. UTF-8 keeps code point order, so comparing characters is comparing bytes. */
  predicate Less(a: string, b: string) {
    b != [] && (a == [] || a[0] < b[0] || (a[0] == b[0] && Less(a[1..], b[1..])))
  }

  lemma {:induction false} LessIrreflexive(a: string)
    ensures !Less(a, a)
  {
    if a != [] {
      LessIrreflexive(a[1..]);
    }
  }

  lemma {:induction false} LessTransitive(a: string, b: string, c: string)
    requires Less(a, b) && Less(b, c)
    ensures Less(a, c)
  {
    if a != [] && a[0] == b[0] == c[0] {
      LessTransitive(a[1..], b[1..], c[1..]);
    }
  }

  /** A common prefix does not matter, and neither does what follows a difference. */
  lemma {:induction false} LessExtend(p: string, a: string, b: string, x: string, y: string)
    requires |a| == |b| && Less(a, b)
    ensures Less(p + a + x, p + b + y)
    decreases |p| + |a|
  {
    var s, t := p + a + x, p + b + y;
    if p != [] {
      LessExtend(p[1..], a, b, x, y);
      assert s[1..] == p[1..] + a + x && t[1..] == p[1..] + b + y;
    } else if a[0] == b[0] {
      LessExtend([], a[1..], b[1..], x, y);
      assert s[1..] == [] + a[1..] + x && t[1..] == [] + b[1..] + y;
    }
  }

  predicate IsDigit(c: char) {
    '0' <= c <= '9'
  }

  predicate AllDigits(s: string) {
    forall i :: 0 <= i < |s| ==> IsDigit(s[i])
  }

  function Digit(d: nat): char
    requires d < 10
  {
    '0' + d as char
  }

  function Pow10(n: nat): (p: nat)
    ensures 1 <= p
  {
    if n == 0 then 1 else 10 * Pow10(n - 1)
  }

  /** The number a run of digits stands for. */
  function Number(s: string): nat
    requires AllDigits(s)
  {
    if s == [] then 0 else 10 * Number(s[..|s| - 1]) + (s[|s| - 1] - '0') as nat
  }

  /** The last `width` decimal digits of n. */
  function Fixed(n: nat, width: nat): (s: string)
    ensures |s| == width && AllDigits(s)
  {
    if width == 0 then [] else Fixed(n / 10, width - 1) + [Digit(n % 10)]
  }

  /** Rust's `to_string` on an unsigned integer. */
  function Decimal(n: nat): (s: string)
    ensures s != [] && AllDigits(s)
  {
    if n < 10 then [Digit(n)] else Decimal(n / 10) + [Digit(n % 10)]
  }

  /** Rust's `{:0width}`: zero-filled to the width, longer when the number is. */
  function ZeroFilled(n: nat, width: nat): string {
    if n < Pow10(width) then Fixed(n, width) else Decimal(n)
  }

  /** Digits without a leading zero, except zero itself. */
  predicate Shortest(s: string) {
    s != [] && AllDigits(s) && (|s| > 1 ==> s[0] != '0')
  }

  lemma {:induction false} NumberOfFixed(n: nat, width: nat)
    requires n < Pow10(width)
    ensures Number(Fixed(n, width)) == n
  {
    if width > 0 {
      NumberOfFixed(n / 10, width - 1);
      var s := Fixed(n, width);
      assert s[..|s| - 1] == Fixed(n / 10, width - 1);
    }
  }

  lemma {:induction false} FixedOfNumber(s: string)
    requires AllDigits(s)
    ensures Number(s) < Pow10(|s|) && Fixed(Number(s), |s|) == s
  {
    if s != [] {
      FixedOfNumber(s[..|s| - 1]);
      assert s == s[..|s| - 1] + [s[|s| - 1]];
    }
  }

  lemma {:induction false} FixedLess(a: nat, b: nat, width: nat)
    requires a < b < Pow10(width)
    ensures Less(Fixed(a, width), Fixed(b, width))
  {
    var x, y := Fixed(a / 10, width - 1), Fixed(b / 10, width - 1);
    if a / 10 < b / 10 {
      FixedLess(a / 10, b / 10, width - 1);
      LessExtend([], x, y, [Digit(a % 10)], [Digit(b % 10)]);
      assert [] + x + [Digit(a % 10)] == Fixed(a, width) && [] + y + [Digit(b % 10)] == Fixed(b, width);
    } else {
      assert Less([Digit(a % 10)], [Digit(b % 10)]);
      LessExtend(x, [Digit(a % 10)], [Digit(b % 10)], [], []);
      assert x + [Digit(a % 10)] + [] == Fixed(a, width) && x + [Digit(b % 10)] + [] == Fixed(b, width);
    }
  }

  lemma {:induction false} NumberOfDecimal(n: nat)
    ensures Number(Decimal(n)) == n && Shortest(Decimal(n)) && (n > 0 ==> Decimal(n)[0] != '0')
  {
    var s := Decimal(n);
    if n >= 10 {
      NumberOfDecimal(n / 10);
      assert s[..|s| - 1] == Decimal(n / 10);
    } else {
      assert s[..0] == [];
    }
  }

  lemma {:induction false} DecimalOfNumber(s: string)
    requires Shortest(s)
    ensures Decimal(Number(s)) == s
  {
    var front, last := s[..|s| - 1], s[|s| - 1];
    assert s == front + [last];
    if |s| > 1 {
      DecimalOfNumber(front);
      NumberPositive(front);
    } else {
      assert front == [];
    }
  }

  lemma {:induction false} NumberPositive(s: string)
    requires AllDigits(s) && s != [] && s[0] != '0'
    ensures Number(s) > 0
  {
    if |s| > 1 {
      NumberPositive(s[..|s| - 1]);
    }
  }

  lemma {:induction false} DecimalLength(n: nat, width: nat)
    requires width > 0
    ensures |Decimal(n)| <= width <==> n < Pow10(width)
  {
    if n >= 10 {
      if width > 1 {
        DecimalLength(n / 10, width - 1);
      } else {
        assert |Decimal(n / 10)| >= 1;
      }
    }
  }

  /** Decimal printing loses nothing. */
  lemma DecimalInjective(a: nat, b: nat)
    requires Decimal(a) == Decimal(b)
    ensures a == b
  {
    NumberOfDecimal(a);
    NumberOfDecimal(b);
  }

  /** Where `split_once('.')` cuts; the length when there is no dot. */
  function DotIndex(value: string): (k: nat)
    ensures k <= |value| && '.' !in value[..k] && (k < |value| ==> value[k] == '.')
  {
    if value == [] || value[0] == '.' then 0
    else
      var k := 1 + DotIndex(value[1..]);
      assert value[..k] == [value[0]] + value[1..][..k - 1];
      k
  }

  lemma {:induction false} DotIndexUnique(value: string, k: nat)
    requires k <= |value| && '.' !in value[..k] && (k < |value| ==> value[k] == '.')
    ensures DotIndex(value) == k
  {
    if k > 0 {
      assert value[0] in value[..k];
      assert forall c :: c in value[1..][..k - 1] ==> c in value[..k];
      DotIndexUnique(value[1..], k - 1);
    }
  }
}
