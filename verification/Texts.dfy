/** Texts in byte order, numbers written with padding, and the keys built from them. */
module Texts {
  import opened Prelude

  /** Lexicographic order of bytes. */
  predicate TextLess(a: Text, b: Text) {
    if b == [] then false
    else if a == [] then true
    else a[0] < b[0] || (a[0] == b[0] && TextLess(a[1..], b[1..]))
  }

  datatype KeyColumn = IntKey(size: nat) | TextKey(size: nat)

  const ZERO: Byte := 48
  const SPACE: Byte := 32

  function Fill(b: Byte, n: int): (r: Text)
    ensures |r| == if n > 0 then n else 0
  {
    if n <= 0 then [] else [b] + Fill(b, n - 1)
  }

  /** `setw`: pad to the width, never cut. */
  function PadLeft(t: Text, size: nat): Text { Fill(ZERO, size - |t|) + t }
  function PadRight(t: Text, size: nat): Text { t + Fill(SPACE, size - |t|) }

  function Decimal(n: nat): (r: Text)
    ensures |r| >= 1
  {
    if n < 10 then [48 + n] else Decimal(n / 10) + [48 + n % 10]
  }

  function ColumnKey(c: KeyColumn, t: Text): Text {
    match c
    case IntKey(size) => PadLeft(t, size)
    case TextKey(size) => PadRight(t, size)
  }

  function OrderKey(cols: seq<KeyColumn>, ts: seq<Text>): Text {
    if cols == [] || ts == [] then [] else ColumnKey(cols[0], ts[0]) + OrderKey(cols[1..], ts[1..])
  }

  // ------------------------------------------------------------- byte order

  lemma {:induction false} LessIrreflexive(a: Text)
    ensures !TextLess(a, a)
  {
    if a != [] { LessIrreflexive(a[1..]); }
  }

  lemma {:induction false} LessTransitive(a: Text, b: Text, c: Text)
    requires !TextLess(b, a) && !TextLess(c, b)
    ensures !TextLess(c, a)
  {
    if c != [] && a != [] && b != [] && c[0] == a[0] && b[0] == a[0] {
      LessTransitive(a[1..], b[1..], c[1..]);
    }
  }

  lemma {:induction false} LessAsymmetric(a: Text, b: Text)
    requires TextLess(a, b)
    ensures !TextLess(b, a)
  {
    if a != [] && b != [] && a[0] == b[0] { LessAsymmetric(a[1..], b[1..]); }
  }

  function Power(n: nat): nat { if n == 0 then 1 else 10 * Power(n - 1) }

  /** Exactly `w` decimal digits. */
  function Digits(n: nat, w: nat): (r: Text)
    ensures |r| == w
  {
    if w == 0 then [] else Digits(n / 10, w - 1) + [48 + n % 10]
  }

  lemma {:induction false} ZeroDigits(w: nat)
    ensures Digits(0, w) == Fill(ZERO, w)
  {
    if w > 0 {
      ZeroDigits(w - 1);
      FillSnoc(ZERO, w - 1);
    }
  }

  lemma {:induction false} FillSnoc(b: Byte, n: nat)
    ensures Fill(b, n) + [b] == Fill(b, n + 1)
  {
    if n > 0 {
      FillSnoc(b, n - 1);
      assert [b] + Fill(b, n - 1) + [b] == [b] + (Fill(b, n - 1) + [b]);
    }
  }

  lemma {:induction false} PaddedDigits(n: nat, w: nat)
    requires w > 0 && n < Power(w)
    ensures |Decimal(n)| <= w && PadLeft(Decimal(n), w) == Digits(n, w)
    decreases w
  {
    if n < 10 {
      ZeroDigits(w - 1);
    } else {
      assert Power(w) == 10 * Power(w - 1);
      assert Power(0) == 1;
      PaddedDigits(n / 10, w - 1);
      assert PadLeft(Decimal(n), w) == PadLeft(Decimal(n / 10), w - 1) + [48 + n % 10];
    }
  }

  lemma {:induction false} LessSnoc(a: Text, b: Text, x: Byte, y: Byte)
    requires |a| == |b|
    ensures TextLess(a + [x], b + [y]) <==> TextLess(a, b) || (a == b && x < y)
  {
    if a == [] {
      assert a + [x] == [x] && b + [y] == [y];
    } else {
      assert (a + [x])[1..] == a[1..] + [x] && (b + [y])[1..] == b[1..] + [y];
      LessSnoc(a[1..], b[1..], x, y);
      assert a == b <==> a[0] == b[0] && a[1..] == b[1..] by {
        assert a == [a[0]] + a[1..] && b == [b[0]] + b[1..];
      }
    }
  }

  /** Equally long decimals are ordered as numbers. */
  lemma {:induction false} DigitsOrder(m: nat, n: nat, w: nat)
    requires m < Power(w) && n < Power(w)
    ensures TextLess(Digits(m, w), Digits(n, w)) <==> m < n
    ensures Digits(m, w) == Digits(n, w) <==> m == n
    decreases w
  {
    if w > 0 {
      assert Power(w) == 10 * Power(w - 1);
      DigitsOrder(m / 10, n / 10, w - 1);
      var a, b := Digits(m / 10, w - 1), Digits(n / 10, w - 1);
      LessSnoc(a, b, 48 + m % 10, 48 + n % 10);
      LastDigit(a, b, m, n);
    }
  }

  lemma LastDigit(a: Text, b: Text, m: nat, n: nat)
    requires |a| == |b| && (a == b <==> m / 10 == n / 10)
    ensures a + [48 + m % 10] == b + [48 + n % 10] <==> m == n
  {
    var x, y: Text := a + [48 + m % 10], b + [48 + n % 10];
    if x == y {
      assert a == x[..|a|] && b == y[..|b|] && x[|a|] == y[|b|];
    }
  }

  lemma {:induction false} LessConcat(a: Text, b: Text, x: Text, y: Text)
    requires |a| == |b|
    ensures TextLess(a + x, b + y) <==> TextLess(a, b) || (a == b && TextLess(x, y))
    ensures a + x == b + y <==> a == b && x == y
    decreases |a|
  {
    if a == [] {
      assert a + x == x && b + y == y;
    } else {
      assert (a + x)[1..] == a[1..] + x && (b + y)[1..] == b[1..] + y;
      LessConcat(a[1..], b[1..], x, y);
      assert a == [a[0]] + a[1..] && b == [b[0]] + b[1..];
      if a + x == b + y {
        assert a == (a + x)[..|a|] && b == (b + y)[..|a|] && x == (a + x)[|a|..] && y == (b + y)[|a|..];
      }
    }
  }
}
