/** Exact numbers as fractions, and one way of writing and reading them. */
module Numbers {
  import opened Prelude
  import opened Texts

  datatype Ratio = Ratio(p: int, q: int)

  /** A fraction; the same number may be written in several ways. */
  type Number = r: Ratio | r.q > 0 witness Ratio(0, 1)

  lemma Positive(a: int, b: int)
    requires a > 0 && b > 0
    ensures a * b > 0
  {
  }

  function Plus(x: Number, y: Number): Number {
    Positive(x.q, y.q);
    Ratio(x.p * y.q + y.p * x.q, x.q * y.q)
  }

  function Minus(x: Number, y: Number): Number {
    Positive(x.q, y.q);
    Ratio(x.p * y.q - y.p * x.q, x.q * y.q)
  }

  function Times(x: Number, y: Number): Number {
    Positive(x.q, y.q);
    Ratio(x.p * y.p, x.q * y.q)
  }

  function Over(x: Number, y: Number): Number
    requires y.p != 0
  {
    if y.p > 0 then
      Positive(x.q, y.p);
      Ratio(x.p * y.q, x.q * y.p)
    else
      Positive(x.q, -y.p);
      Ratio(-x.p * y.q, x.q * -y.p)
  }

  predicate Below(x: Number, y: Number) { x.p * y.q < y.p * x.q }
  predicate Same(x: Number, y: Number) { x.p * y.q == y.p * x.q }

  // -------------------------------------------------- the numbers they mean

  function Value(x: Number): real { x.p as real / x.q as real }

  lemma Scaled(x: Number)
    ensures Value(x) * x.q as real == x.p as real
  {
  }

  lemma Cancel(a: real, b: real, c: real)
    requires a * c == b * c && c != 0.0
    ensures a == b
  {
  }

  lemma RealProduct(a: int, b: int)
    ensures (a * b) as real == a as real * b as real
  {
  }

  /** Comparing fractions is comparing the numbers. */
  lemma ComparesValues(x: Number, y: Number)
    ensures Below(x, y) <==> Value(x) < Value(y)
    ensures Same(x, y) <==> Value(x) == Value(y)
  {
    var v, w, a, b := Value(x), Value(y), x.q as real, y.q as real;
    Scaled(x);
    Scaled(y);
    RealProduct(x.p, y.q);
    RealProduct(y.p, x.q);
    assert (x.p * y.q) as real == v * (a * b) by { assert v * a * b == v * (a * b); }
    assert (y.p * x.q) as real == w * (a * b) by { assert w * b * a == w * (a * b); }
    assert a * b > 0.0;
    Monotone(v, w, a * b);
  }

  lemma Monotone(v: real, w: real, c: real)
    requires c > 0.0
    ensures v * c < w * c <==> v < w
    ensures v * c == w * c <==> v == w
  {
    if v < w { assert (w - v) * c > 0.0; }
    if w < v { assert (v - w) * c > 0.0; }
  }

  /** The result `z` is the number `u` if its parts are in that proportion. */
  lemma Means(z: Number, u: real)
    requires z.p as real == u * z.q as real
    ensures Value(z) == u
  {
    Scaled(z);
    Cancel(Value(z), u, z.q as real);
  }

  /** Sums, differences and products of fractions are those of the numbers. */
  lemma AddsValues(x: Number, y: Number)
    ensures Value(Plus(x, y)) == Value(x) + Value(y)
    ensures Value(Minus(x, y)) == Value(x) - Value(y)
    ensures Value(Times(x, y)) == Value(x) * Value(y)
  {
    var v, w, a, b := Value(x), Value(y), x.q as real, y.q as real;
    Scaled(x);
    Scaled(y);
    RealProduct(x.p, y.q);
    RealProduct(y.p, x.q);
    RealProduct(x.q, y.q);
    RealProduct(x.p, y.p);
    assert (v * a) * b == v * (a * b) && (w * b) * a == w * (a * b);
    assert (v + w) * (a * b) == v * (a * b) + w * (a * b);
    assert (v - w) * (a * b) == v * (a * b) - w * (a * b);
    assert (v * a) * (w * b) == (v * w) * (a * b);
    Means(Plus(x, y), v + w);
    Means(Minus(x, y), v - w);
    Means(Times(x, y), v * w);
  }

  lemma DividesValues(x: Number, y: Number)
    requires y.p != 0
    ensures Value(y) != 0.0 && Value(Over(x, y)) == Value(x) / Value(y)
  {
    var v, w, z := Value(x), Value(y), Over(x, y);
    Scaled(y);
    assert w != 0.0;
    AddsValues(z, y);
    ComparesValues(Times(z, y), x);
    Undone(x, y);
    assert Value(z) * w == v;
    Cancel(Value(z), v / w, w);
  }

  lemma Undone(x: Number, y: Number)
    requires y.p != 0
    ensures Same(Times(Over(x, y), y), x)
  {
    if y.p > 0 {
      assert (x.p * y.q) * y.p * x.q == x.p * ((x.q * y.p) * y.q);
    } else {
      var m := -y.p;
      assert (-x.p * y.q) * y.p * x.q == x.p * ((x.q * m) * y.q);
    }
  }

  // ------------------------------------------------------- reading, writing

  const MINUS: Byte := 45
  const POINT: Byte := 46
  const SLASH: Byte := 47

  predicate AllDigits(t: Text) {
    forall i :: 0 <= i < |t| ==> 48 <= t[i] <= 57
  }

  function NatOf(t: Text): nat
    requires AllDigits(t)
  {
    if t == [] then 0 else NatOf(t[..|t| - 1]) * 10 + (t[|t| - 1] as int - 48)
  }

  function Find(t: Text, b: Byte): (i: nat)
    ensures i <= |t| && forall j :: 0 <= j < i ==> t[j] != b
    ensures i < |t| ==> t[i] == b
  {
    if t == [] || t[0] == b then 0 else 1 + Find(t[1..], b)
  }

  /** Digits with at most one point among them. */
  function ReadPlain(t: Text): Option<Number> {
    var i := Find(t, POINT);
    var digits := if i < |t| then t[..i] + t[i + 1..] else t;
    if digits == [] || !AllDigits(digits) then None
    else if i < |t| then Some(Ratio(NatOf(digits), PowerAbove(|t| - 1 - i)))
    else Some(Ratio(NatOf(digits), 1))
  }

  function PowerAbove(n: nat): (r: int)
    ensures r > 0
  {
    if n == 0 then 1 else 10 * PowerAbove(n - 1)
  }

  function ReadSigned(t: Text): Option<Number> {
    if t != [] && t[0] == MINUS then
      var r := ReadPlain(t[1..]);
      if r.None? then None else Some(Ratio(-r.value.p, r.value.q))
    else ReadPlain(t)
  }

  /** A decimal number, or a quotient of two. */
  function Read(t: Text): Option<Number> {
    var i := Find(t, SLASH);
    var x := ReadSigned(t[..i]);
    if x.None? || i == |t| then x
    else
      var y := ReadPlain(t[i + 1..]);
      if y.None? || y.value.p == 0 then None else Some(Over(x.value, y.value))
  }

  function Signed(p: int): Text {
    if p < 0 then [MINUS] + Decimal(-p) else Decimal(p)
  }

  function Write(x: Number): Text {
    Signed(x.p) + [SLASH] + Decimal(x.q)
  }

  lemma {:induction false} DecimalBack(n: nat)
    ensures AllDigits(Decimal(n)) && NatOf(Decimal(n)) == n
  {
    if n < 10 {
      assert Decimal(n)[..0] == [];
    } else {
      DecimalBack(n / 10);
      var a := Decimal(n / 10);
      assert Decimal(n)[..|a|] == a;
    }
  }

  lemma {:induction false} FindAbsent(t: Text, b: Byte)
    requires b !in t
    ensures Find(t, b) == |t|
  {
    if t != [] { FindAbsent(t[1..], b); }
  }

  lemma {:induction false} FindBehind(t: Text, b: Byte, u: Text)
    requires b !in t
    ensures Find(t + [b] + u, b) == |t|
  {
    if t == [] {
      assert (t + [b] + u)[0] == b;
    } else {
      assert (t + [b] + u)[1..] == t[1..] + [b] + u;
      FindBehind(t[1..], b, u);
    }
  }

  lemma ReadPlainBack(n: nat)
    ensures ReadPlain(Decimal(n)) == Some(Ratio(n, 1)) && MINUS !in Decimal(n) && SLASH !in Decimal(n)
  {
    DecimalBack(n);
    FindAbsent(Decimal(n), POINT);
  }

  lemma TenTimes(x: int, y: int, z: int)
    ensures (x * y + z) * 10 == x * (10 * y) + z * 10
  {
  }

  lemma {:induction false} NatOfJoined(a: Text, b: Text)
    requires AllDigits(a) && AllDigits(b)
    ensures AllDigits(a + b) && NatOf(a + b) == NatOf(a) * PowerAbove(|b|) + NatOf(b)
    decreases |b|
  {
    if b == [] {
      assert a + b == a;
    } else {
      var n := |b| - 1;
      assert (a + b)[..|a + b| - 1] == a + b[..n];
      NatOfJoined(a, b[..n]);
      TenTimes(NatOf(a), PowerAbove(n), NatOf(b[..n]));
    }
  }

  lemma Cut(a: Text, b: Text)
    ensures var t := a + [POINT] + b; t[..|a|] + t[|a| + 1..] == a + b && |t| - 1 - |a| == |b| && t[..|t|] == t
    ensures (a + [POINT] + b)[0] == if a == [] then POINT else a[0]
  {
  }

  lemma PlainAt(t: Text, i: nat, digits: Text, k: nat)
    requires Find(t, POINT) == i < |t| && digits == t[..i] + t[i + 1..] && digits != [] && AllDigits(digits) && k == |t| - 1 - i
    ensures ReadPlain(t) == Some(Ratio(NatOf(digits), PowerAbove(k)))
  {
  }

  lemma ReadPointed(a: Text, b: Text, t: Text)
    requires AllDigits(a + b) && POINT !in a && a + b != [] && t == a + [POINT] + b
    ensures ReadPlain(t) == Some(Ratio(NatOf(a + b), PowerAbove(|b|)))
  {
    FindBehind(a, POINT, b);
    Cut(a, b);
    PlainAt(t, |a|, a + b, |b|);
  }

  lemma ReadUnsigned(t: Text)
    requires SLASH !in t && t != [] && t[0] != MINUS
    ensures Read(t) == ReadPlain(t)
  {
    FindAbsent(t, SLASH);
    assert t[..|t|] == t;
  }

  /** Digits with a point among them: those behind it are tenths, hundredths and so on. */
  lemma ReadDecimal(a: Text, b: Text, t: Text)
    requires AllDigits(a) && AllDigits(b) && a + b != [] && t == a + [POINT] + b
    ensures AllDigits(a + b) && Read(t) == Some(Ratio(NatOf(a + b), PowerAbove(|b|)))
    ensures NatOf(a + b) == NatOf(a) * PowerAbove(|b|) + NatOf(b)
  {
    NatOfJoined(a, b);
    PointedText(a, b, t);
  }

  lemma PointedText(a: Text, b: Text, t: Text)
    requires AllDigits(a) && AllDigits(b) && AllDigits(a + b) && a + b != [] && t == a + [POINT] + b
    ensures Read(t) == Some(Ratio(NatOf(a + b), PowerAbove(|b|)))
  {
    ReadPointed(a, b, t);
    Cut(a, b);
    assert SLASH !in a && SLASH !in b;
    ReadUnsigned(t);
  }

  lemma ReadSignedBack(p: int)
    ensures ReadSigned(Signed(p)) == Some(Ratio(p, 1)) && SLASH !in Signed(p)
  {
    if p < 0 {
      ReadPlainBack(-p);
      MinusBack(Decimal(-p), -p);
    } else {
      ReadPlainBack(p);
      PlusBack(Decimal(p), p);
    }
  }

  lemma MinusBack(t: Text, n: int)
    requires ReadPlain(t) == Some(Ratio(n, 1)) && SLASH !in t
    ensures ReadSigned([MINUS] + t) == Some(Ratio(-n, 1)) && SLASH !in [MINUS] + t
  {
    ReadsMinus(t);
  }

  lemma PlusBack(t: Text, n: int)
    requires ReadPlain(t) == Some(Ratio(n, 1)) && MINUS !in t
    ensures ReadSigned(t) == Some(Ratio(n, 1))
  {
    if t != [] { assert t[0] in t; }
  }

  lemma ReadsMinus(t: Text)
    ensures ReadSigned([MINUS] + t)
         == if ReadPlain(t).None? then None else Some(Ratio(-ReadPlain(t).value.p, ReadPlain(t).value.q))
  {
    assert ([MINUS] + t)[1..] == t;
  }

  /** What is written is read back. */
  lemma ReadBack(x: Number)
    ensures Read(Write(x)) == Some(x)
  {
    var s, d := Signed(x.p), Decimal(x.q);
    ReadSignedBack(x.p);
    ReadPlainBack(x.q);
    FindBehind(s, SLASH, d);
    assert Write(x)[..|s|] == s && Write(x)[|s| + 1..] == d;
    assert Over(Ratio(x.p, 1), Ratio(x.q, 1)) == x;
  }
}
