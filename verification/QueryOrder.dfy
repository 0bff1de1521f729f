/** The result of SELECT: a multimap from order keys to output lines. */
module QueryOrder {
  import opened Prelude
  import opened Texts
  import opened Numbers
  import opened QueryMeaning
  import opened QueryPlan

  const KEY_WIDTH: nat := 20

  /** The key of a line without ORDER BY: how many there were before it. */
  function CountKey(n: nat): Text { PadLeft(Decimal(n), KEY_WIDTH) }

  datatype Entry = Entry(key: Text, line: seq<Text>)

  /** Behind every entry whose key is not greater. */
  function Insert(out: seq<Entry>, e: Entry): (r: seq<Entry>)
    ensures |r| == |out| + 1
  {
    if out == [] || !TextLess(e.key, out[|out| - 1].key) then out + [e]
    else Insert(out[..|out| - 1], e) + [out[|out| - 1]]
  }

  function KeyOf(cols: seq<KeyColumn>, em: Emission, count: nat): Text {
    if cols == [] then CountKey(count) else OrderKey(cols, em.keys)
  }

  /** The multimap after lines have been put into it one by one. */
  function Output(cols: seq<KeyColumn>, ems: seq<Emission>): (r: seq<Entry>)
    ensures |r| == |ems|
  {
    if ems == [] then []
    else
      var n := |ems| - 1;
      Insert(Output(cols, ems[..n]), Entry(KeyOf(cols, ems[n], n), ems[n].line))
  }

  // ------------------------------------------------------------- stable sort

  /** Entry `i` was put as number `from[i]`. */
  predicate Rearranged(cols: seq<KeyColumn>, ems: seq<Emission>, out: seq<Entry>, from: seq<nat>) {
    |out| == |from| == |ems|
    && forall i :: 0 <= i < |from| ==>
         from[i] < |ems| && out[i] == Entry(KeyOf(cols, ems[from[i]], from[i]), ems[from[i]].line)
  }

  /** By key, and entries of one key as they came. */
  predicate Stable(out: seq<Entry>, from: seq<nat>) {
    |out| == |from|
    && forall i, j :: 0 <= i < j < |out| ==>
         TextLess(out[i].key, out[j].key) || (out[i].key == out[j].key && from[i] < from[j])
  }

  /** Where an entry is put: behind all keys that are not greater, in front of the others. */
  lemma {:induction false} InsertPlace(out: seq<Entry>, e: Entry) returns (p: nat)
    ensures p <= |out| && Insert(out, e) == out[..p] + [e] + out[p..]
    ensures p > 0 ==> !TextLess(e.key, out[p - 1].key)
    ensures forall i :: p <= i < |out| ==> TextLess(e.key, out[i].key)
    decreases |out|
  {
    if out == [] || !TextLess(e.key, out[|out| - 1].key) {
      p := |out|;
      assert out[..p] == out && out[p..] == [];
    } else {
      var n := |out| - 1;
      p := InsertPlace(out[..n], e);
      assert out[..n][..p] == out[..p] && out[..n][p..] + [out[n]] == out[p..];
    }
  }

  /** Keys in front of the place are not greater. */
  lemma NotGreater(out: seq<Entry>, from: seq<nat>, e: Entry, p: nat, i: nat)
    requires Stable(out, from) && i < p <= |out| && !TextLess(e.key, out[p - 1].key)
    ensures TextLess(out[i].key, e.key) || out[i].key == e.key
  {
    if i < p - 1 {
      assert TextLess(out[i].key, out[p - 1].key) || out[i].key == out[p - 1].key;
      if TextLess(out[i].key, out[p - 1].key) { LessAsymmetric(out[i].key, out[p - 1].key); }
      LessTransitive(out[i].key, out[p - 1].key, e.key);
    }
    TextTrichotomy(out[i].key, e.key);
  }

  function PutAt<T>(s: seq<T>, p: nat, x: T): (r: seq<T>)
    requires p <= |s|
    ensures |r| == |s| + 1 && r[p] == x
    ensures forall i :: 0 <= i < p ==> r[i] == s[i]
    ensures forall i :: p < i < |r| ==> r[i] == s[i - 1]
  {
    s[..p] + [x] + s[p..]
  }

  lemma PutStable(out: seq<Entry>, from: seq<nat>, e: Entry, n: nat, p: nat)
    requires Stable(out, from) && p <= |out| && forall i :: 0 <= i < |from| ==> from[i] < n
    requires p > 0 ==> !TextLess(e.key, out[p - 1].key)
    requires forall i :: p <= i < |out| ==> TextLess(e.key, out[i].key)
    ensures Stable(PutAt(out, p, e), PutAt(from, p, n))
  {
    var out', from' := PutAt(out, p, e), PutAt(from, p, n);
    forall i, j | 0 <= i < j < |out'|
      ensures TextLess(out'[i].key, out'[j].key) || (out'[i].key == out'[j].key && from'[i] < from'[j])
    {
      if j == p { NotGreater(out, from, e, p, i); }
    }
  }

  lemma PutRearranged(cols: seq<KeyColumn>, ems: seq<Emission>, out: seq<Entry>, from: seq<nat>, p: nat)
    requires ems != [] && p <= |out| && Rearranged(cols, ems[..|ems| - 1], out, from)
    ensures var n := |ems| - 1;
            Rearranged(cols, ems, PutAt(out, p, Entry(KeyOf(cols, ems[n], n), ems[n].line)), PutAt(from, p, n))
  {
  }

  /**
   The result is a stable sort: the lines that were put, by their keys, those with
   equal keys in their order of arrival.
   */
  lemma {:induction false} OutputIsStableSort(cols: seq<KeyColumn>, ems: seq<Emission>) returns (from: seq<nat>)
    ensures Rearranged(cols, ems, Output(cols, ems), from) && Stable(Output(cols, ems), from)
    decreases |ems|
  {
    if ems == [] {
      from := [];
    } else {
      var n := |ems| - 1;
      var e := Entry(KeyOf(cols, ems[n], n), ems[n].line);
      var out := Output(cols, ems[..n]);
      var before := OutputIsStableSort(cols, ems[..n]);
      var p := InsertPlace(out, e);
      PutStable(out, before, e, n, p);
      PutRearranged(cols, ems, out, before, p);
      from := PutAt(before, p, n);
      assert Output(cols, ems) == PutAt(out, p, e);
    }
  }

  // --------------------------------------------------------- ORDER BY values

  /** What fits its column: at most so many bytes, and digits if the column is INT; null has no bytes. */
  predicate ColumnFits(c: KeyColumn, t: Text) {
    |t| <= c.size && (c.IntKey? ==> AllDigits(t))
  }

  function ByteAt(t: Text, i: nat): Byte { if i < |t| then t[i] else 32 }

  predicate SameTo(a: Text, b: Text, n: nat) {
    forall i :: 0 <= i < n ==> ByteAt(a, i) == ByteAt(b, i)
  }

  predicate PaddedSmaller(a: Text, b: Text, i: nat) { SameTo(a, b, i) && ByteAt(a, i) < ByteAt(b, i) }

  /** INT values count as numbers, others as texts that are filled up with spaces. */
  ghost predicate ColumnBefore(c: KeyColumn, a: Text, b: Text)
    requires ColumnFits(c, a) && ColumnFits(c, b)
  {
    if c.IntKey? then NatOf(a) < NatOf(b) else exists i: nat :: i < c.size && PaddedSmaller(a, b, i)
  }

  predicate ColumnSame(c: KeyColumn, a: Text, b: Text)
    requires ColumnFits(c, a) && ColumnFits(c, b)
  {
    if c.IntKey? then NatOf(a) == NatOf(b) else SameTo(a, b, c.size)
  }

  predicate TupleFits(cols: seq<KeyColumn>, ts: seq<Text>) {
    |cols| == |ts| && forall c :: 0 <= c < |cols| ==> ColumnFits(cols[c], ts[c])
  }

  /** The columns in front of `c` are the same. */
  predicate SameColumns(cols: seq<KeyColumn>, s: seq<Text>, t: seq<Text>, c: nat)
    requires TupleFits(cols, s) && TupleFits(cols, t) && c <= |cols|
  {
    forall d :: 0 <= d < c ==> ColumnSame(cols[d], s[d], t[d])
  }

  /** The first column that is not the same decides. */
  ghost predicate TupleBefore(cols: seq<KeyColumn>, s: seq<Text>, t: seq<Text>)
    requires TupleFits(cols, s) && TupleFits(cols, t)
  {
    exists c: nat :: c < |cols| && SameColumns(cols, s, t, c) && ColumnBefore(cols[c], s[c], t[c])
  }

  // ---------------------------------------------------- keys order as values

  lemma {:induction false} NatOfFill(n: nat)
    ensures AllDigits(Fill(ZERO, n)) && NatOf(Fill(ZERO, n)) == 0
  {
    if n > 0 {
      FillSnoc(ZERO, n - 1);
      NatOfFill(n - 1);
      var t := Fill(ZERO, n);
      assert t[..n - 1] == Fill(ZERO, n - 1) && t[n - 1] == ZERO;
    }
  }

  lemma {:induction false} NatOfPadded(a: Text, t: Text)
    requires AllDigits(a) && NatOf(a) == 0 && AllDigits(t)
    ensures AllDigits(a + t) && NatOf(a + t) == NatOf(t)
    decreases |t|
  {
    if t == [] {
      assert a + t == a;
    } else {
      var n := |t| - 1;
      assert (a + t)[..|a + t| - 1] == a + t[..n];
      NatOfPadded(a, t[..n]);
    }
  }

  /** Digits of one length are ordered as the numbers they spell. */
  lemma {:induction false} DigitTexts(a: Text, b: Text)
    requires AllDigits(a) && AllDigits(b) && |a| == |b|
    ensures TextLess(a, b) <==> NatOf(a) < NatOf(b)
    ensures a == b <==> NatOf(a) == NatOf(b)
    decreases |a|
  {
    if a != [] {
      var n := |a| - 1;
      DigitTexts(a[..n], b[..n]);
      LessSnoc(a[..n], b[..n], a[n], b[n]);
      assert a == a[..n] + [a[n]] && b == b[..n] + [b[n]];
    }
  }

  lemma IntKeyOrder(size: nat, a: Text, b: Text)
    requires ColumnFits(IntKey(size), a) && ColumnFits(IntKey(size), b)
    ensures var x, y := PadLeft(a, size), PadLeft(b, size);
            |x| == |y| == size && (TextLess(x, y) <==> NatOf(a) < NatOf(b)) && (x == y <==> NatOf(a) == NatOf(b))
  {
    NatOfFill(size - |a|);
    NatOfFill(size - |b|);
    NatOfPadded(Fill(ZERO, size - |a|), a);
    NatOfPadded(Fill(ZERO, size - |b|), b);
    DigitTexts(PadLeft(a, size), PadLeft(b, size));
  }

  lemma {:induction false} FillAt(b: Byte, n: nat, i: nat)
    requires i < n
    ensures Fill(b, n)[i] == b
  {
    if i > 0 { FillAt(b, n - 1, i - 1); }
  }

  lemma PaddedByte(t: Text, size: nat, i: nat)
    requires i < size && |t| <= size
    ensures |PadRight(t, size)| == size && PadRight(t, size)[i] == ByteAt(t, i)
  {
    if i >= |t| { FillAt(SPACE, size - |t|, i - |t|); }
  }

  lemma TextKeyOrder(size: nat, a: Text, b: Text)
    requires |a| <= size && |b| <= size
    ensures var x, y := PadRight(a, size), PadRight(b, size);
            |x| == |y| == size && (x == y <==> SameTo(a, b, size))
            && (TextLess(x, y) <==> exists i: nat :: i < size && PaddedSmaller(a, b, i))
  {
    var x, y := PadRight(a, size), PadRight(b, size);
    assert |x| == |y| == size;
    forall i: nat | i < size ensures x[i] == ByteAt(a, i) && y[i] == ByteAt(b, i) {
      PaddedByte(a, size, i);
      PaddedByte(b, size, i);
    }
    TextOrder(x, y);
    if TextLess(x, y) {
      var i: nat :| SmallerAt(x, y, i);
      forall j | 0 <= j < i ensures ByteAt(a, j) == ByteAt(b, j) { assert x[..i][j] == y[..i][j]; }
      assert PaddedSmaller(a, b, i);
    }
    if i: nat :| i < size && PaddedSmaller(a, b, i) {
      assert x[..i] == y[..i];
      assert SmallerAt(x, y, i);
    }
  }

  lemma ColumnKeyOrder(c: KeyColumn, a: Text, b: Text)
    requires ColumnFits(c, a) && ColumnFits(c, b)
    ensures |ColumnKey(c, a)| == |ColumnKey(c, b)| == c.size
    ensures TextLess(ColumnKey(c, a), ColumnKey(c, b)) <==> ColumnBefore(c, a, b)
    ensures ColumnKey(c, a) == ColumnKey(c, b) <==> ColumnSame(c, a, b)
  {
    match c
    case IntKey(size) => IntKeyOrder(size, a, b);
    case TextKey(size) => TextKeyOrder(size, a, b);
  }

  /** Keys are ordered as the values they are made of. */
  lemma {:induction false} TupleKeyOrder(cols: seq<KeyColumn>, s: seq<Text>, t: seq<Text>)
    requires TupleFits(cols, s) && TupleFits(cols, t)
    ensures TextLess(OrderKey(cols, s), OrderKey(cols, t)) <==> TupleBefore(cols, s, t)
    ensures OrderKey(cols, s) == OrderKey(cols, t) <==> SameColumns(cols, s, t, |cols|)
    decreases |cols|
  {
    if cols != [] {
      var c, s', t' := cols[1..], s[1..], t[1..];
      assert ColumnFits(cols[0], s[0]) && ColumnFits(cols[0], t[0]);
      assert TupleFits(c, s') && TupleFits(c, t') by {
        forall d | 0 <= d < |c| ensures ColumnFits(c[d], s'[d]) && ColumnFits(c[d], t'[d]) {
          assert ColumnFits(cols[d + 1], s[d + 1]) && ColumnFits(cols[d + 1], t[d + 1]);
        }
      }
      TupleKeyOrder(c, s', t');
      ColumnKeyOrder(cols[0], s[0], t[0]);
      LessConcat(ColumnKey(cols[0], s[0]), ColumnKey(cols[0], t[0]), OrderKey(c, s'), OrderKey(c, t'));
      FirstColumn(cols, s, t);
    }
  }

  lemma FirstColumn(cols: seq<KeyColumn>, s: seq<Text>, t: seq<Text>)
    requires cols != [] && TupleFits(cols, s) && TupleFits(cols, t) && TupleFits(cols[1..], s[1..]) && TupleFits(cols[1..], t[1..])
    ensures SameColumns(cols, s, t, |cols|)
       <==> ColumnSame(cols[0], s[0], t[0]) && SameColumns(cols[1..], s[1..], t[1..], |cols| - 1)
    ensures TupleBefore(cols, s, t)
       <==> ColumnBefore(cols[0], s[0], t[0]) || (ColumnSame(cols[0], s[0], t[0]) && TupleBefore(cols[1..], s[1..], t[1..]))
  {
    forall c: nat | c < |cols|
      ensures SameColumns(cols, s, t, c + 1)
         <==> ColumnSame(cols[0], s[0], t[0]) && SameColumns(cols[1..], s[1..], t[1..], c)
    {
      assert forall d :: 0 <= d < c ==> cols[1..][d] == cols[d + 1] && s[1..][d] == s[d + 1] && t[1..][d] == t[d + 1];
      if ColumnSame(cols[0], s[0], t[0]) && SameColumns(cols[1..], s[1..], t[1..], c) {
        forall d | 0 <= d < c + 1 ensures ColumnSame(cols[d], s[d], t[d]) {
          if d > 0 { assert ColumnSame(cols[1..][d - 1], s[1..][d - 1], t[1..][d - 1]); }
        }
      }
    }
    if ColumnBefore(cols[0], s[0], t[0]) { assert SameColumns(cols, s, t, 0); }
    if ColumnSame(cols[0], s[0], t[0]) && TupleBefore(cols[1..], s[1..], t[1..]) {
      var c: nat :| c < |cols| - 1 && SameColumns(cols[1..], s[1..], t[1..], c) && ColumnBefore(cols[1..][c], s[1..][c], t[1..][c]);
      assert SameColumns(cols, s, t, c + 1);
    }
    if TupleBefore(cols, s, t) {
      var c: nat :| c < |cols| && SameColumns(cols, s, t, c) && ColumnBefore(cols[c], s[c], t[c]);
      if c > 0 { assert SameColumns(cols, s, t, (c - 1) + 1); }
    }
  }

  // ------------------------------------------------ the result, by its values

  predicate AllFit(cols: seq<KeyColumn>, ems: seq<Emission>) {
    forall i :: 0 <= i < |ems| ==> TupleFits(cols, ems[i].keys)
  }

  /**
   Line `i` is the one that came as number `from[i]`; lines are ordered by the values of their
   ORDER BY columns, and those with the same values as they came.
   */
  ghost predicate Ranks(cols: seq<KeyColumn>, ems: seq<Emission>, out: seq<Entry>, from: seq<nat>)
    requires AllFit(cols, ems)
  {
    |out| == |from| == |ems|
    && (forall i :: 0 <= i < |from| ==> from[i] < |ems| && out[i].line == ems[from[i]].line)
    && (forall i, j :: 0 <= i < j < |from| ==> InTurn(cols, ems, from[i], from[j]))
  }

  ghost predicate InTurn(cols: seq<KeyColumn>, ems: seq<Emission>, a: nat, b: nat)
    requires AllFit(cols, ems) && a < |ems| && b < |ems|
  {
    TupleBefore(cols, ems[a].keys, ems[b].keys) || (SameColumns(cols, ems[a].keys, ems[b].keys, |cols|) && a < b)
  }

  ghost predicate Ranked(cols: seq<KeyColumn>, ems: seq<Emission>, out: seq<Entry>)
    requires AllFit(cols, ems)
  {
    exists from: seq<nat> :: Ranks(cols, ems, out, from)
  }

  /** Ranked, if the values fit their columns; without ORDER BY, for up to 10^20 lines. */
  ghost predicate InOrder(cols: seq<KeyColumn>, ems: seq<Emission>, out: seq<Entry>) {
    AllFit(cols, ems) && (cols == [] ==> |ems| <= 100_000_000_000_000_000_000) ==> Ranked(cols, ems, out)
  }

  /** Counter keys are ordered as their numbers, for up to 10^20 of them. */
  lemma CountKeyOrder(m: nat, n: nat)
    requires m < 100_000_000_000_000_000_000 && n < 100_000_000_000_000_000_000
    ensures TextLess(CountKey(m), CountKey(n)) <==> m < n
    ensures CountKey(m) == CountKey(n) <==> m == n
  {
    assert Power(KEY_WIDTH) == 100_000_000_000_000_000_000 by {
      assert Power(10) == 10_000_000_000 by { assert Power(5) == 100_000; }
      assert Power(15) == 1_000_000_000_000_000;
    }
    PaddedDigits(m, KEY_WIDTH);
    PaddedDigits(n, KEY_WIDTH);
    DigitsOrder(m, n, KEY_WIDTH);
  }

  /** Whatever the lines: sorted by the values of the ORDER BY columns, without any in the order of the scan. */
  lemma OutputIsRanked(cols: seq<KeyColumn>, ems: seq<Emission>)
    ensures InOrder(cols, ems, Output(cols, ems))
  {
    if AllFit(cols, ems) && (cols == [] ==> |ems| <= 100_000_000_000_000_000_000) { FittingRanked(cols, ems); }
  }

  lemma FittingRanked(cols: seq<KeyColumn>, ems: seq<Emission>)
    requires AllFit(cols, ems) && (cols == [] ==> |ems| <= 100_000_000_000_000_000_000)
    ensures Ranked(cols, ems, Output(cols, ems))
  {
    var out := Output(cols, ems);
    var from := OutputIsStableSort(cols, ems);
    forall i, j | 0 <= i < j < |from| ensures InTurn(cols, ems, from[i], from[j]) {
      var a, b := from[i], from[j];
      assert out[i].key == KeyOf(cols, ems[a], a) && out[j].key == KeyOf(cols, ems[b], b);
      assert TupleFits(cols, ems[a].keys) && TupleFits(cols, ems[b].keys);
      if cols == [] { CountKeyOrder(a, b); } else { TupleKeyOrder(cols, ems[a].keys, ems[b].keys); }
    }
    assert Ranks(cols, ems, out, from);
  }

  /** Without ORDER BY the result is the lines in scan order. */
  lemma {:induction false} ScanOrder(ems: seq<Emission>, i: nat)
    requires |ems| <= 100_000_000_000_000_000_000 && i < |ems|
    ensures Output([], ems)[i].line == ems[i].line
    decreases |ems|
  {
    var n := |ems| - 1;
    LastBehind(ems);
    if i < n { ScanOrder(ems[..n], i); }
  }

  lemma {:induction false} LastBehind(ems: seq<Emission>)
    requires 0 < |ems| <= 100_000_000_000_000_000_000
    ensures var n := |ems| - 1; Output([], ems) == Output([], ems[..n]) + [Entry(CountKey(n), ems[n].line)]
    decreases |ems|
  {
    var n := |ems| - 1;
    if n > 0 {
      LastBehind(ems[..n]);
      CountKeyOrder(n, n - 1);
    }
  }

  // --------------------------------------------------------- negative numbers

  /** Zeros and a minus sign come before any digits of the same length. */
  lemma {:induction false} SignFirst(k: nat, u: Text, v: Text)
    requires AllDigits(v) && |v| == k + 1 + |u|
    ensures var t := Fill(ZERO, k) + [MINUS] + u; TextLess(t, v) && !TextLess(v, t)
  {
    var t := Fill(ZERO, k) + [MINUS] + u;
    if k > 0 {
      SignFirst(k - 1, u, v[1..]);
      assert t[1..] == Fill(ZERO, k - 1) + [MINUS] + u;
    }
  }

  lemma {:induction false} LongerIsGreater(m: nat, n: nat)
    requires |Decimal(m)| < |Decimal(n)|
    ensures m < n
  {
    if m >= 10 && n >= 10 { LongerIsGreater(m / 10, n / 10); }
  }

  lemma EqualLength(m: nat, n: nat)
    requires |Decimal(m)| == |Decimal(n)|
    ensures TextLess(Decimal(m), Decimal(n)) <==> m < n
  {
    DecimalBack(m);
    DecimalBack(n);
    DigitTexts(Decimal(m), Decimal(n));
  }

  lemma SameZeros(a: Text, m: nat, n: nat)
    requires |Decimal(m)| == |Decimal(n)|
    ensures TextLess(a + Decimal(m), a + Decimal(n)) <==> m < n
  {
    LessConcat(a, a, Decimal(m), Decimal(n));
    LessIrreflexive(a);
    EqualLength(m, n);
  }

  lemma NegativeKey(p: int, size: nat)
    requires p < 0 && |Signed(p)| <= size
    ensures PadLeft(Signed(p), size) == Fill(ZERO, size - |Signed(p)|) + [MINUS] + Decimal(-p)
  {
    assert Fill(ZERO, size - |Signed(p)|) + ([MINUS] + Decimal(-p)) == Fill(ZERO, size - |Signed(p)|) + [MINUS] + Decimal(-p);
  }

  lemma PaddedDecimal(q: nat, size: nat)
    requires |Signed(q)| <= size
    ensures AllDigits(PadLeft(Signed(q), size)) && |PadLeft(Signed(q), size)| == size
  {
    DecimalBack(q);
    NatOfFill(size - |Decimal(q)|);
    NatOfPadded(Fill(ZERO, size - |Decimal(q)|), Decimal(q));
  }

  lemma NegativeFirst(p: int, q: int, size: nat)
    requires p < 0 <= q && |Signed(p)| <= size && |Signed(q)| <= size
    ensures var x, y := PadLeft(Signed(p), size), PadLeft(Signed(q), size); TextLess(x, y) && !TextLess(y, x)
  {
    NegativeKey(p, size);
    PaddedDecimal(q, size);
    SignFirst(size - |Signed(p)|, Decimal(-p), PadLeft(Signed(q), size));
  }

  lemma {:induction false} MoreZeros(k: nat, m: nat, u: Text, v: Text)
    requires k < m && k + |u| == m + |v|
    ensures var s, t := Fill(ZERO, k) + [MINUS] + u, Fill(ZERO, m) + [MINUS] + v; TextLess(s, t) && !TextLess(t, s)
  {
    if k > 0 {
      MoreZeros(k - 1, m - 1, u, v);
      assert (Fill(ZERO, k) + [MINUS] + u)[1..] == Fill(ZERO, k - 1) + [MINUS] + u;
      assert (Fill(ZERO, m) + [MINUS] + v)[1..] == Fill(ZERO, m - 1) + [MINUS] + v;
    }
  }

  lemma BothNegative(p: int, q: int, size: nat)
    requires p < 0 && q < 0 && |Signed(p)| <= size && |Signed(q)| <= size
    ensures TextLess(PadLeft(Signed(p), size), PadLeft(Signed(q), size))
       <==> if |Signed(p)| == |Signed(q)| then q < p else p < q
  {
    var k, m, u, v := size - |Signed(p)|, size - |Signed(q)|, Decimal(-p), Decimal(-q);
    assert |Signed(p)| == 1 + |u| && |Signed(q)| == 1 + |v|;
    NegativeKey(p, size);
    NegativeKey(q, size);
    if k < m {
      MoreZeros(k, m, u, v);
      LongerIsGreater(-q, -p);
    } else if m < k {
      MoreZeros(m, k, v, u);
      LongerIsGreater(-p, -q);
    } else {
      SameZeros(Fill(ZERO, k) + [MINUS], -p, -q);
    }
  }

  /** INT columns are ordered as numbers except for different negative ones with equally many digits. */
  lemma SignedKeysIff(p: int, q: int, size: nat)
    requires |Signed(p)| <= size && |Signed(q)| <= size
    ensures (TextLess(ColumnKey(IntKey(size), Signed(p)), ColumnKey(IntKey(size), Signed(q))) <==> p < q)
       <==> !(p < 0 && q < 0 && p != q && |Signed(p)| == |Signed(q)|)
  {
    if p < 0 && q < 0 {
      BothNegative(p, q, size);
    } else if p < 0 {
      NegativeFirst(p, q, size);
    } else if q < 0 {
      NegativeFirst(q, p, size);
    } else {
      DecimalBack(p);
      DecimalBack(q);
      IntKeyOrder(size, Signed(p), Signed(q));
    }
  }

  /** ORDER BY an INT column over -2 and -1 shows -1 first. */
  lemma NegativesTurned(size: nat)
    requires size >= 2
    ensures var two, one := [MINUS, 50], [MINUS, 49];
            var out := Output([IntKey(size)], [Emission([two], [two]), Emission([one], [one])]);
            out[0].line == [one] && out[1].line == [two]
  {
    var two: Text, one: Text := [MINUS, 50], [MINUS, 49];
    var cols, ems := [IntKey(size)], [Emission([two], [two]), Emission([one], [one])];
    assert Signed(-2) == two && Signed(-1) == one;
    BothNegative(-2, -1, size);
    BothNegative(-1, -2, size);
    OneColumn(IntKey(size), one);
    OneColumn(IntKey(size), two);
    assert ems[..1] == [ems[0]] && [ems[0]][..0] == [];
    var a, b := Entry(ColumnKey(IntKey(size), two), [two]), Entry(ColumnKey(IntKey(size), one), [one]);
    assert Output(cols, [ems[0]]) == Insert([], a);
    assert [a][..0] == [];
    assert Output(cols, ems) == Insert([a], b);
  }

  lemma OneColumn(c: KeyColumn, t: Text)
    ensures OrderKey([c], [t]) == ColumnKey(c, t)
  {
    assert [c][1..] == [] && [t][1..] == [];
    assert OrderKey([], []) == [] && ColumnKey(c, t) + [] == ColumnKey(c, t);
  }
}
