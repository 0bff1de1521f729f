/**
 Keys as bytes and keys as numbers: big-endian numerals of one length are ordered
 like their bytes, and an index key is ordered like the columns it is made of.
 */
module KeyOrder {
  import opened Prelude
  import opened Texts

  // ------------------------------------------------------ big-endian numbers

  function Base(w: nat): nat { if w == 0 then 1 else 256 * Base(w - 1) }

  /** The number that bytes spell, most significant first. */
  function Unsigned(t: Text): nat {
    if t == [] then 0 else Unsigned(t[..|t| - 1]) * 256 + t[|t| - 1]
  }

  /** The `w` bytes that spell a number. */
  function Bytes(u: nat, w: nat): (r: Text)
    ensures |r| == w
  {
    if w == 0 then [] else Bytes(u / 256, w - 1) + [u % 256]
  }

  lemma {:induction false} BytesBack(u: nat, w: nat)
    requires u < Base(w)
    ensures Unsigned(Bytes(u, w)) == u
    decreases w
  {
    if w > 0 {
      assert Base(w) == 256 * Base(w - 1);
      BytesBack(u / 256, w - 1);
      assert Bytes(u, w)[..w - 1] == Bytes(u / 256, w - 1);
    }
  }

  lemma {:induction false} UnsignedBack(t: Text)
    ensures Unsigned(t) < Base(|t|) && Bytes(Unsigned(t), |t|) == t
    decreases |t|
  {
    if t != [] {
      var n := |t| - 1;
      UnsignedBack(t[..n]);
      assert Base(|t|) == 256 * Base(n);
      assert Unsigned(t) / 256 == Unsigned(t[..n]) && Unsigned(t) % 256 == t[n] as int;
      assert t == t[..n] + [t[n]];
    }
  }

  /** Comparing keys of one length byte by byte is comparing the numbers they spell. */
  lemma {:induction false} BytesOrder(a: Text, b: Text)
    requires |a| == |b|
    ensures TextLess(a, b) <==> Unsigned(a) < Unsigned(b)
    ensures a == b <==> Unsigned(a) == Unsigned(b)
    decreases |a|
  {
    if a != [] {
      var n := |a| - 1;
      BytesOrder(a[..n], b[..n]);
      LessSnoc(a[..n], b[..n], a[n], b[n]);
      assert a == a[..n] + [a[n]] && b == b[..n] + [b[n]];
      LastByte(a, b, n);
    }
  }

  lemma LastByte(a: Text, b: Text, n: nat)
    requires |a| == |b| == n + 1 && (a[..n] == b[..n] <==> Unsigned(a[..n]) == Unsigned(b[..n]))
    ensures a == b <==> Unsigned(a) == Unsigned(b)
    ensures Unsigned(a) < Unsigned(b) <==>
              Unsigned(a[..n]) < Unsigned(b[..n]) || (Unsigned(a[..n]) == Unsigned(b[..n]) && a[n] < b[n])
  {
    assert a == a[..n] + [a[n]] && b == b[..n] + [b[n]];
    assert Unsigned(a) == Unsigned(a[..n]) * 256 + a[n] as int && Unsigned(b) == Unsigned(b[..n]) * 256 + b[n] as int;
  }

  // ------------------------------------------------------------- column keys

  /** A value of an indexed column: a non-negative number, or a text. */
  datatype Value = Number(n: nat) | Word(t: Text)

  function Written(v: Value): Text {
    match v
    case Number(n) => Decimal(n)
    case Word(t) => t
  }

  /** The value is of the column's type and finds room. */
  predicate Suits(c: KeyColumn, v: Value) {
    match c
    case IntKey(size) => v.Number? && size > 0 && v.n < Power(size)
    case TextKey(size) => v.Word? && |v.t| <= size
  }

  predicate AllSuit(cols: seq<KeyColumn>, vs: seq<Value>) {
    |cols| == |vs| && forall i :: 0 <= i < |cols| ==> Suits(cols[i], vs[i])
  }

  /** Numbers compare as numbers, texts as if filled up with spaces. */
  predicate ValueLess(c: KeyColumn, v: Value, w: Value)
    requires Suits(c, v) && Suits(c, w)
  {
    match c
    case IntKey(_) => v.n < w.n
    case TextKey(size) => TextLess(PadRight(v.t, size), PadRight(w.t, size))
  }

  predicate ValueSame(c: KeyColumn, v: Value, w: Value)
    requires Suits(c, v) && Suits(c, w)
  {
    match c
    case IntKey(_) => v.n == w.n
    case TextKey(size) => PadRight(v.t, size) == PadRight(w.t, size)
  }

  /** Column by column. */
  predicate TupleLess(cols: seq<KeyColumn>, vs: seq<Value>, ws: seq<Value>)
    requires AllSuit(cols, vs) && AllSuit(cols, ws)
  {
    cols != []
    && (ValueLess(cols[0], vs[0], ws[0])
        || (ValueSame(cols[0], vs[0], ws[0]) && TupleLess(cols[1..], vs[1..], ws[1..])))
  }

  predicate TupleSame(cols: seq<KeyColumn>, vs: seq<Value>, ws: seq<Value>)
    requires AllSuit(cols, vs) && AllSuit(cols, ws)
  {
    cols == [] || (ValueSame(cols[0], vs[0], ws[0]) && TupleSame(cols[1..], vs[1..], ws[1..]))
  }

  function WrittenAll(vs: seq<Value>): (r: seq<Text>)
    ensures |r| == |vs|
  {
    if vs == [] then [] else [Written(vs[0])] + WrittenAll(vs[1..])
  }

  /** `row::make_key` */
  function MakeKey(cols: seq<KeyColumn>, vs: seq<Value>): Text {
    OrderKey(cols, WrittenAll(vs))
  }

  function TotalSize(cols: seq<KeyColumn>): nat {
    if cols == [] then 0 else cols[0].size + TotalSize(cols[1..])
  }

  lemma ColumnKeyOrder(c: KeyColumn, v: Value, w: Value)
    requires Suits(c, v) && Suits(c, w)
    ensures |ColumnKey(c, Written(v))| == c.size
    ensures TextLess(ColumnKey(c, Written(v)), ColumnKey(c, Written(w))) <==> ValueLess(c, v, w)
    ensures ColumnKey(c, Written(v)) == ColumnKey(c, Written(w)) <==> ValueSame(c, v, w)
  {
    if c.IntKey? {
      PaddedDigits(v.n, c.size);
      PaddedDigits(w.n, c.size);
      DigitsOrder(v.n, w.n, c.size);
    }
  }

  lemma KeyNext(cols: seq<KeyColumn>, vs: seq<Value>)
    requires cols != [] && AllSuit(cols, vs)
    ensures AllSuit(cols[1..], vs[1..])
    ensures MakeKey(cols, vs) == ColumnKey(cols[0], Written(vs[0])) + MakeKey(cols[1..], vs[1..])
  {
    assert forall i :: 0 <= i < |cols| - 1 ==> cols[1..][i] == cols[i + 1] && vs[1..][i] == vs[i + 1];
    assert WrittenAll(vs)[1..] == WrittenAll(vs[1..]);
  }

  /** Keys of one index are equally long and ordered byte by byte as the column tuples are. */
  lemma {:induction false} KeyEmbedsOrder(cols: seq<KeyColumn>, vs: seq<Value>, ws: seq<Value>)
    requires AllSuit(cols, vs) && AllSuit(cols, ws)
    ensures |MakeKey(cols, vs)| == TotalSize(cols) == |MakeKey(cols, ws)|
    ensures TextLess(MakeKey(cols, vs), MakeKey(cols, ws)) <==> TupleLess(cols, vs, ws)
    ensures MakeKey(cols, vs) == MakeKey(cols, ws) <==> TupleSame(cols, vs, ws)
    decreases |cols|
  {
    if cols != [] {
      KeyNext(cols, vs);
      KeyNext(cols, ws);
      ColumnKeyOrder(cols[0], vs[0], ws[0]);
      ColumnKeyOrder(cols[0], ws[0], vs[0]);
      KeyEmbedsOrder(cols[1..], vs[1..], ws[1..]);
      LessConcat(ColumnKey(cols[0], Written(vs[0])), ColumnKey(cols[0], Written(ws[0])),
                 MakeKey(cols[1..], vs[1..]), MakeKey(cols[1..], ws[1..]));
    }
  }

  /** So an index over numbers that spell its keys is an index over the column tuples. */
  lemma IndexOrder(cols: seq<KeyColumn>, vs: seq<Value>, ws: seq<Value>)
    requires AllSuit(cols, vs) && AllSuit(cols, ws)
    ensures Unsigned(MakeKey(cols, vs)) < Unsigned(MakeKey(cols, ws)) <==> TupleLess(cols, vs, ws)
    ensures Unsigned(MakeKey(cols, vs)) == Unsigned(MakeKey(cols, ws)) <==> TupleSame(cols, vs, ws)
  {
    KeyEmbedsOrder(cols, vs, ws);
    BytesOrder(MakeKey(cols, vs), MakeKey(cols, ws));
  }
}
