/** A stored row: a header, one length byte per column, then the values behind each other. */
module RowFormat {
  import opened Prelude

  const COLUMN_SIZE_POS: nat := 6

  /** A 16-bit field of the header; `put_int16` keeps sixteen bits. */
  function Field(n: int): seq<Byte> {
    var u := n % 0x1_0000;
    [u / 256, u % 256]
  }

  /** The length bytes: a length is stored in one byte, whatever it is. */
  function Lengths(vs: seq<Text>): (r: seq<Byte>)
    ensures |r| == |vs| && forall i :: 0 <= i < |vs| ==> r[i] as int == |vs[i]| % 256
  {
    seq(|vs|, i requires 0 <= i < |vs| => |vs[i]| % 256)
  }

  function Joined(vs: seq<Text>): seq<Byte> {
    if vs == [] then [] else Joined(vs[..|vs| - 1]) + vs[|vs| - 1]
  }

  function Total(vs: seq<Text>): nat { |Joined(vs)| }

  function Sum(b: seq<Byte>): nat {
    if b == [] then 0 else Sum(b[..|b| - 1]) + b[|b| - 1]
  }

  /** Adding up length bytes gives the place of a value, if no value before it is too long for its byte. */
  lemma {:induction false} SumOfLengths(vs: seq<Text>, i: nat)
    requires i <= |vs|
    ensures Sum(Lengths(vs)[..i]) <= Total(vs[..i])
    ensures Sum(Lengths(vs)[..i]) == Total(vs[..i]) <==> forall j :: 0 <= j < i ==> |vs[j]| < 256
    decreases i
  {
    if i > 0 {
      SumOfLengths(vs, i - 1);
      assert Lengths(vs)[..i][..i - 1] == Lengths(vs)[..i - 1];
      assert vs[..i][..i - 1] == vs[..i - 1];
      assert Sum(Lengths(vs)[..i]) == Sum(Lengths(vs)[..i - 1]) + |vs[i - 1]| % 256;
      assert Total(vs[..i]) == Total(vs[..i - 1]) + |vs[i - 1]|;
    }
  }

  lemma {:induction false} ValueInside(vs: seq<Text>, i: nat)
    requires i < |vs|
    ensures Total(vs[..i]) + |vs[i]| <= Total(vs)
    ensures Joined(vs)[Total(vs[..i])..Total(vs[..i]) + |vs[i]|] == vs[i]
    decreases |vs|
  {
    var n := |vs| - 1;
    var b, last := Joined(vs[..n]), vs[n];
    if i == n {
      assert Joined(vs)[|b|..|b| + |last|] == last;
    } else {
      ValueInside(vs[..n], i);
      assert vs[..n][..i] == vs[..i];
      var o := Total(vs[..i]);
      assert Joined(vs)[o..o + |vs[i]|] == b[o..o + |vs[i]|];
    }
  }

  function Zeros(n: nat): (r: seq<Byte>)
    ensures |r| == n && forall i :: 0 <= i < n ==> r[i] == 0
  {
    seq(n, i => 0 as Byte)
  }

  /** The length bytes of all columns; those not appended yet are zero. */
  function Sizes(count: nat, vs: seq<Text>): (r: seq<Byte>)
    requires |vs| <= count
    ensures |r| == count
  {
    Lengths(vs) + Zeros(count - |vs|)
  }

  /** The bytes of a row of a table with `count` columns, when some of them have been appended. */
  function Stored(links: seq<Byte>, count: nat, vs: seq<Text>): seq<Byte>
    requires |vs| <= count
  {
    Field(COLUMN_SIZE_POS + count + Total(vs)) + links + Sizes(count, vs) + Joined(vs)
  }

  /** The size field of a row is the number of its bytes, if that number fits sixteen bits. */
  lemma SizeStored(links: seq<Byte>, count: nat, vs: seq<Text>)
    requires |links| == 4 && |vs| <= count && COLUMN_SIZE_POS + count + Total(vs) < 0x1_0000
    ensures var s := Stored(links, count, vs); |s| >= 2 && s[0] as int * 256 + s[1] as int == |s|
  {
  }

  lemma LengthsNext(vs: seq<Text>, v: Text)
    ensures Lengths(vs + [v]) == Lengths(vs) + [|v| % 256]
  {
    var ws := vs + [v];
    assert forall i :: 0 <= i < |ws| ==> ws[i] == if i < |vs| then vs[i] else v;
  }

  lemma ZeroTaken(x: seq<Byte>, n: nat, b: Byte)
    requires n > 0
    ensures (x + Zeros(n))[|x| := b] == x + [b] + Zeros(n - 1)
  {
  }

  lemma SizesNext(count: nat, vs: seq<Text>, v: Text)
    requires |vs| < count
    ensures Sizes(count, vs + [v]) == Sizes(count, vs)[|vs| := |v| % 256]
    ensures Joined(vs + [v]) == Joined(vs) + v
  {
    LengthsNext(vs, v);
    ZeroTaken(Lengths(vs), count - |vs|, |v| % 256);
    assert (vs + [v])[..|vs|] == vs;
  }

  /** A value behind everything, the size field rewritten, one length byte set. */
  lemma Patched(head: seq<Byte>, head': seq<Byte>, links: seq<Byte>, sizes: seq<Byte>, body: seq<Byte>, value: Text, i: nat, n: Byte)
    requires |head| == 2 == |head'| && |links| == 4 && i < |sizes|
    ensures (head' + (head + links + sizes + body + value)[2..])[COLUMN_SIZE_POS + i := n]
         == head' + links + sizes[i := n] + (body + value)
  {
    var whole := head + links + sizes + body + value;
    assert whole[2..] == links + sizes + body + value;
    assert head' + (links + sizes + body + value) == (head' + links) + sizes + (body + value);
    assert |head' + links| == COLUMN_SIZE_POS;
  }

  lemma LengthByte(links: seq<Byte>, count: nat, vs: seq<Text>, j: nat)
    requires |links| == 4 && j < |vs| <= count
    ensures |Stored(links, count, vs)| == COLUMN_SIZE_POS + count + Total(vs)
    ensures Stored(links, count, vs)[COLUMN_SIZE_POS + j] == Lengths(vs)[j]
  {
    var head := Field(COLUMN_SIZE_POS + count + Total(vs)) + links;
    assert |head| == COLUMN_SIZE_POS;
    assert (head + Sizes(count, vs))[COLUMN_SIZE_POS + j] == Sizes(count, vs)[j];
  }

  lemma Body(links: seq<Byte>, count: nat, vs: seq<Text>)
    requires |links| == 4 && |vs| <= count
    ensures |Stored(links, count, vs)| == COLUMN_SIZE_POS + count + Total(vs)
    ensures Stored(links, count, vs)[COLUMN_SIZE_POS + count..] == Joined(vs)
  {
  }

  /** The three writes of `append` turn the stored form into that of one value more. */
  lemma StoredNext(links: seq<Byte>, count: nat, vs: seq<Text>, v: Text)
    requires |links| == 4 && |vs| < count
    ensures var s := Stored(links, count, vs) + v;
            |s| == COLUMN_SIZE_POS + count + Total(vs) + |v|
            && (Field(|s|) + s[2..])[COLUMN_SIZE_POS + |vs| := |v| % 256] == Stored(links, count, vs + [v])
  {
    SizesNext(count, vs, v);
    Body(links, count, vs);
    var head := Field(COLUMN_SIZE_POS + count + Total(vs));
    var head' := Field(COLUMN_SIZE_POS + count + Total(vs) + |v|);
    Patched(head, head', links, Sizes(count, vs), Joined(vs), v, |vs|, |v| % 256);
  }

  // ----------------------------------------------------------- reading back

  lemma StretchInside(vs: seq<Text>, n: nat)
    requires n < |vs|
    ensures Sum(Lengths(vs)[..n]) + Lengths(vs)[n] <= Total(vs)
  {
    SumOfLengths(vs, n);
    ValueInside(vs, n);
  }

  /** The stretch of the values that the length bytes up to column `n` select. */
  function ReadAt(vs: seq<Text>, n: nat): (r: Text)
    requires n < |vs|
    ensures |r| == |vs[n]| % 256
  {
    var from := Sum(Lengths(vs)[..n]);
    StretchInside(vs, n);
    Joined(vs)[from..from + Lengths(vs)[n]]
  }

  /** Lengths up to 255 are read back as they were written. */
  lemma ShortReads(vs: seq<Text>, n: nat)
    requires n < |vs| && forall i :: 0 <= i <= n ==> |vs[i]| < 256
    ensures ReadAt(vs, n) == vs[n]
  {
    SumOfLengths(vs, n);
    ValueInside(vs, n);
  }

  predicate HasLengths(vs: seq<Text>, ls: seq<nat>) {
    |vs| == |ls| && forall i :: 0 <= i < |vs| ==> |vs[i]| == ls[i]
  }

  /** Column `n` is read back whatever the row contains. */
  ghost predicate AlwaysRead(ls: seq<nat>, n: nat)
    requires n < |ls|
  {
    forall vs :: HasLengths(vs, ls) ==> ReadAt(vs, n) == vs[n]
  }

  /** Lengths that a byte can hold up to column `n`, or nothing in column `n`. */
  predicate LengthsLead(ls: seq<nat>, n: nat)
    requires n < |ls|
  {
    ls[n] == 0 || forall i :: 0 <= i <= n ==> ls[i] < 256
  }

  function Same(b: Byte, n: nat): (t: Text)
    ensures |t| == n && forall i :: 0 <= i < n ==> t[i] == b
  {
    seq(n, i => b)
  }

  /** A row that has `b` in column `n` and zeros elsewhere. */
  function Marked(ls: seq<nat>, n: nat, b: Byte): (vs: seq<Text>)
    ensures HasLengths(vs, ls)
  {
    seq(|ls|, i requires 0 <= i < |ls| => Same(if i == n then b else 0, ls[i]))
  }

  lemma {:induction false} ZerosBefore(vs: seq<Text>, n: nat, o: nat)
    requires n <= |vs| && o < Total(vs[..n])
    requires forall i, j :: 0 <= i < n && 0 <= j < |vs[i]| ==> vs[i][j] == 0
    ensures Joined(vs[..n])[o] == 0
    decreases n
  {
    if n > 0 {
      assert vs[..n][..n - 1] == vs[..n - 1];
      var a := Joined(vs[..n - 1]);
      assert Joined(vs[..n]) == a + vs[n - 1];
      if o < |a| { ZerosBefore(vs, n - 1, o); } else { assert Joined(vs[..n])[o] == vs[n - 1][o - |a|]; }
    }
  }

  lemma {:induction false} JoinedPrefix(vs: seq<Text>, n: nat)
    requires n <= |vs|
    ensures Joined(vs[..n]) <= Joined(vs)
    decreases |vs|
  {
    if n == |vs| {
      assert vs[..n] == vs;
    } else {
      var front := vs[..|vs| - 1];
      JoinedPrefix(front, n);
      assert front[..n] == vs[..n];
      assert Joined(vs) == Joined(front) + vs[|vs| - 1];
    }
  }

  /** A value before column `n` that is too long: some row of these lengths is misread. */
  lemma Misread(ls: seq<nat>, n: nat, i: nat)
    requires i < n < |ls| && ls[i] >= 256 && ls[n] > 0
    ensures ReadAt(Marked(ls, n, 1), n) != Marked(ls, n, 1)[n]
  {
    var vs := Marked(ls, n, 1);
    assert |vs[i]| == ls[i] && |vs[n]| == ls[n] && vs[n][0] == 1;
    SumOfLengths(vs, n);
    StretchInside(vs, n);
    var from := Sum(Lengths(vs)[..n]);
    assert from < Total(vs[..n]);
    if ls[n] < 256 {
      ZerosBefore(vs, n, from);
      JoinedPrefix(vs, n);
      assert ReadAt(vs, n)[0] == Joined(vs)[from] == Joined(vs[..n])[from];
    }
  }

  /** A column is read back from every row of these lengths exactly when its own length and all before fit a byte. */
  lemma ReadsBackIff(ls: seq<nat>, n: nat)
    requires n < |ls|
    ensures AlwaysRead(ls, n) <==> LengthsLead(ls, n)
  {
    if LengthsLead(ls, n) {
      forall vs | HasLengths(vs, ls) ensures ReadAt(vs, n) == vs[n] {
        assert |vs[n]| == ls[n];
        if ls[n] > 0 { ShortReads(vs, n); }
      }
    } else {
      var i :| 0 <= i <= n && ls[i] >= 256;
      var vs := Marked(ls, n, 1);
      assert |vs[n]| == ls[n];
      if i < n { Misread(ls, n, i); }
      assert ReadAt(vs, n) != vs[n];
    }
  }

  /** A VARCHAR(300) column full of one letter, and a column behind it: neither is read back. */
  lemma LongValueMisread()
    ensures var vs := [Same(97, 300), [98]];
            ReadAt(vs, 0) == Same(97, 44) && ReadAt(vs, 1) == [97]
  {
    var a: Text, b: Text := Same(97, 300), [98];
    var vs: seq<Text> := [a, b];
    assert vs[..1] == [a] && vs[..0] == [];
    assert Joined([a]) == Joined([]) + a;
    assert Joined(vs) == a + b;
    assert Lengths(vs)[..0] == [] && Lengths(vs)[..1] == [44];
    assert Lengths(vs)[0] == 44 && Lengths(vs)[1] == 1;
    assert Sum([44]) == Sum([]) + 44;
    assert (a + b)[0..44] == Same(97, 44);
    assert (a + b)[44..45] == [97];
  }

  /** A row under construction: its buffer, with the prev and next fields of the data list. */
  class RowBuffer {
    const count: nat
    var bytes: seq<Byte>
    ghost var links: seq<Byte>
    ghost var values: seq<Text>

    /** The buffer is exactly the stored form of the values appended so far. */
    ghost predicate Valid()
      reads this
    {
      |links| == 4 && |values| <= count && bytes == Stored(links, count, values)
    }

    constructor (count: nat)
      ensures Valid() && values == [] && this.count == count
    {
      this.count := count;
      bytes := Field(COLUMN_SIZE_POS + count) + Field(0) + Field(0) + Zeros(count);
      links, values := Field(0) + Field(0), [];
      new;
      assert Sizes(count, []) == Zeros(count);
      assert bytes == Stored(links, count, []);
    }

    /** `append` of the next column, after its value has been brought into its stored form. */
    method Append(i: nat, value: Text, size: nat) returns (ok: bool)
      requires Valid() && i == |values|
      modifies this
      ensures Valid() && links == old(links)
      ensures ok == (i < count && |value| <= size)
      ensures values == if ok then old(values) + [value] else old(values)
    {
      if i >= count || |value| > size { return false; }
      StoredNext(links, count, values, value);
      bytes := bytes + value;
      bytes := Field(|bytes|) + bytes[2..];
      bytes := bytes[COLUMN_SIZE_POS + i := |value| % 256];
      values := values + [value];
      ok := true;
    }

    /** `value_at`: what the length bytes of the columns up to it lead to. */
    method ValueAt(n: nat) returns (v: Text)
      requires Valid() && n < |values|
      ensures v == ReadAt(values, n)
      ensures (forall i :: 0 <= i <= n ==> |values[i]| < 256) ==> v == values[n]
    {
      var position: nat := COLUMN_SIZE_POS + count;
      ghost var lengths := Lengths(values);
      Body(links, count, values);
      for i := 0 to n
        invariant position == COLUMN_SIZE_POS + count + Sum(lengths[..i])
      {
        assert lengths[..i + 1][..i] == lengths[..i];
        LengthByte(links, count, values, i);
        position := position + bytes[COLUMN_SIZE_POS + i];
      }
      LengthByte(links, count, values, n);
      var size := bytes[COLUMN_SIZE_POS + n];
      StretchInside(values, n);
      v := bytes[position..position + size];
      Shifted(bytes, COLUMN_SIZE_POS + count, Sum(lengths[..n]), size);
      if forall i :: 0 <= i <= n ==> |values[i]| < 256 { ShortReads(values, n); }
    }
  }

  lemma Shifted(b: seq<Byte>, from: nat, o: nat, n: nat)
    requires from + o + n <= |b|
    ensures b[from + o..from + o + n] == b[from..][o..o + n]
  {
  }
}
