/**
 Linking and execution: the data table becomes bytes, indices become offsets,
 the reversed code is run on a stack of items.
 */
module SqlVm {
  import opened Prelude
  import opened SqlCode
  import opened SqlParse

  // ------------------------------------------------------- the data segment

  /** Two bytes, most significant first. */
  function TwoBytes(n: nat): seq<Byte>
    requires n < 0x1_0000
  {
    [n / 256, n % 256]
  }

  /** Read back as a signed 16-bit number. */
  function ReadTwo(b: seq<Byte>, at: nat): int
    requires at + 2 <= |b|
  {
    var u: int := (b[at] as int) * 256 + b[at + 1] as int;
    if u < 0x8000 then u else u - 0x1_0000
  }

  function TypeByte(k: Kind): Byte {
    match k
    case KFloat => 7
    case KInt => 9
    case KVarchar => 13
    case KName => 16
  }

  /** The second pass drops the quotes around a string. */
  function Unquote(raw: Text): Text {
    if |raw| >= 2 && raw[0] == 34 then raw[1..|raw| - 1] else raw
  }

  /** A string between quotes becomes its contents; what does not begin with a quote stays as it is. */
  lemma Unquoted(t: Text)
    ensures Unquote([34] + t + [34]) == t
    ensures t == [] || t[0] != 34 ==> Unquote(t) == t
  {
    var raw: Text := [34] + t + [34];
    assert raw[1..|raw| - 1] == t;
  }

  predicate Short16(data: seq<Datum>) {
    forall i :: 0 <= i < |data| ==> |Unquote(data[i].raw)| < 0x8000
  }

  function DatumBytes(d: Datum): seq<Byte>
    requires |Unquote(d.raw)| < 0x8000
  {
    [TypeByte(d.kind)] + TwoBytes(|Unquote(d.raw)|) + Unquote(d.raw)
  }

  function DataBytes(data: seq<Datum>): seq<Byte>
    requires Short16(data)
  {
    if data == [] then []
    else
      assert forall i :: 0 <= i < |data| - 1 ==> data[..|data| - 1][i] == data[i];
      DataBytes(data[..|data| - 1]) + DatumBytes(data[|data| - 1])
  }

  /** Where entry `i` of the table starts. */
  function OffsetOf(data: seq<Datum>, i: nat): nat
    requires Short16(data) && i <= |data|
  {
    |DataBytes(data[..i])|
  }

  lemma {:induction false} DatumOccurs(data: seq<Datum>, i: nat)
    requires Short16(data) && i < |data|
    ensures Occurs(DataBytes(data), OffsetOf(data, i), DatumBytes(data[i]))
  {
    var n := |data| - 1;
    var front := data[..n];
    var b, w := DataBytes(front), DatumBytes(data[n]);
    assert DataBytes(data) == b + w;
    if i == n {
      OccursEnd(b, w);
    } else {
      assert front[..i] == data[..i];
      DatumOccurs(front, i);
      OccursGrow(b, w, OffsetOf(front, i), DatumBytes(data[i]));
    }
  }

  /** `m_data.get(offset)` and `get_varchar(offset + 1)`. */
  function ReadType(b: seq<Byte>, at: int): Option<Byte> {
    if 0 <= at < |b| then Some(b[at]) else None
  }

  function ReadText(b: seq<Byte>, at: int): Option<Text> {
    if 0 <= at && at + 2 <= |b| then
      var n := ReadTwo(b, at);
      if n <= 0 then Some([]) else if at + 2 + n <= |b| then Some(b[at + 2..at + 2 + n]) else None
    else None
  }

  /** The entry `d` can be read at offset `o`. */
  predicate EntryAt(b: seq<Byte>, o: int, d: Datum) {
    ReadType(b, o) == Some(TypeByte(d.kind)) && ReadText(b, o + 1) == Some(Unquote(d.raw))
  }

  /** A linked offset leads to exactly the entry that the first pass numbered. */
  lemma LinkedEntry(data: seq<Datum>, i: nat)
    requires Short16(data) && i < |data|
    ensures EntryAt(DataBytes(data), OffsetOf(data, i), data[i])
  {
    var b, o := DataBytes(data), OffsetOf(data, i);
    assert Occurs(b, o, DatumBytes(data[i])) by { DatumOccurs(data, i); }
    assert EntryAt(b, o, data[i]) by { ReadDatum(b, o, data[i]); }
  }

  lemma ReadDatum(b: seq<Byte>, o: nat, d: Datum)
    requires |Unquote(d.raw)| < 0x8000 && Occurs(b, o, DatumBytes(d))
    ensures EntryAt(b, o, d)
  {
    var t, ty := Unquote(d.raw), TypeByte(d.kind);
    OccursSplit(b, o, [ty] + TwoBytes(|t|), t);
    OccursSplit(b, o, [ty], TwoBytes(|t|));
    OccursOne(b, o, ty);
    ReadTwoBack(b, o + 1, |t|);
    OccursSlice(b, o + 3, t);
  }

  lemma ReadTwoBack(b: seq<Byte>, o: nat, n: nat)
    requires n < 0x8000 && Occurs(b, o, TwoBytes(n))
    ensures o + 2 <= |b| && ReadTwo(b, o) == n
  {
    var w := TwoBytes(n);
    assert w[0] == b[o] && w[1] == b[o + 1];
  }

  // -------------------------------------------------------------- execution

  /**
   A stack item: a constant with the number of minus signs applied to it, a column, a pushed
   number or offset, or an operator tree.
   */
  datatype Item =
    | Const(kind: Kind, text: Text, signs: nat)
    | Col(tbl: Text, col: Text, negated: bool)
    | Count(n: int)
    | Offset(at: int)
    | Node(op: BinOp, l: Item, r: Item)

  type Stack = seq<Item> // the top is the last item

  function Value(it: Item): Option<int> {
    match it
    case Count(n) => Some(n)
    case Offset(at) => Some(at)
    case _ => None
  }

  /** NEGATE rewrites a number and marks a column; anything else is an error. */
  function NegateItem(it: Item): Option<Item> {
    match it
    case Const(kind, text, signs) => if kind == KInt || kind == KFloat then Some(Const(kind, text, signs + 1)) else None
    case Col(tbl, col, _) => Some(Col(tbl, col, true))
    case _ => None
  }

  function KindFromByte(b: Byte): Option<Kind> {
    if b == 7 then Some(KFloat) else if b == 9 then Some(KInt) else if b == 13 then Some(KVarchar) else None
  }

  function TextAt(it: Item, data: seq<Byte>): Option<Text> {
    if Value(it).None? then None else ReadText(data, Value(it).value + 1)
  }

  function Exec1(i: Instr, st: Stack, data: seq<Byte>): Option<Stack> {
    match i
    case Push(n) => Some(st + [Count(n)])
    case PushO(at) => Some(st + [Offset(at)])
    case Nop => Some(st)
    case Ret => None
    case Call(fn) =>
      match fn
      case Apply(op) =>
        if |st| < 2 then None
        else Some(st[..|st| - 2] + [Node(op, st[|st| - 1], st[|st| - 2])])
      case Negate =>
        if |st| < 1 then None
        else
          var it := NegateItem(st[|st| - 1]);
          if it.None? then None else Some(st[..|st| - 1] + [it.value])
      case MkExpr =>
        if |st| < 1 || Value(st[|st| - 1]).None? then None
        else
          var at := Value(st[|st| - 1]).value;
          var type_, text := ReadType(data, at), ReadText(data, at + 1);
          if type_.None? || text.None? || KindFromByte(type_.value).None? then None
          else Some(st[..|st| - 1] + [Const(KindFromByte(type_.value).value, text.value, 0)])
      case MkColumn =>
        if |st| < 3 then None
        else
          var db, tbl, col := TextAt(st[|st| - 1], data), TextAt(st[|st| - 2], data), TextAt(st[|st| - 3], data);
          if db.None? || tbl.None? || col.None? || db.value != [] then None
          else Some(st[..|st| - 3] + [Col(tbl.value, col.value, false)])
      case MkAsterisk => None // expands to the columns of a schema
      case Statement(_) => None
  }

  function Exec(code: seq<Instr>, st: Stack, data: seq<Byte>): Option<Stack> {
    if code == [] then Some(st)
    else
      var s := Exec1(code[0], st, data);
      if s.None? then None else Exec(code[1..], s.value, data)
  }

  lemma {:induction false} ExecAppend(a: seq<Instr>, b: seq<Instr>, st: Stack, data: seq<Byte>)
    ensures Exec(a + b, st, data)
         == (var s := Exec(a, st, data); if s.None? then None else Exec(b, s.value, data))
  {
    if a == [] {
      assert a + b == b;
    } else {
      assert (a + b)[0] == a[0] && (a + b)[1..] == a[1..] + b;
      var s := Exec1(a[0], st, data);
      if s.Some? { ExecAppend(a[1..], b, s.value, data); }
    }
  }

  function Reverse(code: seq<Instr>): seq<Instr> {
    if code == [] then [] else Reverse(code[1..]) + [code[0]]
  }

  lemma {:induction false} ReverseAppend(a: seq<Instr>, b: seq<Instr>)
    ensures Reverse(a + b) == Reverse(b) + Reverse(a)
  {
    if a == [] {
      assert a + b == b;
    } else {
      assert (a + b)[0] == a[0] && (a + b)[1..] == a[1..] + b;
      ReverseAppend(a[1..], b);
    }
  }

  /** The second pass replaces table indices by offsets. */
  function LinkInstr(i: Instr, data: seq<Datum>): Instr
    requires Short16(data)
  {
    if i.PushO? && 0 <= i.at <= |data| then PushO(OffsetOf(data, i.at)) else i
  }

  function Link(code: seq<Instr>, data: seq<Datum>): seq<Instr>
    requires Short16(data)
  {
    if code == [] then [] else [LinkInstr(code[0], data)] + Link(code[1..], data)
  }

  lemma {:induction false} LinkAppend(a: seq<Instr>, b: seq<Instr>, data: seq<Datum>)
    requires Short16(data)
    ensures Link(a + b, data) == Link(a, data) + Link(b, data)
  {
    if a == [] {
      assert a + b == b;
    } else {
      assert (a + b)[0] == a[0] && (a + b)[1..] == a[1..] + b;
      LinkAppend(a[1..], b, data);
    }
  }

  /** What the machine runs for a piece of prefix code. */
  function Linked(code: seq<Instr>, data: seq<Datum>): seq<Instr>
    requires Short16(data)
  {
    Link(Reverse(code), data)
  }

  lemma LinkedAppend(a: seq<Instr>, b: seq<Instr>, data: seq<Datum>)
    requires Short16(data)
    ensures Linked(a + b, data) == Linked(b, data) + Linked(a, data)
  {
    ReverseAppend(a, b);
    LinkAppend(Reverse(b), Reverse(a), data);
  }

  lemma LinkedOne(i: Instr, data: seq<Datum>)
    requires Short16(data)
    ensures Linked([i], data) == [LinkInstr(i, data)]
  {
    assert Reverse([i]) == Reverse([i][1..]) + [i];
    assert Reverse([i]) == [i];
    assert Link([i], data) == [LinkInstr(i, data)] + Link([i][1..], data);
  }
}
