/** Tokens, intermediate code and the data table shared by the compiler passes. */
module SqlCode {
  import opened Prelude

  datatype BinOp = And | Or | Eq | Ne | Ge | Gt | Le | Lt | Sub | Add | Mul | Div

  datatype Kind = KInt | KFloat | KVarchar | KName

  /** MINUS, PLUS, ASTERISK and BACKSLASH are the tokens of Sub, Add, Mul and Div. */
  datatype Token =
    | Lit(kind: Kind, raw: Text)
    | Name(raw: Text)
    | NullSym
    | LParen
    | RParen
    | Dot
    | Comma
    | Operator(op: BinOp)
    | Keyword(code: nat)
    | EndOfInput

  /** An entry of the data table: the spelling of a token and what kind it is. */
  datatype Datum = Datum(kind: Kind, raw: Text)

  /** What CALL names: the expression functions, and the statements by number. */
  datatype Fn = MkExpr | MkColumn | MkAsterisk | Negate | Apply(op: BinOp) | Statement(id: Byte)

  datatype Instr = Call(fn: Fn) | Push(n: int) | PushO(at: int) | Ret | Nop

  const EMPTY: Text := [34, 34]           // ""
  const NULL_TEXT: Text := [110, 117, 108, 108]

  function Peek(toks: seq<Token>, pos: nat): Token {
    if pos < |toks| then toks[pos] else EndOfInput
  }

  /** AND binds loosest, then OR, equality, order, sums, products. */
  function OpLevel(op: BinOp): nat {
    match op
    case And => 0
    case Or => 1
    case Eq => 2
    case Ne => 2
    case Ge => 3
    case Gt => 3
    case Le => 3
    case Lt => 3
    case Sub => 4
    case Add => 4
    case Mul => 5
    case Div => 5
  }

  const PRIMARY: nat := 6

  /** The operators of every level. */
  const ROWS: seq<set<BinOp>> := [{And}, {Or}, {Eq, Ne}, {Ge, Gt, Le, Lt}, {Sub, Add}, {Mul, Div}]

  lemma LevelIsRow(op: BinOp, n: nat)
    requires n < PRIMARY
    ensures |ROWS| == PRIMARY && (op in ROWS[n] <==> OpLevel(op) == n)
  {
    match n
    case 0 => case 1 => case 2 => case 3 => case 4 => case _ =>
  }

  // -------------------------------------------------------- the data table

  /** Index of the first entry with this spelling, or the size of the table. */
  function FindData(data: seq<Datum>, raw: Text): (i: nat)
    ensures i <= |data|
    ensures i < |data| ==> data[i].raw == raw
    ensures forall j :: 0 <= j < i ==> data[j].raw != raw
  {
    if data == [] then 0
    else if data[0].raw == raw then 0
    else 1 + FindData(data[1..], raw)
  }

  /** The table after `data(...)` has looked up or appended an entry. */
  function Intern(data: seq<Datum>, d: Datum): seq<Datum> {
    if FindData(data, d.raw) < |data| then data else data + [d]
  }

  /** The spelling of a token decides its kind, as the lexer produces it. */
  predicate Consistent(data: seq<Datum>, kindOf: Text -> Kind) {
    forall i :: 0 <= i < |data| ==> data[i].kind == kindOf(data[i].raw)
  }

  /** Interning returns an index that holds the entry, and moves no other entry. */
  lemma InternHolds(data: seq<Datum>, d: Datum, kindOf: Text -> Kind)
    requires Consistent(data, kindOf) && d.kind == kindOf(d.raw)
    ensures var i := FindData(data, d.raw);
            i < |Intern(data, d)| && Intern(data, d)[i] == d
    ensures data <= Intern(data, d) && Consistent(Intern(data, d), kindOf)
  {
  }
}
