/**
 Machine code: instructions as bytes, and the loop that fetches and executes
 them.  Running the bytes does exactly what running the instructions does.
 */
module SqlBytes {
  import opened Prelude
  import opened SqlCode
  import opened SqlParse
  import opened SqlVm

  const OP_CALL: Byte := 8
  const OP_PUSH: Byte := 52
  const OP_PUSHO: Byte := 53
  const OP_RET: Byte := 54

  // ---------------------------------------------------------------- numbers

  predicate Int32(n: int) { -0x8000_0000 <= n < 0x8000_0000 }

  /** Two's complement, most significant byte first. */
  function Word(n: int): seq<Byte>
    requires Int32(n)
  {
    var u := if n < 0 then n + 0x1_0000_0000 else n;
    [u / 0x100_0000, u / 0x1_0000 % 256, u / 256 % 256, u % 256]
  }

  function ReadWord(b: seq<Byte>, at: nat): int
    requires at + 4 <= |b|
  {
    var u: int := (b[at] as int) * 0x100_0000 + (b[at + 1] as int) * 0x1_0000 + (b[at + 2] as int) * 256 + b[at + 3] as int;
    if u < 0x8000_0000 then u else u - 0x1_0000_0000
  }

  lemma Digits(u: nat)
    requires u < 0x1_0000_0000
    ensures (u / 0x100_0000) * 0x100_0000 + (u / 0x1_0000 % 256) * 0x1_0000 + (u / 256 % 256) * 256 + u % 256 == u
  {
    assert u / 0x1_0000 == u / 256 / 256;
    assert u / 0x100_0000 == u / 0x1_0000 / 256;
  }

  lemma ReadWordBack(b: seq<Byte>, at: nat, n: int)
    requires Int32(n) && Occurs(b, at, Word(n))
    ensures at + 4 <= |b| && ReadWord(b, at) == n
  {
    var w := Word(n);
    assert b[at] == w[0] && b[at + 1] == w[1] && b[at + 2] == w[2] && b[at + 3] == w[3];
    Digits(if n < 0 then n + 0x1_0000_0000 else n);
  }

  // ----------------------------------------------------------- instructions

  function OpByte(op: BinOp): Byte {
    match op
    case And => 7
    case Or => 50
    case Eq => 9
    case Ne => 14
    case Ge => 10
    case Gt => 11
    case Le => 12
    case Lt => 13
    case Sub => 62
    case Add => 1
    case Mul => 45
    case Div => 21
  }

  function FnByte(fn: Fn): Byte {
    match fn
    case MkExpr => 37
    case MkColumn => 36
    case MkAsterisk => 34
    case Negate => 46
    case Apply(op) => OpByte(op)
    case Statement(id) => id
  }

  function FnFromByte(b: Byte): Fn {
    if b == 37 then MkExpr else if b == 36 then MkColumn else if b == 34 then MkAsterisk else if b == 46 then Negate
    else if b == 7 then Apply(And) else if b == 50 then Apply(Or)
    else if b == 9 then Apply(Eq) else if b == 14 then Apply(Ne)
    else if b == 10 then Apply(Ge) else if b == 11 then Apply(Gt)
    else if b == 12 then Apply(Le) else if b == 13 then Apply(Lt)
    else if b == 62 then Apply(Sub) else if b == 1 then Apply(Add)
    else if b == 45 then Apply(Mul) else if b == 21 then Apply(Div)
    else Statement(b)
  }

  /** Operands fit, and a statement number is not that of an expression function. */
  predicate Encodable(i: Instr) {
    match i
    case Push(n) => Int32(n)
    case PushO(n) => Int32(n)
    case Call(fn) => fn.Statement? ==> FnFromByte(fn.id) == fn
    case Ret => false
    case Nop => true
  }

  predicate AllEncodable(code: seq<Instr>) {
    forall i :: 0 <= i < |code| ==> Encodable(code[i])
  }

  /** NOP leaves no byte behind. */
  function InstrBytes(i: Instr): seq<Byte>
    requires Encodable(i)
  {
    match i
    case Push(n) => [OP_PUSH] + Word(n)
    case PushO(n) => [OP_PUSHO] + Word(n)
    case Call(fn) => [OP_CALL, FnByte(fn)]
    case Ret => []
    case Nop => []
  }

  function CodeBytes(code: seq<Instr>): seq<Byte>
    requires AllEncodable(code)
  {
    if code == [] then [] else InstrBytes(code[0]) + CodeBytes(code[1..])
  }

  // --------------------------------------------------------------- fetching

  datatype Fetched = Fault | Halt | Next(instr: Instr, at: nat)

  /** The instruction at `at`; reading past the end is a fault. */
  function Fetch(b: seq<Byte>, at: nat): (f: Fetched)
    ensures f.Next? ==> at < f.at <= |b|
  {
    if at >= |b| then Fault
    else if b[at] == OP_RET then Halt
    else if b[at] == OP_CALL then
      if at + 2 <= |b| then Next(Call(FnFromByte(b[at + 1])), at + 2) else Fault
    else if b[at] == OP_PUSH || b[at] == OP_PUSHO then
      if at + 5 <= |b| then
        var n := ReadWord(b, at + 1);
        Next(if b[at] == OP_PUSH then Push(n) else PushO(n), at + 5)
      else Fault
    else Fault
  }

  /** Every instruction but NOP is fetched back from its bytes. */
  lemma FetchBack(b: seq<Byte>, at: nat, i: Instr)
    requires Encodable(i) && i != Nop && Occurs(b, at, InstrBytes(i))
    ensures Fetch(b, at) == Next(i, at + |InstrBytes(i)|)
  {
    match i
    case Push(n) =>
      OccursSplit(b, at, [OP_PUSH], Word(n));
      OccursOne(b, at, OP_PUSH);
      ReadWordBack(b, at + 1, n);
    case PushO(n) =>
      OccursSplit(b, at, [OP_PUSHO], Word(n));
      OccursOne(b, at, OP_PUSHO);
      ReadWordBack(b, at + 1, n);
    case Call(fn) =>
      var w := InstrBytes(i);
      assert b[at] == w[0] && b[at + 1] == w[1];
      assert FnFromByte(FnByte(fn)) == fn;
  }

  /** The run loop from `at`: Some with the stack at RET, None on an error. */
  function RunFrom(b: seq<Byte>, at: nat, st: Stack, data: seq<Byte>): Option<Stack>
    decreases |b| - at
  {
    var f := Fetch(b, at);
    match f
    case Fault => None
    case Halt => Some(st)
    case Next(i, next) =>
      var s := Exec1(i, st, data);
      if s.None? then None else RunFrom(b, next, s.value, data)
  }

  lemma RunStep(b: seq<Byte>, at: nat, i: Instr, st: Stack, data: seq<Byte>)
    requires Encodable(i) && Occurs(b, at, InstrBytes(i))
    ensures RunFrom(b, at, st, data)
         == (var s := Exec1(i, st, data);
             if s.None? then None else RunFrom(b, at + |InstrBytes(i)|, s.value, data))
  {
    if i == Nop {
      assert Exec1(i, st, data) == Some(st);
    } else {
      FetchBack(b, at, i);
    }
  }

  lemma BytesSplit(b: seq<Byte>, at: nat, code: seq<Instr>)
    requires AllEncodable(code) && code != [] && Occurs(b, at, CodeBytes(code) + [OP_RET])
    ensures AllEncodable(code[1..]) && Occurs(b, at, InstrBytes(code[0]))
    ensures Occurs(b, at + |InstrBytes(code[0])|, CodeBytes(code[1..]) + [OP_RET])
  {
    var i, rest := code[0], code[1..];
    assert forall k :: 0 <= k < |rest| ==> rest[k] == code[k + 1];
    assert CodeBytes(code) + [OP_RET] == InstrBytes(i) + (CodeBytes(rest) + [OP_RET]);
    OccursSplit(b, at, InstrBytes(i), CodeBytes(rest) + [OP_RET]);
  }

  /** Executing the bytes of a program is executing the program. */
  lemma {:induction false} BytesRun(b: seq<Byte>, at: nat, code: seq<Instr>, st: Stack, data: seq<Byte>)
    requires AllEncodable(code) && Occurs(b, at, CodeBytes(code) + [OP_RET])
    ensures RunFrom(b, at, st, data) == Exec(code, st, data)
    decreases code
  {
    if code == [] {
      assert CodeBytes(code) + [OP_RET] == [OP_RET];
      OccursOne(b, at, OP_RET);
    } else {
      BytesSplit(b, at, code);
      RunStep(b, at, code[0], st, data);
      var s := Exec1(code[0], st, data);
      if s.Some? { BytesRun(b, at + |InstrBytes(code[0])|, code[1..], s.value, data); }
    }
  }

  /** The machine: code buffer with its index, data buffer, stack. */
  class Machine {
    const code: seq<Byte>
    const data: seq<Byte>
    var index: nat
    var stack: Stack

    constructor (code: seq<Byte>, data: seq<Byte>)
      ensures this.code == code && this.data == data && index == 0 && stack == []
    {
      this.code, this.data, index, stack := code, data, 0, [];
    }

    /** Fetch and execute until RET; the outcome is that of the run function. */
    method Run() returns (ok: bool)
      modifies this
      ensures ok == RunFrom(code, old(index), old(stack), data).Some?
      ensures ok ==> Some(stack) == RunFrom(code, old(index), old(stack), data)
    {
      while true
        invariant RunFrom(code, index, stack, data) == RunFrom(code, old(index), old(stack), data)
        decreases |code| - index
      {
        var f := Fetch(code, index);
        match f {
          case Fault => return false;
          case Halt => index := index + 1; return true;
          case Next(i, next) =>
            var s := Exec1(i, stack, data);
            if s.None? { return false; }
            index, stack := next, s.value;
        }
      }
    }
  }
}
