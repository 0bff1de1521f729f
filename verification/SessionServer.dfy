/**
 The server's end of a session against any client at all: whatever messages
 arrive, dispatch stays inside its table and no statement is executed before
 authentication has succeeded and been acknowledged.
 */
module SessionServer {
  import opened Prelude
  import opened SessionWire

  /** How an attempt to authenticate ends. */
  datatype Verdict =
    | Accepted
    | Refused
    | Broken(text: seq<Byte>)    // an error while the user is looked up
    | Illegible(text: seq<Byte>) // the credentials cannot be decrypted

  datatype Act = Put(text: seq<Byte>) | Flush

  datatype Ending = Done | Fails(text: seq<Byte>) | Crashes

  /** What executing a statement does: whether it sets OP_RSLT_SYN first, its output, its end. */
  datatype Work = Work(labelled: bool, acts: seq<Act>, ending: Ending)

  const ACK: Message := [OP_RSLT_ACK, TYPE_TXT]

  /** A statement: the message that asked for it, and how many messages had been sent before it ran. */
  datatype Execution = Execution(asked: nat, after: nat)

  predicate IsLogin(m: Message) { Opcode(m) == OP_AUTH_SYN }

  /** An attempt that ends the session. */
  predicate Refusal(m: Message, v: Verdict) { IsLogin(m) && (v.Refused? || v.Broken?) }

  /** Flushes caused by putting `n` bytes into a buffer of this size. */
  function Flushes(size: nat, n: nat): nat
    decreases n
  {
    if n == 0 then 0
    else if size == BUFFER_SZ then 1 + Flushes(OPCODE_SZ + 1, n - 1)
    else Flushes(size + 1, n - 1)
  }

  /** The size of the buffer then. */
  function SizeAfter(size: nat, n: nat): nat
    decreases n
  {
    if n == 0 then size else if size == BUFFER_SZ then SizeAfter(OPCODE_SZ + 1, n - 1) else SizeAfter(size + 1, n - 1)
  }

  lemma OneByte(size: nat, n: nat)
    requires n > 0
    ensures var next := (if size == BUFFER_SZ then OPCODE_SZ else size) + 1;
            Flushes(size, n) == Spill(size) + Flushes(next, n - 1) && SizeAfter(size, n) == SizeAfter(next, n - 1)
  {
  }

  /** Flushes caused by all the output of a statement. */
  function Acks(size: nat, acts: seq<Act>): nat
    decreases |acts|
  {
    if acts == [] then 0
    else
      match acts[0]
      case Flush => 1 + Acks(OPCODE_SZ, acts[1..])
      case Put(text) => Flushes(size, |text|) + Acks(SizeAfter(size, |text|), acts[1..])
  }

  function BytesOf(act: Act): seq<Byte> { if act.Put? then act.text else [] }

  /** The output of a statement. */
  function Bytes(acts: seq<Act>): seq<Byte> {
    if acts == [] then [] else Bytes(acts[..|acts| - 1]) + BytesOf(acts[|acts| - 1])
  }

  /** The opcode under which a statement puts its output. */
  function Label(w: Work): Byte { if w.labelled then OP_RSLT_SYN else OP_STMT_SYN }

  /** All messages have this opcode. */
  predicate Under(ms: seq<Message>, op: Byte) {
    ms == [] || (Under(ms[..|ms| - 1], op) && Opcode(ms[|ms| - 1]) == op)
  }

  predicate Full(ms: seq<Message>) {
    ms == [] || (Full(ms[..|ms| - 1]) && |ms[|ms| - 1]| == BUFFER_SZ)
  }

  /** The messages are a text under one opcode: all are full but the last. */
  predicate Carries(ms: seq<Message>, op: Byte, text: seq<Byte>) {
    ms != [] && Payloads(ms) == text && Under(ms, op) && Full(ms[..|ms| - 1])
  }

  /** The output of a statement and nothing else, under its opcode but for the last message, which is marked. */
  predicate Delivered(w: Work, ms: seq<Message>) { Marked(ms, Label(w), Bytes(w.acts)) }

  predicate Marked(ms: seq<Message>, op: Byte, want: seq<Byte>) {
    ms != [] && Payloads(ms) == want && Opcode(ms[|ms| - 1]) == OP_RSLT_FIN && Under(ms[..|ms| - 1], op)
  }

  /** The last messages are the text of an error. */
  predicate EndsWith(ms: seq<Message>, text: seq<Byte>) {
    exists k: nat :: k <= |ms| && Carries(ms[k..], OP_STMT_ERR, text)
  }

  /** Whether the next byte makes the buffer flush. */
  function Spill(size: nat): nat { if size == BUFFER_SZ then 1 else 0 }

  predicate AllAcks(q: seq<Message>, n: int) {
    n <= |q| && forall i :: 0 <= i < n ==> q[i] == ACK
  }

  function Payloads(ms: seq<Message>): seq<Byte> {
    if ms == [] then [] else Payloads(ms[..|ms| - 1]) + Payload(ms[|ms| - 1])
  }

  /** The ACKs that the output of a statement takes. */
  function AcksOf(w: Work): nat { if w.labelled then Acks(OPCODE_SZ, w.acts) else 0 }

  /**
   The messages keep to the protocol when `last` was the last opcode sent: connect, authenticate with
   success, then statements that come to their end, each followed by its ACKs, and at last the end.
   */
  predicate Keeps(q: seq<Message>, at: nat, last: Byte, verdict: nat -> Verdict, work: nat -> Work)
    decreases |q|
  {
    if q == [] then true
    else if last == OP_NULL then
      Opcode(q[0]) == OP_CONN_SYN && Keeps(q[1..], at + 1, OP_CONN_ACK, verdict, work)
    else if last == OP_CONN_ACK then
      IsLogin(q[0]) && verdict(at).Accepted? && Keeps(q[1..], at + 1, OP_AUTH_ACK, verdict, work)
    else if last != OP_AUTH_ACK && last != OP_RSLT_FIN then false
    else if Opcode(q[0]) == OP_TERM_SYN then |q| == 1
    else
      var n := AcksOf(work(at));
      Opcode(q[0]) == OP_STMT_SYN && work(at).ending.Done? && AllAcks(q[1..], n)
      && Keeps(q[1 + n..], at + 1 + n, OP_RSLT_FIN, verdict, work)
  }

  /** What such a client has to get: the key, and the outputs of its statements. */
  function Due(q: seq<Message>, at: nat, last: Byte, key: seq<Byte>, work: nat -> Work): seq<Byte>
    decreases |q|
  {
    if q == [] then []
    else if last == OP_NULL then key + Due(q[1..], at + 1, OP_CONN_ACK, key, work)
    else if last == OP_CONN_ACK then Due(q[1..], at + 1, OP_AUTH_ACK, key, work)
    else if Opcode(q[0]) != OP_STMT_SYN || AcksOf(work(at)) >= |q| then []
    else
      var n := AcksOf(work(at));
      Bytes(work(at).acts) + Due(q[1 + n..], at + 1 + n, OP_RSLT_FIN, key, work)
  }

  /** Its statements, by the index of the message. */
  function Asks(q: seq<Message>, at: nat, last: Byte, work: nat -> Work): seq<nat>
    decreases |q|
  {
    if q == [] then []
    else if last == OP_NULL then Asks(q[1..], at + 1, OP_CONN_ACK, work)
    else if last == OP_CONN_ACK then Asks(q[1..], at + 1, OP_AUTH_ACK, work)
    else if Opcode(q[0]) != OP_STMT_SYN || AcksOf(work(at)) >= |q| then []
    else
      var n := AcksOf(work(at));
      [at] + Asks(q[1 + n..], at + 1 + n, OP_RSLT_FIN, work)
  }

  /** Such a session: a statement that puts a byte and flushes, and its ACK. */
  lemma ShortSession(key: seq<Byte>, verdict: nat -> Verdict, work: nat -> Work)
    requires verdict(1).Accepted? && work(2) == Work(true, [Put([65]), Flush], Done)
    ensures var q := [[OP_CONN_SYN], [OP_AUTH_SYN], [OP_STMT_SYN], ACK, [OP_TERM_SYN]];
            Keeps(q, 0, OP_NULL, verdict, work) && Due(q, 0, OP_NULL, key, work) == key + [65] && Asks(q, 0, OP_NULL, work) == [2]
  {
    var w, end: seq<Message> := work(2), [[OP_TERM_SYN]];
    var q3: seq<Message> := [[OP_STMT_SYN], ACK, [OP_TERM_SYN]];
    var q2 := [[OP_AUTH_SYN]] + q3;
    assert w.acts[1..] == [Flush] && [Flush][1..] == [];
    assert Acks(3, [Flush]) == 1 + Acks(OPCODE_SZ, []);
    assert Flushes(OPCODE_SZ, 1) == Flushes(3, 0) && SizeAfter(OPCODE_SZ, 1) == SizeAfter(3, 0);
    assert AcksOf(w) == 1;
    assert w.acts[..1] == [Put([65])] && [Put([65])][..0] == [] && Bytes(w.acts) == [] + [65] + [];
    assert q3[1..] == [ACK, [OP_TERM_SYN]] && q3[2..] == end && end[1..] == [];
    assert Keeps(end, 4, OP_RSLT_FIN, verdict, work) && Due(end, 4, OP_RSLT_FIN, key, work) == [] && Asks(end, 4, OP_RSLT_FIN, work) == [];
    assert Keeps(q3, 2, OP_AUTH_ACK, verdict, work) && Due(q3, 2, OP_AUTH_ACK, key, work) == [65] + [] && Asks(q3, 2, OP_AUTH_ACK, work) == [2] + [];
    assert q2[1..] == q3;
    assert Keeps(q2, 1, OP_CONN_ACK, verdict, work) && Due(q2, 1, OP_CONN_ACK, key, work) == [65] && Asks(q2, 1, OP_CONN_ACK, work) == [2];
    var q: seq<Message> := [[OP_CONN_SYN], [OP_AUTH_SYN], [OP_STMT_SYN], ACK, [OP_TERM_SYN]];
    assert q[1..] == q2;
  }

  function AskedBy(executed: seq<Execution>): (r: seq<nat>)
    ensures |r| == |executed|
  {
    seq(|executed|, i requires 0 <= i < |executed| => executed[i].asked)
  }

  lemma LastBehind<T>(a: seq<T>, b: seq<T>)
    requires b != []
    ensures (a + b)[..|a + b| - 1] == a + b[..|b| - 1] && (a + b)[|a + b| - 1] == b[|b| - 1]
  {
  }

  lemma {:induction false} PayloadsAppend(a: seq<Message>, b: seq<Message>, ab: seq<Message>)
    requires ab == a + b
    ensures Payloads(ab) == Payloads(a) + Payloads(b)
    decreases |b|
  {
    if b == [] {
      assert ab == a;
    } else {
      var n := |b| - 1;
      LastBehind(a, b);
      PayloadsAppend(a, b[..n], ab[..|ab| - 1]);
      Regroup(Payloads(a), Payloads(b[..n]), Payload(b[n]));
    }
  }

  lemma Regroup<T>(a: seq<T>, b: seq<T>, c: seq<T>)
    ensures a + b + c == a + (b + c) && [] + c == c && a + [] == a
  {
  }

  /** The message is one that a client sends that keeps to the protocol. */
  predicate Fine(op: Byte, at: nat, q: seq<Message>, verdict: nat -> Verdict, work: nat -> Work) {
    || op == OP_TERM_SYN || op == OP_CONN_SYN
    || (op == OP_AUTH_SYN && verdict(at).Accepted?)
    || (op == OP_STMT_SYN && work(at).ending.Done? && AllAcks(q, AcksOf(work(at))))
  }

  /** Mentioned where a sealed predicate is to be looked into. */
  predicate Peek(z: int) { true }

  /** Dealing with it sends `out`, executes what it asks for, and leaves the loop as it has to be. */
  predicate Moved(op: Byte, at: nat, q: seq<Message>, out: seq<Message>, done: seq<Execution>, executed: seq<Execution>,
                  inbox: seq<Message>, last: Byte, loop: bool, key: seq<Byte>, verdict: nat -> Verdict, work: nat -> Work) {
    Fine(op, at, q, verdict, work) ==>
      if op == OP_TERM_SYN then !loop && inbox == q && Payloads(out) == [] && executed == done
      else if op == OP_CONN_SYN then loop && inbox == q && last == OP_CONN_ACK && Payloads(out) == key && executed == done
      else if op == OP_AUTH_SYN then loop && inbox == q && last == OP_AUTH_ACK && Payloads(out) == [] && executed == done
      else
        loop && inbox == q[AcksOf(work(at))..] && last == OP_RSLT_FIN && Payloads(out) == Bytes(work(at).acts)
        && |executed| == |done| + 1 && executed[..|done|] == done && executed[|done|].asked == at
  }

  /** What has been done for a client that keeps to the protocol, and what is left. */
  ghost predicate OnCourse(q: seq<Message>, at: nat, last: Byte, out: seq<Message>, done: seq<Execution>, executed: seq<Execution>,
                           inbox: seq<Message>, at': nat, last': Byte, loop: bool, key: seq<Byte>, verdict: nat -> Verdict, work: nat -> Work)
  {
    && (if loop then Keeps(inbox, at', last', verdict, work) else inbox == [])
    && Payloads(out) + Due(inbox, at', last', key, work) == Due(q, at, last, key, work)
    && AskedBy(executed) + Asks(inbox, at', last', work) == AskedBy(done) + Asks(q, at, last, work)
  }

  /** One statement further. */
  lemma KeepsStatement(q: seq<Message>, at: nat, last: Byte, key: seq<Byte>, verdict: nat -> Verdict, work: nat -> Work,
                       inbox: seq<Message>, at': nat)
    requires q != [] && Keeps(q, at, last, verdict, work) && Opcode(q[0]) == OP_STMT_SYN
    requires var n := AcksOf(work(at)); n < |q| ==> inbox == q[1 + n..] && at' == at + 1 + n
    ensures AcksOf(work(at)) < |q| && work(at).ending.Done? && AllAcks(q[1..], AcksOf(work(at)))
    ensures Keeps(inbox, at', OP_RSLT_FIN, verdict, work)
    ensures Due(q, at, last, key, work) == Bytes(work(at).acts) + Due(inbox, at', OP_RSLT_FIN, key, work)
    ensures Asks(q, at, last, work) == [at] + Asks(inbox, at', OP_RSLT_FIN, work)
  {
  }

  lemma KeptStatement(q: seq<Message>, at: nat, last: Byte, out: seq<Message>, done: seq<Execution>, executed: seq<Execution>,
                      inbox: seq<Message>, at': nat, key: seq<Byte>, verdict: nat -> Verdict, work: nat -> Work)
    requires Keeps(inbox, at', OP_RSLT_FIN, verdict, work)
    requires Due(q, at, last, key, work) == Bytes(work(at).acts) + Due(inbox, at', OP_RSLT_FIN, key, work)
    requires Asks(q, at, last, work) == [at] + Asks(inbox, at', OP_RSLT_FIN, work)
    requires Payloads(out) == Bytes(work(at).acts)
    requires |executed| == |done| + 1 && executed[..|done|] == done && executed[|done|].asked == at
    ensures OnCourse(q, at, last, out, done, executed, inbox, at', OP_RSLT_FIN, true, key, verdict, work)
  {
    AskedNext(done, executed, at, Asks(inbox, at', OP_RSLT_FIN, work));
  }

  lemma KeptOther(q: seq<Message>, at: nat, last: Byte, op: Byte, out: seq<Message>, done: seq<Execution>, executed: seq<Execution>,
                  inbox: seq<Message>, at': nat, last': Byte, loop: bool, key: seq<Byte>, verdict: nat -> Verdict, work: nat -> Work)
    requires q != [] && Keeps(q, at, last, verdict, work) && op == Opcode(q[0]) != OP_STMT_SYN && at' == at + 1
    requires Moved(op, at, q[1..], out, done, executed, inbox, last', loop, key, verdict, work) && Fine(op, at, q[1..], verdict, work)
    ensures OnCourse(q, at, last, out, done, executed, inbox, at', last', loop, key, verdict, work)
  {
    Regroup([], [], Due(inbox, at', last', key, work));
  }

  lemma KeptFine(q: seq<Message>, at: nat, last: Byte, op: Byte, verdict: nat -> Verdict, work: nat -> Work)
    requires q != [] && Keeps(q, at, last, verdict, work) && op == Opcode(q[0])
    ensures Dispatched(SERVER, last, op) && Fine(op, at, q[1..], verdict, work)
  {
    ServerTable(last, op);
  }

  /** A client that keeps to the protocol goes on doing so, and gets what it has to get. */
  lemma KeptOn(q: seq<Message>, at: nat, last: Byte, op: Byte, out: seq<Message>, done: seq<Execution>, executed: seq<Execution>,
               inbox: seq<Message>, at': nat, last': Byte, loop: bool, key: seq<Byte>, verdict: nat -> Verdict, work: nat -> Work)
    requires q != [] && Keeps(q, at, last, verdict, work) && op == Opcode(q[0])
    requires |inbox| <= |q| && at' == at + |q| - |inbox| && Fine(op, at, q[1..], verdict, work)
    requires Moved(op, at, q[1..], out, done, executed, inbox, last', loop, key, verdict, work)
    ensures OnCourse(q, at, last, out, done, executed, inbox, at', last', loop, key, verdict, work)
  {
    if op == OP_STMT_SYN {
      var n := AcksOf(work(at));
      assert q[1..][n..] == q[1 + n..];
      KeepsStatement(q, at, last, key, verdict, work, inbox, at');
      KeptStatement(q, at, last, out, done, executed, inbox, at', key, verdict, work);
    } else {
      KeptOther(q, at, last, op, out, done, executed, inbox, at', last', loop, key, verdict, work);
    }
  }

  /** What is due then is what was due before, less what has been sent. */
  lemma StillDue(before: seq<Message>, sent: seq<Message>, rest: seq<Byte>, due: seq<Byte>)
    requires before <= sent && Payloads(sent[|before|..]) + rest == due
    ensures Payloads(sent) + rest == Payloads(before) + due
  {
    PayloadsAppend(before, sent[|before|..], sent);
    Regroup(Payloads(before), Payloads(sent[|before|..]), rest);
  }

  /** The same, for all that was sent. */
  lemma TurnKept(q: seq<Message>, at: nat, last: Byte, op: Byte, before: seq<Message>, sent: seq<Message>,
                 done: seq<Execution>, executed: seq<Execution>, inbox: seq<Message>, at': nat, last': Byte, loop: bool,
                 key: seq<Byte>, verdict: nat -> Verdict, work: nat -> Work)
    requires q != [] && Keeps(q, at, last, verdict, work) && op == Opcode(q[0]) && before <= sent
    requires |inbox| <= |q| && at' == at + |q| - |inbox|
    requires Dispatched(SERVER, last, op) ==>
               Moved(op, at, q[1..], sent[|before|..], done, executed, inbox, last', loop, key, verdict, work)
    ensures Dispatched(SERVER, last, op) && Fine(op, at, q[1..], verdict, work)
    ensures if loop then Keeps(inbox, at', last', verdict, work) else inbox == []
    ensures Payloads(sent) + Due(inbox, at', last', key, work) == Payloads(before) + Due(q, at, last, key, work)
    ensures AskedBy(executed) + Asks(inbox, at', last', work) == AskedBy(done) + Asks(q, at, last, work)
  {
    KeptFine(q, at, last, op, verdict, work);
    KeptOn(q, at, last, op, sent[|before|..], done, executed, inbox, at', last', loop, key, verdict, work);
    StillDue(before, sent, Due(inbox, at', last', key, work), Due(q, at, last, key, work));
  }

  lemma AskedNext(done: seq<Execution>, executed: seq<Execution>, at: nat, rest: seq<nat>)
    requires |executed| == |done| + 1 && executed[..|done|] == done && executed[|done|].asked == at
    ensures AskedBy(executed) + rest == AskedBy(done) + ([at] + rest)
  {
    assert forall i :: 0 <= i < |done| ==> executed[i] == done[i];
    assert AskedBy(executed) == AskedBy(done) + [at];
  }

  /** None of the first `n` messages is an attempt that was refused. */
  ghost predicate NoneRefused(all: seq<Message>, verdict: nat -> Verdict, n: nat) {
    n == 0 || n > |all| || (NoneRefused(all, verdict, n - 1) && !Refusal(all[n - 1], verdict(n - 1)))
  }

  lemma {:induction false} NotRefused(all: seq<Message>, verdict: nat -> Verdict, n: nat, k: nat)
    requires NoneRefused(all, verdict, n) && k < n <= |all|
    ensures !Refusal(all[k], verdict(k))
  {
    if k < n - 1 { NotRefused(all, verdict, n - 1, k); }
  }

  /** Access was granted to an accepted attempt, the first one that counted, and acknowledged. */
  datatype Grant = Grant(ackAt: nat, asked: nat)

  ghost predicate Granted(g: Grant, sent: seq<Message>, all: seq<Message>, verdict: nat -> Verdict, received: nat) {
    g.ackAt < |sent| && Opcode(sent[g.ackAt]) == OP_AUTH_ACK
    && g.asked < received <= |all| && IsLogin(all[g.asked]) && verdict(g.asked).Accepted? && NoneRefused(all, verdict, g.asked)
  }

  ghost predicate Earned(e: Execution, g: Grant, sent: seq<Message>, all: seq<Message>, received: nat) {
    g.ackAt < e.after <= |sent| && g.asked < e.asked < received <= |all| && Opcode(all[e.asked]) == OP_STMT_SYN
  }

  /** Access is acknowledged once granted, not before, and was before any statement. */
  ghost predicate Honest(granted: Option<Grant>, executed: seq<Execution>, sent: seq<Message>, all: seq<Message>,
                         verdict: nat -> Verdict, received: nat) {
    if granted.None? then executed == [] && forall j :: 0 <= j < |sent| ==> Opcode(sent[j]) != OP_AUTH_ACK
    else
      Granted(granted.value, sent, all, verdict, received)
      && forall i :: 0 <= i < |executed| ==> Earned(executed[i], granted.value, sent, all, received)
  }

  class Server {
    const buf: array<Byte>
    var size: nat
    var opsent: Byte
    var loop: bool
    var inbox: seq<Message>    // what the client is going to send
    var sent: seq<Message>
    ghost var grant: Option<Grant> // who was let in, and where that was acknowledged
    var executed: seq<Execution>
    const verdict: nat -> Verdict // by the index of the message
    const work: nat -> Work
    const key: seq<Byte>
    const all: seq<Message>       // the inbox at the start
    var overrun: bool             // a byte was put behind a full buffer

    constructor (inbox: seq<Message>, verdict: nat -> Verdict, work: nat -> Work, key: seq<Byte>)
      requires forall i :: 0 <= i < |inbox| ==> 1 <= |inbox[i]| <= BUFFER_SZ
      requires |key| <= BUFFER_SZ - OPCODE_SZ
      ensures Sound() && Ready() && Settled() && fresh(buf)
      ensures sent == [] && executed == [] && this.inbox == inbox && all == inbox && !overrun
      ensures this.verdict == verdict && this.work == work && this.key == key && loop && opsent == OP_NULL
    {
      buf := new Byte[BUFFER_SZ + PAD](_ => 0);
      size, opsent, loop := 0, OP_NULL, true;
      this.inbox, sent, grant, executed := inbox, [], None, [];
      this.verdict, this.work, this.key, all, overrun := verdict, work, key, inbox, false;
    }

    ghost predicate Shaped()
      reads this
    {
      buf.Length == BUFFER_SZ + PAD && size <= BUFFER_SZ && |key| <= BUFFER_SZ - OPCODE_SZ
      && (forall i :: 0 <= i < |inbox| ==> 1 <= |inbox[i]| <= BUFFER_SZ)
      && |inbox| <= |all| && inbox == all[|all| - |inbox|..]
    }

    /** How many messages have been received. */
    function Received(): nat
      reads this`inbox
    {
      if |inbox| <= |all| then |all| - |inbox| else 0
    }

    /** The client has been let in. */
    ghost predicate In()
      reads this`grant
    {
      grant.Some?
    }

    ghost predicate Trusted()
      reads this`grant, this`executed, this`sent, this`inbox
    {
      forall z: int {:trigger Peek(z)} :: Peek(z) ==> Honest(grant, executed, sent, all, verdict, Received())
    }

    ghost predicate Sound()
      reads this
    {
      Shaped() && Trusted() && (overrun ==> !loop && exists i :: 0 <= i < |all| && |all[i]| == BUFFER_SZ)
    }

    /** Sending and receiving keep trust, as long as AUTH_ACK is only sent to who was let in. */
    twostate lemma StillTrusted()
      requires old(Trusted()) && grant == old(grant) && executed == old(executed) && Received() >= old(Received()) && Received() <= |all|
      requires sent == old(sent) || (|sent| > 0 && sent[..|sent| - 1] == old(sent) && (In() || Opcode(sent[|sent| - 1]) != OP_AUTH_ACK))
      ensures Trusted()
    {
      assert Peek(0);
    }

    /** Without access nothing is received behind a refused attempt. */
    ghost predicate Settled()
      reads this
    {
      !In() ==> NoneRefused(all, verdict, if loop || Received() == 0 then Received() else Received() - 1)
    }

    /** The loop may go on: the last opcode is a row of the table, and rows that admit a statement are earned. */
    ghost predicate Ready()
      reads this
    {
      loop && inbox != [] ==> opsent < |SERVER| && (opsent in {OP_RSLT_SYN, OP_RSLT_FIN, OP_AUTH_ACK, OP_STMT_ERR} ==> In())
    }

    /** What holds while output is put. */
    ghost predicate Inside()
      reads this, buf
    {
      Sound() && !overrun && (In() || (buf[0] != OP_RSLT_SYN && buf[0] != OP_AUTH_ACK && size >= OPCODE_SZ))
      && (inbox != [] ==> size >= 1)
      && (loop && inbox != [] ==> opsent < |SERVER| && buf[0] < |SERVER|)
    }

    /** Nothing about who is in and what was executed has changed, and nothing was unsent. */
    twostate predicate Steady()
      reads this
    {
      grant == old(grant) && executed == old(executed) && old(sent) <= sent && |inbox| <= |old(inbox)|
    }

    method Send()
      requires Shaped()
      modifies this`opsent, this`sent
      ensures opsent == buf[0] && sent == old(sent) + [buf[..size]]
    {
      opsent := buf[0];
      sent := sent + [buf[..size]];
    }

    /** An empty inbox is a closed connection. */
    method Recv()
      requires Shaped()
      modifies this`size, this`inbox, buf
      ensures Shaped()
      ensures old(inbox) == [] ==> size == 0 && inbox == [] && buf[..] == old(buf[..])
      ensures old(inbox) != [] ==>
                (size == |old(inbox)[0]| && inbox == old(inbox)[1..] && buf[..size] == old(inbox)[0]
                 && old(inbox)[0] == all[|all| - |old(inbox)|])
    {
      if inbox == [] {
        size := 0;
      } else {
        var m := inbox[0];
        for i := 0 to |m|
          invariant buf[..i] == m[..i] && inbox == old(inbox) && size == old(size)
        {
          buf[i] := m[i];
        }
        size, inbox := |m|, inbox[1..];
        assert all[|all| - |inbox|..] == all[|all| - |old(inbox)|..][1..];
      }
    }

    /** `reset(op)` and `flush` with an opcode that needs no answer. */
    method Reply(op: Byte)
      requires Shaped() && op != OP_RSLT_SYN
      modifies this`size, this`opsent, this`sent, buf
      ensures Shaped() && opsent == op && buf[0] == op && size == OPCODE_SZ && sent == old(sent) + [[op, old(buf[1])]]
    {
      size := OPCODE_SZ;
      buf[0] := op;
      Send();
      assert buf[..OPCODE_SZ] == [op, old(buf[1])];
      size := OPCODE_SZ;
    }

    /** `flush`; for OP_RSLT_SYN the callback runs the loop again until the client has answered. */
    method FlushBuffer()
      requires Inside()
      modifies this, buf
      ensures Inside() && Steady() && old(sent) + [old(buf[..size])] <= sent
      ensures old(buf[0]) != OP_RSLT_SYN ==>
                (sent == old(sent) + [old(buf[..size])] && opsent == old(buf[0]) && buf[0] == old(buf[0]) && inbox == old(inbox)
                 && loop == old(loop) && size == OPCODE_SZ)
      ensures old(buf[0]) == OP_RSLT_SYN && old(inbox) != [] && old(inbox)[0] == ACK ==>
                (sent == old(sent) + [old(buf[..size])] && inbox == old(inbox)[1..] && size == OPCODE_SZ && buf[0] == OP_RSLT_SYN)
      ensures size == BUFFER_SZ ==> old(inbox) != [] && |old(inbox)[0]| == BUFFER_SZ && !loop
      decreases |inbox|, 2
    {
      Send();
      StillTrusted();
      size := OPCODE_SZ;
      if opsent == OP_RSLT_SYN {
        loop := true;
        Loop();
      }
    }

    /** After the only message that is read while a result is streamed. */
    twostate predicate Answered()
      reads this, buf
    {
      grant == old(grant) && executed == old(executed) && overrun == old(overrun)
      && if old(inbox) == [] then inbox == [] && size == 0
         else
           !loop && size in {|old(inbox)[0]|, OPCODE_SZ}
           && (old(inbox)[0] == ACK ==>
                 (sent == old(sent) && inbox == old(inbox)[1..] && size == OPCODE_SZ && buf.Length > 0 && buf[0] == OP_RSLT_SYN))
    }

    /** The state of the loop while it streams a result. */
    twostate predicate Streaming()
      reads this, buf
    {
      if loop then
        inbox == old(inbox) && sent == old(sent) && opsent == OP_RSLT_SYN
        && grant == old(grant) && executed == old(executed) && overrun == old(overrun)
      else old(inbox) != [] && Answered()
    }

    /** `fsm::loop` */
    method Loop()
      requires Sound() && Ready() && Settled()
      modifies this, buf
      ensures Sound() && Ready() && Settled() && old(sent) <= sent && |inbox| <= |old(inbox)|
      ensures old(loop) && old(opsent) == OP_RSLT_SYN ==> Answered()
      ensures old(loop && Kept()) ==> inbox == [] && Served()
      decreases |inbox|, 1
    {
      while loop
        invariant Sound() && Ready() && Settled() && old(sent) <= sent && |inbox| <= |old(inbox)|
        invariant old(loop) && old(opsent) == OP_RSLT_SYN ==> Streaming()
        invariant old(loop && Kept()) ==> Served()
        decreases |inbox|, loop
      {
        if inbox == [] {
          Recv();
          break;
        }
        Turn();
      }
    }

    /** The client keeps to the protocol from here on. */
    ghost predicate Kept()
      reads this
    {
      Keeps(inbox, Received(), opsent, verdict, work)
    }

    /** All that such a client has got and will get, and all statements it has had and will have executed. */
    ghost function Total(): (seq<Byte>, seq<nat>)
      reads this
    {
      (Payloads(sent) + Due(inbox, Received(), opsent, key, work), AskedBy(executed) + Asks(inbox, Received(), opsent, work))
    }

    /** Nothing is lost and nothing goes wrong for it. */
    twostate predicate Served()
      reads this
    {
      (if loop then Kept() else inbox == []) && Total() == old(Total()) && overrun == old(overrun)
    }

    /** One turn of the loop with a message to receive. */
    method Turn()
      requires Sound() && Ready() && Settled() && loop && inbox != []
      modifies this, buf
      ensures Sound() && Ready() && Settled() && old(sent) <= sent && |inbox| < |old(inbox)|
      ensures old(opsent) == OP_RSLT_SYN ==> Answered()
      ensures old(Kept()) ==> Served()
      decreases |inbox|, 0
    {
      ghost var q, at, last, before, done, kept := inbox, Received(), opsent, sent, executed, Kept();
      var op := Receive();
      React(op);
      if kept {
        TurnKept(q, at, last, op, before, sent, done, executed, inbox, Received(), opsent, loop, key, verdict, work);
      }
    }

    /** What the server does about a message that the table admits. */
    twostate predicate Reacted(op: Byte)
      reads this, buf
    {
      old(sent) <= sent && 1 < buf.Length
      && if op == OP_TERM_SYN then Over() && size == OPCODE_SZ && sent == old(sent) + [[OP_TERM_ACK, old(buf[1])]]
         else if op == OP_TERM_ACK || op == OP_RSLT_ACK then
           Over() && sent == old(sent) && size == old(size) && buf[..] == old(buf[..])
         else if op == OP_CONN_SYN then
           Carries(sent[|old(sent)|..], OP_CONN_ACK, key) && Steady() && Going() && opsent == OP_CONN_ACK
         else if op == OP_AUTH_SYN then Judged(verdict(if old(Received()) > 0 then old(Received()) - 1 else 0))
         else
           op == OP_STMT_SYN ==>
             (var at := if old(Received()) > 0 then old(Received()) - 1 else 0;
              executed == old(executed) + [Execution(at, |old(sent)|)] && Finished(work(at)))
    }

    twostate predicate Going()
      reads this
    {
      loop == old(loop) && inbox == old(inbox) && overrun == old(overrun)
    }

    /** One turn of the loop behind `recv`: nop, or what the table says. */
    method React(op: Byte)
      requires Sound() && loop && opsent < |SERVER| && (opsent in {OP_RSLT_SYN, OP_RSLT_FIN, OP_AUTH_ACK, OP_STMT_ERR} ==> In())
      requires Received() > 0 && Opcode(all[Received() - 1]) == op && (!In() ==> NoneRefused(all, verdict, Received() - 1))
      modifies this, buf
      ensures Sound() && Ready() && Settled() && old(sent) <= sent && |inbox| <= |old(inbox)|
      ensures old(opsent) == OP_RSLT_SYN ==> Over() && size in {old(size), OPCODE_SZ}
      ensures old(opsent) == OP_RSLT_SYN && op == OP_RSLT_ACK ==> sent == old(sent) && size == old(size) && buf[0] == old(buf[0])
      ensures !old(Dispatched(SERVER, opsent, op)) ==> Over() && sent == old(sent)
      ensures old(Dispatched(SERVER, opsent, op)) ==>
                Moved(op, old(Received()) - 1, old(inbox), sent[|old(sent)|..], old(executed), executed, inbox, opsent, loop, key, verdict, work)
      ensures old(Dispatched(SERVER, opsent, op)) && Fine(op, old(Received()) - 1, old(inbox), verdict, work) ==> overrun == old(overrun)
      decreases |inbox|, 11
    {
      if op > SERVER_MAX {
        loop := false; // nop
      } else {
        ServerTable(opsent, op);
        if SERVER[opsent][op] == R { Rcvd(op); } else { loop := false; }
      }
    }

    /** The opcode of the next message. */
    method Receive() returns (op: Byte)
      requires Sound() && Settled() && loop && inbox != []
      modifies this`size, this`inbox, buf
      ensures Sound() && op == buf[0] == Opcode(old(inbox)[0]) && inbox == old(inbox)[1..]
      ensures size == |old(inbox)[0]| && buf[..size] == old(inbox)[0]
      ensures Received() == old(Received()) + 1 && Opcode(all[Received() - 1]) == op
      ensures !In() ==> NoneRefused(all, verdict, Received() - 1)
    {
      Recv();
      op := buf[0];
      assert op == buf[..size][0];
      StillTrusted();
    }

    /** A message that the table admits has just been received. */
    ghost predicate Admitted(op: Byte)
      reads this
    {
      Received() > 0 && Opcode(all[Received() - 1]) == op && op <= SERVER_MAX && Dispatched(SERVER, opsent, op)
      && (opsent in {OP_RSLT_SYN, OP_RSLT_FIN, OP_AUTH_ACK, OP_STMT_ERR} ==> In())
      && (!In() ==> NoneRefused(all, verdict, Received() - 1)) && !overrun && Sound()
    }

    /** The loop ends and nothing else happens but, maybe, one message. */
    twostate predicate Over()
      reads this
    {
      !loop && grant == old(grant) && executed == old(executed) && overrun == old(overrun) && inbox == old(inbox)
    }

    /** `rcvd`: the server's reaction to a message its table admits. */
    method Rcvd(op: Byte)
      requires Admitted(op)
      modifies this, buf
      ensures Sound() && Ready() && Settled() && old(sent) <= sent && |inbox| <= |old(inbox)|
      ensures Reacted(op)
      decreases |inbox|, 10
    {
      ServerTable(opsent, op);
      var at := |all| - |inbox| - 1;
      if op == OP_TERM_SYN {
        Reply(OP_TERM_ACK);
        StillTrusted();
        loop := false;
      } else if op == OP_TERM_ACK || op == OP_RSLT_ACK {
        loop := false;
      } else if op == OP_CONN_SYN {
        SendText(OP_CONN_ACK, key);
      } else if op == OP_AUTH_SYN {
        Authenticate(verdict(at));
      } else {
        Ask(at);
        Execute(work(at));
      }
    }

    /** Remember the statement that is going to be executed. */
    method Ask(at: nat)
      requires Admitted(OP_STMT_SYN) && In() && at == Received() - 1
      modifies this`executed
      ensures Sound() && executed == old(executed) + [Execution(at, |sent|)]
    {
      assert Peek(0);
      assert all[grant.value.asked] != all[at] ==> grant.value.asked != at;
      executed := executed + [Execution(at, |sent|)];
    }

    /** What an attempt to authenticate is answered with: only an accepted one gets access, a refused one ends the loop. */
    twostate predicate Judged(v: Verdict)
      reads this, buf
    {
      old(sent) <= sent && executed == old(executed) && inbox == old(inbox) && overrun == old(overrun) && buf.Length > 1
      && match v
         case Accepted => In() && sent == old(sent) + [[OP_AUTH_ACK, old(buf[1])]] && loop == old(loop) && opsent == OP_AUTH_ACK
         case Refused => grant == old(grant) && sent == old(sent) + [[OP_AUTH_ERR, old(buf[1])]] && !loop
         case Broken(text) =>
           grant == old(grant) && !loop && |sent| > |old(sent)| && Opcode(sent[|sent| - 1]) == OP_AUTH_ERR
           && Carries(sent[|old(sent)|..|sent| - 1], OP_AUTH_ERR, text)
         case Illegible(text) =>
           grant == old(grant) && loop == old(loop) && Carries(sent[|old(sent)|..], OP_AUTH_ERR, text)
    }

    method Authenticate(v: Verdict)
      requires Admitted(OP_AUTH_SYN) && v == verdict(Received() - 1)
      modifies this, buf
      ensures Sound() && Ready() && Settled() && Judged(v)
      decreases |inbox|, 8
    {
      match v
      case Accepted =>
        LetIn();
      case Refused =>
        Reply(OP_AUTH_ERR);
        StillTrusted();
        loop := false;
      case Broken(text) =>
        SendText(OP_AUTH_ERR, text);
        SayNo();
      case Illegible(text) =>
        SendText(OP_AUTH_ERR, text);
    }

    method LetIn()
      requires Admitted(OP_AUTH_SYN) && verdict(Received() - 1).Accepted?
      modifies this, buf
      ensures Sound() && Ready() && Judged(Accepted)
    {
      assert Peek(0);
      Reply(OP_AUTH_ACK);
      if grant.None? { grant := Some(Grant(|sent| - 1, Received() - 1)); }
    }

    method SayNo()
      requires Sound()
      modifies this, buf
      ensures Sound() && !loop && Steady() && inbox == old(inbox) && overrun == old(overrun)
      ensures |sent| == |old(sent)| + 1 && sent[..|sent| - 1] == old(sent) && Opcode(sent[|sent| - 1]) == OP_AUTH_ERR
    {
      Reply(OP_AUTH_ERR);
      StillTrusted();
      loop := false;
    }

    /** `reset(op)`, `put(text)`, `flush`: the text in messages that are full, but for the last one. */
    method SendText(op: Byte, text: seq<Byte>)
      requires Sound() && !overrun && op != OP_RSLT_SYN && op < |SERVER| && (loop && inbox != [] ==> opsent < |SERVER|)
      requires !In() ==> op != OP_AUTH_ACK
      modifies this, buf
      ensures Sound() && opsent == op && Steady() && !overrun && inbox == old(inbox) && loop == old(loop)
      ensures Carries(sent[|old(sent)|..], op, text)
      decreases |inbox|, 7
    {
      size := OPCODE_SZ;
      buf[0] := op;
      ghost var start := |sent|;
      assert sent[start..] == [] && buf[OPCODE_SZ..size] == [];
      assert Peek(0);
      PutText(text, start, [], 0, true, Outlook(|text|));
      assert [] + text == text;
      FlushText(start, text);
    }

    /** The flush behind a text. */
    method FlushText(ghost start: nat, ghost text: seq<Byte>)
      requires Inside() && buf[0] != OP_RSLT_SYN && Holding(start, text, true)
      modifies this, buf
      ensures Inside() && Steady() && opsent == old(buf[0]) && inbox == old(inbox) && loop == old(loop)
      ensures Carries(sent[start..], opsent, text)
      decreases |inbox|, 3
    {
      ghost var before, m := sent, buf[..size];
      assert m[0] == buf[0] && buf[OPCODE_SZ..size] == m[OPCODE_SZ..];
      FlushBuffer();
      LastCarries(before, start, m, opsent, text);
    }

    /** What was sent from message `start` on, and what still is in the buffer, is `want`; `full` if nothing was flushed early. */
    ghost predicate Holding(start: nat, want: seq<Byte>, full: bool)
      reads this, buf
    {
      OPCODE_SZ <= size <= buf.Length && start <= |sent|
      && Payloads(sent[start..]) + buf[OPCODE_SZ..size] == want && Under(sent[start..], buf[0]) && (full ==> Full(sent[start..]))
    }

    /** That many ACKs come next, if a result is put. */
    ghost predicate Acked(n: int)
      reads this, buf
    {
      buf.Length > 0 && (buf[0] == OP_RSLT_SYN ==> AllAcks(inbox, n))
    }

    /** Output under another opcode than OP_RSLT_SYN reads nothing. */
    twostate predicate Calm()
      reads this, buf
    {
      0 < buf.Length && buf[0] == old(buf[0]) && inbox == old(inbox) && loop == old(loop) && size >= OPCODE_SZ
    }

    /**
     How many messages will have been sent and how many will be left to receive, and the size of the
     buffer, when `left` more bytes have been put.
     */
    function Outlook(left: nat): (int, int, nat)
      requires buf.Length > 0
      reads this, buf
    {
      var n := Flushes(size, left);
      (|sent| + n, |inbox| - (if buf[0] == OP_RSLT_SYN then n else 0), SizeAfter(size, left))
    }

    /**
     What has been put under opcode `op` is `want`, there are ACKs for what `left` more bytes fill and for
     what comes `later`, and that is where it will end.
     */
    ghost predicate Putting(op: Byte, start: nat, want: seq<Byte>, left: nat, later: nat, full: bool, view: (int, int, nat))
      reads this, buf
    {
      forall z: int {:trigger Peek(z)} :: Peek(z) ==>
        (Holding(start, want, full) && Acked(Flushes(size, left) + later) && buf[0] == op && Outlook(left) == view)
    }

    /** `put`: byte by byte; with an ACK for every full buffer of a result nothing is lost, doubled or moved. */
    method PutText(text: seq<Byte>, ghost start: nat, ghost want: seq<Byte>, ghost later: nat, ghost full: bool, ghost view: (int, int, nat))
      requires Inside()
      modifies this, buf
      ensures Sound() && (!overrun ==> Inside()) && Steady()
      ensures old(size) >= OPCODE_SZ && old(buf[0]) != OP_RSLT_SYN ==> !overrun && Calm()
      ensures old(Putting(buf[0], start, want, |text|, later, full, view)) ==>
                !overrun && Putting(old(buf[0]), start, want + text, 0, later, full, view)
      decreases |inbox|, 6
    {
      ghost var calm, op := size >= OPCODE_SZ && buf[0] != OP_RSLT_SYN, buf[0];
      ghost var putting := Putting(op, start, want, |text|, later, full, view);
      assert want + text[..0] == want;
      for i := 0 to |text|
        invariant Inside() && Steady()
        invariant calm ==> Calm()
        invariant putting ==> Putting(op, start, want + text[..i], |text| - i, later, full, view)
      {
        assert want + text[..i] + [text[i]] == want + text[..i + 1];
        PutNext(text[i], op, start, want + text[..i], |text| - i, later, full, view);
        if overrun { return; }
      }
      assert text[..|text|] == text;
    }

    method PutNext(b: Byte, ghost op: Byte, ghost start: nat, ghost want: seq<Byte>, ghost left: nat, ghost later: nat, ghost full: bool,
                   ghost view: (int, int, nat))
      requires Inside() && left > 0
      modifies this, buf
      ensures Sound() && (!overrun ==> Inside()) && Steady()
      ensures old(size) >= OPCODE_SZ && old(buf[0]) != OP_RSLT_SYN ==> !overrun && Calm()
      ensures old(Putting(op, start, want, left, later, full, view)) ==>
                !overrun && Putting(op, start, want + [b], left - 1, later, full, view)
      decreases |inbox|, 5
    {
      assert Peek(0);
      OneByte(size, left);
      PutByte(b, start, want, Flushes(size, left) - Spill(size) + later, full);
    }

    /** A full buffer was sent, and acknowledged if it is part of a result. */
    twostate predicate Spilt()
      reads this, buf
    {
      buf.Length > 0 && |sent| == |old(sent)| + Spill(old(size))
      && |inbox| == |old(inbox)| - if buf[0] == OP_RSLT_SYN then Spill(old(size)) else 0
    }

    /** One round of `put`. */
    method PutByte(b: Byte, ghost start: nat, ghost want: seq<Byte>, ghost later: int, ghost full: bool)
      requires Inside()
      modifies this, buf
      ensures Sound() && (!overrun ==> Inside()) && Steady()
      ensures old(size) >= OPCODE_SZ && old(buf[0]) != OP_RSLT_SYN ==> !overrun && Calm()
      ensures old(Holding(start, want, full) && Acked(Spill(size) + later)) && later >= 0 ==>
                (!overrun && Holding(start, want + [b], full) && Acked(later) && buf[0] == old(buf[0])
                 && Spilt() && size == (if old(size) == BUFFER_SZ then OPCODE_SZ else old(size)) + 1)
      decreases |inbox|, 4
    {
      MakeSpace(start, want, later, full);
      if overrun { return; }
      ghost var part, holding := buf[..size], Holding(start, want, full);
      Store(b);
      if holding {
        assert Payloads(sent[start..]) + (part[OPCODE_SZ..] + [b]) == want + [b];
      }
    }

    /** A full buffer is flushed before a byte is put. */
    method MakeSpace(ghost start: nat, ghost want: seq<Byte>, ghost later: int, ghost full: bool)
      requires Inside()
      modifies this, buf
      ensures Sound() && (!overrun ==> Inside() && size < BUFFER_SZ) && Steady()
      ensures old(size) >= OPCODE_SZ && old(buf[0]) != OP_RSLT_SYN ==> !overrun && Calm()
      ensures old(Holding(start, want, full) && Acked(Spill(size) + later)) && later >= 0 ==>
                (!overrun && Holding(start, want, full) && Acked(later) && buf[0] == old(buf[0])
                 && Spilt() && size == if old(size) == BUFFER_SZ then OPCODE_SZ else old(size))
      decreases |inbox|, 3
    {
      if size < BUFFER_SZ { return; }
      ghost var before, m, holding := sent, buf[..size], Holding(start, want, full) && Acked(1 + later) && later >= 0;
      FlushBuffer();
      if size == BUFFER_SZ {
        assert |all[|all| - |old(inbox)|]| == BUFFER_SZ;
        overrun := true;
        return;
      }
      if holding { Flushed(before, start, m, want); }
    }

    /** The buffer has been sent and is empty. */
    lemma Flushed(before: seq<Message>, start: nat, m: Message, want: seq<Byte>)
      requires buf.Length > 0 && start <= |before| && sent == before + [m] && size == OPCODE_SZ <= |m| && size <= buf.Length
      requires Payloads(before[start..]) + m[OPCODE_SZ..] == want && m[0] == buf[0] && Under(before[start..], buf[0])
      ensures Holding(start, want, Full(before[start..]) && |m| == BUFFER_SZ)
    {
      OneMoreSent(before, start, m, buf[0]);
      assert buf[OPCODE_SZ..size] == [] && want + [] == want;
    }

    method Store(b: Byte)
      requires Shaped() && size < BUFFER_SZ
      modifies this`size, buf
      ensures size == old(size) + 1
      ensures old(size) > 0 ==> buf[0] == old(buf[0])
      ensures old(size) >= OPCODE_SZ ==> buf[OPCODE_SZ..size] == old(buf[..size])[OPCODE_SZ..] + [b]
    {
      buf[size] := b;
      size := size + 1;
    }

    /** A flush that the statement asks for. */
    method FlushNow(ghost start: nat, ghost want: seq<Byte>, ghost later: nat)
      requires Inside() && In()
      modifies this, buf
      ensures Inside() && Steady()
      ensures old(Holding(start, want, false) && Acked(1 + later)) ==>
                (Holding(start, want, false) && size == OPCODE_SZ && buf[0] == old(buf[0]) && Acked(later)
                 && |inbox| == |old(inbox)| - if buf[0] == OP_RSLT_SYN then 1 else 0)
      decreases |inbox|, 3
    {
      ghost var before, m, holding := sent, buf[..size], Holding(start, want, false) && Acked(1 + later);
      FlushBuffer();
      if holding { Flushed(before, start, m, want); }
    }

    /** What has been put is `want`, and there are ACKs for the acts that are left. */
    ghost predicate Flowing(start: nat, want: seq<Byte>, acts: seq<Act>)
      reads this, buf
    {
      Holding(start, want, false) && Acked(Acks(size, acts))
    }

    /** How many messages will be left when the client has acknowledged the acts. */
    function Rest(acts: seq<Act>): int
      requires buf.Length > 0
      reads this, buf
    {
      |inbox| - if buf[0] == OP_RSLT_SYN then Acks(size, acts) else 0
    }

    /** One piece of output: what it puts is behind what was put before. */
    method OutputOne(act: Act, ghost rest: seq<Act>, ghost start: nat, ghost want: seq<Byte>)
      requires Inside() && In()
      modifies this, buf
      ensures Sound() && (!overrun ==> Inside()) && Steady()
      ensures old(Flowing(start, want, [act] + rest)) ==>
                (!overrun && Flowing(start, want + BytesOf(act), rest) && buf[0] == old(buf[0]) && Rest(rest) == old(Rest([act] + rest)))
      decreases |inbox|, 7
    {
      assert Peek(0) && ([act] + rest)[1..] == rest;
      match act
      case Flush =>
        FlushNow(start, want, Acks(OPCODE_SZ, rest));
        assert want + [] == want;
      case Put(text) => PutText(text, start, want, Acks(SizeAfter(size, |text|), rest), false, Outlook(|text|));
    }

    method Output(acts: seq<Act>, ghost start: nat)
      requires Inside() && In()
      modifies this, buf
      ensures Sound() && (!overrun ==> Inside()) && Steady()
      ensures old(Flowing(start, [], acts)) ==>
                !overrun && Holding(start, Bytes(acts), false) && buf[0] == old(buf[0]) && |inbox| == old(Rest(acts))
      decreases |inbox|, 8
    {
      ghost var flowing := Flowing(start, [], acts);
      assert acts[0..] == acts && Bytes(acts[..0]) == [];
      for i := 0 to |acts|
        invariant Inside() && Steady()
        invariant flowing ==>
                    Flowing(start, Bytes(acts[..i]), acts[i..]) && buf[0] == old(buf[0]) && Rest(acts[i..]) == old(Rest(acts))
      {
        NextAct(acts, i);
        OutputOne(acts[i], acts[i + 1..], start, Bytes(acts[..i]));
        if overrun { return; }
      }
      assert acts[..|acts|] == acts && acts[|acts|..] == [];
    }

    /** The client acknowledges all of a result. */
    ghost predicate Listening(w: Work)
      reads this
    {
      w.labelled ==> AllAcks(inbox, Acks(OPCODE_SZ, w.acts))
    }

    /** What a statement has sent, and how many messages were received meanwhile. */
    twostate predicate Finished(w: Work)
      reads this
    {
      old(sent) <= sent
      && (w.ending.Done? && old(Listening(w)) ==>
            (!overrun && Delivered(w, sent[|old(sent)|..]) && |inbox| == |old(inbox)| - AcksOf(w)
             && loop && opsent == OP_RSLT_FIN))
      && (w.ending.Fails? && !overrun ==> EndsWith(sent[|old(sent)|..], w.ending.text))
    }

    /** A statement's output and its end. */
    method Execute(w: Work)
      requires Sound() && In() && opsent < |SERVER| && !overrun
      modifies this, buf
      ensures Sound() && Ready() && Steady() && Finished(w)
      decreases |inbox|, 9
    {
      size := OPCODE_SZ;
      if w.labelled { buf[0] := OP_RSLT_SYN; } else { buf[0] := OP_STMT_SYN; }
      ghost var start := |sent|;
      assert sent[start..] == [] && buf[OPCODE_SZ..size] == [];
      Output(w.acts, start);
      if !overrun { Conclude(w, start); }
    }

    method Conclude(w: Work, ghost start: nat)
      requires Inside() && In() && start <= |sent|
      modifies this, buf
      ensures Sound() && Ready() && Steady() && !overrun
      ensures w.ending.Done? && old(Holding(start, Bytes(w.acts), false) && buf[0] == Label(w)) ==>
                Delivered(w, sent[start..]) && inbox == old(inbox) && loop && opsent == OP_RSLT_FIN
      ensures w.ending.Fails? ==> EndsWith(sent[start..], w.ending.text)
      decreases |inbox|, 8
    {
      match w.ending
      case Done =>
        FlushLast(start, Bytes(w.acts), Label(w));
        loop := true; // ret
      case Fails(text) =>
        ghost var k := |sent|;
        SendText(OP_STMT_ERR, text);
        assert sent[start..][k - start..] == sent[k..];
      case Crashes =>
    }

    method FlushLast(ghost start: nat, ghost want: seq<Byte>, ghost op: Byte)
      requires Inside() && In() && start <= |sent|
      modifies this, buf
      ensures Inside() && Steady() && opsent == OP_RSLT_FIN && inbox == old(inbox)
      ensures old(Holding(start, want, false) && buf[0] == op) ==> Marked(sent[start..], op, want)
      decreases |inbox|, 3
    {
      ghost var before, held, holding := sent, buf[..size], Holding(start, want, false) && buf[0] == op;
      buf[0] := OP_RSLT_FIN;
      ghost var m := buf[..size];
      assert |m| >= OPCODE_SZ ==> m[OPCODE_SZ..] == held[OPCODE_SZ..] && m[0] == OP_RSLT_FIN;
      FlushBuffer();
      if holding { LastMarked(before, start, m, op, want); }
    }
  }

  lemma NextAct(acts: seq<Act>, i: nat)
    requires i < |acts|
    ensures acts[i..] == [acts[i]] + acts[i + 1..] && Bytes(acts[..i + 1]) == Bytes(acts[..i]) + BytesOf(acts[i])
  {
    assert acts[..i + 1][..i] == acts[..i];
  }

  /** The last message of a text. */
  lemma LastCarries(before: seq<Message>, start: nat, m: Message, op: Byte, text: seq<Byte>)
    requires start <= |before| && |m| >= OPCODE_SZ && m[0] == op && Payloads(before[start..]) + m[OPCODE_SZ..] == text
    requires Under(before[start..], op) && Full(before[start..])
    ensures Carries((before + [m])[start..], op, text)
  {
    OneMoreSent(before, start, m, op);
  }

  lemma LastMarked(before: seq<Message>, start: nat, m: Message, op: Byte, want: seq<Byte>)
    requires start <= |before| && |m| >= OPCODE_SZ && m[0] == OP_RSLT_FIN && Payloads(before[start..]) + m[OPCODE_SZ..] == want
    requires Under(before[start..], op)
    ensures Marked((before + [m])[start..], op, want)
  {
    OneMoreSent(before, start, m, op);
  }

  /** One more message. */
  lemma OneMoreSent(before: seq<Message>, at: nat, m: Message, op: Byte)
    requires at <= |before|
    ensures var ms := (before + [m])[at..];
            && ms != [] && ms[..|ms| - 1] == before[at..] && Payloads(ms) == Payloads(before[at..]) + Payload(m)
            && (Under(ms, op) <==> Under(before[at..], op) && Opcode(m) == op)
            && (Full(ms) <==> Full(before[at..]) && |m| == BUFFER_SZ)
  {
    var ms := (before + [m])[at..];
    assert ms == before[at..] + [m];
    assert ms[..|ms| - 1] == before[at..];
  }

  /** Some attempt before message `n` was accepted. */
  ghost predicate AcceptedBefore(inbox: seq<Message>, verdict: nat -> Verdict, n: nat) {
    exists k: nat :: k < n && k < |inbox| && IsLogin(inbox[k]) && verdict(k).Accepted?
  }

  /** AUTH_ACK is one of the first `n` messages sent. */
  predicate Acknowledged(sent: seq<Message>, n: nat) {
    exists j: nat :: j < n && j < |sent| && Opcode(sent[j]) == OP_AUTH_ACK
  }

  /**
   A whole session with any client.  Every statement was asked for by a message behind an accepted attempt
   to authenticate, and executed after AUTH_ACK; without an accepted attempt nothing is executed and
   AUTH_ACK is not sent; nothing is read behind a refused attempt, unless one was accepted before it; the
   buffer was only ever overrun if some message filled it completely.  A client that keeps to the protocol
   is served: all its messages are read, all its statements are executed in order, and it is sent the key
   and the outputs of its statements, each byte once and in order.
   */
  method Serve(inbox: seq<Message>, verdict: nat -> Verdict, work: nat -> Work, key: seq<Byte>)
      returns (sent: seq<Message>, executed: seq<Execution>, read: nat, overrun: bool)
    requires forall i :: 0 <= i < |inbox| ==> 1 <= |inbox[i]| <= BUFFER_SZ
    requires |key| <= BUFFER_SZ - OPCODE_SZ
    ensures read <= |inbox|
    ensures forall i :: 0 <= i < |executed| ==>
              (executed[i].asked < read && Opcode(inbox[executed[i].asked]) == OP_STMT_SYN
               && AcceptedBefore(inbox, verdict, executed[i].asked) && Acknowledged(sent, executed[i].after))
    ensures Acknowledged(sent, |sent|) || executed != [] ==> AcceptedBefore(inbox, verdict, read)
    ensures forall k :: 0 <= k < read - 1 && Refusal(inbox[k], verdict(k)) ==> AcceptedBefore(inbox, verdict, k)
    ensures (forall i :: 0 <= i < |inbox| ==> |inbox[i]| < BUFFER_SZ) ==> !overrun
    ensures Keeps(inbox, 0, OP_NULL, verdict, work) ==>
              (read == |inbox| && !overrun && Payloads(sent) == Due(inbox, 0, OP_NULL, key, work)
               && AskedBy(executed) == Asks(inbox, 0, OP_NULL, work))
  {
    var server := new Server(inbox, verdict, work, key);
    server.Loop();
    assert Peek(0);
    assert [] + Due(inbox, 0, OP_NULL, key, work) == Due(inbox, 0, OP_NULL, key, work);
    assert [] + Asks(inbox, 0, OP_NULL, work) == Asks(inbox, 0, OP_NULL, work);
    sent, executed, overrun := server.sent, server.executed, server.overrun;
    read := |inbox| - |server.inbox|;
    forall k | 0 <= k < read - 1 && Refusal(inbox[k], verdict(k)) ensures AcceptedBefore(inbox, verdict, k) {
      if server.In() {
        if k < server.grant.value.asked { NotRefused(inbox, verdict, server.grant.value.asked, k); }
      } else {
        NotRefused(inbox, verdict, if server.loop then read else read - 1, k);
      }
    }
  }
}
