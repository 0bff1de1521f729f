/**
 Client and server of one session run against each other.  A run is any
 interleaving of their steps; the user chooses when to send, the statement
 chooses what the server puts.
 */
module SessionPair {
  import opened Prelude
  import opened SessionWire

  const ROOM: nat := BUFFER_SZ - OPCODE_SZ

  /** What a statement does with the session: put a byte, or flush at once. */
  datatype Act = Put(b: Byte) | Flush

  datatype Phase =
    | Idle                              // in the session's loop
    | Working(todo: seq<Act>, fin: Byte) // executing; the last flush has opcode `fin`
    | Waiting(todo: seq<Act>, fin: Byte) // inside the flush callback, waiting for an ACK
    | Closed

  datatype User = Start | Connecting | Connected | Authenticating | Ready | Busy | Leaving | Gone

  /** A side's buffer is its opcode byte and what stands behind the two header bytes. */
  datatype State = State(
    user: User, cliSent: Byte, printed: seq<Byte>,
    phase: Phase, srvSent: Byte, op: Byte, payload: seq<Byte>,
    toServer: seq<Message>, toClient: seq<Message>,
    put: seq<Byte>, // what a correct client prints
    nop: bool)      // one side was dispatched to nop

  const INIT: State := State(Start, OP_NULL, [], Idle, OP_NULL, OP_NULL, [], [], [], [], false)

  /** How a statement answers. */
  datatype Answer =
    | Stream(acts: seq<Act>)  // reset(OP_RSLT_SYN), then any output
    | Status(text: seq<Byte>) // reset(), which keeps the opcode that was received
    | Error(text: seq<Byte>)  // reset(OP_STMT_ERR)

  datatype Step =
    | Connect | Authenticate(cred: seq<Byte>) | Submit(stmt: seq<Byte>) | Leave // the user
    | ClientReceive
    | ServerReceive(answer: Answer)
    | ServerWork

  // ------------------------------------------------------------------ client

  function Send(s: State, op: Byte, body: seq<Byte>): State {
    s.(cliSent := op, toServer := s.toServer + [[op, TYPE_TXT] + body])
  }

  function ClientReceives(s: State): State
    requires s.toClient != [] && s.cliSent < |CLIENT|
  {
    var m := s.toClient[0];
    var t, op := s.(toClient := s.toClient[1..]), Opcode(m);
    if op > CLIENT_MAX || CLIENT[s.cliSent][op] == N then t.(nop := true, user := Gone)
    else if op == OP_TERM_SYN then Send(t, OP_TERM_ACK, []).(user := Gone)
    else if op == OP_TERM_ACK then t.(user := Gone)
    else if op == OP_RSLT_SYN then Send(t.(printed := s.printed + Payload(m)), OP_RSLT_ACK, [])
    else if op == OP_RSLT_FIN then t.(printed := s.printed + Payload(m) + [NEWLINE], user := Ready)
    else if op == OP_CONN_ACK then t.(user := Connected)
    else if op == OP_AUTH_ACK then t.(user := Ready)
    else if op == OP_STMT_ERR then t.(printed := s.printed + Payload(m), user := Ready)
    else t
  }

  // ------------------------------------------------------------------ server

  /** `flush` up to the callback: send, remember the opcode, reset the size. */
  function Flushed(s: State): State {
    s.(srvSent := s.op, payload := [], toClient := s.toClient + [[s.op, TYPE_TXT] + s.payload])
  }

  function Puts(text: seq<Byte>): seq<Act> {
    seq(|text|, i requires 0 <= i < |text| => Put(text[i]))
  }

  function Begin(s: State, answer: Answer): State {
    match answer
    case Stream(acts) => s.(op := OP_RSLT_SYN, payload := [], phase := Working(acts, OP_RSLT_FIN))
    case Status(text) => s.(payload := [], phase := Working(Puts(text), OP_RSLT_FIN))
    case Error(text) => s.(op := OP_STMT_ERR, payload := [], phase := Working(Puts(text), OP_STMT_ERR))
  }

  /** recv overwrites the buffer: its opcode and size are now those of the message. */
  function ServerReceives(s: State, answer: Answer): State
    requires s.toServer != [] && s.srvSent < |SERVER|
  {
    var m := s.toServer[0];
    var op := Opcode(m);
    var t := s.(toServer := s.toServer[1..], op := op, payload := Payload(m));
    if op > SERVER_MAX || SERVER[s.srvSent][op] == N then t.(nop := true, phase := Closed)
    else if op == OP_TERM_SYN then Flushed(t.(op := OP_TERM_ACK, payload := [])).(phase := Closed)
    else if op == OP_RSLT_ACK && s.phase.Waiting? then t.(phase := Working(s.phase.todo, s.phase.fin))
    else if op == OP_CONN_SYN then Flushed(t.(op := OP_CONN_ACK, payload := []))
    else if op == OP_AUTH_SYN then Flushed(t.(op := OP_AUTH_ACK, payload := []))
    else if op == OP_STMT_SYN then Begin(t, answer)
    else t.(phase := Closed)
  }

  /** A flush inside a statement; only OP_RSLT_SYN waits for the client. */
  function FlushInside(s: State, todo: seq<Act>): State
    requires s.phase.Working?
  {
    Flushed(s).(phase := if s.op == OP_RSLT_SYN then Waiting(todo, s.phase.fin) else Working(todo, s.phase.fin))
  }

  function Works(s: State): State
    requires s.phase.Working?
  {
    var todo, fin := s.phase.todo, s.phase.fin;
    if todo == [] then
      Flushed(s.(op := fin)).(phase := Idle, put := s.put + if fin == OP_RSLT_FIN then [NEWLINE] else [])
    else if todo[0] == Flush then FlushInside(s, todo[1..])
    else if |s.payload| == ROOM then FlushInside(s, todo)
    else s.(payload := s.payload + [todo[0].b], put := s.put + [todo[0].b], phase := Working(todo[1..], fin))
  }

  // -------------------------------------------------------------------- runs

  /** A status line is one of a few short sentences; an error quotes the rest of the statement. */
  predicate Possible(answer: Answer) {
    answer.Status? ==> |answer.text| <= ROOM
  }

  /** An error message, if it is one, fits one buffer. */
  predicate Brief(step: Step) {
    step.ServerReceive? && step.answer.Error? ==> |step.answer.text| <= ROOM
  }

  predicate AllBrief(steps: seq<Step>) {
    forall i :: 0 <= i < |steps| ==> Brief(steps[i])
  }

  predicate Enabled(s: State, step: Step) {
    match step
    case Connect => s.user == Start
    case Authenticate(cred) => s.user == Connected && |cred| <= ROOM
    case Submit(stmt) => s.user == Ready && |stmt| <= ROOM
    case Leave => s.user == Ready
    case ClientReceive => s.toClient != [] && s.cliSent < |CLIENT|
    case ServerReceive(answer) =>
      s.toServer != [] && s.srvSent < |SERVER| && (s.phase.Idle? || s.phase.Waiting?) && Possible(answer)
    case ServerWork => s.phase.Working?
  }

  function Next(s: State, step: Step): State
    requires Enabled(s, step)
  {
    match step
    case Connect => Send(s, OP_CONN_SYN, []).(user := Connecting)
    case Authenticate(cred) => Send(s, OP_AUTH_SYN, cred).(user := Authenticating)
    case Submit(stmt) => Send(s, OP_STMT_SYN, stmt).(user := Busy)
    case Leave => Send(s, OP_TERM_SYN, []).(user := Leaving)
    case ClientReceive => ClientReceives(s)
    case ServerReceive(answer) => ServerReceives(s, answer)
    case ServerWork => Works(s)
  }

  /** The state after a run, if every step was possible when it was taken. */
  ghost predicate Reaches(s: State, steps: seq<Step>, t: State)
    decreases |steps|
  {
    if steps == [] then t == s
    else Enabled(s, steps[0]) && Reaches(Next(s, steps[0]), steps[1..], t)
  }

  lemma ServerNop(s: State, answer: Answer)
    requires s.toServer != [] && s.srvSent < |SERVER|
    ensures ServerReceives(s, answer).nop <==> s.nop || !Dispatched(SERVER, s.srvSent, Opcode(s.toServer[0]))
  {
    ServerTable(s.srvSent, 0);
  }

  lemma ClientNop(s: State)
    requires s.toClient != [] && s.cliSent < |CLIENT|
    ensures ClientReceives(s).nop <==> s.nop || !Dispatched(CLIENT, s.cliSent, Opcode(s.toClient[0]))
  {
    ClientTable(s.cliSent, 0);
  }

  /** A step is dispatched to nop exactly if it receives a message that the table of its side does not admit. */
  lemma NopIff(s: State, step: Step)
    requires Enabled(s, step)
    ensures Next(s, step).nop <==>
              || s.nop
              || (step.ServerReceive? && !Dispatched(SERVER, s.srvSent, Opcode(s.toServer[0])))
              || (step.ClientReceive? && !Dispatched(CLIENT, s.cliSent, Opcode(s.toClient[0])))
  {
    match step
    case ServerReceive(answer) => ServerNop(s, answer);
    case ClientReceive => ClientNop(s);
    case _ =>
  }

  // --------------------------------------------------------------- invariant

  predicate Quiet(s: State) { s.toServer == [] && s.toClient == [] }

  predicate Asking(s: State, op: Byte) {
    s.toClient == [] && |s.toServer| == 1 && Opcode(s.toServer[0]) == op && s.cliSent == op
  }

  predicate Answering(s: State, op: Byte) {
    s.toServer == [] && |s.toClient| == 1 && Opcode(s.toClient[0]) == op && s.srvSent == op
  }

  /** The server waits for a statement or for the end. */
  predicate Resting(s: State) {
    s.phase.Idle? && s.srvSent in {OP_RSLT_FIN, OP_AUTH_ACK, OP_STMT_ERR}
  }

  predicate NoFlush(todo: seq<Act>) {
    forall i :: 0 <= i < |todo| ==> todo[i] != Flush
  }

  /** Output under another opcode than OP_RSLT_SYN stays in one buffer. */
  predicate Contained(s: State, todo: seq<Act>, fin: Byte) {
    && |s.payload| <= ROOM
    && fin in {OP_RSLT_FIN, OP_STMT_ERR}
    && (fin == OP_STMT_ERR ==> s.op == OP_STMT_ERR && s.cliSent == OP_STMT_SYN)
    && (s.op != OP_RSLT_SYN ==> NoFlush(todo) && |s.payload| + |todo| <= ROOM)
  }

  predicate Following(s: State) {
    s.cliSent == OP_STMT_SYN || s.cliSent == OP_RSLT_ACK
  }

  predicate BusyInv(s: State) {
    || (Asking(s, OP_STMT_SYN) && Resting(s) && s.printed == s.put)
    || (s.phase.Working? && Quiet(s) && Following(s) && s.printed + s.payload == s.put
        && Contained(s, s.phase.todo, s.phase.fin))
    || (s.phase.Waiting? && s.phase.fin == OP_RSLT_FIN && Answering(s, OP_RSLT_SYN) && Following(s)
        && s.printed + Payload(s.toClient[0]) == s.put)
    || (s.phase.Waiting? && s.phase.fin == OP_RSLT_FIN && Asking(s, OP_RSLT_ACK) && |s.toServer[0]| == OPCODE_SZ
        && s.srvSent == OP_RSLT_SYN && s.printed == s.put)
    || (s.phase.Idle? && Answering(s, OP_RSLT_FIN) && Following(s)
        && s.printed + Payload(s.toClient[0]) + [NEWLINE] == s.put)
    || (s.phase.Idle? && Answering(s, OP_STMT_ERR) && s.cliSent == OP_STMT_SYN
        && s.printed + Payload(s.toClient[0]) == s.put)
  }

  predicate Fit(q: seq<Message>) {
    forall i :: 0 <= i < |q| ==> |q[i]| <= BUFFER_SZ
  }

  /** Every side only ever waits for what the other one is about to send. */
  predicate Inv(s: State) {
    && !s.nop && Fit(s.toServer) && Fit(s.toClient) && s.cliSent < |CLIENT| && s.srvSent < |SERVER|
    && match s.user
       case Start => Quiet(s) && s.phase.Idle? && s.srvSent == OP_NULL && s.printed == s.put
       case Connecting =>
         s.phase.Idle? && s.printed == s.put && s.cliSent == OP_CONN_SYN
         && ((Asking(s, OP_CONN_SYN) && s.srvSent == OP_NULL) || Answering(s, OP_CONN_ACK))
       case Connected => Quiet(s) && s.phase.Idle? && s.srvSent == OP_CONN_ACK && s.printed == s.put
       case Authenticating =>
         s.phase.Idle? && s.printed == s.put && s.cliSent == OP_AUTH_SYN
         && ((Asking(s, OP_AUTH_SYN) && s.srvSent == OP_CONN_ACK) || Answering(s, OP_AUTH_ACK))
       case Ready => Quiet(s) && Resting(s) && s.printed == s.put
       case Busy => BusyInv(s)
       case Leaving =>
         s.printed == s.put && s.cliSent == OP_TERM_SYN
         && ((Asking(s, OP_TERM_SYN) && Resting(s)) || (Answering(s, OP_TERM_ACK) && s.phase.Closed?))
       case Gone => Quiet(s) && s.printed == s.put && s.phase.Closed?
  }

  lemma UserKeeps(s: State, step: Step)
    requires Inv(s) && Enabled(s, step) && (step.Connect? || step.Authenticate? || step.Submit? || step.Leave?)
    ensures Inv(Next(s, step))
  {
  }

  lemma ClientStep(s: State)
    requires Inv(s) && s.toClient != []
    ensures Inv(ClientReceives(s))
  {
    var m := s.toClient[0];
    assert s.toClient == [m] && s.toClient[1..] == [];
    match s.user
    case Busy => ClientBusy(s);
    case _ =>
  }

  lemma ClientBusy(s: State)
    requires s.user == Busy && Inv(s) && s.toClient != []
    ensures Inv(ClientReceives(s))
  {
    var t := ClientReceives(s);
    assert s.toClient[1..] == [];
    if Opcode(s.toClient[0]) == OP_RSLT_SYN {
      assert t.toServer == [[OP_RSLT_ACK, TYPE_TXT] + []];
      assert Asking(t, OP_RSLT_ACK);
    } else {
      assert Quiet(t) && Resting(t);
    }
  }

  lemma ServerStep(s: State, answer: Answer)
    requires Inv(s) && Enabled(s, ServerReceive(answer)) && Brief(ServerReceive(answer))
    ensures Inv(ServerReceives(s, answer))
  {
    var m := s.toServer[0];
    assert s.toServer == [m] && s.toServer[1..] == [];
    ServerTable(s.srvSent, Opcode(m));
    if s.user == Busy {
      if s.phase.Waiting? {
        var t := ServerReceives(s, answer);
        assert t.payload == [] && t.printed + t.payload == t.put;
      } else {
        BeginStep(s, answer);
      }
    } else {
      var t := ServerReceives(s, answer);
      assert |t.toClient| == 1;
    }
  }

  lemma BeginStep(s: State, answer: Answer)
    requires s.user == Busy && Inv(s) && Asking(s, OP_STMT_SYN) && Resting(s) && s.printed == s.put
    requires Possible(answer) && Brief(ServerReceive(answer))
    requires SERVER[s.srvSent][OP_STMT_SYN] == R
    ensures Inv(ServerReceives(s, answer))
  {
    var t := ServerReceives(s, answer);
    assert s.toServer[1..] == [];
    assert t.printed + t.payload == t.put;
    assert Contained(t, t.phase.todo, t.phase.fin);
  }

  lemma WorkStep(s: State)
    requires Inv(s) && s.phase.Working?
    ensures Inv(Works(s))
  {
    var t, todo := Works(s), s.phase.todo;
    if todo == [] {
      assert t.toClient == [[t.srvSent, TYPE_TXT] + s.payload];
      assert Payload(t.toClient[0]) == s.payload;
      assert t.printed + s.payload + [] == t.printed + s.payload;
    } else if todo[0] == Flush || |s.payload| == ROOM {
      assert s.op == OP_RSLT_SYN;
      assert t.toClient == [[OP_RSLT_SYN, TYPE_TXT] + s.payload];
      assert Payload(t.toClient[0]) == s.payload;
    } else {
      assert t.printed + t.payload == t.put;
      assert forall i :: 0 <= i < |todo| - 1 ==> todo[1..][i] == todo[i + 1];
      assert Contained(t, t.phase.todo, t.phase.fin);
    }
  }

  lemma StepKeeps(s: State, step: Step)
    requires Inv(s) && Enabled(s, step) && Brief(step)
    ensures Inv(Next(s, step))
  {
    match step
    case ClientReceive => ClientStep(s);
    case ServerReceive(answer) => ServerStep(s, answer);
    case ServerWork => WorkStep(s);
    case _ => UserKeeps(s, step);
  }

  lemma {:induction false} RunKeeps(s: State, steps: seq<Step>, t: State)
    requires Inv(s) && Reaches(s, steps, t) && AllBrief(steps)
    ensures Inv(t)
    decreases |steps|
  {
    if steps != [] {
      assert Brief(steps[0]) && forall i :: 0 <= i < |steps| - 1 ==> steps[1..][i] == steps[i + 1];
      StepKeeps(s, steps[0]);
      RunKeeps(Next(s, steps[0]), steps[1..], t);
    }
  }

  function Chunks(q: seq<Message>): nat {
    if q == [] then 0 else (if Opcode(q[0]) == OP_RSLT_SYN then 1 else 0) + Chunks(q[1..])
  }

  /**
   Nobody was dispatched to nop, at most one message is on its way, which fits the buffer, at most one
   chunk is not yet acknowledged, and whenever the user is served the screen shows exactly what was put.
   */
  predicate Safe(t: State) {
    !t.nop && |t.toServer| + |t.toClient| <= 1 && Fit(t.toServer) && Fit(t.toClient)
    && Chunks(t.toClient) + Chunks(t.toServer) <= 1
    && t.printed <= t.put && (t.user == Ready ==> t.printed == t.put)
  }

  lemma FewChunks(q: seq<Message>)
    requires |q| <= 1
    ensures Chunks(q) <= |q|
  {
    if q != [] { assert q[1..] == []; }
  }

  lemma InvSafe(t: State)
    requires Inv(t)
    ensures Safe(t)
  {
    FewChunks(t.toClient);
    FewChunks(t.toServer);
  }

  /** Every session whose error messages fit one buffer is safe at every moment. */
  lemma SessionSafe(steps: seq<Step>, t: State)
    requires Reaches(INIT, steps, t) && AllBrief(steps)
    ensures Safe(t)
  {
    RunKeeps(INIT, steps, t);
    InvSafe(t);
  }

  // ---------------------------------------------- what the user gets to see

  /** The bytes that are put. */
  function TextOf(todo: seq<Act>): seq<Byte> {
    if todo == [] then [] else (if todo[0].Put? then [todo[0].b] else []) + TextOf(todo[1..])
  }

  lemma {:induction false} TextPuts(text: seq<Byte>)
    ensures TextOf(Puts(text)) == text
  {
    if text != [] {
      assert Puts(text)[1..] == Puts(text[1..]);
      TextPuts(text[1..]);
    }
  }

  /** What an answer shows: a result or a status line and a newline, or the text of an error. */
  function AnswerBytes(answer: Answer): seq<Byte> {
    match answer
    case Stream(acts) => TextOf(acts) + [NEWLINE]
    case Status(text) => text + [NEWLINE]
    case Error(text) => text
  }

  /** The step hands a statement to the server. */
  predicate Answers(s: State, step: Step) {
    step.ServerReceive? && s.phase.Idle? && s.toServer != [] && Opcode(s.toServer[0]) == OP_STMT_SYN
  }

  function AnswerOf(s: State, step: Step): seq<Byte> {
    if Answers(s, step) then AnswerBytes(step.answer) else []
  }

  /** The answers to all statements of a run, in order. */
  function AnswersOf(s: State, steps: seq<Step>): seq<Byte>
    decreases |steps|
  {
    if steps == [] || !Enabled(s, steps[0]) then [] else AnswerOf(s, steps[0]) + AnswersOf(Next(s, steps[0]), steps[1..])
  }

  /** What a statement that is being executed has still to put. */
  function Pending(s: State): seq<Byte> {
    match s.phase
    case Working(todo, fin) => TextOf(todo) + if fin == OP_RSLT_FIN then [NEWLINE] else []
    case Waiting(todo, fin) => TextOf(todo) + if fin == OP_RSLT_FIN then [NEWLINE] else []
    case _ => []
  }

  lemma WorkOwes(s: State)
    requires Inv(s) && s.phase.Working?
    ensures Works(s).put + Pending(Works(s)) == s.put + Pending(s)
  {
  }

  lemma BeginOwes(s: State, answer: Answer)
    requires Inv(s) && Enabled(s, ServerReceive(answer)) && Answers(s, ServerReceive(answer))
    ensures ServerReceives(s, answer).put + Pending(ServerReceives(s, answer)) == s.put + AnswerBytes(answer)
  {
    ServerTable(s.srvSent, OP_STMT_SYN);
    if !answer.Stream? { TextPuts(answer.text); }
    if answer.Error? { assert answer.text + [] == answer.text; }
  }

  lemma OtherOwes(s: State, step: Step)
    requires Inv(s) && Enabled(s, step) && !Answers(s, step) && !step.ServerWork?
    ensures Next(s, step).put == s.put && Pending(Next(s, step)) == Pending(s)
  {
    if step.ServerReceive? { ServerTable(s.srvSent, Opcode(s.toServer[0])); }
  }

  /** A step puts what it owes, and only a statement makes it owe more. */
  lemma StepOwes(s: State, step: Step)
    requires Inv(s) && Enabled(s, step)
    ensures Next(s, step).put + Pending(Next(s, step)) == s.put + Pending(s) + AnswerOf(s, step)
  {
    if step.ServerWork? {
      WorkOwes(s);
    } else if Answers(s, step) {
      BeginOwes(s, step.answer);
      assert Pending(s) == [];
    } else {
      OtherOwes(s, step);
    }
  }

  lemma {:induction false} RunOwes(s: State, steps: seq<Step>, t: State)
    requires Inv(s) && Reaches(s, steps, t) && AllBrief(steps)
    ensures t.put + Pending(t) == s.put + Pending(s) + AnswersOf(s, steps)
    decreases |steps|
  {
    if steps == [] {
      Regroup(s.put + Pending(s), [], []);
    } else {
      assert Brief(steps[0]) && forall i :: 0 <= i < |steps| - 1 ==> steps[1..][i] == steps[i + 1];
      StepKeeps(s, steps[0]);
      StepOwes(s, steps[0]);
      var u, rest := Next(s, steps[0]), steps[1..];
      RunOwes(u, rest, t);
      Regroup(s.put + Pending(s), AnswerOf(s, steps[0]), AnswersOf(u, rest));
    }
  }

  lemma Regroup(a: seq<Byte>, b: seq<Byte>, c: seq<Byte>)
    ensures a + b + c == a + (b + c) && a + [] == a
  {
  }

  /** At every moment the screen shows a beginning of the answers to all statements, and all of them when the user is served. */
  lemma SessionShows(steps: seq<Step>, t: State)
    requires Reaches(INIT, steps, t) && AllBrief(steps)
    ensures t.printed <= AnswersOf(INIT, steps)
    ensures t.user == Ready ==> t.printed == AnswersOf(INIT, steps)
  {
    SessionSafe(steps, t);
    RunKeeps(INIT, steps, t);
    RunOwes(INIT, steps, t);
    assert INIT.put + Pending(INIT) == [] && [] + AnswersOf(INIT, steps) == AnswersOf(INIT, steps);
    if t.user == Ready { assert t.put + [] == t.put; }
  }

  /** What the user sends reaches the server as it was sent, and nothing else does. */
  lemma Delivered(s: State, step: Step)
    requires Inv(s) && Enabled(s, step) && (step.Submit? || step.Authenticate?)
    ensures var t, text := Next(s, step), if step.Submit? then step.stmt else step.cred;
            |t.toServer| == 1 && t.toClient == [] && Payload(t.toServer[0]) == text
            && Opcode(t.toServer[0]) == if step.Submit? then OP_STMT_SYN else OP_AUTH_SYN
  {
  }

  // ---------------------------------------------------------------- progress

  /** Work left for the two machines; a bigger number while a chunk is still to be sent. */
  function Left(s: State): nat {
    match s.phase
    case Working(todo, _) => 10 + 5 * |todo| + if |s.payload| == ROOM then 4 else 0
    case Waiting(todo, _) => 10 + 5 * |todo| + if s.toClient != [] then 3 else 2
    case Idle => if s.toClient != [] then 1 else 0
    case Closed => if s.toClient != [] then 1 else 0
  }

  /** Whose turn it is. */
  function Turn(s: State): Step {
    if s.toClient != [] then ClientReceive
    else if s.phase.Working? then ServerWork
    else ServerReceive(Stream([]))
  }

  /** A submitted statement never gets stuck, and once begun it comes to its end. */
  lemma Progress(s: State)
    requires Inv(s) && s.user == Busy
    ensures Enabled(s, Turn(s))
    ensures !(s.phase.Idle? && s.toClient == []) ==> Left(Next(s, Turn(s))) < Left(s)
  {
    if s.toClient != [] {
      assert s.toClient[1..] == [];
    } else if s.phase.Waiting? {
      assert |s.toServer| == 1;
      ServerTable(s.srvSent, Opcode(s.toServer[0]));
    } else if s.phase.Working? {
      var todo := s.phase.todo;
      if todo != [] && todo[0].Put? && |s.payload| != ROOM { assert |todo[1..]| == |todo| - 1; }
    }
  }

  predicate UserStep(step: Step) {
    step.Connect? || step.Authenticate? || step.Submit? || step.Leave?
  }

  /** While a statement is being answered only one machine can move. */
  lemma OneTurn(s: State, step: Step)
    requires Inv(s) && s.user == Busy && Enabled(s, step)
    ensures !UserStep(step) && (step == Turn(s) || (step.ServerReceive? && Turn(s).ServerReceive?))
  {
  }

  /** The answer to a statement is on its way. */
  predicate Begun(s: State) {
    s.user == Busy && !(s.phase.Idle? && s.toClient == [])
  }

  lemma TurnOn(s: State)
    requires Inv(s) && Begun(s) && Enabled(s, Turn(s))
    ensures var t := Next(s, Turn(s)); t.user == Ready || Begun(t)
  {
    if s.toClient != [] { assert s.toClient[1..] == []; }
    if s.phase.Waiting? && s.toClient == [] { ServerTable(s.srvSent, Opcode(s.toServer[0])); }
  }

  predicate NoUser(steps: seq<Step>) {
    forall i :: 0 <= i < |steps| ==> !UserStep(steps[i])
  }

  /** Every answer that has begun ends, whatever runs, with the user served and shown all that was put and had still to be. */
  lemma {:induction false} Ends(s: State) returns (steps: seq<Step>, t: State)
    requires Inv(s) && Begun(s)
    ensures Reaches(s, steps, t) && |steps| <= Left(s) && t.user == Ready && Safe(t) && AllBrief(steps) && NoUser(steps)
    ensures t.printed == s.put + Pending(s)
    decreases Left(s)
  {
    Progress(s);
    var step := Turn(s);
    StepKeeps(s, step);
    StepOwes(s, step);
    TurnOn(s);
    Regroup(s.put + Pending(s), [], []);
    var u := Next(s, step);
    if u.user == Ready {
      steps, t := [step], u;
      assert Reaches(u, [], u) && [step][1..] == [];
      InvSafe(u);
      assert u.put + [] == u.put;
    } else {
      var rest;
      rest, t := Ends(u);
      steps := [step] + rest;
      assert steps[1..] == rest;
    }
  }

  /** Nothing else is answered until the user is served. */
  lemma {:induction false} NothingElse(s: State, steps: seq<Step>, t: State)
    requires Inv(s) && (Begun(s) || s.user == Ready) && Reaches(s, steps, t) && AllBrief(steps) && NoUser(steps)
    ensures AnswersOf(s, steps) == []
    decreases |steps|
  {
    if steps != [] {
      var step, rest := steps[0], steps[1..];
      assert Brief(step) && !UserStep(step);
      assert forall i :: 0 <= i < |rest| ==> rest[i] == steps[i + 1];
      StepKeeps(s, step);
      assert s.user != Ready;
      OneTurn(s, step);
      SameTurn(s, step);
      TurnOn(s);
      NothingElse(Next(s, step), rest, t);
    }
  }

  /** Which answer would be given does not matter while the server waits for an ACK. */
  lemma SameTurn(s: State, step: Step)
    requires Inv(s) && Begun(s) && Enabled(s, step) && !UserStep(step)
    ensures Enabled(s, Turn(s)) && Next(s, step) == Next(s, Turn(s)) && !Answers(s, step)
  {
    OneTurn(s, step);
    if step.ServerReceive? { ServerTable(s.srvSent, Opcode(s.toServer[0])); }
  }

  /** One statement: from the step that hands it to the server until the user is served, exactly its answer is shown. */
  lemma AnswerShown(s: State, answer: Answer, steps: seq<Step>, t: State)
    requires Asked(s) && Enabled(s, ServerReceive(answer)) && Brief(ServerReceive(answer))
    requires Reaches(Next(s, ServerReceive(answer)), steps, t) && AllBrief(steps) && NoUser(steps) && t.user == Ready
    ensures t.put == s.put + AnswerBytes(answer) && t.printed == s.printed + AnswerBytes(answer)
  {
    var b := Next(s, ServerReceive(answer));
    BegunOwes(s, answer);
    RunKeeps(b, steps, t);
    RunOwes(b, steps, t);
    NothingElse(b, steps, t);
    Regroup(b.put + Pending(b), [], []);
    Regroup(t.put, [], []);
  }

  lemma BegunOwes(s: State, answer: Answer)
    requires Asked(s) && Enabled(s, ServerReceive(answer)) && Brief(ServerReceive(answer))
    ensures var b := Next(s, ServerReceive(answer));
            Inv(b) && Begun(b) && s.printed == s.put && b.put + Pending(b) == s.put + AnswerBytes(answer)
  {
    StepKeeps(s, ServerReceive(answer));
    BeginOwes(s, answer);
    ServerTable(s.srvSent, OP_STMT_SYN);
  }

  // --------------------------------------------------------- long error texts

  /** The state of a server that has just been asked for a statement. */
  predicate Asked(s: State) {
    Inv(s) && s.user == Busy && s.phase.Idle? && Asking(s, OP_STMT_SYN)
  }

  function Iterate(s: State, n: nat): State
    decreases n
  {
    if n == 0 || !s.phase.Working? then s else Iterate(Works(s), n - 1)
  }

  /** How many messages an answer makes that waits for nothing: one for every full buffer, and the last. */
  function Messages(used: nat, left: nat): (m: nat)
    ensures m >= 1
    decreases left, if used == ROOM then 1 else 0
  {
    if left == 0 then 1
    else if used == ROOM then 1 + Messages(0, left)
    else Messages(used + 1, left - 1)
  }

  lemma {:induction false} OneMessage(used: nat, left: nat)
    requires used <= ROOM
    ensures Messages(used, left) == 1 <==> used + left <= ROOM
    decreases left, if used == ROOM then 1 else 0
  {
    if left > 0 {
      if used == ROOM { OneMessage(0, left); } else { OneMessage(used + 1, left - 1); }
    }
  }

  /** An error being put. */
  predicate Failing(s: State) {
    s.phase.Working? && s.phase.fin == OP_STMT_ERR && s.op == OP_STMT_ERR && NoFlush(s.phase.todo) && |s.payload| <= ROOM
  }

  /** Everything of a state but the server's output. */
  predicate SameElse(s: State, t: State) {
    t == s.(phase := t.phase, srvSent := t.srvSent, op := t.op, payload := t.payload, toClient := t.toClient, put := t.put)
  }

  /**
   The whole error goes out without waiting.  The first message holds what is in the
   buffer and as much of the text as finds room.
   */
  lemma {:induction false} Failed(s: State) returns (k: nat)
    requires Failing(s)
    ensures var t := Iterate(s, k);
            t.phase.Idle? && SameElse(s, t) && t.srvSent == OP_STMT_ERR && t.put == s.put + TextOf(s.phase.todo)
    ensures var t, todo := Iterate(s, k), s.phase.todo;
            |t.toClient| == |s.toClient| + Messages(|s.payload|, |todo|) && s.toClient <= t.toClient
            && Opcode(t.toClient[|s.toClient|]) == OP_STMT_ERR
            && |Payload(t.toClient[|s.toClient|])| == (if |s.payload| + |todo| <= ROOM then |s.payload| + |todo| else ROOM)
    decreases |s.phase.todo|, if |s.payload| == ROOM then 1 else 0
  {
    var todo, u := s.phase.todo, Works(s);
    OneMessage(|s.payload|, |todo|);
    if todo == [] {
      k := 1;
      LastFlush(s);
    } else {
      assert todo[0] != Flush;
      assert forall i :: 0 <= i < |todo| - 1 ==> todo[1..][i] == todo[i + 1];
      var j := Failed(u);
      k := j + 1;
      FailingStep(s, j);
    }
  }

  lemma LastFlush(s: State)
    requires Failing(s) && s.phase.todo == []
    ensures Iterate(s, 1) == Works(s) && Works(s).toClient == s.toClient + [[OP_STMT_ERR, TYPE_TXT] + s.payload]
    ensures Payload([OP_STMT_ERR, TYPE_TXT] + s.payload) == s.payload && s.put + [] == s.put
    ensures Works(s).put == s.put
  {
    assert Iterate(s, 1) == Iterate(Works(s), 0);
  }

  /** One byte or one full buffer, then the rest. */
  lemma FailingStep(s: State, j: nat)
    requires Failing(s) && s.phase.todo != []
    ensures Iterate(s, j + 1) == Iterate(Works(s), j)
    ensures |s.payload| == ROOM ==> (
              Works(s).toClient == s.toClient + [[OP_STMT_ERR, TYPE_TXT] + s.payload]
              && Payload([OP_STMT_ERR, TYPE_TXT] + s.payload) == s.payload
              && Works(s).put + TextOf(s.phase.todo) == s.put + TextOf(s.phase.todo))
    ensures |s.payload| < ROOM ==> Works(s).put + TextOf(s.phase.todo[1..]) == s.put + TextOf(s.phase.todo)
  {
    var todo := s.phase.todo;
    assert todo[0] != Flush;
    if |s.payload| < ROOM { Regroup(s.put, [todo[0].b], TextOf(todo[1..])); }
  }

  /**
   When an error has been sent and the client has read one message, the user is served.  All of
   the text is on the screen then, and nothing is left on its way, exactly if it fits one buffer.
   */
  lemma ErrorFits(s: State, text: seq<Byte>) returns (k: nat)
    requires Asked(s)
    ensures Enabled(s, ServerReceive(Error(text)))
    ensures var t := Iterate(ServerReceives(s, Error(text)), k);
            t.toClient != [] && t.cliSent < |CLIENT| && ClientReceives(t).user == Ready && !ClientReceives(t).nop
            && (ClientReceives(t).printed == ClientReceives(t).put <==> |text| <= ROOM)
            && (|ClientReceives(t).toClient| == 0 <==> |text| <= ROOM)
  {
    ServerTable(s.srvSent, OP_STMT_SYN);
    var b := ServerReceives(s, Error(text));
    assert b.toClient == [] && b.payload == [] && b.put == s.printed;
    k := Failed(b);
    TextPuts(text);
    OneMessage(0, |text|);
    var t := Iterate(b, k);
    var c := ClientReceives(t);
    assert c.printed == s.printed + Payload(t.toClient[0]) && t.put == s.printed + text;
    if |text| <= ROOM { ShortFailed(s, text, k); }
  }

  /** A short error is one message, which holds the text. */
  lemma ShortFailed(s: State, text: seq<Byte>, k: nat)
    requires Asked(s) && |text| <= ROOM && Enabled(s, ServerReceive(Error(text)))
    requires var t := Iterate(ServerReceives(s, Error(text)), k);
             t.phase.Idle? && |t.toClient| == 1 && SameElse(ServerReceives(s, Error(text)), t) && ServerReceives(s, Error(text)).phase.Working?
    ensures var t := Iterate(ServerReceives(s, Error(text)), k);
            t.cliSent < |CLIENT| && ClientReceives(t).printed == ClientReceives(t).put
  {
    var b := ServerReceives(s, Error(text));
    StepKeeps(s, ServerReceive(Error(text)));
    IterateKeeps(b, k);
    var t := Iterate(b, k);
    ClientStep(t);
  }

  lemma {:induction false} IterateKeeps(s: State, n: nat)
    requires Inv(s)
    ensures Inv(Iterate(s, n))
    decreases n
  {
    if n > 0 && s.phase.Working? {
      WorkStep(s);
      IterateKeeps(Works(s), n - 1);
    }
  }

  // ---------------------------------------------------- sessions with errors

  lemma {:induction false} ReachesAppend(s: State, a: seq<Step>, t: State, b: seq<Step>, u: State)
    requires Reaches(s, a, t) && Reaches(t, b, u)
    ensures Reaches(s, a + b, u)
    decreases |a|
  {
    if a == [] {
      assert a + b == b;
    } else {
      assert (a + b)[0] == a[0] && (a + b)[1..] == a[1..] + b;
      ReachesAppend(Next(s, a[0]), a[1..], t, b, u);
    }
  }

  lemma ReachesOne(s: State, step: Step)
    requires Enabled(s, step)
    ensures Reaches(s, [step], Next(s, step))
  {
    assert [step][1..] == [] && Reaches(Next(s, step), [], Next(s, step));
  }

  lemma {:induction false} ReachesWork(s: State, n: nat) returns (steps: seq<Step>)
    ensures Reaches(s, steps, Iterate(s, n)) && forall i :: 0 <= i < |steps| ==> steps[i] == ServerWork
    decreases n
  {
    if n == 0 || !s.phase.Working? {
      steps := [];
    } else {
      var rest := ReachesWork(Works(s), n - 1);
      steps := [ServerWork] + rest;
      assert steps[1..] == rest;
    }
  }

  /** The errors of a run all have this text. */
  predicate ErrorsAre(steps: seq<Step>, text: seq<Byte>) {
    forall i :: 0 <= i < |steps| ==> IsError(steps[i], text)
  }

  predicate IsError(step: Step, text: seq<Byte>) {
    step.ServerReceive? && step.answer.Error? ==> step.answer.text == text
  }

  lemma ErrorsAppend(a: seq<Step>, b: seq<Step>, text: seq<Byte>)
    requires ErrorsAre(a, text) && ErrorsAre(b, text)
    ensures ErrorsAre(a + b, text)
  {
    forall i | 0 <= i < |a + b| ensures IsError((a + b)[i], text) {
      if i < |a| { assert IsError(a[i], text); } else { assert IsError(b[i - |a|], text); }
    }
  }

  /** One more step of a run whose errors all have this text. */
  lemma Extend(steps: seq<Step>, t: State, step: Step, text: seq<Byte>)
    requires Reaches(INIT, steps, t) && ErrorsAre(steps, text) && Enabled(t, step) && IsError(step, text) && Inv(t) && Brief(step)
    ensures Reaches(INIT, steps + [step], Next(t, step)) && ErrorsAre(steps + [step], text) && Inv(Next(t, step))
  {
    ReachesOne(t, step);
    ReachesAppend(INIT, steps, t, [step], Next(t, step));
    ErrorsAppend(steps, [step], text);
    StepKeeps(t, step);
  }

  /** Connecting and authenticating. */
  lemma Handshake(text: seq<Byte>) returns (steps: seq<Step>, s: State)
    ensures Reaches(INIT, steps, s) && ErrorsAre(steps, text) && Inv(s) && s.user == Ready
  {
    var wait := ServerReceive(Stream([]));
    steps, s := [], INIT;
    Extend(steps, s, Connect, text);
    steps, s := steps + [Connect], Next(s, Connect);
    assert Enabled(s, wait);
    Extend(steps, s, wait, text);
    steps, s := steps + [wait], Next(s, wait);
    assert s.user == Connecting && Answering(s, OP_CONN_ACK);
    Extend(steps, s, ClientReceive, text);
    steps, s := steps + [ClientReceive], Next(s, ClientReceive);
    assert s.user == Connected;
    steps, s := Authenticated(steps, s, text);
  }

  lemma Authenticated(steps: seq<Step>, s: State, text: seq<Byte>) returns (steps': seq<Step>, t: State)
    requires Reaches(INIT, steps, s) && ErrorsAre(steps, text) && Inv(s) && s.user == Connected
    ensures Reaches(INIT, steps', t) && ErrorsAre(steps', text) && Inv(t) && t.user == Ready
  {
    var wait, auth := ServerReceive(Stream([])), Authenticate([]);
    Extend(steps, s, auth, text);
    steps', t := steps + [auth], Next(s, auth);
    assert t.user == Authenticating && Asking(t, OP_AUTH_SYN) && t.srvSent == OP_CONN_ACK;
    Extend(steps', t, wait, text);
    steps', t := steps' + [wait], Next(t, wait);
    assert t.user == Authenticating && Answering(t, OP_AUTH_ACK);
    Extend(steps', t, ClientReceive, text);
    steps', t := steps' + [ClientReceive], Next(t, ClientReceive);
  }

  /** A session with one statement that fails with this text, up to the moment the user is served. */
  lemma FailedSession(text: seq<Byte>) returns (steps: seq<Step>, t: State)
    ensures Reaches(INIT, steps, t) && ErrorsAre(steps, text) && t.user == Ready
    ensures t.printed == t.put <==> |text| <= ROOM
  {
    var a, s := Handshake(text);
    Extend(a, s, Submit([]), text);
    a, s := a + [Submit([])], Next(s, Submit([]));
    assert Asked(s);
    var k := ErrorFits(s, text);
    var fail := ServerReceive(Error(text));
    var b := Next(s, fail);
    var work := ReachesWork(b, k);
    var u := Iterate(b, k);
    ReachesOne(s, fail);
    ReachesAppend(s, [fail], b, work, u);
    ReachesOne(u, ClientReceive);
    t := Next(u, ClientReceive);
    ReachesAppend(s, [fail] + work, u, [ClientReceive], t);
    ReachesAppend(INIT, a, s, [fail] + work + [ClientReceive], t);
    steps := a + ([fail] + work + [ClientReceive]);
    ErrorsAppend([fail], work, text);
    ErrorsAppend([fail] + work, [ClientReceive], text);
    ErrorsAppend(a, [fail] + work + [ClientReceive], text);
  }

  /** Sessions whose statements fail with this text are all safe exactly if the text fits one buffer. */
  lemma SafeIff(text: seq<Byte>)
    ensures (forall steps, t :: Reaches(INIT, steps, t) && ErrorsAre(steps, text) ==> Safe(t)) <==> |text| <= ROOM
  {
    if |text| <= ROOM {
      forall steps, t | Reaches(INIT, steps, t) && ErrorsAre(steps, text) ensures Safe(t) {
        forall i | 0 <= i < |steps| ensures Brief(steps[i]) { assert IsError(steps[i], text); }
        SessionSafe(steps, t);
      }
    } else {
      var steps, t := FailedSession(text);
      assert !Safe(t);
    }
  }
}
