/** Opcodes, message layout and the two dispatch tables of the session machine. */
module SessionWire {
  import opened Prelude

  /** What goes over the wire in one send: opcode, type, payload. */
  type Message = seq<Byte>

  const BUFFER_SZ: nat := 1460
  const PAD: nat := 8
  const OPCODE_SZ: nat := 2

  const OP_NULL: Byte := 0
  const OP_TERM_SYN: Byte := 1
  const OP_TERM_ACK: Byte := 2

  // received by the server
  const OP_RSLT_ACK: Byte := 3
  const OP_CONN_SYN: Byte := 4
  const OP_AUTH_SYN: Byte := 5
  const OP_STMT_SYN: Byte := 6

  // received by the client
  const OP_RSLT_SYN: Byte := 3
  const OP_RSLT_FIN: Byte := 4
  const OP_CONN_ACK: Byte := 5
  const OP_CONN_ERR: Byte := 6
  const OP_AUTH_ACK: Byte := 7
  const OP_AUTH_ERR: Byte := 8
  const OP_STMT_ERR: Byte := 9

  const TYPE_TXT: Byte := 0
  const NEWLINE: Byte := 10

  datatype Action = N | R // nop, rcvd

  /** Rows: last opcode sent.  Columns: opcode received. */
  const SERVER: seq<seq<Action>> := [
    [N, N, N, N, R, N, N], // OP_NULL
    [N, N, R, N, N, N, N], // OP_TERM_SYN
    [N, N, N, N, N, N, N], // OP_TERM_ACK
    [N, R, N, R, N, N, N], // OP_RSLT_SYN
    [N, R, N, N, N, N, R], // OP_RSLT_FIN
    [N, R, N, N, N, R, N], // OP_CONN_ACK
    [N, R, N, N, N, N, N], // OP_CONN_ERR
    [N, R, N, N, N, N, R], // OP_AUTH_ACK
    [N, R, N, N, N, N, N], // OP_AUTH_ERR
    [N, R, N, N, N, N, R]  // OP_STMT_ERR
  ]

  const CLIENT: seq<seq<Action>> := [
    [N, R, N, N, N, N, N, N, N, N], // OP_NULL
    [N, N, R, N, N, N, N, N, N, N], // OP_TERM_SYN
    [N, N, N, N, N, N, N, N, N, N], // OP_TERM_ACK
    [N, R, N, R, R, N, N, N, N, N], // OP_RSLT_ACK
    [N, R, N, N, N, R, N, N, N, N], // OP_CONN_SYN
    [N, R, N, N, N, N, N, R, N, N], // OP_AUTH_SYN
    [N, R, N, R, R, N, N, N, N, R]  // OP_STMT_SYN
  ]

  const SERVER_MAX: nat := 6
  const CLIENT_MAX: nat := 9

  /** Whether the table dispatches a message to `rcvd`. */
  predicate Dispatched(table: seq<seq<Action>>, sent: Byte, rcvd: Byte) {
    sent < |table| && rcvd < |table[sent]| && table[sent][rcvd] == R
  }

  /** The server's table row by row: which replies each last message allows. */
  lemma ServerTable(sent: Byte, rcvd: Byte)
    requires sent < |SERVER| && rcvd <= SERVER_MAX
    ensures |SERVER[sent]| == SERVER_MAX + 1
    ensures SERVER[sent][rcvd] == R <==>
              || (sent == OP_NULL && rcvd == OP_CONN_SYN)
              || (sent == OP_TERM_SYN && rcvd == OP_TERM_ACK)
              || (sent >= OP_RSLT_SYN && rcvd == OP_TERM_SYN)
              || (sent == OP_RSLT_SYN && rcvd == OP_RSLT_ACK)
              || (sent == OP_CONN_ACK && rcvd == OP_AUTH_SYN)
              || (sent in {OP_RSLT_FIN, OP_AUTH_ACK, OP_STMT_ERR} && rcvd == OP_STMT_SYN)
  {
    if sent <= 4 { ServerLow(sent, rcvd); } else { ServerHigh(sent, rcvd); }
  }

  lemma ServerLow(sent: Byte, rcvd: Byte)
    requires sent <= 4 && rcvd <= SERVER_MAX
    ensures |SERVER[sent]| == SERVER_MAX + 1
    ensures SERVER[sent][rcvd] == R <==>
              || (sent == 0 && rcvd == 4) || (sent == 1 && rcvd == 2) || (sent >= 3 && rcvd == 1)
              || (sent == 3 && rcvd == 3) || (sent == 4 && rcvd == 6)
  {
    match sent
    case 0 => case 1 => case 2 => case 3 => case _ =>
  }

  lemma ServerHigh(sent: Byte, rcvd: Byte)
    requires 5 <= sent < |SERVER| && rcvd <= SERVER_MAX
    ensures |SERVER[sent]| == SERVER_MAX + 1
    ensures SERVER[sent][rcvd] == R <==>
              || rcvd == 1 || (sent == 5 && rcvd == 5) || ((sent == 7 || sent == 9) && rcvd == 6)
  {
    match sent
    case 5 => case 6 => case 7 => case 8 => case _ =>
  }

  /** The client's table likewise: which messages each last request allows. */
  lemma ClientTable(sent: Byte, rcvd: Byte)
    requires sent < |CLIENT| && rcvd <= CLIENT_MAX
    ensures |CLIENT[sent]| == CLIENT_MAX + 1
    ensures CLIENT[sent][rcvd] == R <==>
              || (sent == OP_TERM_SYN && rcvd == OP_TERM_ACK)
              || (sent != OP_TERM_SYN && sent != OP_TERM_ACK && rcvd == OP_TERM_SYN)
              || (sent == OP_RSLT_ACK && rcvd in {OP_RSLT_SYN, OP_RSLT_FIN})
              || (sent == OP_CONN_SYN && rcvd == OP_CONN_ACK)
              || (sent == OP_AUTH_SYN && rcvd == OP_AUTH_ACK)
              || (sent == OP_STMT_SYN && rcvd in {OP_RSLT_SYN, OP_RSLT_FIN, OP_STMT_ERR})
  {
    if sent <= 3 { ClientLow(sent, rcvd); } else { ClientHigh(sent, rcvd); }
  }

  lemma ClientLow(sent: Byte, rcvd: Byte)
    requires sent <= 3 && rcvd <= CLIENT_MAX
    ensures |CLIENT[sent]| == CLIENT_MAX + 1
    ensures CLIENT[sent][rcvd] == R <==>
              || (sent == 1 && rcvd == 2) || ((sent == 0 || sent == 3) && rcvd == 1) || (sent == 3 && (rcvd == 3 || rcvd == 4))
  {
    match sent
    case 0 => case 1 => case 2 => case _ =>
  }

  lemma ClientHigh(sent: Byte, rcvd: Byte)
    requires 4 <= sent < |CLIENT| && rcvd <= CLIENT_MAX
    ensures |CLIENT[sent]| == CLIENT_MAX + 1
    ensures CLIENT[sent][rcvd] == R <==>
              || rcvd == 1 || (sent == 4 && rcvd == 5) || (sent == 5 && rcvd == 7)
              || (sent == 6 && (rcvd == 3 || rcvd == 4 || rcvd == 9))
  {
    match sent
    case 4 => case 5 => case _ =>
  }

  function Opcode(m: Message): Byte {
    if m == [] then OP_NULL else m[0]
  }

  function Payload(m: Message): seq<Byte> {
    if |m| < OPCODE_SZ then [] else m[OPCODE_SZ..]
  }
}
