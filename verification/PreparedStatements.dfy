/** The prepared statements of one proxy connection (db_proxy/mod.rs): ConnectionState and its three commands. */
module PreparedStatements {
  import opened Bytes
  import opened Decimal
  import opened LengthEncoding
  import opened Packets
  import opened QueryResponse
  import opened Substitution
  import opened Wrappers
  import B = BinaryParameters

  // ----- The table and its history -----

  datatype Statements = Statements(statements: map<u32, text>, nextStmtId: u32)

  /** What a client asked of the connection; an execution leaves the table alone. */
  datatype Command = Prepare(query: text) | Execute(id: u32) | Close(id: u32)

  const FRESH: Statements := Statements(map[], 1)

  function NextId(id: u32): u32 {
    if id == 0xffff_ffff then 0 else id + 1
  }

  function Step(t: Statements, c: Command): Statements {
    match c
    case Prepare(query) => Statements(t.statements[t.nextStmtId := query], NextId(t.nextStmtId))
    case Execute(_) => t
    case Close(id) => t.(statements := t.statements - {id})
  }

  function Run(history: seq<Command>): Statements {
    if history == [] then FRESH else Step(Run(history[..|history| - 1]), history[|history| - 1])
  }

  function Prepares(history: seq<Command>): nat {
    if history == [] then 0
    else Prepares(history[..|history| - 1]) + (if history[|history| - 1].Prepare? then 1 else 0)
  }

  /** The id issued to a prepare with n prepares before it. */
  function IssuedId(n: nat): u32 {
    (n + 1) % TWO_32
  }

  lemma IssuedIdStep(n: nat)
    ensures IssuedId(n + 1) == NextId(IssuedId(n))
  {
  }

  lemma {:induction false} NextIdCountsPrepares(history: seq<Command>)
    ensures Run(history).nextStmtId == IssuedId(Prepares(history))
  {
    if history != [] {
      var before := history[..|history| - 1];
      NextIdCountsPrepares(before);
      IssuedIdStep(Prepares(before));
    }
  }

  /** The history's own answer: the text of the latest prepare that issued the id, unless closed since. */
  function CurrentText(history: seq<Command>, id: u32): Option<text> {
    if history == [] then None
    else
      var before, last := history[..|history| - 1], history[|history| - 1];
      if last.Prepare? && IssuedId(Prepares(before)) == id then Some(last.query)
      else if last == Close(id) then None
      else CurrentText(before, id)
  }

  function Lookup(t: Statements, id: u32): Option<text> {
    if id in t.statements then Some(t.statements[id]) else None
  }

  /** The table holds exactly what the history says, for every id and every history, wrapped ids included. */
  lemma {:induction false} TableAgreesWithHistory(history: seq<Command>, id: u32)
    ensures Lookup(Run(history), id) == CurrentText(history, id)
  {
    if history != [] {
      var before := history[..|history| - 1];
      TableAgreesWithHistory(before, id);
      NextIdCountsPrepares(before);
    }
  }

  lemma IdsRepeatAfterFullCircle(m: nat, n: nat)
    requires m <= n
    ensures n - m < TWO_32 ==> (IssuedId(m) == IssuedId(n) <==> m == n)
    ensures n - m == TWO_32 ==> IssuedId(m) == IssuedId(n)
  {
  }

  lemma {:induction false} PreparesOfPrefix(history: seq<Command>, i: nat)
    requires i <= |history|
    ensures Prepares(history[..i]) <= Prepares(history)
    decreases |history|
  {
    if i < |history| {
      var before := history[..|history| - 1];
      PreparesOfPrefix(before, i);
      assert before[..i] == history[..i];
    } else {
      assert history[..i] == history;
    }
  }

  predicate ClosedSince(history: seq<Command>, i: nat, id: u32) {
    exists j :: i < j < |history| && history[j] == Close(id)
  }

  /**
   As long as fewer than 2^32 statements are prepared behind it, a prepared statement is found under its id
   with its own text until it is closed, and not found afterwards.
   */
  lemma {:induction false} PreparedTextIsKept(history: seq<Command>, i: nat)
    requires i < |history| && history[i].Prepare?
    requires Prepares(history) - Prepares(history[..i]) <= TWO_32
    ensures var id := IssuedId(Prepares(history[..i]));
            Lookup(Run(history), id) == if ClosedSince(history, i, id) then None else Some(history[i].query)
    decreases |history|
  {
    var id := IssuedId(Prepares(history[..i]));
    TableAgreesWithHistory(history, id);
    var before, last := history[..|history| - 1], history[|history| - 1];
    if i < |history| - 1 {
      assert before[..i] == history[..i];
      PreparesOfPrefix(before, i + 1);
      assert before[..i + 1][..i] == history[..i];
      assert Prepares(before[..i + 1]) == Prepares(history[..i]) + 1;
      IdsRepeatAfterFullCircle(Prepares(history[..i]), Prepares(before));
      PreparedTextIsKept(before, i);
      TableAgreesWithHistory(before, id);
      if last == Close(id) {
        assert ClosedSince(history, i, id);
      } else {
        assert ClosedSince(history, i, id) <==> ClosedSince(before, i, id);
      }
    }
  }

  /** Before the counter wraps, every id in the table is one already issued. */
  lemma {:induction false} KeysBelowNextId(history: seq<Command>)
    requires Prepares(history) < TWO_32 - 1
    ensures Run(history).nextStmtId == Prepares(history) + 1
    ensures forall id :: id in Run(history).statements ==> 1 <= id < Run(history).nextStmtId
  {
    if history != [] {
      KeysBelowNextId(history[..|history| - 1]);
    }
  }

  // ----- Wire form -----

  /** The text of an ASCII message of the source. */
  function Ascii(s: string): (t: text)
    requires forall i :: 0 <= i < |s| ==> s[i] < '\U{0080}'
    ensures |t| == |s| && forall i :: 0 <= i < |s| ==> t[i] == s[i] as int
  {
    seq(|s|, i requires 0 <= i < |s| => s[i] as int)
  }

  function ErrorAnswer(seqId: byte, message: text): seq<byte> {
    Packet(NextSeq(seqId), ErrPayload(ERROR_CODE, message))
  }

  function PrepareOkPayload(id: u32, numParams: u16): seq<byte> {
    [0x00] + ToLE(id, 4) + [0x00, 0x00] + ToLE(numParams, 2) + [0x00, 0x00, 0x00]
  }

  /** Parameter number i is named by a question mark and its number. */
  function ParamName(i: nat): text {
    [MARK] + NatText(i)
  }

  function ParamColumn(i: nat): Column {
    Column(ParamName(i), String)
  }

  function ParamColumns(n: nat): seq<Column> {
    seq(n, i requires 0 <= i => ParamColumn(i))
  }

  /** The EOF of the parameters, sent only when there are any, and the EOF of the columns, sent always. */
  function PrepareAnswer(seqId: byte, id: u32, numParams: u16): seq<byte> {
    var first := NextSeq(seqId);
    var second := NextSeq(first);
    var afterParams := SeqAfter(second, numParams);
    Packet(first, PrepareOkPayload(id, numParams)) +
    (if numParams > 0 then
       ColumnPackets(ParamColumns(numParams), second) +
       (Packet(afterParams, EOF_PAYLOAD) + Packet(NextSeq(afterParams), EOF_PAYLOAD))
     else
       Packet(second, EOF_PAYLOAD))
  }

  lemma FourBytesAreU32(s: seq<byte>)
    requires |s| == 4
    ensures FromLE(s) == s[0] as int + 0x100 * s[1] as int + 0x1_0000 * s[2] as int + 0x100_0000 * s[3] as int
  {
    assert s == [s[0], s[1], s[2], s[3]];
    FourBytes(s[0], s[1], s[2], s[3]);
  }

  function StmtId(payload: seq<byte>): (id: u32)
    requires |payload| >= 5
    ensures id == payload[1] as int + 0x100 * payload[2] as int + 0x1_0000 * payload[3] as int
                  + 0x100_0000 * payload[4] as int
  {
    FourBytesAreU32(payload[1..5]);
    FromLE(payload[1..5])
  }

  datatype ExecuteResult = Refused(socket: seq<byte>) | RunQuery(query: text)

  /** handle_com_stmt_execute up to the query given to the backend. */
  function Executed(t: Statements, seqId: byte, payload: seq<byte>): ExecuteResult {
    if |payload| < 5 then Refused(ErrorAnswer(seqId, Ascii("Invalid COM_STMT_EXECUTE packet")))
    else
      match Lookup(t, StmtId(payload))
      case None => Refused(ErrorAnswer(seqId, Ascii("Statement not found")))
      case Some(query) =>
        RunQuery(Substitute(query, B.ParseParameters(B.AsWritten, payload[5..], Marks(query))))
  }

  /** One proxy connection. */
  class ConnectionState {
    var statements: map<u32, text>
    var nextStmtId: u32

    constructor ()
      ensures View() == FRESH
    {
      statements := map[];
      nextStmtId := 1;
    }

    ghost function View(): Statements
      reads this
    {
      Statements(statements, nextStmtId)
    }

    /** handle_com_stmt_prepare; the payload starts with the command byte. */
    method HandlePrepare(seqId: byte, payload: seq<byte>) returns (socket: seq<byte>)
      requires payload != []
      modifies this
      ensures View() == Step(old(View()), Prepare(payload[1..]))
      ensures socket == PrepareAnswer(seqId, old(nextStmtId), Marks(payload[1..]) % 65536)
    {
      var query := payload[1..];
      var stmtId := nextStmtId;
      nextStmtId := NextId(nextStmtId);
      statements := statements[stmtId := query];
      var numParams: u16 := Marks(query) % 65536;
      var currentSeq: byte := NextSeq(seqId);
      socket := BuildPacket(currentSeq, PrepareOkPayload(stmtId, numParams));
      currentSeq := NextSeq(currentSeq);
      if numParams > 0 {
        var definitions: seq<byte>;
        definitions, currentSeq := SendParamDefinitions(currentSeq, numParams);
        var paramsEof := BuildPacket(currentSeq, EOF_PAYLOAD);
        var columnsEof := BuildPacket(NextSeq(currentSeq), EOF_PAYLOAD);
        socket := socket + (definitions + (paramsEof + columnsEof));
      } else {
        var columnsEof := BuildPacket(currentSeq, EOF_PAYLOAD);
        socket := socket + columnsEof;
      }
    }

    static method SendParamDefinitions(first: byte, numParams: u16) returns (socket: seq<byte>, currentSeq: byte)
      ensures socket == ColumnPackets(ParamColumns(numParams), first) && currentSeq == SeqAfter(first, numParams)
    {
      hide ParamColumn, ColumnDefPayload, Packet;
      socket := [];
      currentSeq := first;
      ghost var columns := ParamColumns(numParams);
      for i := 0 to numParams
        invariant currentSeq == SeqAfter(first, i)
        invariant ColumnPackets(columns, first) == socket + ColumnPackets(columns[i..], currentSeq)
      {
        ColumnPacketsStep(columns, i, currentSeq);
        var packet := BuildPacket(currentSeq, ColumnDefPayload(ParamColumn(i)));
        Associate(socket, packet, ColumnPackets(columns[i + 1..], NextSeq(currentSeq)));
        socket := socket + packet;
        SeqAfterStep(first, i);
        currentSeq := NextSeq(currentSeq);
      }
      assert ColumnPackets(columns[numParams..], currentSeq) == [];
    }

    /** handle_com_stmt_execute up to the query given to the backend; the table is read under the lock. */
    method HandleExecute(seqId: byte, payload: seq<byte>) returns (r: ExecuteResult)
      requires payload != []
      ensures r == Executed(View(), seqId, payload)
    {
      hide ErrPayload, Packet, Ascii, NextSeq, Marks, FromLE, Substitute, B.ParseParameters;
      if |payload| < 5 {
        var packet := BuildPacket(NextSeq(seqId), ErrPayload(ERROR_CODE, Ascii("Invalid COM_STMT_EXECUTE packet")));
        return Refused(packet);
      }
      var stmtId := StmtId(payload);
      if stmtId !in statements {
        var packet := BuildPacket(NextSeq(seqId), ErrPayload(ERROR_CODE, Ascii("Statement not found")));
        return Refused(packet);
      }
      var query := statements[stmtId];
      var params := B.ParseBinaryParametersSafe(payload[5..], Marks(query));
      var finalQuery := SubstituteParameters(query, params);
      r := RunQuery(finalQuery);
    }

    /** handle_com_stmt_close: a payload too short for an id is ignored. */
    method HandleClose(payload: seq<byte>)
      requires payload != []
      modifies this
      ensures View() == if |payload| >= 5 then Step(old(View()), Close(StmtId(payload))) else old(View())
    {
      if |payload| >= 5 {
        statements := statements - {StmtId(payload)};
      }
    }
  }

  // ----- Prepare, then execute -----

  const COM_STMT_EXECUTE: byte := 0x17

  /** An execution, with the types of its parameters or without. */
  function ExecuteCommand(id: u32, bound: bool, ps: seq<B.Param>): seq<byte> {
    [COM_STMT_EXECUTE] + ToLE(id, 4) + B.ExecutePayload(bound, ps)
  }

  lemma {:induction false} DigitsHaveNoMark(s: text)
    requires forall k :: 0 <= k < |s| ==> s[k] != MARK
    ensures Marks(s) == 0
  {
    if s != [] {
      DigitsHaveNoMark(s[1..]);
    }
  }

  lemma {:induction false} DoubledKeepsMarks(s: text)
    ensures Marks(B.Doubled(s)) == Marks(s)
  {
    if s != [] {
      DoubledKeepsMarks(s[1..]);
      var head := if s[0] == B.QUOTE then [s[0], s[0]] else [s[0]];
      assert B.Doubled(s) == head + B.Doubled(s[1..]);
      MarksAdd(head, B.Doubled(s[1..]));
      if s[0] == B.QUOTE {
        assert [s[0], s[0]][1..] == [s[0]];
      }
    }
  }

  /** Only a string brings question marks into the query. */
  lemma LiteralMarks(p: B.Param)
    ensures Marks(B.Literal(p)) == if p.Str? then Marks(p.s) else 0
  {
    if p.Str? {
      DoubledKeepsMarks(p.s);
      var q: text := [B.QUOTE];
      MarksAdd(q + B.Doubled(p.s), q);
      MarksAdd(q, B.Doubled(p.s));
    } else {
      DigitsHaveNoMark(B.Literal(p));
    }
  }

  /** The types of the parameters under the codes of the protocol. */
  lemma ParameterCodes(w: B.Width)
    ensures var t := match w case One => Tiny case Two => Short case Four => Long case Eight => LongLong;
            B.WidthCode(w) == ProtocolCode(t)
    ensures B.EntryOf(B.Str([])).code == ProtocolCode(VarString) && B.EntryOf(B.Null).code == ProtocolCode(NullType)
    ensures B.UNSIGNED_FLAG == 128
  {
  }

  lemma ExecuteCommandParts(id: u32, bound: bool, ps: seq<B.Param>)
    ensures |ExecuteCommand(id, bound, ps)| >= 5
    ensures StmtId(ExecuteCommand(id, bound, ps)) == id
    ensures ExecuteCommand(id, bound, ps)[5..] == B.ExecutePayload(bound, ps)
  {
    hide B.ExecutePayload;
    FixedWidthRoundTrip(id, 4);
    assert ExecuteCommand(id, bound, ps)[1..5] == ToLE(id, 4);
  }

  /** No string but one in the last place holds a question mark. */
  predicate MarksOnlyLast(ps: seq<B.Param>) {
    forall k :: 0 <= k < |ps| - 1 && ps[k].Str? ==> Marks(ps[k].s) == 0
  }

  lemma LiteralIsNotBare(p: B.Param)
    ensures B.Literal(p) != [MARK]
  {
    if p.Str? {
      assert |B.Literal(p)| >= 2;
    }
  }

  lemma LiteralsAreHarmless(ps: seq<B.Param>)
    ensures MarksOnlyLast(ps) <==> Harmless(B.Literals(ps))
  {
    hide B.Literal, B.Literals, Marks;
    forall k | 0 <= k < |ps|
      ensures B.Literals(ps)[k] != [MARK]
      ensures Marks(B.Literals(ps)[k]) == if ps[k].Str? then Marks(ps[k].s) else 0
    {
      B.LiteralAt(ps, k);
      LiteralIsNotBare(ps[k]);
      LiteralMarks(ps[k]);
    }
    if !MarksOnlyLast(ps) {
      var k :| 0 <= k < |ps| - 1 && ps[k].Str? && Marks(ps[k].s) > 0;
      assert B.Literals(ps)[|ps| - 1] != [MARK];
    }
  }

  /** An execution of an open statement runs its text with the literals put in one after the other. */
  lemma ExecuteSubstitutes(history: seq<Command>, id: u32, query: text, bound: bool, ps: seq<B.Param>, seqId: byte)
    requires CurrentText(history, id) == Some(query) && |ps| == Marks(query)
    requires B.AllSendable(ps) && B.Safe(bound, B.Shape(ps))
    ensures Executed(Run(history), seqId, ExecuteCommand(id, bound, ps)) == RunQuery(Substitute(query, B.Literals(ps)))
  {
    hide ExecuteCommand, B.ExecutePayload, B.ParseParameters, B.Literals, B.Safe, Substitute;
    TableAgreesWithHistory(history, id);
    ExecuteCommandParts(id, bound, ps);
    B.AsWrittenRoundTrip(bound, ps);
  }

  /**
   Through any history of commands, executing an open statement, for the first time or again, runs the text it was
   prepared with, each question mark replaced by the literal of its parameter, provided the parameters suit the
   parser as written.
   */
  lemma ExecuteRunsTemplate(history: seq<Command>, id: u32, query: text, bound: bool, ps: seq<B.Param>, seqId: byte)
    requires CurrentText(history, id) == Some(query) && |ps| == Marks(query)
    requires B.AllSendable(ps) && B.Safe(bound, B.Shape(ps)) && MarksOnlyLast(ps)
    ensures Executed(Run(history), seqId, ExecuteCommand(id, bound, ps)) == RunQuery(Template(query, B.Literals(ps)))
  {
    hide ExecuteCommand, B.Literals, B.Safe, Substitute, Template, Executed;
    ExecuteSubstitutes(history, id, query, bound, ps, seqId);
    LiteralsAreHarmless(ps);
    SubstituteIsTemplate(query, B.Literals(ps));
  }

  /**
   Parameters that suit the parser come out as the template of every statement exactly when no string before the
   last parameter holds a question mark.
   */
  lemma ExecuteRunsTemplateExactly(bound: bool, ps: seq<B.Param>, seqId: byte)
    requires B.AllSendable(ps) && B.Safe(bound, B.Shape(ps))
    ensures MarksOnlyLast(ps) <==>
            forall query: text :: Marks(query) == |ps| ==>
              Executed(Run([Prepare(query)]), seqId, ExecuteCommand(1, bound, ps))
              == RunQuery(Template(query, B.Literals(ps)))
  {
    hide ExecuteCommand, B.Literals, B.Safe, Substitute, Template, Executed, Harmless, Marks;
    forall query: text | Marks(query) == |ps|
      ensures Executed(Run([Prepare(query)]), seqId, ExecuteCommand(1, bound, ps))
              == RunQuery(Substitute(query, B.Literals(ps)))
    {
      assert CurrentText([Prepare(query)], 1) == Some(query);
      ExecuteSubstitutes([Prepare(query)], 1, query, bound, ps, seqId);
    }
    LiteralsAreHarmless(ps);
    TemplateExactly(B.Literals(ps));
  }

  // ----- Refusals, as a client reads them -----

  /**
   Through any history an execution is refused exactly when its payload is too short for an id or names a statement
   that is not open, and a client reads error 1105 under the next sequence id, with the message of the case.
   */
  lemma RefusedExactly(history: seq<Command>, seqId: byte, payload: seq<byte>, rest: seq<byte>)
    ensures var r := Executed(Run(history), seqId, payload);
            var short := |payload| < 5;
            && (r.Refused? <==> short || CurrentText(history, StmtId(payload)) == None)
            && (r.Refused? ==>
                  ReadAnswer(r.socket + rest, seqId)
                  == Some((Err(1105, [0x48, 0x59, 0x30, 0x30, 0x30],
                               if short then Ascii("Invalid COM_STMT_EXECUTE packet")
                               else Ascii("Statement not found")), rest)))
  {
    hide ReadAnswer, Packet, ErrPayload, FromLE, Substitute, B.ParseParameters, Ascii;
    if |payload| >= 5 {
      TableAgreesWithHistory(history, StmtId(payload));
    }
    RefusalIsRead(seqId, Ascii("Invalid COM_STMT_EXECUTE packet"), rest);
    RefusalIsRead(seqId, Ascii("Statement not found"), rest);
  }

  lemma RefusalIsRead(seqId: byte, message: text, rest: seq<byte>)
    requires |message| < 1000
    ensures ReadAnswer(ErrorAnswer(seqId, message) + rest, seqId)
            == Some((Err(1105, [0x48, 0x59, 0x30, 0x30, 0x30], message), rest))
  {
    hide ReadAnswer, Packet;
    ErrAnswer(seqId, message, rest);
  }

  // ----- The answer to a prepare, as a client reads it -----

  datatype PrepareReply = PrepareReply(id: nat, numColumns: nat, numParams: nat, warnings: nat, params: seq<ColumnInfo>)

  function ReadDefinitions(stream: seq<byte>, seqId: byte, n: nat): Option<(seq<ColumnInfo>, seq<byte>)> {
    match ReadColumns(stream, seqId, n)
    case None => None
    case Some((columns, rest)) =>
      match ReadNext(rest, SeqAfter(seqId, n))
      case None => None
      case Some((payload, tail)) => if IsEof(payload) then Some((columns, tail)) else None
  }

  /** COM_STMT_PREPARE_OK with no columns: the parameters and their EOF follow if there are any, nothing else. */
  function ReadPrepareAnswer(stream: seq<byte>, seqId: byte): Option<(PrepareReply, seq<byte>)> {
    var first := NextSeq(seqId);
    match ReadNext(stream, first)
    case None => None
    case Some((payload, rest)) =>
      if |payload| != 12 || payload[0] != 0 || payload[9] != 0 then None
      else
        var id, numColumns, numParams := FromLE(payload[1..5]), FromLE(payload[5..7]), FromLE(payload[7..9]);
        var warnings := FromLE(payload[10..12]);
        if numColumns > 0 then None
        else if numParams == 0 then Some((PrepareReply(id, numColumns, 0, warnings, []), rest))
        else match ReadDefinitions(rest, NextSeq(first), numParams)
          case None => None
          case Some((params, tail)) => Some((PrepareReply(id, numColumns, numParams, warnings, params), tail))
  }

  lemma PrepareOkFields(id: u32, numParams: u16)
    ensures
      var payload := PrepareOkPayload(id, numParams);
      && |payload| == 12 && payload[0] == payload[9] == 0
      && FromLE(payload[1..5]) == id && FromLE(payload[5..7]) == 0 && FromLE(payload[7..9]) == numParams
      && FromLE(payload[10..12]) == 0
  {
    var payload := PrepareOkPayload(id, numParams);
    FixedWidthRoundTrip(id, 4);
    FixedWidthRoundTrip(numParams, 2);
    FixedWidthRoundTrip(0, 2);
    assert payload[1..5] == ToLE(id, 4);
    assert ToLE(0, 2) == [0] + ToLE(0, 1);
    assert ToLE(0, 1) == [0] + ToLE(0, 0);
    assert payload[5..7] == ToLE(0, 2);
    assert payload[7..9] == ToLE(numParams, 2);
    assert payload[10..12] == ToLE(0, 2);
  }

  lemma {:induction false} NatTextIsShort(n: nat)
    requires n < 65536
    ensures |NatText(n)| <= 5
  {
    assert n >= 10 ==> NatText(n) == NatText(n / 10) + [ZERO + n % 10];
    var a := n / 10;
    assert a >= 10 ==> NatText(a) == NatText(a / 10) + [ZERO + a % 10];
    var b := a / 10;
    assert b >= 10 ==> NatText(b) == NatText(b / 10) + [ZERO + b % 10];
    var c := b / 10;
    assert c >= 10 ==> NatText(c) == NatText(c / 10) + [ZERO + c % 10];
    assert c / 10 < 10;
  }

  lemma ParamColumnsFit(n: u16)
    ensures forall c :: c in ParamColumns(n) ==> |ColumnDefPayload(c)| < TWO_24
  {
    forall c | c in ParamColumns(n)
      ensures |ColumnDefPayload(c)| < TWO_24
    {
      var i :| 0 <= i < n && c == ParamColumn(i);
      NatTextIsShort(i);
      SmallColumn(c);
    }
  }

  lemma SmallColumn(c: Column)
    requires |c.name| < 100
    ensures |ColumnDefPayload(c)| < 300
  {
    assert |LenencStr(c.name)| == 1 + |c.name|;
    assert |LenencStr([])| == 1 && |LenencStr(DEF)| == 4;
  }

  lemma DefinitionsRoundTrip(columns: seq<Column>, seqId: byte, rest: seq<byte>)
    requires forall c :: c in columns ==> |ColumnDefPayload(c)| < TWO_24
    ensures ReadDefinitions(ColumnPackets(columns, seqId) + (Packet(SeqAfter(seqId, |columns|), EOF_PAYLOAD) + rest),
                            seqId, |columns|)
            == Some((InfosOf(columns), rest))
  {
    hide Packet, ColumnDefPayload, ReadNext, ReadColumns, ColumnPackets, InfosOf;
    var eof := Packet(SeqAfter(seqId, |columns|), EOF_PAYLOAD);
    ColumnsRoundTrip(columns, seqId, eof + rest);
    ReadNextOfPacket(SeqAfter(seqId, |columns|), EOF_PAYLOAD, rest);
  }

  /**
   A client learns the id, the parameter count modulo 65536 and the parameters from the answer, and, there
   being no columns, stops in front of the EOF packet that the proxy sends for the columns all the same.
   */
  lemma PrepareAnswerLeavesAnEof(seqId: byte, id: u32, numParams: u16, rest: seq<byte>)
    ensures
      var last := SeqAfter(NextSeq(NextSeq(seqId)), numParams);
      var lastSeq := if numParams > 0 then NextSeq(last) else last;
      ReadPrepareAnswer(PrepareAnswer(seqId, id, numParams) + rest, seqId)
      == Some((PrepareReply(id, 0, numParams, 0, InfosOf(ParamColumns(numParams))),
               Packet(lastSeq, EOF_PAYLOAD) + rest))
  {
    hide Packet, ColumnDefPayload, ReadNext, ReadDefinitions, ColumnPackets, InfosOf, PrepareOkPayload, ParamColumn;
    var first := NextSeq(seqId);
    var second := NextSeq(first);
    var columns := ParamColumns(numParams);
    var last := SeqAfter(second, numParams);
    var ok := PrepareOkPayload(id, numParams);
    PrepareOkFields(id, numParams);
    if numParams > 0 {
      var leftover := Packet(NextSeq(last), EOF_PAYLOAD) + rest;
      var tail := ColumnPackets(columns, second) + (Packet(last, EOF_PAYLOAD) + leftover);
      AssociateFive(Packet(first, ok), ColumnPackets(columns, second), [], Packet(last, EOF_PAYLOAD),
                    Packet(NextSeq(last), EOF_PAYLOAD), rest);
      assert PrepareAnswer(seqId, id, numParams) + rest == Packet(first, ok) + tail;
      ReadNextOfPacket(first, ok, tail);
      ParamColumnsFit(numParams);
      DefinitionsRoundTrip(columns, second, leftover);
    } else {
      Associate(Packet(first, ok), Packet(second, EOF_PAYLOAD), rest);
      ReadNextOfPacket(first, ok, Packet(second, EOF_PAYLOAD) + rest);
      NoColumns();
    }
  }

  /** The count a client learns is the number of question marks exactly when there are fewer than 65536. */
  lemma ReportedCountIsExact(seqId: byte, id: u32, query: text, rest: seq<byte>)
    ensures var read := ReadPrepareAnswer(PrepareAnswer(seqId, id, Marks(query) % 65536) + rest, seqId);
            read.Some? && (read.value.0.numParams == Marks(query) <==> Marks(query) < 65536)
  {
    hide PrepareAnswer, ReadPrepareAnswer, Packet;
    PrepareAnswerLeavesAnEof(seqId, id, Marks(query) % 65536, rest);
  }

  /**
   A client that sends as many parameters as it was told, for a text with more question marks: told 0, it has its
   text run as it stands; otherwise the parser finds one text for each question mark, and NULLs only, when the
   payload ends within the null bitmap of so many parameters.
   */
  lemma TooManyMarks(history: seq<Command>, id: u32, query: text, bound: bool, ps: seq<B.Param>, seqId: byte)
    requires CurrentText(history, id) == Some(query) && Marks(query) >= 65536 && |ps| == Marks(query) % 65536
    ensures var payload := B.ExecutePayload(bound, ps);
            var texts := B.ParseParameters(B.AsWritten, payload, Marks(query));
            var run := Executed(Run(history), seqId, ExecuteCommand(id, bound, ps));
            && run == RunQuery(Substitute(query, texts))
            && (ps == [] ==> run == RunQuery(query))
            && (ps != [] ==> |texts| == Marks(query))
            && (ps != [] && |payload| <= 5 + B.BitmapLength(Marks(query)) ==>
                  texts == B.Repeat(B.NULL_TEXT, Marks(query)))
  {
    hide ExecuteCommand, Substitute, B.BitmapLength, B.Bitmap, B.TypeBytes, B.ValueBytes;
    TableAgreesWithHistory(history, id);
    ExecuteCommandParts(id, bound, ps);
    assert Substitute(query, []) == query by { NoTexts(query); }
  }

  lemma NoTexts(query: text)
    ensures Substitute(query, []) == query
  {
  }

  /** Parameter k is named by a question mark and the decimal number k, and typed as the string type of code 253. */
  lemma ParamsAreNumbered(n: nat, k: nat)
    requires k < n
    ensures var infos := InfosOf(ParamColumns(n));
            && |infos| == n && infos[k].typeCode == 253 && infos[k].name == infos[k].orgName
            && infos[k].name != [] && infos[k].name[0] == 0x3f && IsTextOf(infos[k].name[1..], k)
  {
    InfosShow(ParamColumns(n));
    assert ColumnShows(ParamColumns(n)[k], InfosOf(ParamColumns(n))[k]);
    hide InfosOf, NatText;
    IntTextIsTextOf(k);
  }

  lemma NoColumns()
    ensures InfosOf(ParamColumns(0)) == []
  {
  }

  /** The packet left over is no answer to the next command, whatever follows it. */
  lemma LeftoverEofIsNoAnswer(eofId: byte, seqId: byte, rest: seq<byte>)
    ensures ReadAnswer(Packet(eofId, EOF_PAYLOAD) + rest, seqId) == None
  {
    hide Packet;
    PacketRoundTrip(eofId, EOF_PAYLOAD, rest);
  }
}
